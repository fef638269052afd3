/**
 * The push API (modules/api.js): every administrative push becomes emits on
 * the shared emitter, one per resolved target. The emitter's transport is not
 * modelled; each emit is appended to the `sent` log.
 */
module Api {
  import opened Wrappers
  import opened Js
  import opened Text

  /** Where an emit goes: one room of the gateway's namespace, or the whole namespace. */
  datatype Target = ToRoom(room: string) | ToNamespace

  /** `ioEmitter.of(nsp)[.in(room)].emit(event, mid, msg)`. */
  datatype Emit = Emit(target: Target, event: string, mid: Value, msg: Value)

  /** `type || 'message'`: the event name of a push; `None` stands for an omitted type. */
  function EventName(kind: Option<string>): string {
    if kind.Some? && kind.value != "" then kind.value else "message"
  }

  /** One emit per id, in order, all with the same event, message id and payload. */
  function EmitsTo(ids: seq<string>, mid: Value, msg: Value, kind: Option<string>): seq<Emit> {
    seq(|ids|, i requires 0 <= i < |ids| => Emit(ToRoom(ids[i]), EventName(kind), mid, msg))
  }

  /** The rooms a sequence of emits addresses, in order (`ToNamespace` counts as the empty room). */
  function Rooms(emits: seq<Emit>): seq<string> {
    seq(|emits|, i requires 0 <= i < |emits| => if emits[i].target.ToRoom? then emits[i].target.room else "")
  }

  lemma EmitsToSnoc(ids: seq<string>, x: string, mid: Value, msg: Value, kind: Option<string>)
    ensures EmitsTo(ids + [x], mid, msg, kind) == EmitsTo(ids, mid, msg, kind) + [Emit(ToRoom(x), EventName(kind), mid, msg)]
  {
  }

  /**
   * A fan-out over a separator-joined list addresses exactly its non-empty
   * entries, in input order, each once per occurrence (no de-duplication),
   * always under the event `type || 'message'`.
   */
  lemma FanOutTargets(list: string, sep: char, mid: Value, msg: Value, kind: Option<string>)
    ensures Rooms(EmitsTo(Entries(list, sep), mid, msg, kind)) == Entries(list, sep)
    ensures forall e :: e in EmitsTo(Entries(list, sep), mid, msg, kind) ==>
              e.target.ToRoom? && e.target.room != "" && e.event == EventName(kind) && e.mid == mid && e.msg == msg
    ensures forall x :: x != "" ==>
              multiset(Rooms(EmitsTo(Entries(list, sep), mid, msg, kind)))[x] == multiset(Split(list, sep))[x]
  {
    var ids := Entries(list, sep);
    assert Rooms(EmitsTo(ids, mid, msg, kind)) == ids;
    EntriesShape(list, sep);
    forall x | x != "" ensures multiset(Rooms(EmitsTo(ids, mid, msg, kind)))[x] == multiset(Split(list, sep))[x] {
      NonEmptyCount(Split(list, sep), x);
    }
  }

  /** An empty or all-separator list produces no emits. */
  lemma NoTargetsNoEmits(list: string, sep: char, mid: Value, msg: Value, kind: Option<string>)
    requires forall i :: 0 <= i < |list| ==> list[i] == sep
    ensures EmitsTo(Entries(list, sep), mid, msg, kind) == []
  {
    OnlySeparatorsNoEntries(list, sep);
  }

  /** A list with any character besides the separator produces at least one emit. */
  lemma SomeTargetSomeEmit(list: string, sep: char, k: nat, mid: Value, msg: Value, kind: Option<string>)
    requires k < |list| && list[k] != sep
    ensures |EmitsTo(Entries(list, sep), mid, msg, kind)| >= 1
  {
    SomeTextSomeEntry(list, sep, k);
  }

  /** The default event name is used exactly when the type is omitted or empty. */
  lemma EventNameDefault(kind: Option<string>)
    ensures EventName(kind) != ""
    ensures EventName(kind) == "message" <==> kind.None? || kind.value == "" || kind.value == "message"
  {
  }

  /** The shared `socket.io-emitter` instance, seen through what it has sent. */
  class Emitter {
    /** `config.separator`. */
    const sep: char
    /** Every emit so far, oldest first. */
    var sent: seq<Emit>

    constructor (sep: char)
      ensures this.sep == sep && sent == []
    {
      this.sep := sep;
      sent := [];
    }

    /** `pushMsgToSingleDevice(id, mid, msg, type)`: one emit to the room named by a uid or socket id. */
    method PushMsgToSingleDevice(id: string, mid: Value, msg: Value, kind: Option<string>)
      modifies this
      ensures sent == old(sent) + [Emit(ToRoom(id), EventName(kind), mid, msg)]
    {
      sent := sent + [Emit(ToRoom(id), EventName(kind), mid, msg)];
    }

    /** `pushBatchUniMsg(uids, mid, msg, type)`: one single-device push per non-empty uid of the list. */
    method PushBatchUniMsg(uids: string, mid: Value, msg: Value, kind: Option<string>)
      modifies this
      ensures sent == old(sent) + EmitsTo(Entries(uids, sep), mid, msg, kind)
    {
      var pieces := Split(uids, sep);
      var i := 0;
      while i < |pieces|
        invariant 0 <= i <= |pieces|
        invariant sent == old(sent) + EmitsTo(NonEmpty(pieces[..i]), mid, msg, kind)
      {
        assert pieces[..i + 1] == pieces[..i] + [pieces[i]];
        NonEmptySnoc(pieces[..i], pieces[i]);
        if pieces[i] != "" {
          PushMsgToSingleDevice(pieces[i], mid, msg, kind);
          EmitsToSnoc(NonEmpty(pieces[..i]), pieces[i], mid, msg, kind);
        }
        i := i + 1;
      }
      assert pieces[..i] == pieces;
    }

    /** `pushMsgToRoom(rids, mid, msg, type)`: one emit per non-empty room id of the list, to that room. */
    method PushMsgToRoom(rids: string, mid: Value, msg: Value, kind: Option<string>)
      modifies this
      ensures sent == old(sent) + EmitsTo(Entries(rids, sep), mid, msg, kind)
    {
      var pieces := Split(rids, sep);
      var i := 0;
      while i < |pieces|
        invariant 0 <= i <= |pieces|
        invariant sent == old(sent) + EmitsTo(NonEmpty(pieces[..i]), mid, msg, kind)
      {
        assert pieces[..i + 1] == pieces[..i] + [pieces[i]];
        NonEmptySnoc(pieces[..i], pieces[i]);
        if pieces[i] != "" {
          sent := sent + [Emit(ToRoom(pieces[i]), EventName(kind), mid, msg)];
          EmitsToSnoc(NonEmpty(pieces[..i]), pieces[i], mid, msg, kind);
        }
        i := i + 1;
      }
      assert pieces[..i] == pieces;
    }

    /** `pushMsgToAll(mid, msg, type)`: a single broadcast to the whole namespace, with no room restriction. */
    method PushMsgToAll(mid: Value, msg: Value, kind: Option<string>)
      modifies this
      ensures sent == old(sent) + [Emit(ToNamespace, EventName(kind), mid, msg)]
    {
      sent := sent + [Emit(ToNamespace, EventName(kind), mid, msg)];
    }
  }
}
