/**
 * The receive side of the servers' shared control bus (modules/push.js:202-251):
 * which broadcast messages the gateway acts on, and which of its connections
 * receive them. The message arrives decoded (the wire decoding is not part of
 * this model); the adapter's room table is a snapshot mapping each room to the
 * connection ids in it, in enumeration order.
 */
module ControlBus {
  import opened Wrappers
  import opened Js
  import opened Text
  import opened Api
  import opened Frames

  /** A decoded bus message: the sending server's id, the packet, and the `rooms` / `except` options. */
  datatype BusMessage = BusMessage(origin: string, packet: Option<Packet>, rooms: Option<seq<string>>, except: Option<seq<string>>)

  /** What the gateway does with a bus message. */
  datatype Directive =
    | Ignore
    | ChangeRoomAt(rooms: seq<string>, except: seq<string>, payload: Value)
    | RepeatAt(rooms: seq<string>, except: seq<string>)

  /** The event name and message id of a packet's data. */
  function EventOf(p: Packet): Value { At(p.data, 0) }
  function MidOf(p: Packet): Value { At(p.data, 1) }

  /** The namespace of a packet, `'/'` when it is undefined. */
  function NspOf(p: Packet): string { p.nsp.GetOr("/") }

  /**
   * The decision of the subscription handler (push.js:225-250): drop our own
   * messages, drop a missing packet or one of another namespace, dispatch
   * `changeRoom` with id `-2` and `repeat` with id `-1`, ignore everything else.
   */
  function Classify(m: BusMessage, serverId: string, nsp: string): Directive {
    if m.origin == serverId || m.packet.None? || NspOf(m.packet.value) != nsp then Ignore
    else
      var p := m.packet.value;
      var rooms := m.rooms.GetOr([]);
      var except := m.except.GetOr([]);
      if EventOf(p) == Str("changeRoom") && LooseEqualsNumeral(MidOf(p), "-2", -2) then ChangeRoomAt(rooms, except, At(p.data, 2))
      else if EventOf(p) == Str("repeat") && LooseEqualsNumeral(MidOf(p), "-1", -1) then RepeatAt(rooms, except)
      else Ignore
  }

  /** The ids listed for one room of the table, none for a room it does not hold. */
  function Members(table: map<string, seq<string>>, room: string): seq<string> {
    if room in table then table[room] else []
  }

  /** The ids of one room that the inner loop hands on: not excepted, and connected. */
  function Admit(ids: seq<string>, except: seq<string>, connected: set<string>): (r: seq<string>)
    ensures forall x :: x in r ==> x !in except && x in connected
    decreases |ids|
  {
    if ids == [] then []
    else
      var last := ids[|ids| - 1];
      Admit(ids[..|ids| - 1], except, connected) + (if last !in except && last in connected then [last] else [])
  }

  /** Every id the selection visits, room after room, in order; an id in several rooms is visited once per room. */
  function Visits(rooms: seq<string>, except: seq<string>, table: map<string, seq<string>>, connected: set<string>): (r: seq<string>)
    ensures forall x :: x in r ==> x !in except && x in connected
    decreases |rooms|
  {
    if rooms == [] then []
    else Visits(rooms[..|rooms| - 1], except, table, connected) + Admit(Members(table, rooms[|rooms| - 1]), except, connected)
  }

  /** How many times `x` is listed across the given rooms of the table. */
  function Occurrences(rooms: seq<string>, table: map<string, seq<string>>, x: string): nat
    decreases |rooms|
  {
    if rooms == [] then 0
    else Occurrences(rooms[..|rooms| - 1], table, x) + multiset(Members(table, rooms[|rooms| - 1]))[x]
  }

  /** How many of the given rooms (counting a room requested twice twice) are in `held`. */
  function Listed(rooms: seq<string>, held: set<string>): nat
    decreases |rooms|
  {
    if rooms == [] then 0
    else Listed(rooms[..|rooms| - 1], held) + (if rooms[|rooms| - 1] in held then 1 else 0)
  }

  /**
   * `getSocketByEmitMsg`'s selection: every id listed under the given rooms
   * that is not in `except` and is connected, with the callback applied to
   * each in this order. The map `ids` meant to skip repeats is never written,
   * so repeats are not skipped.
   */
  method Recipients(rooms: seq<string>, except: seq<string>, table: map<string, seq<string>>, connected: set<string>)
    returns (ids: seq<string>)
    ensures ids == Visits(rooms, except, table, connected)
  {
    ids := [];
    var i := 0;
    while i < |rooms|
      invariant 0 <= i <= |rooms|
      invariant ids == Visits(rooms[..i], except, table, connected)
    {
      assert rooms[..i + 1][..i] == rooms[..i];
      var admitted := AdmitRoom(Members(table, rooms[i]), except, connected);
      ids := ids + admitted;
      i := i + 1;
    }
    assert rooms[..i] == rooms;
  }

  /** The inner loop of the selection, over the ids of one room. */
  method AdmitRoom(members: seq<string>, except: seq<string>, connected: set<string>) returns (admitted: seq<string>)
    ensures admitted == Admit(members, except, connected)
  {
    admitted := [];
    var j := 0;
    while j < |members|
      invariant 0 <= j <= |members|
      invariant admitted == Admit(members[..j], except, connected)
    {
      assert members[..j + 1][..j] == members[..j];
      var id := members[j];
      if id !in except && id in connected {
        admitted := admitted + [id];
      }
      j := j + 1;
    }
    assert members[..j] == members;
  }

  // ===== lemmas

  /**
   * Only two kinds of bus message are dispatched, and a message is dropped
   * whenever it came from this server or names another namespace.
   */
  lemma ClassifyFilters(m: BusMessage, serverId: string, nsp: string)
    ensures m.origin == serverId ==> Classify(m, serverId, nsp) == Ignore
    ensures m.packet.Some? && NspOf(m.packet.value) != nsp ==> Classify(m, serverId, nsp) == Ignore
    ensures m.packet.None? ==> Classify(m, serverId, nsp) == Ignore
    ensures Classify(m, serverId, nsp).ChangeRoomAt? ==>
      m.packet.Some? && EventOf(m.packet.value) == Str("changeRoom") && MidOf(m.packet.value) in {Str("-2"), Num(-2)}
    ensures Classify(m, serverId, nsp).RepeatAt? ==>
      m.packet.Some? && EventOf(m.packet.value) == Str("repeat") && MidOf(m.packet.value) in {Str("-1"), Num(-1)}
  {
  }

  /**
   * A message from another server for this namespace whose event is
   * `changeRoom` with id `-2` (a string or a number) is dispatched to the
   * listed rooms, minus `except`, with the third argument as payload.
   */
  lemma ClassifyChangeRoom(m: BusMessage, serverId: string, nsp: string)
    requires m.origin != serverId && m.packet.Some? && NspOf(m.packet.value) == nsp
    requires EventOf(m.packet.value) == Str("changeRoom") && MidOf(m.packet.value) in {Str("-2"), Num(-2)}
    ensures Classify(m, serverId, nsp) == ChangeRoomAt(m.rooms.GetOr([]), m.except.GetOr([]), At(m.packet.value.data, 2))
  {
  }

  lemma ClassifyRepeat(m: BusMessage, serverId: string, nsp: string)
    requires m.origin != serverId && m.packet.Some? && NspOf(m.packet.value) == nsp
    requires EventOf(m.packet.value) == Str("repeat") && MidOf(m.packet.value) in {Str("-1"), Num(-1)}
    ensures Classify(m, serverId, nsp) == RepeatAt(m.rooms.GetOr([]), m.except.GetOr([]))
  {
  }

  lemma {:induction false} AdmitMembers(ids: seq<string>, except: seq<string>, connected: set<string>, x: string)
    ensures x in Admit(ids, except, connected) <==> x in ids && x !in except && x in connected
    ensures multiset(Admit(ids, except, connected))[x] == if x !in except && x in connected then multiset(ids)[x] else 0
    decreases |ids|
  {
    if ids != [] {
      var init := ids[..|ids| - 1];
      assert ids == init + [ids[|ids| - 1]];
      AdmitMembers(init, except, connected, x);
    }
  }

  /**
   * The selection visits exactly the connected, non-excepted ids listed under
   * some requested room, and each as many times as it is listed under the
   * requested rooms (a room requested twice counts twice).
   */
  lemma {:induction false} VisitsExactly(rooms: seq<string>, except: seq<string>, table: map<string, seq<string>>, connected: set<string>, x: string)
    ensures x in Visits(rooms, except, table, connected) <==>
      x !in except && x in connected && exists i :: 0 <= i < |rooms| && x in Members(table, rooms[i])
    ensures multiset(Visits(rooms, except, table, connected))[x] ==
      if x !in except && x in connected then Occurrences(rooms, table, x) else 0
  {
    VisitsMembers(rooms, except, table, connected, x);
    VisitsCount(rooms, except, table, connected, x);
  }

  lemma {:induction false} VisitsMembers(rooms: seq<string>, except: seq<string>, table: map<string, seq<string>>, connected: set<string>, x: string)
    ensures x in Visits(rooms, except, table, connected) <==>
      x !in except && x in connected && exists i :: 0 <= i < |rooms| && x in Members(table, rooms[i])
    decreases |rooms|
  {
    if rooms != [] {
      var init := rooms[..|rooms| - 1];
      var last := rooms[|rooms| - 1];
      VisitsMembers(init, except, table, connected, x);
      AdmitMembers(Members(table, last), except, connected, x);
      if x !in except && x in connected && (exists i :: 0 <= i < |rooms| && x in Members(table, rooms[i])) {
        var i :| 0 <= i < |rooms| && x in Members(table, rooms[i]);
        if i < |rooms| - 1 {
          assert init[i] == rooms[i];
        }
      }
      if exists i :: 0 <= i < |init| && x in Members(table, init[i]) {
        var i :| 0 <= i < |init| && x in Members(table, init[i]);
        assert rooms[i] == init[i];
      }
    }
  }

  lemma {:induction false} VisitsCount(rooms: seq<string>, except: seq<string>, table: map<string, seq<string>>, connected: set<string>, x: string)
    ensures multiset(Visits(rooms, except, table, connected))[x] ==
      if x !in except && x in connected then Occurrences(rooms, table, x) else 0
    decreases |rooms|
  {
    if rooms != [] {
      VisitsCount(rooms[..|rooms| - 1], except, table, connected, x);
      AdmitMembers(Members(table, rooms[|rooms| - 1]), except, connected, x);
    }
  }

  lemma {:induction false} NoDupCount(s: seq<string>, x: string)
    requires NoDup(s)
    ensures multiset(s)[x] == if x in s then 1 else 0
    decreases |s|
  {
    if s != [] {
      var init := s[..|s| - 1];
      assert s == init + [s[|s| - 1]];
      NoDupCount(init, x);
    }
  }

  /**
   * When the room table lists each connection at most once per room, and
   * lists `x` under exactly the rooms `x` holds, the number of times `x` is
   * listed across the requested rooms is the number of requested rooms it holds.
   */
  lemma {:induction false} OccurrencesListed(rooms: seq<string>, table: map<string, seq<string>>, x: string, held: set<string>)
    requires forall r :: r in table ==> NoDup(table[r])
    requires forall r :: x in Members(table, r) <==> r in held
    ensures Occurrences(rooms, table, x) == Listed(rooms, held)
    decreases |rooms|
  {
    if rooms != [] {
      var last := rooms[|rooms| - 1];
      OccurrencesListed(rooms[..|rooms| - 1], table, x, held);
      if last in table {
        NoDupCount(table[last], x);
      }
    }
  }

  /**
   * With the room table in step with the rooms each connection holds
   * (`held`), the selection visits every connected, non-excepted connection
   * once per requested room it holds, and an excepted one never.
   */
  lemma VisitsByRooms(rooms: seq<string>, except: seq<string>, table: map<string, seq<string>>, held: map<string, set<string>>)
    requires forall r :: r in table ==> NoDup(table[r])
    requires forall r, k :: k in held ==> (k in Members(table, r) <==> r in held[k])
    ensures forall k :: k in held ==>
      multiset(Visits(rooms, except, table, held.Keys))[k] == if k in except then 0 else Listed(rooms, held[k])
  {
    forall k | k in held
      ensures multiset(Visits(rooms, except, table, held.Keys))[k] == if k in except then 0 else Listed(rooms, held[k])
    {
      VisitsOfHolder(rooms, except, table, held.Keys, k, held[k]);
    }
  }

  /** The same for one connected connection `k` that holds exactly `roomsHeld`. */
  lemma VisitsOfHolder(rooms: seq<string>, except: seq<string>, table: map<string, seq<string>>, connected: set<string>, k: string, roomsHeld: set<string>)
    requires forall r :: r in table ==> NoDup(table[r])
    requires k in connected && forall r :: k in Members(table, r) <==> r in roomsHeld
    ensures multiset(Visits(rooms, except, table, connected))[k] == if k in except then 0 else Listed(rooms, roomsHeld)
  {
    VisitsCount(rooms, except, table, connected, k);
    OccurrencesListed(rooms, table, k, roomsHeld);
  }

  /** A connection listed under two requested rooms receives the directive twice. */
  lemma NoDeduplication(r1: string, r2: string, table: map<string, seq<string>>, connected: set<string>, x: string)
    requires x in connected && x in Members(table, r1) && x in Members(table, r2)
    ensures multiset(Visits([r1, r2], [], table, connected))[x] >= 2
  {
    VisitsExactly([r1, r2], [], table, connected, x);
    assert [r1, r2][..1] == [r1];
    assert [r1][..0] == [];
  }

  // ===== from the push API to the gateway

  /** The sender id `socket.io-emitter` puts on every message it publishes. */
  const EmitterOrigin: string := "emitter"

  /**
   * The bus message an emit of the push API becomes: an event packet of the
   * gateway's namespace with data `[event, mid, msg]`, for the target room
   * (none for a namespace-wide emit) and no exceptions.
   */
  function Published(e: Emit, nsp: string): BusMessage {
    var rooms := match e.target case ToRoom(r) => [r] case ToNamespace => [];
    BusMessage(EmitterOrigin, Some(Packet(2, Some(nsp), [Str(e.event), e.mid, e.msg], None)), Some(rooms), None)
  }

  /**
   * Every emit of the `/changeRoom` route's batch push reaches each gateway
   * (whose id is not the emitter's) as a `changeRoom` directive for the
   * room of one listed user, carrying the route's `{joins, leaves}` payload.
   */
  lemma ChangeRoomPushDispatched(uids: string, sep: char, joins: Value, leaves: Value, serverId: string, nsp: string, k: nat)
    requires serverId != EmitterOrigin
    requires k < |Entries(uids, sep)|
    ensures var e := EmitsTo(Entries(uids, sep), Str("-2"), ChangeSet(joins, leaves), Some("changeRoom"))[k];
      Classify(Published(e, nsp), serverId, nsp) == ChangeRoomAt([Entries(uids, sep)[k]], [], ChangeSet(joins, leaves))
  {
    assert EventName(Some("changeRoom")) == "changeRoom" by {
      assert "changeRoom"[0] == 'c';
    }
    var e := EmitsTo(Entries(uids, sep), Str("-2"), ChangeSet(joins, leaves), Some("changeRoom"))[k];
    assert e == Emit(ToRoom(Entries(uids, sep)[k]), "changeRoom", Str("-2"), ChangeSet(joins, leaves));
  }

  /** The repeat notice a login sends reaches each other gateway as a `repeat` directive for the old connection's room. */
  lemma RepeatPushDispatched(owner: string, msg: Value, serverId: string, nsp: string)
    requires serverId != EmitterOrigin
    ensures Classify(Published(Emit(ToRoom(owner), EventName(Some("repeat")), Str("-1"), msg), nsp), serverId, nsp) == RepeatAt([owner], [])
  {
  }

  /** A push of the default event reaches no handler: ordinary messages go straight to the clients. */
  lemma MessagePushIgnored(e: Emit, serverId: string, nsp: string)
    requires e.event == "message"
    ensures Classify(Published(e, nsp), serverId, nsp) == Ignore
  {
  }
}
