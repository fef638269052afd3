/**
 * The administrative HTTP API (routes/index.js): `sendMessage` checks that
 * every required field of the request body is present and hands the values,
 * in key order, to the route's callback, which calls the push API. Route
 * registration and the development pages are not part of this model; a body
 * is the parsed request body, a missing field reading as `undefined`.
 */
module Routes {
  import opened Wrappers
  import opened Js
  import opened Text
  import opened Api

  /** What a request gets: a reply `{code, msg}`, or an exception thrown out of the handler. */
  datatype Outcome = Replied(code: int, msg: string) | Raised

  const MissingReply: Outcome := Replied(1, "\U{53C2}\U{6570}\U{7F3A}\U{5931}")
  const SentReply: Outcome := Replied(0, "\U{53D1}\U{9001}\U{6210}\U{529F}")

  /** `this.request.body[key]`. */
  function Field(body: map<string, Value>, key: string): Value {
    if key in body then body[key] else Undefined
  }

  /** Every required key is present: none is `null` or `undefined` (an empty string is present). */
  predicate Complete(body: map<string, Value>, keys: seq<string>) {
    forall i :: 0 <= i < |keys| ==> !Nullish(Field(body, keys[i]))
  }

  /**
   * The validation loop of `sendMessage` (routes/index.js:14-24): the values
   * of the keys, in key order, or `None` as soon as one is missing.
   */
  method CollectParams(body: map<string, Value>, keys: seq<string>) returns (params: Option<seq<Value>>)
    ensures params.None? <==> !Complete(body, keys)
    ensures params.Some? ==> |params.value| == |keys| && forall i :: 0 <= i < |keys| ==> params.value[i] == Field(body, keys[i])
  {
    var collected: seq<Value> := [];
    var i := 0;
    while i < |keys|
      invariant 0 <= i <= |keys|
      invariant Complete(body, keys[..i])
      invariant |collected| == i && forall j :: 0 <= j < i ==> collected[j] == Field(body, keys[j])
    {
      var value := Field(body, keys[i]);
      if Nullish(value) {
        return None;
      }
      collected := collected + [value];
      i := i + 1;
    }
    assert keys[..i] == keys;
    return Some(collected);
  }

  /** One element of the parsed `msglist`: `null`, or an object with `msgId` and `message` (a missing one reading as `undefined`). */
  datatype Item = NullItem | Entry(msgId: Value, message: Value)

  /** What `JSON.parse(msglist)` yields: text that does not parse, a value that is not an array, or an array. */
  datatype Parsed = Malformed | NotAnArray | Items(items: seq<Item>)

  /** The items the `forEach` of `/pushOffLineMsg` gets through: those before the first `null`. */
  function Reached(items: seq<Item>): (r: seq<Item>)
    ensures |r| <= |items| && r == items[..|r|] && NullItem !in r
    ensures NullItem in items ==> |r| < |items| && items[|r|] == NullItem
    ensures NullItem !in items ==> r == items
  {
    match IndexOf(items, NullItem)
    case Some(k) => items[..k]
    case None => items
  }

  /** One single-device push per reached item, to `room`, with the item's message id and message. */
  function OfflineEmits(room: string, items: seq<Item>): (r: seq<Emit>)
    requires NullItem !in items
    ensures |r| == |items|
    ensures forall i :: 0 <= i < |items| ==>
      r[i] == Emit(ToRoom(room), EventName(None), items[i].msgId, items[i].message)
  {
    seq(|items|, i requires 0 <= i < |items| => Emit(ToRoom(room), EventName(None), items[i].msgId, items[i].message))
  }

  /** The handlers of the six POST routes, over the shared push API. */
  class Router {
    const api: Emitter

    constructor (api: Emitter)
      ensures this.api == api
    {
      this.api := api;
    }

    /** `/pushMsgToSingleDevice` (routes/index.js:35-39). */
    method PushMsgToSingleDevice(body: map<string, Value>) returns (out: Outcome)
      modifies api
      ensures !Complete(body, ["useraccount", "msgId", "message"]) ==> out == MissingReply && api.sent == old(api.sent)
      ensures Complete(body, ["useraccount", "msgId", "message"]) ==>
        out == SentReply &&
        api.sent == old(api.sent) + [Emit(ToRoom(ToText(Field(body, "useraccount"))), "message", Field(body, "msgId"), Field(body, "message"))]
    {
      var params := CollectParams(body, ["useraccount", "msgId", "message"]);
      if params.None? {
        return MissingReply;
      }
      var p := params.value;
      api.PushMsgToSingleDevice(ToText(p[0]), p[1], p[2], None);
      return SentReply;
    }

    /**
     * `/pushBatchUniMsg` (routes/index.js:40-44): a `useraccounts` that is not
     * a string has no `split`, and the TypeError escapes the handler.
     */
    method PushBatchUniMsg(body: map<string, Value>) returns (out: Outcome)
      modifies api
      ensures !Complete(body, ["useraccounts", "msgId", "message"]) ==> out == MissingReply && api.sent == old(api.sent)
      ensures Complete(body, ["useraccounts", "msgId", "message"]) ==>
        match Field(body, "useraccounts")
        case Str(uids) =>
          out == SentReply &&
          api.sent == old(api.sent) + EmitsTo(Entries(uids, api.sep), Field(body, "msgId"), Field(body, "message"), None)
        case _ => out == Raised && api.sent == old(api.sent)
    {
      var params := CollectParams(body, ["useraccounts", "msgId", "message"]);
      if params.None? {
        return MissingReply;
      }
      var p := params.value;
      if !p[0].Str? {
        return Raised;
      }
      api.PushBatchUniMsg(p[0].s, p[1], p[2], None);
      return SentReply;
    }

    /** `/pushMsgToRoom` (routes/index.js:45-49), failing like `/pushBatchUniMsg` on a non-string `tags`. */
    method PushMsgToRoom(body: map<string, Value>) returns (out: Outcome)
      modifies api
      ensures !Complete(body, ["tags", "msgId", "message"]) ==> out == MissingReply && api.sent == old(api.sent)
      ensures Complete(body, ["tags", "msgId", "message"]) ==>
        match Field(body, "tags")
        case Str(rids) =>
          out == SentReply &&
          api.sent == old(api.sent) + EmitsTo(Entries(rids, api.sep), Field(body, "msgId"), Field(body, "message"), None)
        case _ => out == Raised && api.sent == old(api.sent)
    {
      var params := CollectParams(body, ["tags", "msgId", "message"]);
      if params.None? {
        return MissingReply;
      }
      var p := params.value;
      if !p[0].Str? {
        return Raised;
      }
      api.PushMsgToRoom(p[0].s, p[1], p[2], None);
      return SentReply;
    }

    /** `/pushMsgToAll` (routes/index.js:50-54). */
    method PushMsgToAll(body: map<string, Value>) returns (out: Outcome)
      modifies api
      ensures !Complete(body, ["msgId", "message"]) ==> out == MissingReply && api.sent == old(api.sent)
      ensures Complete(body, ["msgId", "message"]) ==>
        out == SentReply && api.sent == old(api.sent) + [Emit(ToNamespace, "message", Field(body, "msgId"), Field(body, "message"))]
    {
      var params := CollectParams(body, ["msgId", "message"]);
      if params.None? {
        return MissingReply;
      }
      var p := params.value;
      api.PushMsgToAll(p[0], p[1], None);
      return SentReply;
    }

    /**
     * `/pushOffLineMsg` (routes/index.js:55-61), `parsed` standing for
     * `JSON.parse(msglist)`: one single-device push per item, in order, until
     * an item is `null` (reading its `msgId` throws) or the parse fails.
     */
    method PushOffLineMsg(body: map<string, Value>, parsed: Parsed) returns (out: Outcome)
      modifies api
      ensures !Complete(body, ["useraccount", "msglist"]) ==> out == MissingReply && api.sent == old(api.sent)
      ensures Complete(body, ["useraccount", "msglist"]) ==>
        match parsed
        case Items(items) =>
          api.sent == old(api.sent) + OfflineEmits(ToText(Field(body, "useraccount")), Reached(items)) &&
          (out == if NullItem in items then Raised else SentReply)
        case _ => out == Raised && api.sent == old(api.sent)
    {
      var params := CollectParams(body, ["useraccount", "msglist"]);
      if params.None? {
        return MissingReply;
      }
      if !parsed.Items? {
        return Raised;
      }
      var room := ToText(params.value[0]);
      var items := parsed.items;
      var i := 0;
      while i < |items|
        invariant 0 <= i <= |items|
        invariant NullItem !in items[..i]
        invariant api.sent == old(api.sent) + OfflineEmits(room, items[..i])
      {
        if items[i] == NullItem {
          assert Reached(items) == items[..i];
          return Raised;
        }
        assert items[..i + 1] == items[..i] + [items[i]];
        api.PushMsgToSingleDevice(room, items[i].msgId, items[i].message, None);
        i := i + 1;
      }
      assert items[..i] == items;
      return SentReply;
    }

    /**
     * `/changeRoom` (routes/index.js:62-72): when `joins` or `leaves` is
     * truthy, a batch push of event `changeRoom` with message id `"-2"` and
     * payload `{joins, leaves}` to the listed users; otherwise nothing is sent.
     */
    method ChangeRoom(body: map<string, Value>) returns (out: Outcome)
      modifies api
      ensures !Complete(body, ["useraccounts"]) ==> out == MissingReply && api.sent == old(api.sent)
      ensures Complete(body, ["useraccounts"]) && !Truthy(Field(body, "joins")) && !Truthy(Field(body, "leaves")) ==>
        out == SentReply && api.sent == old(api.sent)
      ensures Complete(body, ["useraccounts"]) && (Truthy(Field(body, "joins")) || Truthy(Field(body, "leaves"))) ==>
        match Field(body, "useraccounts")
        case Str(uids) =>
          out == SentReply &&
          api.sent == old(api.sent) + EmitsTo(Entries(uids, api.sep), Str("-2"),
                                              ChangeSet(Field(body, "joins"), Field(body, "leaves")), Some("changeRoom"))
        case _ => out == Raised && api.sent == old(api.sent)
    {
      var params := CollectParams(body, ["useraccounts"]);
      if params.None? {
        return MissingReply;
      }
      var joins := Field(body, "joins");
      var leaves := Field(body, "leaves");
      if Truthy(joins) || Truthy(leaves) {
        var useraccounts := params.value[0];
        if !useraccounts.Str? {
          return Raised;
        }
        api.PushBatchUniMsg(useraccounts.s, Str("-2"), ChangeSet(joins, leaves), Some("changeRoom"));
      }
      return SentReply;
    }
  }
}
