/**
 * The identity state of one connection (modules/push.js:48-194) as values:
 * what `login`, `logout`, `repeat` and `changeRoom` do to the connection's
 * identity (`socket.heikuai`), the rooms it has joined and the shared store,
 * with the store's callbacks completing at once. The gateway's methods are
 * proved against these functions; the lemmas below say what they mean.
 */
module Session {
  import opened Wrappers
  import opened Js
  import opened Text
  import opened Api

  /** `socket.heikuai`: the user id the connection logged in with and the tags it carries, in order. */
  datatype Identity = Identity(uid: Value, tags: seq<string>)

  /** The part of a connection these operations change: its identity (`None` for `null`) and its rooms. */
  datatype Conn = Conn(identity: Option<Identity>, rooms: set<string>)

  /** What a tag loop works on: the tag list, the rooms and the store. */
  datatype TagState = TagState(tags: seq<string>, rooms: set<string>, store: map<string, string>)

  /** The result of `login`: the connection, the store and the pushes it issued. */
  datatype Effect = Effect(conn: Conn, store: map<string, string>, notices: seq<Emit>)

  /** The result of `logout`, `changeRoom` and friends; `threw` when the handler raised a TypeError part-way. */
  datatype Step = Step(conn: Conn, store: map<string, string>, threw: bool)

  /** Redis `GET`: the stored text, `None` for a missing key (`null`). */
  function Lookup(store: map<string, string>, k: string): (r: Option<string>)
    ensures r.Some? <==> k in store
    ensures r.Some? ==> r.value == store[k]
  {
    if k in store then Some(store[k]) else None
  }

  /** A reply the callbacks treat as present: not `null` and not `""`. */
  predicate Present(reply: Option<string>) {
    reply.Some? && reply.value != ""
  }

  /** The markers `tag@<t>@<u>` for the tags `ts`. */
  function TagKeys(ts: seq<string>, u: string): set<string> {
    set t | t in ts :: TagKey(t, u)
  }

  /** The store with the marker of every tag of `ts` set to `""`: a closed form of the marking loops. */
  function Marked(store: map<string, string>, ts: seq<string>, u: string): map<string, string> {
    map k | k in store.Keys + TagKeys(ts, u) :: if k in TagKeys(ts, u) then "" else store[k]
  }

  /** The store without the markers of the tags of `ts`. */
  function Unmarked(store: map<string, string>, ts: seq<string>, u: string): map<string, string> {
    map k | k in store.Keys && k !in TagKeys(ts, u) :: store[k]
  }

  /** The text of the notice a replaced connection receives: `util.format('用户 %s 重复登录', uid)`. */
  function RepeatText(u: string): string {
    "\U{7528}\U{6237} " + u + " \U{91CD}\U{590D}\U{767B}\U{5F55}"
  }

  /** The tags a login picks up: the non-empty entries of `room@<u>` when that is present, none otherwise. */
  function StoredTags(store: map<string, string>, u: string, sep: char): seq<string> {
    var reply := Lookup(store, RoomKey(u));
    if Present(reply) then Entries(reply.value, sep) else []
  }

  // ----- login (modules/push.js:86-131)

  /** One iteration of the tag loop of `login` (push.js:105-113): every non-empty entry is joined, pushed and marked. */
  function LoginStep(t: TagState, room: string, u: string): TagState {
    if room != "" then TagState(t.tags + [room], t.rooms + {room}, t.store[TagKey(room, u) := ""]) else t
  }

  /** The tag loop of `login` over the split pieces, a piece at a time. */
  function LoginTags(t: TagState, pieces: seq<string>, u: string): TagState
    decreases |pieces|
  {
    if pieces == [] then t else LoginStep(LoginTags(t, pieces[..|pieces| - 1], u), pieces[|pieces| - 1], u)
  }

  /** The repeat notice `login` sends (push.js:121-123) when `user@<u>` named another connection. */
  function RepeatNotice(owner: Option<string>, id: string, u: string): seq<Emit> {
    if Present(owner) && owner.value != id then
      [Emit(ToRoom(owner.value), EventName(Some("repeat")), Str("-1"), Str(RepeatText(u)))]
    else []
  }

  /**
   * `login(socket, uid)` on connection `id`, `open` being
   * `socket.client.conn.readyState == 'open'`: a fresh identity, the rooms `id`
   * and `uid`, then the tag callback, then the ownership callback, in the order
   * the two store replies arrive.
   */
  function LoginSpec(c: Conn, store: map<string, string>, id: string, open: bool, uid: Value, sep: char): Effect {
    var u := ToText(uid);
    var reply := Lookup(store, RoomKey(u));
    var pieces := if Present(reply) && open then Split(reply.value, sep) else [];
    var t := LoginTags(TagState([], c.rooms + {id, u}, store), pieces, u);
    var owner := Lookup(t.store, UserKey(u));
    Effect(Conn(Some(Identity(uid, t.tags)), t.rooms),
           if open then t.store[UserKey(u) := id] else t.store,
           RepeatNotice(owner, id, u))
  }

  // ----- logout and repeat (modules/push.js:136-164)

  /** The marker loop of `logout` (push.js:145-147), a tag at a time. */
  function UnmarkTags(store: map<string, string>, ts: seq<string>, u: string): map<string, string>
    decreases |ts|
  {
    if ts == [] then store else UnmarkTags(store, ts[..|ts| - 1], u) - {TagKey(ts[|ts| - 1], u)}
  }

  /** `logout(socket)` on connection `id`. */
  function LogoutSpec(c: Conn, store: map<string, string>, id: string): Step {
    match c.identity
    case None => Step(c, store, false)
    case Some(ident) =>
      var u := ToText(ident.uid);
      var s := if Lookup(store, UserKey(u)) == Some(id) then UnmarkTags(store - {UserKey(u)}, ident.tags, u) else store;
      Step(Conn(None, {}), s, false)
  }

  /** `repeat(socket)`: drop the identity and every room; the store is not touched. */
  function RepeatSpec(c: Conn): Conn {
    if c.identity.Some? then Conn(None, {}) else c
  }

  // ----- the login event (modules/push.js:48-62)

  /**
   * The `login` event with `uid`: nothing when the connection already holds
   * that uid (or holds none and `uid` is `null`, the initial value of the
   * comparison), otherwise `logout` of the held identity, then `login`.
   */
  function OnLoginSpec(c: Conn, store: map<string, string>, id: string, open: bool, uid: Value, sep: char): Effect {
    var held := if c.identity.Some? then c.identity.value.uid else Null;
    if uid == held then Effect(c, store, [])
    else
      var after := LogoutSpec(c, store, id);
      LoginSpec(after.conn, after.store, id, open, uid, sep)
  }

  /** A `login` event as the program runs it: the connection, the store, the pushes, and whether a callback threw. */
  datatype Replay = Replay(conn: Conn, store: map<string, string>, notices: seq<Emit>, threw: bool)

  /**
   * The `login` event (push.js:48-62) as the program runs it against a store
   * that answers after the handler has returned, in the order the commands
   * were issued. On a switch of uid, `logout` issues its GET of `user@<old>`
   * and leaves every room; `login` then installs the new identity, joins the
   * rooms `id` and `uid` and issues the GETs of `room@<uid>` and `user@<uid>`,
   * all three reading the store as it was. When the replies arrive, the
   * callback of `logout` reads `socket.heikuai.uid`, by now the new uid: it
   * deletes `user@<uid>` when `user@<old>` named this connection, and sets
   * `heikuai` to null. When `room@<uid>` has a non-empty entry, the tag
   * callback then joins the first one and throws reading `tags` of null. The
   * ownership callback sends the repeat notice and takes `user@<uid>`.
   */
  function OnLoginAsWritten(c: Conn, store: map<string, string>, id: string, open: bool, uid: Value, sep: char): Replay {
    var held := if c.identity.Some? then c.identity.value.uid else Null;
    if uid == held then Replay(c, store, [], false)
    else if c.identity.None? then
      var e := LoginSpec(c, store, id, open, uid, sep);
      Replay(e.conn, e.store, e.notices, false)
    else
      var prev := ToText(held);
      var u := ToText(uid);
      var s1 := if Lookup(store, UserKey(prev)) == Some(id) then store - {UserKey(u)} else store;
      var reply := Lookup(store, RoomKey(u));
      var entries := if Present(reply) && open then Entries(reply.value, sep) else [];
      var rooms := if entries == [] then {id, u} else {id, u, entries[0]};
      Replay(Conn(None, rooms), if open then s1[UserKey(u) := id] else s1,
             RepeatNotice(Lookup(store, UserKey(u)), id, u), entries != [])
  }

  // ----- changeRoom (modules/push.js:170-194)

  /** One iteration of the join loop: a non-empty room not yet carried is joined, pushed and marked. */
  function JoinStep(t: TagState, room: string, u: string): TagState {
    if room != "" && room !in t.tags then TagState(t.tags + [room], t.rooms + {room}, t.store[TagKey(room, u) := ""])
    else t
  }

  /** One iteration of the leave loop: a carried room is left, its first occurrence spliced out, its marker deleted. */
  function LeaveStep(t: TagState, room: string, u: string): TagState {
    if room != "" && room in t.tags then
      var i := IndexOf(t.tags, room).value;
      TagState(t.tags[..i] + t.tags[i + 1..], t.rooms - {room}, t.store - {TagKey(room, u)})
    else t
  }

  function JoinAll(t: TagState, pieces: seq<string>, u: string): TagState
    decreases |pieces|
  {
    if pieces == [] then t else JoinStep(JoinAll(t, pieces[..|pieces| - 1], u), pieces[|pieces| - 1], u)
  }

  function LeaveAll(t: TagState, pieces: seq<string>, u: string): TagState
    decreases |pieces|
  {
    if pieces == [] then t else LeaveStep(LeaveAll(t, pieces[..|pieces| - 1], u), pieces[|pieces| - 1], u)
  }

  /** `msg.joins` / `msg.leaves` of a payload that is not null or undefined. */
  function JoinsOf(payload: Value): Value {
    if payload.ChangeSet? then payload.joins else Undefined
  }

  function LeavesOf(payload: Value): Value {
    if payload.ChangeSet? then payload.leaves else Undefined
  }

  /**
   * `changeRoom(socket, packet)` with `payload` the packet's `data[2]`. Reading
   * `joins` of `null`/`undefined`, or calling `split` on a truthy non-string,
   * raises a TypeError; the joins already made stay made.
   */
  function ChangeRoomSpec(c: Conn, store: map<string, string>, payload: Value, sep: char): Step {
    match c.identity
    case None => Step(c, store, false)
    case Some(ident) =>
      if Nullish(payload) then Step(c, store, true)
      else
        var u := ToText(ident.uid);
        var joins := JoinsOf(payload);
        var leaves := LeavesOf(payload);
        if Truthy(joins) && !joins.Str? then Step(c, store, true)
        else
          var t0 := TagState(ident.tags, c.rooms, store);
          var t1 := if Truthy(joins) then JoinAll(t0, Split(joins.s, sep), u) else t0;
          var c1 := Conn(Some(Identity(ident.uid, t1.tags)), t1.rooms);
          if Truthy(leaves) && !leaves.Str? then Step(c1, t1.store, true)
          else
            var t2 := if Truthy(leaves) then LeaveAll(t1, Split(leaves.s, sep), u) else t1;
            Step(Conn(Some(Identity(ident.uid, t2.tags)), t2.rooms), t2.store, false)
  }

  /**
   * The invariant `changeRoom` keeps: no tag twice, and every tag carried is
   * a joined room with its marker in the store.
   */
  predicate Coherent(t: TagState, u: string) {
    NoDup(t.tags) && forall x :: x in t.tags ==> x in t.rooms && TagKey(x, u) in t.store
  }

  predicate ConnCoherent(c: Conn, store: map<string, string>) {
    c.identity.Some? ==> Coherent(TagState(c.identity.value.tags, c.rooms, store), ToText(c.identity.value.uid))
  }

  // ===== lemmas: login

  lemma {:induction false} LoginTagsResult(t: TagState, pieces: seq<string>, u: string)
    ensures LoginTags(t, pieces, u).tags == t.tags + NonEmpty(pieces)
    ensures LoginTags(t, pieces, u).rooms == t.rooms + (set x | x in NonEmpty(pieces))
    ensures LoginTags(t, pieces, u).store == Marked(t.store, NonEmpty(pieces), u)
    decreases |pieces|
  {
    if pieces == [] {
      assert Marked(t.store, [], u) == t.store;
    } else {
      var init := pieces[..|pieces| - 1];
      var last := pieces[|pieces| - 1];
      assert pieces == init + [last];
      LoginTagsResult(t, init, u);
      NonEmptySnoc(init, last);
      if last != "" {
        MarkedSnoc(t.store, NonEmpty(init), last, u);
      }
    }
  }

  lemma MarkedSnoc(store: map<string, string>, ts: seq<string>, x: string, u: string)
    ensures Marked(store, ts, u)[TagKey(x, u) := ""] == Marked(store, ts + [x], u)
  {
    assert TagKeys(ts + [x], u) == TagKeys(ts, u) + {TagKey(x, u)};
  }

  /**
   * On an open connection `login` gives the identity exactly the non-empty
   * entries of `room@<uid>` as tags, in stored order, joins the connection's
   * own room, the uid's room and every tag; on a closed one the tags stay empty.
   */
  lemma LoginIdentity(c: Conn, store: map<string, string>, id: string, open: bool, uid: Value, sep: char)
    ensures var tags := if open then StoredTags(store, ToText(uid), sep) else [];
      LoginSpec(c, store, id, open, uid, sep).conn == Conn(Some(Identity(uid, tags)), c.rooms + {id, ToText(uid)} + (set x | x in tags))
  {
    var u := ToText(uid);
    var reply := Lookup(store, RoomKey(u));
    var pieces := if Present(reply) && open then Split(reply.value, sep) else [];
    var tags := if open then StoredTags(store, u, sep) else [];
    LoginTagsResult(TagState([], c.rooms + {id, u}, store), pieces, u);
    assert NonEmpty(pieces) == tags;
    var t := LoginTags(TagState([], c.rooms + {id, u}, store), pieces, u);
    assert t.tags == tags;
    assert t.rooms == c.rooms + {id, u} + (set x | x in tags);
  }

  /**
   * `login` marks every tag it picked up and, on an open connection, makes
   * `user@<uid>` name this connection; every other key keeps its value.
   */
  lemma LoginStore(c: Conn, store: map<string, string>, id: string, open: bool, uid: Value, sep: char)
    ensures var u := ToText(uid);
      var tags := if open then StoredTags(store, u, sep) else [];
      LoginSpec(c, store, id, open, uid, sep).store == if open then Marked(store, tags, u)[UserKey(u) := id] else Marked(store, tags, u)
    ensures open ==> Lookup(LoginSpec(c, store, id, open, uid, sep).store, UserKey(ToText(uid))) == Some(id)
  {
    var u := ToText(uid);
    var reply := Lookup(store, RoomKey(u));
    var pieces := if Present(reply) && open then Split(reply.value, sep) else [];
    LoginTagsResult(TagState([], c.rooms + {id, u}, store), pieces, u);
    assert NonEmpty(pieces) == if open then StoredTags(store, u, sep) else [];
  }

  /**
   * `login` sends exactly one `repeat` push, with message id `'-1'`, addressed
   * to the connection `user@<uid>` named before, when that was present and
   * another connection; otherwise none. This holds whether or not the
   * connection is open.
   */
  lemma LoginNotice(c: Conn, store: map<string, string>, id: string, open: bool, uid: Value, sep: char)
    ensures var owner := Lookup(store, UserKey(ToText(uid)));
      LoginSpec(c, store, id, open, uid, sep).notices ==
        if Present(owner) && owner.value != id then
          [Emit(ToRoom(owner.value), "repeat", Str("-1"), Str(RepeatText(ToText(uid))))]
        else []
  {
    var u := ToText(uid);
    var reply := Lookup(store, RoomKey(u));
    var pieces := if Present(reply) && open then Split(reply.value, sep) else [];
    var t := LoginTags(TagState([], c.rooms + {id, u}, store), pieces, u);
    LoginTagsResult(TagState([], c.rooms + {id, u}, store), pieces, u);
    forall x | x in NonEmpty(pieces) ensures TagKey(x, u) != UserKey(u) {
      KeyKindsDistinct(x, u, u, "");
    }
    assert Lookup(t.store, UserKey(u)) == Lookup(store, UserKey(u));
  }

  /** A login whose stored tag list has no repeated entry leaves the connection coherent. */
  lemma LoginCoherent(c: Conn, store: map<string, string>, id: string, open: bool, uid: Value, sep: char)
    requires NoDup(StoredTags(store, ToText(uid), sep))
    ensures ConnCoherent(LoginSpec(c, store, id, open, uid, sep).conn, LoginSpec(c, store, id, open, uid, sep).store)
  {
    var u := ToText(uid);
    var tags := if open then StoredTags(store, u, sep) else [];
    LoginIdentity(c, store, id, open, uid, sep);
    LoginStore(c, store, id, open, uid, sep);
    var r := LoginSpec(c, store, id, open, uid, sep);
    forall x | x in tags ensures TagKey(x, u) in r.store {
      assert TagKey(x, u) in TagKeys(tags, u);
    }
  }

  // ===== lemmas: logout and repeat

  lemma {:induction false} UnmarkTagsResult(store: map<string, string>, ts: seq<string>, u: string)
    ensures UnmarkTags(store, ts, u) == Unmarked(store, ts, u)
    decreases |ts|
  {
    if ts == [] {
      assert Unmarked(store, [], u) == store;
    } else {
      var init := ts[..|ts| - 1];
      var last := ts[|ts| - 1];
      assert ts == init + [last];
      UnmarkTagsResult(store, init, u);
      assert TagKeys(ts, u) == TagKeys(init, u) + {TagKey(last, u)};
    }
  }

  /**
   * `logout` drops the identity and every room. It deletes `user@<uid>` and
   * the connection's tag markers only while `user@<uid>` names this connection;
   * otherwise it leaves the store as it was. Without an identity it does nothing.
   */
  lemma LogoutEffect(c: Conn, store: map<string, string>, id: string)
    ensures c.identity.None? ==> LogoutSpec(c, store, id) == Step(c, store, false)
    ensures c.identity.Some? ==> LogoutSpec(c, store, id).conn == Conn(None, {})
    ensures c.identity.Some? ==>
      var u := ToText(c.identity.value.uid);
      LogoutSpec(c, store, id).store ==
        if Lookup(store, UserKey(u)) == Some(id) then Unmarked(store - {UserKey(u)}, c.identity.value.tags, u) else store
  {
    if c.identity.Some? {
      var u := ToText(c.identity.value.uid);
      UnmarkTagsResult(store - {UserKey(u)}, c.identity.value.tags, u);
    }
  }

  /**
   * `logout` never clears another connection's ownership: every `user@` key
   * other than this connection's own keeps its value, and its own is only
   * deleted when it named this connection.
   */
  lemma LogoutKeepsOtherOwners(c: Conn, store: map<string, string>, id: string, v: string)
    requires c.identity.Some? ==> v != ToText(c.identity.value.uid) || Lookup(store, UserKey(v)) != Some(id)
    ensures Lookup(LogoutSpec(c, store, id).store, UserKey(v)) == Lookup(store, UserKey(v))
  {
    LogoutEffect(c, store, id);
    if c.identity.Some? {
      var u := ToText(c.identity.value.uid);
      forall t | t in c.identity.value.tags ensures TagKey(t, u) != UserKey(v) {
        KeyKindsDistinct(t, u, v, "");
      }
      assert UserKey(v) !in TagKeys(c.identity.value.tags, u);
      if Lookup(store, UserKey(u)) == Some(id) {
        assert UserKey(v) != UserKey(u) by {
          assert v != u;
          UserKeyInjective(u, v);
        }
      }
    }
  }

  lemma UserKeyInjective(a: string, b: string)
    requires a != b
    ensures UserKey(a) != UserKey(b)
  {
    assert UserKey(a)[5..] == a;
    assert UserKey(b)[5..] == b;
  }

  /** Switching uids releases the old uid's ownership (when it was this connection's) and takes the new one's. */
  lemma OnLoginSwitch(c: Conn, store: map<string, string>, id: string, uid: Value, sep: char)
    requires c.identity.Some? && ToText(c.identity.value.uid) != ToText(uid)
    requires Lookup(store, UserKey(ToText(c.identity.value.uid))) == Some(id)
    ensures var r := OnLoginSpec(c, store, id, true, uid, sep);
      Lookup(r.store, UserKey(ToText(c.identity.value.uid))) == None &&
      Lookup(r.store, UserKey(ToText(uid))) == Some(id)
  {
    var a := ToText(c.identity.value.uid);
    var b := ToText(uid);
    var after := LogoutSpec(c, store, id);
    LogoutEffect(c, store, id);
    forall t | t in c.identity.value.tags ensures TagKey(t, a) != UserKey(a) {
      KeyKindsDistinct(t, a, a, "");
    }
    assert Lookup(after.store, UserKey(a)) == None;
    LoginStore(after.conn, after.store, id, true, uid, sep);
    var tags := StoredTags(after.store, b, sep);
    forall t | t in tags ensures TagKey(t, b) != UserKey(a) {
      KeyKindsDistinct(t, b, a, "");
    }
    UserKeyInjective(a, b);
  }

  /** A `login` event with the uid already held changes nothing; one with `null` on a fresh connection neither. */
  lemma OnLoginSameUid(c: Conn, store: map<string, string>, id: string, open: bool, uid: Value, sep: char)
    requires (c.identity.Some? && c.identity.value.uid == uid) || (c.identity.None? && uid == Null)
    ensures OnLoginSpec(c, store, id, open, uid, sep) == Effect(c, store, [])
  {
  }

  /** Any other `login` event ends logged in with that uid, whatever was held before. */
  lemma OnLoginTakesUid(c: Conn, store: map<string, string>, id: string, open: bool, uid: Value, sep: char)
    requires !((c.identity.Some? && c.identity.value.uid == uid) || (c.identity.None? && uid == Null))
    ensures var r := OnLoginSpec(c, store, id, open, uid, sep);
      r.conn.identity.Some? && r.conn.identity.value.uid == uid && id in r.conn.rooms && ToText(uid) in r.conn.rooms
    ensures c.identity.Some? ==>
      (OnLoginSpec(c, store, id, open, uid, sep).conn.rooms ==
       {id, ToText(uid)} + (set x | x in OnLoginSpec(c, store, id, open, uid, sep).conn.identity.value.tags))
  {
    var after := LogoutSpec(c, store, id);
    LoginIdentity(after.conn, after.store, id, open, uid, sep);
  }

  // ===== lemmas: changeRoom

  lemma {:induction false} JoinAllResult(t: TagState, pieces: seq<string>, u: string)
    requires Coherent(t, u)
    ensures var r := JoinAll(t, pieces, u);
      Coherent(r, u) && |t.tags| <= |r.tags| && r.tags[..|t.tags|] == t.tags &&
      (forall x :: x in r.tags <==> x in t.tags || (x != "" && x in pieces)) &&
      (forall x :: x in r.rooms <==> x in t.rooms || (x != "" && x in pieces))
    ensures forall k :: k !in TagKeys(JoinAll(t, pieces, u).tags, u) ==>
      Lookup(JoinAll(t, pieces, u).store, k) == Lookup(t.store, k)
    decreases |pieces|
  {
    if pieces != [] {
      var init := pieces[..|pieces| - 1];
      var last := pieces[|pieces| - 1];
      assert pieces == init + [last];
      JoinAllResult(t, init, u);
      var m := JoinAll(t, init, u);
      var r := JoinStep(m, last, u);
      if last != "" && last !in m.tags {
        assert r.tags[..|m.tags|] == m.tags;
        assert r.tags[..|t.tags|] == m.tags[..|t.tags|];
        assert TagKeys(r.tags, u) == TagKeys(m.tags, u) + {TagKey(last, u)};
      }
    }
  }

  /** Splicing out one element of a duplicate-free sequence removes that value and keeps every other. */
  lemma RemoveAtMembers(s: seq<string>, i: nat)
    requires i < |s| && NoDup(s)
    ensures NoDup(s[..i] + s[i + 1..])
    ensures forall x :: x in s[..i] + s[i + 1..] <==> x in s && x != s[i]
  {
    var r := s[..i] + s[i + 1..];
    forall a, b | 0 <= a < b < |r| ensures r[a] != r[b] {
      var a' := if a < i then a else a + 1;
      var b' := if b < i then b else b + 1;
      assert r[a] == s[a'] && r[b] == s[b'];
    }
    forall x ensures x in r <==> x in s && x != s[i] {
      if x in r {
        var j :| 0 <= j < |r| && r[j] == x;
        var j' := if j < i then j else j + 1;
        assert s[j'] == x;
      }
      if x in s && x != s[i] {
        var j :| 0 <= j < |s| && s[j] == x;
        if j < i {
          assert r[j] == x;
        } else {
          assert r[j - 1] == x;
        }
      }
    }
  }

  lemma LeaveStepResult(t: TagState, room: string, u: string)
    requires Coherent(t, u)
    ensures var r := LeaveStep(t, room, u);
      Coherent(r, u) &&
      (forall x :: x in r.tags <==> x in t.tags && (x != room || room == "")) &&
      (forall x :: x in t.rooms && x !in t.tags ==> x in r.rooms) &&
      (forall k :: k !in TagKeys(t.tags, u) ==> Lookup(r.store, k) == Lookup(t.store, k))
    ensures var r := LeaveStep(t, room, u);
      r.rooms <= t.rooms && r.store.Keys <= t.store.Keys &&
      (room != "" && room in t.tags ==> room !in r.rooms && TagKey(room, u) !in r.store)
  {
    if room != "" && room in t.tags {
      var i := IndexOf(t.tags, room).value;
      var r := LeaveStep(t, room, u);
      RemoveAtMembers(t.tags, i);
      forall x | x in r.tags ensures x in r.rooms && TagKey(x, u) in r.store {
        if TagKey(x, u) == TagKey(room, u) {
          TagKeyInjective(x, room, u);
        }
      }
      assert TagKey(room, u) in TagKeys(t.tags, u);
    }
  }

  lemma {:induction false} LeaveAllResult(t: TagState, pieces: seq<string>, u: string)
    requires Coherent(t, u)
    ensures var r := LeaveAll(t, pieces, u);
      Coherent(r, u) &&
      (forall x :: x in r.tags <==> x in t.tags && (x == "" || x !in pieces)) &&
      (forall x :: x in t.rooms && x !in t.tags ==> x in r.rooms) &&
      (forall k :: k !in TagKeys(t.tags, u) ==> Lookup(r.store, k) == Lookup(t.store, k))
    ensures var r := LeaveAll(t, pieces, u);
      r.rooms <= t.rooms && r.store.Keys <= t.store.Keys &&
      forall x :: x in t.tags && x in pieces && x != "" ==> x !in r.rooms && TagKey(x, u) !in r.store
    decreases |pieces|
  {
    if pieces != [] {
      var init := pieces[..|pieces| - 1];
      var last := pieces[|pieces| - 1];
      assert pieces == init + [last];
      LeaveAllResult(t, init, u);
      var m := LeaveAll(t, init, u);
      LeaveStepResult(m, last, u);
      assert TagKeys(m.tags, u) <= TagKeys(t.tags, u);
      var r := LeaveAll(t, pieces, u);
      forall x | x in t.tags && x in pieces && x != "" ensures x !in r.rooms && TagKey(x, u) !in r.store {
        if x !in init {
          assert x == last;
        }
      }
    }
  }

  /** Joining the entries of a list: the old tags stay, the non-empty entries are added, coherence is kept. */
  lemma JoinEntries(t: TagState, s: string, sep: char, u: string)
    requires Coherent(t, u)
    ensures Coherent(JoinAll(t, Split(s, sep), u), u)
    ensures forall x :: x in JoinAll(t, Split(s, sep), u).tags <==> x in t.tags || x in Entries(s, sep)
  {
    JoinAllResult(t, Split(s, sep), u);
    EntriesShape(s, sep);
  }

  /** Leaving the entries of a list: exactly the non-empty entries are dropped, coherence is kept. */
  lemma LeaveEntries(t: TagState, s: string, sep: char, u: string)
    requires Coherent(t, u)
    ensures Coherent(LeaveAll(t, Split(s, sep), u), u)
    ensures forall x :: x in LeaveAll(t, Split(s, sep), u).tags <==> x in t.tags && x !in Entries(s, sep)
  {
    LeaveAllResult(t, Split(s, sep), u);
    EntriesShape(s, sep);
  }

  /**
   * `changeRoom` keeps a coherent connection coherent (in particular its tag
   * list free of duplicates), whether it completes or raises part-way.
   */
  lemma ChangeRoomCoherent(c: Conn, store: map<string, string>, payload: Value, sep: char)
    requires ConnCoherent(c, store)
    ensures ConnCoherent(ChangeRoomSpec(c, store, payload, sep).conn, ChangeRoomSpec(c, store, payload, sep).store)
  {
    if c.identity.Some? && !Nullish(payload) {
      var u := ToText(c.identity.value.uid);
      var t0 := TagState(c.identity.value.tags, c.rooms, store);
      var joins := JoinsOf(payload);
      var leaves := LeavesOf(payload);
      if Truthy(joins) && joins.Str? {
        JoinAllResult(t0, Split(joins.s, sep), u);
      }
      if !(Truthy(joins) && !joins.Str?) {
        var t1 := if Truthy(joins) then JoinAll(t0, Split(joins.s, sep), u) else t0;
        if Truthy(leaves) && leaves.Str? {
          LeaveAllResult(t1, Split(leaves.s, sep), u);
        }
      }
    }
  }

  /**
   * A completed `changeRoom` on a coherent connection leaves it carrying
   * exactly its old tags and the non-empty join entries, minus every
   * non-empty leave entry: so every leave entry is absent and every join
   * entry that is not also a leave entry is present.
   */
  lemma ChangeRoomTags(c: Conn, store: map<string, string>, joins: string, leaves: string, sep: char)
    requires c.identity.Some? && ConnCoherent(c, store)
    ensures var r := ChangeRoomSpec(c, store, ChangeSet(Str(joins), Str(leaves)), sep);
      !r.threw && r.conn.identity.Some? && r.conn.identity.value.uid == c.identity.value.uid &&
      forall x :: x in r.conn.identity.value.tags <==>
        (x in c.identity.value.tags || x in Entries(joins, sep)) && x !in Entries(leaves, sep)
  {
    var u := ToText(c.identity.value.uid);
    var t0 := TagState(c.identity.value.tags, c.rooms, store);
    OnlySeparatorsNoEntries("", sep);
    var t1 := if joins != "" then JoinAll(t0, Split(joins, sep), u) else t0;
    if joins != "" {
      JoinEntries(t0, joins, sep, u);
    }
    if leaves != "" {
      LeaveEntries(t1, leaves, sep, u);
    }
  }

  /** Joining rooms the connection carries already changes nothing at all. */
  lemma {:induction false} JoinHeldNoop(t: TagState, pieces: seq<string>, u: string)
    requires forall x :: x in pieces && x != "" ==> x in t.tags
    ensures JoinAll(t, pieces, u) == t
    decreases |pieces|
  {
    if pieces != [] {
      var init := pieces[..|pieces| - 1];
      assert forall x :: x in init ==> x in pieces;
      JoinHeldNoop(t, init, u);
      assert pieces[|pieces| - 1] in pieces;
    }
  }

  /** Leaving rooms the connection does not carry changes nothing at all. */
  lemma {:induction false} LeaveUnheldNoop(t: TagState, pieces: seq<string>, u: string)
    requires forall x :: x in pieces && x != "" ==> x !in t.tags
    ensures LeaveAll(t, pieces, u) == t
    decreases |pieces|
  {
    if pieces != [] {
      var init := pieces[..|pieces| - 1];
      assert forall x :: x in init ==> x in pieces;
      LeaveUnheldNoop(t, init, u);
      assert pieces[|pieces| - 1] in pieces;
    }
  }

  // ----- a second changeRoom with the same payload

  /** `s` without any occurrence of `x`. */
  function Drop(s: seq<string>, x: string): seq<string>
    decreases |s|
  {
    if s == [] then []
    else Drop(s[..|s| - 1], x) + (if s[|s| - 1] == x then [] else [s[|s| - 1]])
  }

  /** `b` with the pieces dropped one after the other, as the leave loop goes. */
  function Keep(b: seq<string>, pieces: seq<string>): seq<string>
    decreases |pieces|
  {
    if pieces == [] then b else Drop(Keep(b, pieces[..|pieces| - 1]), pieces[|pieces| - 1])
  }

  /** The tags the join loop appends to `held`: each non-empty piece not carried yet, in order. */
  function Added(held: seq<string>, pieces: seq<string>): seq<string>
    decreases |pieces|
  {
    if pieces == [] then []
    else
      var b := Added(held, pieces[..|pieces| - 1]);
      var last := pieces[|pieces| - 1];
      if last != "" && last !in held + b then b + [last] else b
  }

  /** `t` carrying the further tags `b`: appended, joined and marked. */
  function Extend(t: TagState, b: seq<string>, u: string): TagState {
    TagState(t.tags + b, t.rooms + (set x | x in b), Marked(t.store, b, u))
  }

  lemma {:induction false} DropMembers(s: seq<string>, x: string)
    ensures forall y :: y in Drop(s, x) <==> y in s && y != x
    decreases |s|
  {
    if s != [] {
      var init := s[..|s| - 1];
      assert s == init + [s[|s| - 1]];
      DropMembers(init, x);
    }
  }

  lemma {:induction false} DropAbsent(s: seq<string>, x: string)
    requires x !in s
    ensures Drop(s, x) == s
    decreases |s|
  {
    if s != [] {
      var init := s[..|s| - 1];
      assert s == init + [s[|s| - 1]];
      DropAbsent(init, x);
    }
  }

  lemma {:induction false} DropAppend(a: seq<string>, b: seq<string>, x: string)
    ensures Drop(a + b, x) == Drop(a, x) + Drop(b, x)
    decreases |b|
  {
    if b == [] {
      assert a + b == a;
    } else {
      var init := b[..|b| - 1];
      assert (a + b)[..|a + b| - 1] == a + init;
      DropAppend(a, init, x);
    }
  }

  lemma {:induction false} DropNoDup(s: seq<string>, x: string)
    requires NoDup(s)
    ensures NoDup(Drop(s, x))
    decreases |s|
  {
    if s != [] {
      var init := s[..|s| - 1];
      var last := s[|s| - 1];
      assert s == init + [last];
      DropNoDup(init, x);
      DropMembers(init, x);
      var d := Drop(init, x);
      if last != x {
        forall i, j | 0 <= i < j < |d + [last]| ensures (d + [last])[i] != (d + [last])[j] {
          if j == |d| {
            assert d[i] in d;
          }
        }
      }
    }
  }

  /** In a duplicate-free list a value occurs neither before nor after its own position. */
  lemma NoDupAround(s: seq<string>, i: nat)
    requires i < |s| && NoDup(s)
    ensures s[i] !in s[..i] && s[i] !in s[i + 1..]
  {
    forall y | y in s[..i] ensures y != s[i] {
      var j :| 0 <= j < i && s[..i][j] == y;
      assert s[j] == y;
    }
    var after := s[i + 1..];
    forall y | y in after ensures y != s[i] {
      var j :| 0 <= j < |after| && after[j] == y;
      assert s[i + 1 + j] == y;
    }
  }

  /** Dropping a value that occurs once, between `a` and `c`. */
  lemma DropMiddle(a: seq<string>, x: string, c: seq<string>)
    requires x !in a && x !in c
    ensures Drop(a + [x] + c, x) == a + c
  {
    DropAppend(a + [x], c, x);
    assert (a + [x])[..|a|] == a;
    assert Drop(a + [x], x) == Drop(a, x);
    DropAbsent(a, x);
    DropAbsent(c, x);
  }

  /** In a duplicate-free list, splicing out the one occurrence of a value drops it. */
  lemma DropSplice(s: seq<string>, i: nat)
    requires i < |s| && NoDup(s)
    ensures s[..i] + s[i + 1..] == Drop(s, s[i])
  {
    NoDupAround(s, i);
    assert s == s[..i] + [s[i]] + s[i + 1..];
    DropMiddle(s[..i], s[i], s[i + 1..]);
  }

  lemma {:induction false} KeepShape(b: seq<string>, pieces: seq<string>)
    requires NoDup(b)
    ensures NoDup(Keep(b, pieces))
    ensures forall y :: y in Keep(b, pieces) <==> y in b && y !in pieces
    decreases |pieces|
  {
    if pieces != [] {
      var init := pieces[..|pieces| - 1];
      var last := pieces[|pieces| - 1];
      assert pieces == init + [last];
      KeepShape(b, init);
      DropMembers(Keep(b, init), last);
      DropNoDup(Keep(b, init), last);
    }
  }

  lemma {:induction false} AddedShape(held: seq<string>, pieces: seq<string>)
    ensures NoDup(Added(held, pieces))
    ensures forall y :: y in Added(held, pieces) ==> y != "" && y !in held && y in pieces
    decreases |pieces|
  {
    if pieces != [] {
      var init := pieces[..|pieces| - 1];
      var last := pieces[|pieces| - 1];
      assert pieces == init + [last];
      AddedShape(held, init);
      var b := Added(held, init);
      if last != "" && last !in held + b {
        forall i, j | 0 <= i < j < |b + [last]| ensures (b + [last])[i] != (b + [last])[j] {
          if j == |b| {
            assert b[i] in b;
          }
        }
      }
    }
  }

  /** The join loop appends, joins and marks exactly `Added`. */
  lemma {:induction false} JoinAllExtends(t: TagState, pieces: seq<string>, u: string)
    ensures JoinAll(t, pieces, u) == Extend(t, Added(t.tags, pieces), u)
    decreases |pieces|
  {
    if pieces == [] {
      assert Marked(t.store, [], u) == t.store;
      assert (set x: string | x in []) == {};
      assert t.tags + [] == t.tags;
    } else {
      var init := pieces[..|pieces| - 1];
      var last := pieces[|pieces| - 1];
      JoinAllExtends(t, init, u);
      var b := Added(t.tags, init);
      if last != "" && last !in t.tags + b {
        MarkedSnoc(t.store, b, last, u);
        assert (set x | x in b + [last]) == (set x | x in b) + {last};
        assert (t.tags + b) + [last] == t.tags + (b + [last]);
      }
    }
  }

  /** Splicing out position `j` of the second part of a concatenation. */
  lemma SpliceSecond<T>(a: seq<T>, b: seq<T>, j: nat)
    requires j < |b|
    ensures (a + b)[..|a| + j] + (a + b)[|a| + j + 1..] == a + (b[..j] + b[j + 1..])
  {
    assert (a + b)[..|a| + j] == a + b[..j];
    assert (a + b)[|a| + j + 1..] == b[j + 1..];
  }

  /** A value first found at `j` of the extension is found at `|held| + j` of the extended list. */
  lemma SpliceExtended<T>(held: seq<T>, b: seq<T>, x: T)
    requires x in b && x !in held
    ensures IndexOf(b, x).Some? && IndexOf(held + b, x) == Some(|held| + IndexOf(b, x).value)
    ensures var j := IndexOf(b, x).value;
      (held + b)[..|held| + j] + (held + b)[|held| + j + 1..] == held + (b[..j] + b[j + 1..])
  {
    IndexOfAfter(held, b, x);
    SpliceSecond(held, b, IndexOf(b, x).value);
  }

  /** Deleting the marker of one tag from a store that lacked it before the marking. */
  lemma MarkedDrop(store: map<string, string>, b: seq<string>, x: string, u: string)
    requires TagKey(x, u) !in store
    ensures Marked(store, b, u) - {TagKey(x, u)} == Marked(store, Drop(b, x), u)
  {
    DropMembers(b, x);
    assert TagKeys(Drop(b, x), u) == TagKeys(b, u) - {TagKey(x, u)} by {
      forall k | k in TagKeys(b, u) - {TagKey(x, u)} ensures k in TagKeys(Drop(b, x), u) {
        var y :| y in b && k == TagKey(y, u);
      }
      forall k | k in TagKeys(Drop(b, x), u) ensures k != TagKey(x, u) {
        var y :| y in Drop(b, x) && k == TagKey(y, u);
        if k == TagKey(x, u) {
          TagKeyInjective(y, x, u);
        }
      }
    }
  }

  /** Leaving the room of a tag that the base state did not have. */
  lemma RoomsDrop(rooms: set<string>, b: seq<string>, x: string)
    requires x !in rooms
    ensures (rooms + (set y | y in b)) - {x} == rooms + (set y | y in Drop(b, x))
  {
    DropMembers(b, x);
  }

  /** Leaving a held tag splices it out at its first position. */
  lemma LeaveStepTags(t: TagState, x: string, u: string)
    requires x != "" && x in t.tags
    ensures IndexOf(t.tags, x).Some?
    ensures var i := IndexOf(t.tags, x).value; LeaveStep(t, x, u).tags == t.tags[..i] + t.tags[i + 1..]
  {
  }

  /** Leaving a tag found only in the extension splices it out at its first position there. */
  lemma LeaveTagsSplice(held: seq<string>, b: seq<string>, rooms: set<string>, store: map<string, string>, x: string, u: string)
    requires x in b && x != "" && x !in held
    ensures IndexOf(b, x).Some?
    ensures var j := IndexOf(b, x).value;
      LeaveStep(TagState(held + b, rooms, store), x, u).tags == held + (b[..j] + b[j + 1..])
  {
    SpliceExtended(held, b, x);
    LeaveStepTags(TagState(held + b, rooms, store), x, u);
  }

  /** Leaving a tag held only by the extension drops it from the extension's part of the list. */
  lemma LeaveTagsExtended(held: seq<string>, b: seq<string>, rooms: set<string>, store: map<string, string>, x: string, u: string)
    requires NoDup(b) && x in b && x != "" && x !in held
    ensures LeaveStep(TagState(held + b, rooms, store), x, u).tags == held + Drop(b, x)
  {
    LeaveTagsSplice(held, b, rooms, store, x, u);
    var j := IndexOf(b, x).value;
    assert b[j] == x;
    DropSplice(b, j);
  }

  /** Leaving a tag of the extension that the base state had neither as tag, room nor marker. */
  lemma LeaveStepHit(t: TagState, b: seq<string>, x: string, u: string)
    requires NoDup(b) && x in b && x != "" && x !in t.tags && x !in t.rooms && TagKey(x, u) !in t.store
    ensures LeaveStep(Extend(t, b, u), x, u) == Extend(t, Drop(b, x), u)
  {
    var l := LeaveStep(Extend(t, b, u), x, u);
    LeaveTagsExtended(t.tags, b, t.rooms + (set y | y in b), Marked(t.store, b, u), x, u);
    assert l.rooms == t.rooms + (set y | y in Drop(b, x)) by {
      RoomsDrop(t.rooms, b, x);
    }
    assert l.store == Marked(t.store, Drop(b, x), u) by {
      MarkedDrop(t.store, b, x, u);
    }
  }

  /** Leaving one tag of the extension drops it from the extension, and leaving anything else changes nothing. */
  lemma LeaveStepExtended(t: TagState, b: seq<string>, x: string, u: string)
    requires NoDup(b) && forall y :: y in b ==> y != "" && y !in t.tags && y !in t.rooms && TagKey(y, u) !in t.store
    requires x != "" ==> x !in t.tags
    ensures LeaveStep(Extend(t, b, u), x, u) == Extend(t, Drop(b, x), u)
  {
    if x != "" && x in b {
      LeaveStepHit(t, b, x, u);
    } else {
      assert x == "" || x !in t.tags + b;
      DropAbsent(b, x);
    }
  }

  /** The leave loop over an extension drops from it exactly the pieces it lists. */
  lemma {:induction false} LeaveAllExtended(t: TagState, b: seq<string>, pieces: seq<string>, u: string)
    requires NoDup(b) && forall y :: y in b ==> y != "" && y !in t.tags && y !in t.rooms && TagKey(y, u) !in t.store
    requires forall x :: x in pieces && x != "" ==> x !in t.tags
    ensures LeaveAll(Extend(t, b, u), pieces, u) == Extend(t, Keep(b, pieces), u)
    decreases |pieces|
  {
    if pieces != [] {
      var init := pieces[..|pieces| - 1];
      var last := pieces[|pieces| - 1];
      assert pieces == init + [last];
      LeaveAllExtended(t, b, init, u);
      KeepShape(b, init);
      LeaveStepExtended(t, Keep(b, init), last, u);
    }
  }

  /**
   * Running `changeRoom` on a coherent connection a second time with the same
   * payload, right after a first run that did not raise, changes nothing: the
   * joins it repeats are carried already or are left again at once, and the
   * leaves find nothing to leave.
   */
  lemma ChangeRoomAgain(c: Conn, store: map<string, string>, payload: Value, sep: char)
    requires ConnCoherent(c, store)
    ensures var r := ChangeRoomSpec(c, store, payload, sep);
      !r.threw ==> ChangeRoomSpec(r.conn, r.store, payload, sep) == Step(r.conn, r.store, false)
  {
    var r := ChangeRoomSpec(c, store, payload, sep);
    if c.identity.Some? && !r.threw {
      var u := ToText(c.identity.value.uid);
      var joins := JoinsOf(payload);
      var leaves := LeavesOf(payload);
      var t0 := TagState(c.identity.value.tags, c.rooms, store);
      var t1 := if Truthy(joins) then JoinAll(t0, Split(joins.s, sep), u) else t0;
      var t2 := if Truthy(leaves) then LeaveAll(t1, Split(leaves.s, sep), u) else t1;
      assert r == Step(Conn(Some(Identity(c.identity.value.uid, t2.tags)), t2.rooms), t2.store, false);
      if Truthy(joins) {
        JoinAllResult(t0, Split(joins.s, sep), u);
      }
      if Truthy(leaves) {
        LeaveAllResult(t1, Split(leaves.s, sep), u);
      }
      if Truthy(joins) {
        var pieces := Split(joins.s, sep);
        JoinAllExtends(t2, pieces, u);
        AddedShape(t2.tags, pieces);
        var b := Added(t2.tags, pieces);
        if Truthy(leaves) {
          var left := Split(leaves.s, sep);
          forall y | y in b ensures y in left && y !in t2.rooms && TagKey(y, u) !in t2.store {
            assert y in t1.tags;
          }
          LeaveAllExtended(t2, b, left, u);
          KeepShape(b, left);
          NoMembersEmpty(Keep(b, left));
        } else {
          NoMembersEmpty(b);
        }
        ExtendNothing(t2, u);
      } else if Truthy(leaves) {
        LeaveUnheldNoop(t2, Split(leaves.s, sep), u);
      }
    }
  }

  lemma NoMembersEmpty(s: seq<string>)
    requires forall y :: y !in s
    ensures s == []
  {
    forall y ensures multiset(s)[y] == 0 {
      assert y !in s;
    }
    assert multiset(s) == multiset{};
  }

  lemma ExtendNothing(t: TagState, u: string)
    ensures Extend(t, [], u) == t
  {
    assert Marked(t.store, [], u) == t.store;
    assert (set x: string | x in []) == {};
    assert t.tags + [] == t.tags;
  }

  /** Without an identity `changeRoom` does nothing and raises nothing, whatever the payload. */
  lemma ChangeRoomWithoutIdentity(c: Conn, store: map<string, string>, payload: Value, sep: char)
    requires c.identity.None?
    ensures ChangeRoomSpec(c, store, payload, sep) == Step(c, store, false)
  {
  }

  // ===== what the model assumes: callbacks completing at once, and no repeated stored tag

  /**
   * A connection logged in as `a` and owning `user@a` that logs in as `b`: with
   * callbacks completing at once it holds `b`, `user@a` is gone and `user@b`
   * names it; as the program runs, it ends with no identity while `user@a`
   * still names it.
   */
  lemma SwitchAsWrittenLosesIdentity()
    ensures var c := Conn(Some(Identity(Str("a"), [])), {"s", "a"});
      var r := OnLoginAsWritten(c, map[UserKey("a") := "s"], "s", true, Str("b"), ',');
      r.conn.identity.None? && Lookup(r.store, UserKey("a")) == Some("s") && !r.threw
    ensures var c := Conn(Some(Identity(Str("a"), [])), {"s", "a"});
      var e := OnLoginSpec(c, map[UserKey("a") := "s"], "s", true, Str("b"), ',');
      e.conn.identity == Some(Identity(Str("b"), [])) &&
      Lookup(e.store, UserKey("a")) == None && Lookup(e.store, UserKey("b")) == Some("s")
  {
    var c := Conn(Some(Identity(Str("a"), [])), {"s", "a"});
    var store := map[UserKey("a") := "s"];
    UserKeyInjective("a", "b");
    KeyKindsDistinct("", "", "a", "");
    assert RoomKey("b") !in store by {
      assert RoomKey("b")[0] != UserKey("a")[0];
    }
    OnLoginSwitch(c, store, "s", Str("b"), ',');
    var after := LogoutSpec(c, store, "s");
    assert after.store == map[] by {
      LogoutEffect(c, store, "s");
    }
    LoginIdentity(after.conn, after.store, "s", true, Str("b"), ',');
  }

  /**
   * As the program runs it, every switch of uid ends with no identity, and
   * `user@<old>` keeps whatever it held (this connection, when it owned the
   * old uid) unless the new uid has the same text.
   */
  lemma SwitchAsWrittenAnonymous(c: Conn, store: map<string, string>, id: string, open: bool, uid: Value, sep: char)
    requires c.identity.Some? && uid != c.identity.value.uid
    ensures var r := OnLoginAsWritten(c, store, id, open, uid, sep);
      var prev := ToText(c.identity.value.uid);
      r.conn.identity.None? &&
      (prev != ToText(uid) ==> Lookup(r.store, UserKey(prev)) == Lookup(store, UserKey(prev)))
  {
    var prev := ToText(c.identity.value.uid);
    if prev != ToText(uid) {
      UserKeyInjective(prev, ToText(uid));
    }
  }

  /**
   * A stored tag list that repeats an entry (`room@<uid>` = `a,a`) makes
   * `login` carry the tag twice; leaving `a` then removes one copy only, so the
   * connection still carries `a` while its room is left and its marker deleted.
   * `RepeatedEntries` shows such a stored list.
   */
  lemma RepeatedStoredTagSurvivesLeave(c: Conn, store: map<string, string>, id: string, uid: Value, a: string, sep: char)
    requires StoredTags(store, ToText(uid), sep) == [a, a] && sep !in a
    ensures var login := LoginSpec(c, store, id, true, uid, sep);
      var r := ChangeRoomSpec(login.conn, login.store, ChangeSet(Undefined, Str(a)), sep);
      login.conn.identity.value.tags == [a, a] &&
      r.conn.identity.value.tags == [a] && a !in r.conn.rooms && TagKey(a, ToText(uid)) !in r.store
  {
    LoginIdentity(c, store, id, true, uid, sep);
    var login := LoginSpec(c, store, id, true, uid, sep);
    assert a != "" by {
      var reply := store[RoomKey(ToText(uid))];
      EntriesShape(reply, sep);
      assert Entries(reply, sep)[0] == a;
    }
    SplitCount(a, sep);
    JoinSplit(a, sep);
    LeaveRepeated(login.conn, login.store, a, sep);
  }

  /** `changeRoom` leaving `a` on a connection carrying `[a, a]` keeps one copy, and leaves the room and deletes the marker. */
  lemma LeaveRepeated(c: Conn, store: map<string, string>, a: string, sep: char)
    requires c.identity.Some? && c.identity.value.tags == [a, a] && a != "" && Split(a, sep) == [a]
    ensures var r := ChangeRoomSpec(c, store, ChangeSet(Undefined, Str(a)), sep);
      r.conn.identity.value.tags == [a] && a !in r.conn.rooms && TagKey(a, ToText(c.identity.value.uid)) !in r.store
  {
    var u := ToText(c.identity.value.uid);
    var t := TagState(c.identity.value.tags, c.rooms, store);
    LeaveOneOfTwo(t, a, u);
  }

  /** Leaving `a` from the tag list `[a, a]` drops one copy, the room and the marker. */
  lemma LeaveOneOfTwo(t: TagState, a: string, u: string)
    requires t.tags == [a, a] && a != ""
    ensures LeaveAll(t, [a], u) == TagState([a], t.rooms - {a}, t.store - {TagKey(a, u)})
  {
    assert [a][..0] == [];
    assert IndexOf(t.tags, a) == Some(0);
    assert t.tags[..0] + t.tags[1..] == [a];
  }

  /** The stored list `a,a` yields the entry `a` twice. */
  lemma RepeatedEntries()
    ensures StoredTags(map[RoomKey("u") := "a,a"], "u", ',') == ["a", "a"]
  {
    assert Split("", ',') == [""];
    assert "a"[1..] == "" && ",a"[1..] == "a" && "a,a"[1..] == ",a";
    assert "a"[0] == 'a' && ['a'] + "" == "a" && [""][1..] == [];
    assert Split("a", ',') == ["a"];
    assert Split(",a", ',') == ["", "a"];
    assert Split("a,a", ',') == ["a", "a"];
    assert NonEmpty(["a", "a"]) == ["a", "a"] by {
      assert NonEmpty(["a"]) == ["a"] + NonEmpty([]);
    }
  }
}
