/**
 * The connection gateway (modules/push.js) as objects: connections whose
 * identity, rooms and pending acknowledgements change in place, the
 * namespace-wide ack counter, the shared redis store and the gateway that runs
 * the handlers. Each handler is proved to do what the matching function of
 * `Session`, `Frames` or `ControlBus` says; store callbacks complete at once.
 */
module Push {
  import opened Wrappers
  import opened Js
  import opened Text
  import opened Api
  import opened Frames
  import opened Session
  import opened ControlBus

  /** `socket.nsp`: a namespace with its ack counter `ids`. */
  class Namespace {
    const name: string
    var ids: nat

    constructor (name: string)
      ensures this.name == name && ids == 0
    {
      this.name := name;
      ids := 0;
    }
  }

  /** A pending acknowledgement: the message id and the uid held when it was created. */
  datatype Ack = Ack(mid: Value, uid: Value)

  /** What `socket.packet` is handed: encoded frames, or a packet object. */
  datatype Outbound = Encoded(frames: seq<string>) | Structured(packet: Packet)

  /** The `opts` argument of `socket.packet`; `compress: None` is an omitted flag (an omitted `opts` is all defaults). */
  datatype Opts = Opts(preEncoded: bool, volatile: bool, compress: Option<bool>)

  /** One call of `this.client.packet(packet, opts)`: what reaches the connection's transport. */
  datatype Delivery = Delivery(packet: Outbound, preEncoded: bool, volatile: bool, compress: bool)

  /** A connection of the gateway's namespace. */
  class Socket {
    const id: string
    const nsp: Namespace
    /** `socket.client.conn.readyState == 'open'`. */
    var open: bool
    /** `socket.heikuai`. */
    var identity: Option<Identity>
    var rooms: set<string>
    var acks: map<nat, Ack>
    /** Every delivery handed to the transport, oldest first. */
    var wire: seq<Delivery>

    /** A new connection: open, anonymous, in the room of its own id. */
    constructor (id: string, nsp: Namespace)
      ensures this.id == id && this.nsp == nsp
      ensures open && identity.None? && rooms == {id} && acks == map[] && wire == []
    {
      this.id := id;
      this.nsp := nsp;
      open := true;
      identity := None;
      rooms := {id};
      acks := map[];
      wire := [];
    }

    /** The identity and the rooms, as `Session` sees a connection. */
    function State(): Conn
      reads this
    {
      Conn(identity, rooms)
    }

    /** Every pending ack key was handed out by the namespace counter already. */
    predicate AcksIssued()
      reads this, nsp
    {
      forall k :: k in acks ==> k < nsp.ids
    }
  }

  /** The shared redis store, its callbacks completing at once. */
  class Store {
    var kv: map<string, string>

    constructor (kv: map<string, string>)
      ensures this.kv == kv
    {
      this.kv := kv;
    }
  }

  /** The connections and the shared store as the control bus dispatch sees them. */
  datatype World = World(conns: map<string, Conn>, store: map<string, string>, threw: bool)

  /**
   * `changeRoom` applied to each visited connection in turn; a TypeError stops
   * the dispatch, leaving the rest unvisited.
   */
  function DispatchChange(ids: seq<string>, w: World, payload: Value, sep: char): (r: World)
    requires forall k :: k in ids ==> k in w.conns
    ensures r.conns.Keys == w.conns.Keys
    decreases |ids|
  {
    if ids == [] then w
    else
      var prev := DispatchChange(ids[..|ids| - 1], w, payload, sep);
      if prev.threw then prev else Visit(prev, ids[|ids| - 1], payload, sep)
  }

  /** `changeRoom` on connection `id` of the world. */
  function Visit(w: World, id: string, payload: Value, sep: char): (r: World)
    requires id in w.conns
    ensures r.conns.Keys == w.conns.Keys
  {
    var s := ChangeRoomSpec(w.conns[id], w.store, payload, sep);
    World(w.conns[id := s.conn], s.store, s.threw)
  }

  /** The state of every connection of `sockets`, by id. */
  function States(sockets: map<string, Socket>): (r: map<string, Conn>)
    reads set k | k in sockets :: sockets[k]
    ensures r.Keys == sockets.Keys && forall k :: k in sockets ==> r[k] == sockets[k].State()
  {
    map k | k in sockets :: sockets[k].State()
  }

  /** The gateway: its store and emitter, and its configuration. */
  class Gateway {
    const store: Store
    const api: Emitter
    /** `config.separator`. */
    const sep: char
    /** `config.io.nsp`. */
    const nsp: string
    /** The id of this server on the control bus (`ioRedis.uid`). */
    const serverId: string
    /** `process.env.NODE_ENV === 'development'`, which selects the structural strategy. */
    const development: bool

    constructor (store: Store, api: Emitter, sep: char, nsp: string, serverId: string, development: bool)
      ensures this.store == store && this.api == api && this.sep == sep && this.nsp == nsp
      ensures this.serverId == serverId && this.development == development
    {
      this.store := store;
      this.api := api;
      this.sep := sep;
      this.nsp := nsp;
      this.serverId := serverId;
      this.development := development;
    }

    /** `login(socket, uid)` (push.js:86-131). */
    method Login(s: Socket, uid: Value)
      modifies s`identity, s`rooms, store, api
      ensures var e := LoginSpec(old(s.State()), old(store.kv), s.id, s.open, uid, sep);
        s.State() == e.conn && store.kv == e.store && api.sent == old(api.sent) + e.notices
    {
      ghost var c0 := s.State();
      ghost var kv0 := store.kv;
      var u := ToText(uid);
      s.identity := Some(Identity(uid, []));
      s.rooms := s.rooms + {s.id, u};
      var reply := Lookup(store.kv, RoomKey(u));
      var pieces: seq<string> := [];
      if Present(reply) && s.open {
        pieces := Split(reply.value, sep);
      }
      MarkLoginTags(s, pieces, u);
      ghost var t := LoginTags(TagState([], c0.rooms + {s.id, u}, kv0), pieces, u);
      assert TagState(s.identity.value.tags, s.rooms, store.kv) == t;
      assert s.State() == Conn(Some(Identity(uid, t.tags)), t.rooms);
      var owner := Lookup(store.kv, UserKey(u));
      if Present(owner) && owner.value != s.id {
        api.PushMsgToSingleDevice(owner.value, Str("-1"), Str(RepeatText(u)), Some("repeat"));
      }
      assert api.sent == old(api.sent) + RepeatNotice(owner, s.id, u);
      if s.open {
        store.kv := store.kv[UserKey(u) := s.id];
      }
    }

    /** The tag loop of `login` (push.js:105-113) over the split pieces of `room@<u>`. */
    method MarkLoginTags(s: Socket, pieces: seq<string>, u: string)
      requires s.identity.Some?
      modifies s`identity, s`rooms, store
      ensures s.identity.Some? && s.identity.value.uid == old(s.identity.value.uid)
      ensures TagState(s.identity.value.tags, s.rooms, store.kv) ==
        LoginTags(TagState(old(s.identity.value.tags), old(s.rooms), old(store.kv)), pieces, u)
    {
      ghost var t0 := TagState(s.identity.value.tags, s.rooms, store.kv);
      var uid := s.identity.value.uid;
      var i := 0;
      while i < |pieces|
        invariant 0 <= i <= |pieces|
        invariant s.identity.Some? && s.identity.value.uid == uid
        invariant TagState(s.identity.value.tags, s.rooms, store.kv) == LoginTags(t0, pieces[..i], u)
      {
        assert pieces[..i + 1][..i] == pieces[..i];
        var room := pieces[i];
        if room != "" {
          s.rooms := s.rooms + {room};
          s.identity := Some(Identity(uid, s.identity.value.tags + [room]));
          store.kv := store.kv[TagKey(room, u) := ""];
        }
        i := i + 1;
      }
      assert pieces[..i] == pieces;
    }

    /** `logout(socket)` (push.js:136-154). */
    method Logout(s: Socket)
      modifies s`identity, s`rooms, store
      ensures var r := LogoutSpec(old(s.State()), old(store.kv), s.id);
        s.State() == r.conn && store.kv == r.store
    {
      if s.identity.Some? {
        var u := ToText(s.identity.value.uid);
        if Lookup(store.kv, UserKey(u)) == Some(s.id) {
          store.kv := store.kv - {UserKey(u)};
          UnmarkAll(s.identity.value.tags, u);
        }
        s.identity := None;
        s.rooms := {};
      }
    }

    /** The marker loop of `logout` (push.js:145-147). */
    method UnmarkAll(tags: seq<string>, u: string)
      modifies store
      ensures store.kv == UnmarkTags(old(store.kv), tags, u)
    {
      var i := 0;
      while i < |tags|
        invariant 0 <= i <= |tags|
        invariant store.kv == UnmarkTags(old(store.kv), tags[..i], u)
      {
        assert tags[..i + 1][..i] == tags[..i];
        store.kv := store.kv - {TagKey(tags[i], u)};
        i := i + 1;
      }
      assert tags[..i] == tags;
    }

    /** `repeat(socket)` (push.js:159-164). */
    method Repeat(s: Socket)
      modifies s`identity, s`rooms
      ensures s.State() == RepeatSpec(old(s.State()))
    {
      if s.identity.Some? {
        s.rooms := {};
        s.identity := None;
      }
    }

    /** The `login` event handler (push.js:48-62). */
    method OnLogin(s: Socket, uid: Value)
      modifies s`identity, s`rooms, store, api
      ensures var e := OnLoginSpec(old(s.State()), old(store.kv), s.id, s.open, uid, sep);
        s.State() == e.conn && store.kv == e.store && api.sent == old(api.sent) + e.notices
    {
      var held := Null;
      if s.identity.Some? {
        held := s.identity.value.uid;
        if uid != held {
          Logout(s);
        }
      }
      if uid != held {
        Login(s, uid);
      }
    }

    /** `changeRoom(socket, packet)` (push.js:170-194); `threw` when it raised a TypeError. */
    method ChangeRoom(s: Socket, payload: Value) returns (threw: bool)
      modifies s`identity, s`rooms, store
      ensures var r := ChangeRoomSpec(old(s.State()), old(store.kv), payload, sep);
        s.State() == r.conn && store.kv == r.store && threw == r.threw
    {
      threw := false;
      if s.identity.None? {
        return;
      }
      if Nullish(payload) {
        threw := true;
        return;
      }
      var u := ToText(s.identity.value.uid);
      var joins := JoinsOf(payload);
      var leaves := LeavesOf(payload);
      if Truthy(joins) {
        if !joins.Str? {
          threw := true;
          return;
        }
        JoinRooms(s, Split(joins.s, sep), u);
      }
      if Truthy(leaves) {
        if !leaves.Str? {
          threw := true;
          return;
        }
        LeaveRooms(s, Split(leaves.s, sep), u);
      }
    }

    /** The join loop of `changeRoom` (push.js:174-180). */
    method JoinRooms(s: Socket, pieces: seq<string>, u: string)
      requires s.identity.Some?
      modifies s`identity, s`rooms, store
      ensures s.identity.Some? && s.identity.value.uid == old(s.identity.value.uid)
      ensures TagState(s.identity.value.tags, s.rooms, store.kv) ==
        JoinAll(TagState(old(s.identity.value.tags), old(s.rooms), old(store.kv)), pieces, u)
    {
      ghost var t0 := TagState(s.identity.value.tags, s.rooms, store.kv);
      var uid := s.identity.value.uid;
      var i := 0;
      while i < |pieces|
        invariant 0 <= i <= |pieces|
        invariant s.identity.Some? && s.identity.value.uid == uid
        invariant TagState(s.identity.value.tags, s.rooms, store.kv) == JoinAll(t0, pieces[..i], u)
      {
        assert pieces[..i + 1][..i] == pieces[..i];
        var room := pieces[i];
        var tags := s.identity.value.tags;
        if room != "" && IndexOf(tags, room).None? {
          s.rooms := s.rooms + {room};
          s.identity := Some(Identity(uid, tags + [room]));
          store.kv := store.kv[TagKey(room, u) := ""];
        }
        i := i + 1;
      }
      assert pieces[..i] == pieces;
    }

    /** The leave loop of `changeRoom` (push.js:183-191). */
    method LeaveRooms(s: Socket, pieces: seq<string>, u: string)
      requires s.identity.Some?
      modifies s`identity, s`rooms, store
      ensures s.identity.Some? && s.identity.value.uid == old(s.identity.value.uid)
      ensures TagState(s.identity.value.tags, s.rooms, store.kv) ==
        LeaveAll(TagState(old(s.identity.value.tags), old(s.rooms), old(store.kv)), pieces, u)
    {
      ghost var t0 := TagState(s.identity.value.tags, s.rooms, store.kv);
      var uid := s.identity.value.uid;
      var i := 0;
      while i < |pieces|
        invariant 0 <= i <= |pieces|
        invariant s.identity.Some? && s.identity.value.uid == uid
        invariant TagState(s.identity.value.tags, s.rooms, store.kv) == LeaveAll(t0, pieces[..i], u)
      {
        assert pieces[..i + 1][..i] == pieces[..i];
        var room := pieces[i];
        var tags := s.identity.value.tags;
        var index := IndexOf(tags, room);
        if room != "" && index.Some? {
          s.rooms := s.rooms - {room};
          s.identity := Some(Identity(uid, tags[..index.value] + tags[index.value + 1..]));
          store.kv := store.kv - {TagKey(room, u)};
        }
        i := i + 1;
      }
      assert pieces[..i] == pieces;
    }

    /**
     * `createAck(socket, mid)` (push.js:307-324): the key is the namespace
     * counter's current value, which then moves on; a pending ack is never
     * overwritten.
     */
    method CreateAck(s: Socket, mid: Value) returns (key: nat)
      requires s.identity.Some?
      modifies s`acks, s.nsp
      ensures key == old(s.nsp.ids) && s.nsp.ids == key + 1
      ensures s.acks == old(s.acks)[key := Ack(mid, old(s.identity).value.uid)]
      ensures old(s.AcksIssued()) ==> key !in old(s.acks) && s.AcksIssued()
    {
      key := s.nsp.ids;
      s.nsp.ids := s.nsp.ids + 1;
      s.acks := s.acks[key := Ack(mid, s.identity.value.uid)];
    }

    /**
     * The client acknowledging `key`: the registered ack marks the message as
     * received by the uid it was created for and removes itself; an unknown
     * key does nothing.
     */
    method FireAck(s: Socket, key: nat)
      modifies s`acks, store
      ensures key in old(s.acks) ==>
        store.kv == old(store.kv)[AckKey(ToText(old(s.acks)[key].mid), ToText(old(s.acks)[key].uid)) := ""] &&
        s.acks == old(s.acks) - {key}
      ensures key !in old(s.acks) ==> store.kv == old(store.kv) && s.acks == old(s.acks)
    {
      if key in s.acks {
        var a := s.acks[key];
        store.kv := store.kv[AckKey(ToText(a.mid), ToText(a.uid)) := ""];
        s.acks := s.acks - {key};
      }
    }

    /** `packetCloneStr(packet, socket)` (push.js:347-358). */
    method PacketCloneStr(frames: seq<string>, s: Socket) returns (out: seq<string>)
      requires |frames| >= 1 && s.identity.Some?
      modifies s`acks, s.nsp
      ensures out == CloneStr(frames, nsp, old(s.nsp.ids))
      ensures match TextAckMid(frames)
        case Some(mid) => s.nsp.ids == old(s.nsp.ids) + 1 && s.acks == old(s.acks)[old(s.nsp.ids) := Ack(Str(mid), old(s.identity).value.uid)]
        case None => s.nsp.ids == old(s.nsp.ids) && s.acks == old(s.acks)
    {
      var p := frames[0];
      var d := Body(p);
      var mid := MessageMid(d);
      if mid.Some? {
        var key := CreateAck(s, Str(mid.value));
        out := [Splice(p[0], nsp, key, d)];
      } else {
        out := [p];
      }
    }

    /** `packetCloneObj(packet, socket)` (push.js:331-340), `now` standing for `Date.now()`. */
    method PacketCloneObj(p: Packet, s: Socket, now: int) returns (out: Packet)
      requires s.identity.Some?
      modifies s`acks, s.nsp
      ensures out == CloneObj(p, old(s.nsp.ids), now)
      ensures match ObjAckMid(p)
        case Some(mid) => s.nsp.ids == old(s.nsp.ids) + 1 && s.acks == old(s.acks)[old(s.nsp.ids) := Ack(mid, old(s.identity).value.uid)]
        case None => s.nsp.ids == old(s.nsp.ids) && s.acks == old(s.acks)
    {
      out := p;
      if At(p.data, 0) == Str("message") {
        var key := CreateAck(s, At(p.data, 1));
        out := p.(id := Some(key), data := p.data + [Num(now)]);
      }
    }

    /**
     * The replaced `socket.packet(packet, opts)` (push.js:259-284), with
     * `decoded` the packet `packetDecode` yields for the frames and `now`
     * standing for `Date.now()`: nothing on a connection that is not open;
     * frames encoded elsewhere for a logged-in connection get an ack by one
     * of the two strategies; everything else goes out as given, a packet
     * object stamped with the connection's namespace.
     */
    method SocketPacket(s: Socket, packet: Outbound, opts: Opts, decoded: Packet, now: int)
      requires opts.preEncoded && s.identity.Some? && !development ==> packet.Encoded? && |packet.frames| >= 1
      modifies s`acks, s`wire, s.nsp
      ensures !old(s.open) ==> s.wire == old(s.wire) && s.acks == old(s.acks) && s.nsp.ids == old(s.nsp.ids)
      ensures old(s.open) ==>
        var compress := opts.compress != Some(false);
        if opts.preEncoded && old(s.identity).Some? then
          if !development then
            s.wire == old(s.wire) + [Delivery(Encoded(CloneStr(packet.frames, nsp, old(s.nsp.ids))), true, opts.volatile, compress)] &&
            s.acks == (match TextAckMid(packet.frames)
              case Some(mid) => old(s.acks)[old(s.nsp.ids) := Ack(Str(mid), old(s.identity).value.uid)]
              case None => old(s.acks)) &&
            s.nsp.ids == old(s.nsp.ids) + (if TextAckMid(packet.frames).Some? then 1 else 0)
          else
            s.wire == old(s.wire) + [Delivery(Structured(CloneObj(decoded, old(s.nsp.ids), now)), false, opts.volatile, compress)] &&
            s.acks == (match ObjAckMid(decoded)
              case Some(mid) => old(s.acks)[old(s.nsp.ids) := Ack(mid, old(s.identity).value.uid)]
              case None => old(s.acks)) &&
            s.nsp.ids == old(s.nsp.ids) + (if ObjAckMid(decoded).Some? then 1 else 0)
        else
          var sent := if packet.Structured? then Structured(packet.packet.(nsp := Some(s.nsp.name))) else packet;
          s.wire == old(s.wire) + [Delivery(sent, opts.preEncoded, opts.volatile, compress)] &&
          s.acks == old(s.acks) && s.nsp.ids == old(s.nsp.ids)
    {
      if !s.open {
        return;
      }
      var compress := opts.compress != Some(false);
      if opts.preEncoded && s.identity.Some? {
        if !development {
          var frames := PacketCloneStr(packet.frames, s);
          s.wire := s.wire + [Delivery(Encoded(frames), true, opts.volatile, compress)];
        } else {
          var out := PacketCloneObj(decoded, s, now);
          s.wire := s.wire + [Delivery(Structured(out), false, opts.volatile, compress)];
        }
      } else {
        var sent := if packet.Structured? then Structured(packet.packet.(nsp := Some(s.nsp.name))) else packet;
        s.wire := s.wire + [Delivery(sent, opts.preEncoded, opts.volatile, compress)];
      }
    }

    /**
     * The control bus subscription (push.js:225-250) followed by
     * `getSocketByEmitMsg` and the chosen handler, over the connected sockets
     * `sockets` (keyed by their ids) and the adapter's room table `table`.
     */
    method Receive(m: BusMessage, table: map<string, seq<string>>, sockets: map<string, Socket>) returns (threw: bool)
      requires forall k :: k in sockets ==> sockets[k].id == k
      requires forall r :: r in table ==> NoDup(table[r])
      requires forall r, k :: k in sockets ==> (k in Members(table, r) <==> r in sockets[k].rooms)
      modifies store, (set k | k in sockets :: sockets[k])`identity, (set k | k in sockets :: sockets[k])`rooms
      ensures match Classify(m, serverId, nsp)
        case Ignore =>
          !threw && store.kv == old(store.kv) && forall k :: k in sockets ==> sockets[k].State() == old(sockets[k].State())
        case RepeatAt(rooms, except) =>
          var ids := Visits(rooms, except, table, sockets.Keys);
          !threw && store.kv == old(store.kv) &&
          forall k :: k in sockets ==> sockets[k].State() == if k in ids then RepeatSpec(old(sockets[k].State())) else old(sockets[k].State())
        case ChangeRoomAt(rooms, except, payload) =>
          var ids := Visits(rooms, except, table, sockets.Keys);
          var w := DispatchChange(ids, World(old(States(sockets)), old(store.kv), false), payload, sep);
          threw == w.threw && store.kv == w.store && forall k :: k in sockets ==> sockets[k].State() == w.conns[k]
      ensures var d := Classify(m, serverId, nsp);
        !d.Ignore? ==> forall k :: k in sockets ==>
          multiset(Visits(d.rooms, d.except, table, sockets.Keys))[k] == if k in d.except then 0 else Listed(d.rooms, old(sockets[k].rooms))
    {
      threw := false;
      var d := Classify(m, serverId, nsp);
      if d.Ignore? {
        return;
      }
      ghost var held := map k | k in sockets :: sockets[k].rooms;
      assert held.Keys == sockets.Keys;
      VisitsByRooms(d.rooms, d.except, table, held);
      var ids := Recipients(d.rooms, d.except, table, sockets.Keys);
      if d.RepeatAt? {
        DispatchRepeat(ids, sockets);
      } else {
        threw := DispatchChangeRoom(ids, sockets, d.payload, World(States(sockets), store.kv, false));
      }
    }

    /** The `repeat` handler applied to each visited connection in turn. */
    method DispatchRepeat(ids: seq<string>, sockets: map<string, Socket>)
      requires forall k :: k in sockets ==> sockets[k].id == k
      requires forall k :: k in ids ==> k in sockets
      modifies (set k | k in sockets :: sockets[k])`identity, (set k | k in sockets :: sockets[k])`rooms
      ensures forall k :: k in sockets ==>
        sockets[k].State() == if k in ids then RepeatSpec(old(sockets[k].State())) else old(sockets[k].State())
    {
      var i := 0;
      while i < |ids|
        invariant 0 <= i <= |ids|
        invariant forall k :: k in sockets ==>
          sockets[k].State() == if k in ids[..i] then RepeatSpec(old(sockets[k].State())) else old(sockets[k].State())
      {
        assert ids[..i + 1] == ids[..i] + [ids[i]];
        Repeat(sockets[ids[i]]);
        i := i + 1;
      }
      assert ids[..i] == ids;
    }

    /**
     * `changeRoom` on connection `id` of the dispatch, `w` being the world
     * the connections and the store are in before it.
     */
    method VisitSocket(sockets: map<string, Socket>, id: string, payload: Value, ghost w: World) returns (threw: bool, ghost w': World)
      requires forall k :: k in sockets ==> sockets[k].id == k
      requires id in sockets && w.conns.Keys == sockets.Keys && w.store == store.kv
      requires forall k :: k in sockets ==> w.conns[k] == Conn(sockets[k].identity, sockets[k].rooms)
      modifies store, {sockets[id]}`identity, {sockets[id]}`rooms
      ensures w' == Visit(w, id, payload, sep) && threw == w'.threw && store.kv == w'.store
      ensures w'.conns.Keys == sockets.Keys
      ensures forall k :: k in sockets ==>
        w'.conns[k] == Conn(sockets[k].identity, sockets[k].rooms)
    {
      var s := sockets[id];
      threw := ChangeRoom(s, payload);
      w' := World(w.conns[id := s.State()], store.kv, threw);
    }

    /**
     * The `changeRoom` handler applied to each visited connection in turn,
     * until one raises; `w0` is the world the dispatch starts from.
     */
    method DispatchChangeRoom(ids: seq<string>, sockets: map<string, Socket>, payload: Value, ghost w0: World) returns (threw: bool)
      requires forall k :: k in sockets ==> sockets[k].id == k
      requires forall k :: k in ids ==> k in sockets
      requires w0.conns.Keys == sockets.Keys && w0.store == store.kv && !w0.threw
      requires forall k :: k in sockets ==> w0.conns[k] == Conn(sockets[k].identity, sockets[k].rooms)
      modifies store, (set k | k in sockets :: sockets[k])`identity, (set k | k in sockets :: sockets[k])`rooms
      ensures var w := DispatchChange(ids, w0, payload, sep);
        threw == w.threw && store.kv == w.store && forall k :: k in sockets ==> Conn(sockets[k].identity, sockets[k].rooms) == w.conns[k]
    {
      ghost var w := w0;
      threw := false;
      var i := 0;
      while i < |ids| && !threw
        invariant 0 <= i <= |ids|
        invariant w == DispatchChange(ids[..i], w0, payload, sep) && threw == w.threw && store.kv == w.store
        invariant w.conns.Keys == sockets.Keys
        invariant forall k :: k in sockets ==> w.conns[k] == Conn(sockets[k].identity, sockets[k].rooms)
      {
        DispatchSnoc(ids, i, w0, w, payload, sep);
        threw, w := VisitSocket(sockets, ids[i], payload, w);
        i := i + 1;
      }
      DispatchStops(ids, i, w0, payload, sep);
    }
  }

  /** A dispatch that has not raised visits the next connection. */
  lemma DispatchSnoc(ids: seq<string>, i: nat, w: World, prev: World, payload: Value, sep: char)
    requires i < |ids| && forall k :: k in ids ==> k in w.conns
    requires prev == DispatchChange(ids[..i], w, payload, sep) && !prev.threw
    ensures ids[i] in prev.conns && DispatchChange(ids[..i + 1], w, payload, sep) == Visit(prev, ids[i], payload, sep)
  {
    assert ids[..i + 1][..i] == ids[..i];
  }

  /**
   * A coherent connection selected twice in a row is handled as if selected
   * once: the second `changeRoom` after a first that did not raise changes
   * nothing.
   */
  lemma DispatchTwice(id: string, w: World, payload: Value, sep: char)
    requires id in w.conns && ConnCoherent(w.conns[id], w.store)
    ensures DispatchChange([id, id], w, payload, sep) == DispatchChange([id], w, payload, sep)
  {
    ChangeRoomAgain(w.conns[id], w.store, payload, sep);
    assert [id, id][..1] == [id];
    assert [id][..0] == [];
    var w1 := DispatchChange([id], w, payload, sep);
    if !w1.threw {
      assert w1.conns[id := w1.conns[id]] == w1.conns;
    }
  }

  /** Once a dispatch has raised, the remaining connections are not visited. */
  lemma {:induction false} DispatchStops(ids: seq<string>, i: nat, w: World, payload: Value, sep: char)
    requires i <= |ids| && forall k :: k in ids ==> k in w.conns
    requires i == |ids| || DispatchChange(ids[..i], w, payload, sep).threw
    ensures DispatchChange(ids, w, payload, sep) == DispatchChange(ids[..i], w, payload, sep)
    decreases |ids| - i
  {
    if i == |ids| {
      assert ids[..i] == ids;
    } else {
      assert ids[..i + 1][..i] == ids[..i];
      DispatchStops(ids, i + 1, w, payload, sep);
    }
  }
}
