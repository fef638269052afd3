# A verified model of the push gateway

This project models the core of a Socket.IO push-notification gateway. Clients
hold long-lived connections to a cluster of server processes. An administrative
HTTP API pushes messages to one user, a batch of users, a room (tag) or the
whole namespace. The servers share one redis store and one redis broadcast
channel, the control bus.

The model covers the following, one Dafny module per component:

- `Session` and `Push` (modules/push.js). `Session` states on values what the
  connection handlers `login`, `logout`, `repeat` and `changeRoom` do to a
  connection's identity (`socket.heikuai`), its rooms and the shared store.
  `Push` holds the handlers as methods of a `Gateway` class over `Socket`,
  `Namespace` and `Store` objects, each proved equal to its `Session` function.
  `Push` also holds the ack allocation (`createAck`, the ack callback), the
  replaced `socket.packet`, and the control-bus receive path with its dispatch.
- `Frames` (modules/push.js): the two ways an ack id is stamped into an
  outgoing frame. The structural one works on a decoded packet. The textual one
  splices the text `<type digit>[/nsp,][ack id]<JSON array>`.
- `ControlBus` (modules/push.js): the filter and dispatch decision for a bus
  message, and the recipient selection of `getSocketByEmitMsg`.
- `Api` (modules/api.js): the four push functions. Each emit is appended to an
  emit log.
- `Routes` (routes/index.js): the `sendMessage` validator and the bodies of
  the six POST handlers.
- `Monit` (bin/monit.js): the `errorCode` state machine of the redis watchdog.
- `Console` (test/create.js): the display-width helpers and the `loop` driver.
- `Js`, `Text` and `Wrappers` are helpers. They cover JavaScript values,
  truthiness and loose equality, `String.prototype.split`, `indexOf`, and the
  store's key formats `user@<uid>`, `room@<uid>`, `tag@<tag>@<uid>` and
  `msg@<mid>@<uid>`.

The model takes the following as parameters:

- The separator `config.separator`, taken to be one character.
- The namespace `config.io.nsp`.
- This server's id on the bus.
- The `NODE_ENV === 'development'` flag that selects the frame strategy.
- `Date.now()`.
- Whether the connection is open.

Redis callbacks complete at once.

## Model

| member | source | states |
|---|---|---|
| `Push.Gateway.OnLogin` | modules/push.js:48-62 | The `login` event leaves the connection, the store and the emit log exactly as `OnLoginSpec` says: nothing for the uid already held, otherwise `logout` of the held identity and then `login`. This holds with store callbacks completing at once; as the program runs, a switch of uid ends differently (see Findings). |
| `Session.OnLoginSameUid` | modules/push.js:48-62 | A `login` event with the uid the connection already holds (or `null` on an anonymous one) changes nothing and pushes nothing. |
| `Session.OnLoginTakesUid` | modules/push.js:48-62 | With store callbacks completing at once (see Findings), any other `login` event ends with that uid held and the connection in its own room and the uid's room. When a uid was held before, the rooms are exactly these two plus the new tags, so every old tag room is left. |
| `Session.OnLoginSwitch` | modules/push.js:48-62 | With store callbacks completing at once (see Findings), switching uids on an open connection that owned the old uid deletes `user@<old>` and makes `user@<new>` name this connection. |
| `Push.Gateway.Login` | modules/push.js:86-131 | `login` changes the connection, the store and the emit log exactly as `LoginSpec` says. |
| `Push.Gateway.MarkLoginTags` | modules/push.js:104-114 | The tag loop of `login` gives the tag state `LoginTags` says: it joins, appends and marks each non-empty piece in turn. |
| `Session.LoginTagsResult` | modules/push.js:105-113 | The tag loop appends exactly the non-empty pieces, in order, joins each one and marks each one in the store. |
| `Session.LoginIdentity` | modules/push.js:86-115 | On an open connection the tags are exactly the non-empty separator-split entries of `room@<uid>`, in stored order. On a closed one they are empty. The rooms gain the connection id, the uid and every tag. |
| `Session.LoginStore` | modules/push.js:100-130 | `login` writes a `tag@<tag>@<uid>` marker for every tag it picked up. On an open connection it also makes `user@<uid>` name this connection. It changes nothing else. |
| `Session.LoginNotice` | modules/push.js:117-123 | `login` sends exactly one `repeat` push with message id `'-1'`, to the connection `user@<uid>` named before, when that was another connection. Otherwise it sends none. |
| `Session.LoginCoherent` | modules/push.js:100-115 | If the stored tag list has no repeats, then after `login` the tag list is duplicate-free and every tag is a joined room with a marker. |
| `Push.Gateway.Logout` | modules/push.js:136-154 | `logout` changes the connection and the store exactly as `LogoutSpec` says. |
| `Push.Gateway.UnmarkAll` | modules/push.js:145-147 | The marker loop of `logout` deletes `tag@<tag>@<uid>` for each tag. |
| `Session.UnmarkTagsResult` | modules/push.js:145-147 | The marker loop removes exactly the markers of the listed tags. |
| `Session.LogoutEffect` | modules/push.js:136-154 | Without an identity `logout` does nothing. Otherwise it clears the identity and every room. It deletes `user@<uid>` and the tag markers only when `user@<uid>` names this connection, and otherwise leaves the store alone. |
| `Session.LogoutKeepsOtherOwners` | modules/push.js:140-148 | `logout` never changes a `user@` key that does not name this connection. |
| `Push.Gateway.Repeat` | modules/push.js:159-164 | `repeat` clears the identity and every room. It leaves the store alone and does nothing without an identity. |
| `Push.Gateway.ChangeRoom` | modules/push.js:170-194 | `changeRoom` changes the connection and the store as `ChangeRoomSpec` says, and reports the TypeError that a null payload or a truthy non-string list raises. |
| `Push.Gateway.JoinRooms` | modules/push.js:173-181 | The join loop gives the tag state `JoinAll` says. |
| `Push.Gateway.LeaveRooms` | modules/push.js:183-192 | The leave loop gives the tag state `LeaveAll` says: it splices out the first occurrence, leaves the room and deletes the marker. |
| `Session.JoinAllResult` | modules/push.js:173-181 | Joining keeps the tag list duplicate-free and coherent, keeps the old tags as a prefix, and adds exactly the non-empty pieces. It changes no store key outside the new tags' markers. |
| `Session.RemoveAtMembers` | modules/push.js:186-188 | Splicing one index out of a duplicate-free list removes that value and keeps every other. |
| `Session.LeaveStepResult` | modules/push.js:184-190 | Leaving one carried tag removes exactly it, leaves its room and deletes its `tag@` marker. It keeps coherence, adds no room and no key, and touches no key outside the carried tags' markers. |
| `Session.LeaveAllResult` | modules/push.js:183-192 | The leave loop removes exactly the listed tags, leaves the room of each carried one and deletes its `tag@` marker. It keeps coherence, keeps every non-tag room, and adds no room and no key. |
| `Session.JoinEntries` | modules/push.js:173-181 | After joining a list, the tags are the old tags plus the list's non-empty entries. |
| `Session.LeaveEntries` | modules/push.js:183-192 | After leaving a list, the tags are the old tags minus the list's non-empty entries. |
| `Session.ChangeRoomCoherent` | modules/push.js:170-194 | `changeRoom` keeps a coherent connection coherent, with a duplicate-free tag list, even when it raises part-way. |
| `Session.ChangeRoomTags` | modules/push.js:170-194 | For a connection whose tags are duplicate-free, joined and marked (`ConnCoherent`): after `changeRoom` every non-empty leave entry is absent, and every join entry that is not also a leave entry is present. No other tag changes. |
| `Session.JoinHeldNoop` | modules/push.js:174-180 | Joining only tags already held changes neither the tags, the rooms nor the store. |
| `Session.LeaveUnheldNoop` | modules/push.js:184-191 | Leaving only tags not held changes neither the tags, the rooms nor the store. |
| `Session.ChangeRoomWithoutIdentity` | modules/push.js:170-193 | Without an identity `changeRoom` does nothing, whatever the payload. |
| `Session.ChangeRoomAgain` | modules/push.js:170-194 | On a coherent connection, a second `changeRoom` with the same payload, straight after a first that did not raise, changes neither the connection nor the store. |
| `Session.JoinAllExtends` | modules/push.js:173-181 | The join loop appends, joins and marks exactly the non-empty pieces not carried yet, in order. |
| `Session.LeaveAllExtended` | modules/push.js:183-192 | Over tags appended to a state, the leave loop drops exactly the listed ones and restores the rest of the state. |
| `Session.SwitchAsWrittenAnonymous` | modules/push.js:136-150 | As the program runs (store replies after the handler, in command order), every switch of uid ends with no identity, and `user@<old>` keeps its value unless the new uid has the same text. |
| `Session.SwitchAsWrittenLosesIdentity` | modules/push.js:136-150 | A connection logged in as `a` and owning `user@a` that logs in as `b` ends, as the program runs, with no identity while `user@a` still names it. With callbacks completing at once it would hold `b`, with `user@a` gone and `user@b` naming it. |
| `Session.RepeatedStoredTagSurvivesLeave` | modules/push.js:183-192 | When `room@<uid>` lists a tag twice, `login` carries it twice, and leaving it removes one copy while leaving its room and deleting its marker. |
| `Session.RepeatedEntries` | modules/push.js:105-106 | The stored list `a,a` yields the entry `a` twice. |
| `Push.Gateway.CreateAck` | modules/push.js:307-324 | The ack key is the namespace counter's value, and the counter then moves on by one. The ack records the message id and the uid held at creation. A pending key is never overwritten. |
| `Push.Gateway.FireAck` | modules/push.js:314-321 | Firing a registered ack writes `msg@<mid>@<uid at creation>` and removes that key from `acks`. An unknown key changes nothing. |
| `Push.Gateway.PacketCloneStr` | modules/push.js:347-358 | The textual strategy returns `CloneStr` with the counter's key. It creates an ack exactly when the frame is accepted, for the accepted message id. |
| `Push.Gateway.PacketCloneObj` | modules/push.js:331-340 | The structural strategy returns `CloneObj` with the counter's key. It creates an ack exactly when `data[0]` is `'message'`, for `data[1]`. |
| `Push.Gateway.SocketPacket` | modules/push.js:259-284 | A connection that is not open sends nothing. A pre-encoded frame to a logged-in connection is rewritten by the strategy the flag selects, with `compress` defaulting to true. Any other frame goes out as given, and a packet object is stamped with the namespace. The namespace's ack counter moves on by one exactly when an ack is attached. |
| `Frames.Body` | modules/push.js:350 | The body is a suffix of the frame. |
| `Frames.BodySpec` | modules/push.js:350 | The body is the whole frame when it has no `[`. Otherwise it starts with the frame's first `[`, and no `[` comes before it. |
| `Frames.QuoteAtSpec` | modules/push.js:351 | The scan finds index `k` exactly when `k` holds the first `"` from `j` and no white space comes before it. |
| `Frames.MessageMidSpec` | modules/push.js:349-353 | A body is accepted with id `m` exactly when it starts with `["message","`, then `m`, which holds no `"` and no white space, then `"`. |
| `Frames.CloneStr` | modules/push.js:347-358 | The textual strategy always returns exactly one frame. |
| `Frames.CloneStrKeepsBody` | modules/push.js:355-357 | The rewritten frame keeps the body from the first `[` byte for byte, and is accepted again with the same id. A frame that is not accepted comes back unchanged. |
| `Frames.SplicedHeaderReadsBack` | modules/push.js:355 | The spliced header reads back as the original type character, the configured namespace (omitted for `/`) and the ack key in decimal, followed by the untouched body. |
| `Frames.CloneObj` | modules/push.js:331-340 | A `'message'` packet gets `id := key` and one appended timestamp, and its other fields are kept. Every other packet is returned unchanged. |
| `Frames.OtherEventRejected` | modules/push.js:351-353 | A body whose quoted event name is not `message` is never accepted. |
| `Frames.EventBodyAckMid` | modules/push.js:351-353 | An event body is accepted exactly for the event `message`, and then yields the message id. |
| `Frames.StrategiesAgreeOnAck` | modules/push.js:331-358 | On frames whose message id is a string, where the event name and the id need no JSON escaping and the id has no white space, both strategies attach an ack exactly for the event `message`, with the same message id. |
| `Frames.SpacedMidRejected` | modules/push.js:351 | A `message` frame whose id has white space before any quote gets no ack from the textual strategy. |
| `Frames.StrategiesDifferOnSpacedMid` | modules/push.js:333-353 | The message id `a b` is acknowledged by the structural strategy and not by the textual one. |
| `Frames.StrategiesDifferOnNumericMid` | modules/push.js:333-353 | The numeric message id `5` is acknowledged by the structural strategy and not by the textual one. |
| `Frames.StrategiesDifferOnEscapedMid` | modules/push.js:333-353 | For the message id `a"b` the textual strategy records `a\`, the text before the escaped quote, while the structural one records `a"b`. |
| `Push.Gateway.Receive` | modules/push.js:224-251 | A bus message that is ignored changes nothing. A `repeat` directive runs `repeat` on exactly the selected connections. A `changeRoom` directive runs `changeRoom` on the selected connections in order and stops at the first that raises. When the room table lists each connection once per room it holds, a connection is selected once per requested room it holds, and never when excepted. |
| `Push.Gateway.DispatchRepeat` | modules/push.js:246-248 | Each visited connection is logged off, and the others are unchanged. |
| `Push.Gateway.DispatchChangeRoom` | modules/push.js:243-245 | `changeRoom` is applied to each visited connection in turn, as `DispatchChange` says. |
| `Push.DispatchTwice` | modules/push.js:205-218 | A coherent connection selected twice in a row is handled as if selected once. |
| `Push.DispatchStops` | modules/push.js:210-216 | Once a handler has raised, the remaining connections are not visited. |
| `ControlBus.ClassifyFilters` | modules/push.js:229-249 | A message from this server, with no packet, or from another namespace (the namespace defaults to `'/'`) is dropped. Only `changeRoom` with id `-2` and `repeat` with id `-1` are dispatched, where the id may be a string or a number. |
| `ControlBus.ClassifyChangeRoom` | modules/push.js:243-245 | A foreign `changeRoom`/`-2` message for this namespace is dispatched to its rooms minus `except`, with `data[2]` as payload. |
| `ControlBus.ClassifyRepeat` | modules/push.js:246-248 | A foreign `repeat`/`-1` message for this namespace is dispatched to its rooms minus `except`. |
| `ControlBus.Recipients` | modules/push.js:202-220 | The selection loop yields `Visits`: the ids room after room, in table order. |
| `ControlBus.AdmitRoom` | modules/push.js:209-218 | The inner loop keeps the ids of one room that are not excepted and are connected, in order. |
| `ControlBus.AdmitMembers` | modules/push.js:210-218 | An id is kept from one room exactly when it is listed, not excepted and connected, and then as often as it is listed. |
| `ControlBus.OccurrencesListed` | modules/push.js:205-219 | When each room lists a connection at most once, and lists it under exactly the rooms it holds, the connection is listed across the requested rooms once per requested room it holds. |
| `ControlBus.VisitsOfHolder` | modules/push.js:205-219 | A connected connection listed under exactly the rooms it holds, at most once per room, is visited once per requested room it holds, and never when excepted. |
| `ControlBus.VisitsByRooms` | modules/push.js:205-219 | With the room table in step with the connections' rooms, the selection visits each connected, non-excepted connection once per requested room it holds, and an excepted one never. |
| `ControlBus.VisitsExactly` | modules/push.js:205-219 | The selection visits exactly the connected, non-excepted ids listed under some requested room. It visits each as often as it is listed across those rooms. |
| `ControlBus.NoDeduplication` | modules/push.js:205-212 | A connection listed under two requested rooms is visited twice, because the map `ids` is never written. |
| `ControlBus.ChangeRoomPushDispatched` | modules/push.js:243-245 | Each emit of the `/changeRoom` batch push reaches every other gateway as a `changeRoom` directive for one listed user's room, with payload `{joins, leaves}`. |
| `ControlBus.RepeatPushDispatched` | modules/push.js:121-123 | The repeat notice of `login` reaches every other gateway as a `repeat` directive for the old connection's room. |
| `ControlBus.MessagePushIgnored` | modules/push.js:243-249 | An ordinary `message` push triggers no handler. |
| `Text.IndexOf` | modules/push.js:175 | `indexOf` finds the first occurrence, or reports absence exactly when the value is absent. |
| `Text.EntriesShape` | modules/api.js:29-30 | The entries of a list are exactly its non-empty split pieces. None is empty and none holds the separator. |
| `Text.NonEmptyCount` | modules/api.js:28-32 | Skipping empty pieces keeps every non-empty piece as often as it occurs. |
| `Text.KeyKindsDistinct` | modules/push.js:100-146 | A tag marker never equals an ownership key or a tag-list key, and an ack marker equals neither an ownership key nor a tag marker. |
| `Text.TagKeyInjective` | modules/push.js:111 | For one uid, distinct tags have distinct markers. |
| `Api.Emitter.PushMsgToSingleDevice` | modules/api.js:18-20 | One emit to the room named by the id, under `type \|\| 'message'`. |
| `Api.Emitter.PushBatchUniMsg` | modules/api.js:28-32 | One emit per non-empty split uid, in input order. |
| `Api.Emitter.PushMsgToRoom` | modules/api.js:40-44 | One emit per non-empty split room id, in order, to that room. |
| `Api.Emitter.PushMsgToAll` | modules/api.js:51-53 | Exactly one emit, to the whole namespace, with no room. |
| `Api.FanOutTargets` | modules/api.js:28-44 | A fan-out addresses exactly the non-empty entries, in input order, each as often as it occurs (no de-duplication). Every emit carries the event name `type \|\| 'message'`, the message id and the payload. |
| `Api.NoTargetsNoEmits` | modules/api.js:29-30 | An empty or all-separator list produces no emits. |
| `Api.SomeTargetSomeEmit` | modules/api.js:41-42 | A list with any other character produces at least one emit. |
| `Api.EventNameDefault` | modules/api.js:19 | The event name is never empty. It is `'message'` exactly when the type is omitted, empty or `'message'`. |
| `Routes.CollectParams` | routes/index.js:14-24 | The result is `None` exactly when some required key is `null` or undefined, so an empty string counts as present. Otherwise it holds the values in key order. |
| `Routes.Reached` | routes/index.js:57-59 | The offline loop gets through exactly the items before the first `null` one, and through all of them when none is `null`. |
| `Routes.Router.PushMsgToSingleDevice` | routes/index.js:35-39 | With a key missing the reply is `{code:1}` and nothing is sent. Otherwise the reply is `{code:0}` and there is one `message` emit to the user's room. |
| `Routes.Router.PushBatchUniMsg` | routes/index.js:40-44 | With a key missing the reply is `{code:1}`. Otherwise a batch push goes to the listed users, or the TypeError of a non-string list escapes. |
| `Routes.Router.PushMsgToRoom` | routes/index.js:45-49 | With a key missing the reply is `{code:1}`. Otherwise one push goes to each listed room, or a TypeError escapes. |
| `Routes.Router.PushMsgToAll` | routes/index.js:50-54 | With a key missing the reply is `{code:1}`. Otherwise there is one namespace-wide `message` emit and the reply is `{code:0}`. |
| `Routes.Router.PushOffLineMsg` | routes/index.js:55-61 | One single-device push per `msglist` entry, in order, with that entry's `msgId` and `message`. A `null` entry or a bad parse raises. |
| `Routes.Router.ChangeRoom` | routes/index.js:62-72 | Nothing is sent unless `joins` or `leaves` is truthy. Then a batch push goes out with id `"-2"`, payload `{joins, leaves}` and event `changeRoom`. |
| `Monit.Watchdog.OnConnect` | bin/monit.js:36-38 | A connect resets `errorCode` to `null` and reports nothing. |
| `Monit.Watchdog.OnError` | bin/monit.js:39-47 | An error updates `errorCode` and the report log as `React` says. |
| `Monit.ReportedIffDiffers` | bin/monit.js:40-41 | An error is reported exactly when its code loosely differs from `errorCode`, which then becomes that code. Otherwise nothing changes. |
| `Monit.TitleChoice` | bin/monit.js:43 | The refusal title is chosen exactly for the code `ECONNREFUSED`. |
| `Monit.RepeatsSilent` | bin/monit.js:39-47 | After one error, further errors with the same code report nothing and keep `errorCode`. |
| `Monit.ConnectRearms` | bin/monit.js:36-47 | A connect followed by an error with a string code reports that error, with its title. |
| `Monit.UndefinedAfterNullSilent` | bin/monit.js:34-40 | Right after `null` (the start or a connect), an error without a code is not reported, because `null != undefined` is false. |
| `Console.GetDisplayLength` | test/create.js:35-45 | The accumulating loop returns `DisplayWidth`: 1 per code unit in `0..128`, 2 otherwise. |
| `Console.WidthBounds` | test/create.js:35-45 | The display width lies between the length and twice the length. |
| `Console.WidthIsLength` | test/create.js:39-43 | The width equals the length exactly when every code unit is at most 128, with 128 included. |
| `Console.RowsColumns` | test/create.js:52-62 | For a column width C > 0, `rows*C + columns` is the display width and `0 <= columns < C`. A missing or zero width gives no result (`NaN`). |
| `Console.RowsColumnsAsWritten` | test/create.js:52-62 | As written, `rows*C + columns` is still the display width, but `columns` can be negative. |
| `Console.TinyQuotientCounterexample` | test/create.js:55 | Width 1 and 10000000 columns give one row and -9999999 columns. |
| `Console.Loop` | test/create.js:16-27 | `func` runs at least once, and exactly `count` times for an integer `count >= 1`. In general it runs the least number of times that reaches `count`. |

## Left out

- Transport internals are not modelled: socket.io, socket.io-redis, socket.io-parser, msgpack-js and socket.io-emitter. `packetDecode` (modules/push.js:291-300) and `msgpack.decode` (modules/push.js:226) become decoded inputs (`decoded`, `BusMessage`). The emitter's transport becomes the `sent` log.
- Redis calls complete at once in the main model, and store errors are not modelled. A `login` event that switches uids always runs differently: `logout`'s callback runs after the synchronous `login` (modules/push.js:140-150 against :88). `Session.OnLoginAsWritten` models that order; see Findings. What becomes of the process after the TypeError thrown in a store callback is not modelled.
- `Session.OnLoginTakesUid`: holds only with store callbacks completing at once. As the program runs, a switch of uid ends with no identity (`Session.SwitchAsWrittenAnonymous`).
- `Session.OnLoginSwitch`: holds only with store callbacks completing at once. As the program runs, `user@<new>` is deleted instead of `user@<old>`, then taken again by the ownership callback (`Session.SwitchAsWrittenLosesIdentity`).
- `Session.ChangeRoomTags`: requires a coherent connection, with a duplicate-free tag list. A `room@<uid>` that lists a tag twice breaks this: leaving the tag keeps one copy whose room and marker are gone (`Session.RepeatedStoredTagSurvivesLeave`).
- The publish of the login to a randomly chosen server (modules/push.js:128) uses `Math.random` and is not modelled. The `io.sockets` cleanup on disconnect (modules/push.js:72-73), the `handshake` hook and all console error logging are not modelled either. The `logout` and `disconnect` events run `Push.Gateway.Logout`.
- `Push.Gateway.Receive`: recipients are chosen from a snapshot of the adapter's room table taken before the handlers run. The source's loop reads the live table (modules/push.js:205-218). A handler that leaves a room can drop a later visit, and one that joins a room can add one. For `repeat` this makes no difference, since a second `repeat` finds no identity. For `changeRoom` on a coherent connection (`Session.ConnCoherent`), a second visit straight after a first that did not raise changes nothing (`Session.ChangeRoomAgain`, `Push.DispatchTwice`). The results can differ in two cases. One is a connection carrying a repeated tag (`Session.RepeatedStoredTagSurvivesLeave`): with `room@u = a,a` and rooms `[u, a]`, the snapshot visits it twice and leaves both copies, while the live loop leaves one. The other is when other connections' handlers run between the two visits and change the shared markers.
- `Push.Gateway.PacketCloneStr`: requires at least one encoded frame. socket.io-emitter always hands over one, and the source would throw on an empty array.
- `Push.Gateway.SocketPacket`: requires an encoded frame array whenever the textual strategy runs, for the same reason.
- User ids, message ids and payloads are JavaScript values limited to `undefined`, `null`, strings, integers and the `{joins, leaves}` object. Comparing other objects by reference is not modelled.
- `config.separator` is taken to be a single character.
- The two frame strategies are not wire-identical: only the structural one appends a timestamp (modules/push.js:337). The model claims agreement only on whether an ack is attached and on its message id.
- Koa plumbing is not modelled: route registration, the development render routes (routes/index.js:76-87) and the text of `JSON.parse`. The parse result is an input (`Parsed`).
- app.js, index.js, modules/redis.js, test/message.js and test/client.js are not part of this model. The same goes for the mailer side of bin/monit.js (bin/monit.js:8-30) and the load-test latency statistics.
- `Console.Loop` does not model the timer delays between calls. `count` is a JavaScript number without `NaN`.
- `Console.RowsColumns` does not model floating-point rounding of the quotient. For quotients of at least 10^21, which JavaScript also writes in exponent notation, it likewise states the intended integer quotient.

### Behaviour worth knowing

- Only an outbound event named `message` gets an ack (modules/push.js:333, 351-353).
- `/pushOffLineMsg` pushes each entry and returns at once (routes/index.js:55-61).
- Only the structural strategy appends a timestamp (modules/push.js:337).
- A message id with white space gets an ack from the structural strategy only (`Frames.StrategiesDifferOnSpacedMid`).
- A numeric message id (`2["message",5,...]`) gets an ack from the structural strategy only (`Frames.StrategiesDifferOnNumericMid`).
- A message id with an escaped quote is recorded by the textual strategy up to the backslash before the quote (`Frames.StrategiesDifferOnEscapedMid`).

## Findings

| source | as written | input that shows it | evidently intended | confidence | as-written member | corrected member |
|---|---|---|---|---|---|---|
| test/create.js:55 | `parseInt(strDisplayLength / consoleMaxColumns, 10)` parses the quotient's text. JavaScript writes a positive quotient below 10^-6 in exponent notation, and `parseInt` keeps only its leading digit. | display width 1 on a console of 10000000 columns: `1/1e7` is written `1e-7`, giving rows 1 and columns -9999999 | rows = integer quotient (0), columns = remainder (1) | not executed; certain for this input, though a console that wide is unusual | `Console.TinyQuotientCounterexample` | `Console.RowsColumns` |
| modules/push.js:136-150 | `logout`'s callback reads `socket.heikuai.uid` when the store replies. On a switch of uid (modules/push.js:52-60), the synchronous `login` has by then installed the new identity. | a connection logged in as `a` and owning `user@a` receives `login` with `b`: the callback deletes `user@b` rather than `user@a` and sets `heikuai` to null, so the connection ends with no identity while `user@a` still names it; if `room@b` has an entry, the tag callback throws | identity `b`, `user@a` deleted, `user@b` naming the connection | not executed; relies on redis answering in command order after the handler returns | `Session.SwitchAsWrittenLosesIdentity` | `Session.OnLoginSwitch` |
