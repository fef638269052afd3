/**
 * The two ways the gateway attaches an acknowledgement id to an outgoing
 * Socket.IO event frame (modules/push.js:331-358), with the ack key given:
 * the structural one on a decoded packet, the textual one on the encoded text
 * `<type digit>[/nsp,][ack id]<JSON array>`.
 */
module Frames {
  import opened Wrappers
  import opened Js
  import opened Text

  /** A decoded Socket.IO packet: its type, namespace (`None` when undefined), event arguments and ack id. */
  datatype Packet = Packet(kind: nat, nsp: Option<string>, data: seq<Value>, id: Option<nat>)

  // ----- textual strategy

  /**
   * `p.substring(p.indexOf('['))`: the text from the first `[`; the whole text
   * when there is none, since `substring(-1)` starts at 0.
   */
  function Body(p: string): (d: string)
    ensures |d| <= |p| && d == p[|p| - |d|..]
  {
    match IndexOf(p, '[')
    case None => p
    case Some(i) => p[i..]
  }

  /** The body is the whole frame when it has no `[`, and otherwise starts at its first `[`. */
  lemma BodySpec(p: string)
    ensures '[' !in p ==> Body(p) == p
    ensures '[' in p ==> Body(p) != [] && Body(p)[0] == '[' && '[' !in p[..|p| - |Body(p)|]
  {
  }

  /** The 12 characters `["message","` that open an accepted frame body. */
  const MessageHead: string := "[\"message\",\""

  /** The index of the first `"` at or after `j`, provided no `\s` character comes before it. */
  function QuoteAt(d: string, j: nat): (r: Option<nat>)
    ensures r.Some? ==> j <= r.value < |d|
    decreases |d| - j
  {
    if j >= |d| then None
    else if d[j] == '"' then Some(j)
    else if IsSpace(d[j]) then None
    else QuoteAt(d, j + 1)
  }

  /**
   * The message id of a frame body when the test at push.js:351-353 accepts it
   * (the regular expression `^\["([\S]*?)","([\S]*?)"` matches with the first
   * group equal to `message`), `None` when it does not.
   */
  function MessageMid(d: string): Option<string> {
    if |d| >= |MessageHead| && d[..|MessageHead|] == MessageHead then
      match QuoteAt(d, |MessageHead|)
      case None => None
      case Some(k) => Some(d[|MessageHead|..k])
    else None
  }

  /** A message id the textual strategy can carry: no `"` and no `\s` character. */
  predicate PlainMid(m: string) {
    forall i :: 0 <= i < |m| ==> m[i] != '"' && !IsSpace(m[i])
  }

  /** `(nsp === '/' ? '' : nsp + ',')`. */
  function NspPart(nsp: string): string {
    if nsp == "/" then "" else nsp + ","
  }

  /** The message id the textual strategy acknowledges in an encoded packet, if any. */
  function TextAckMid(frames: seq<string>): Option<string>
    requires |frames| >= 1
  {
    MessageMid(Body(frames[0]))
  }

  /** `packetCloneStr` once `createAck` has returned `key`: always exactly one frame. */
  function CloneStr(frames: seq<string>, nsp: string, key: nat): (r: seq<string>)
    requires |frames| >= 1
    ensures |r| == 1
  {
    var p := frames[0];
    var d := Body(p);
    if MessageMid(d).Some? then [Splice(p[0], nsp, key, d)] else [p]
  }

  /** The rewritten frame: the type character, the namespace part, the ack key in decimal, then the body. */
  function Splice(kind: char, nsp: string, key: nat, d: string): string {
    [kind] + (NspPart(nsp) + (NatText(key) + d))
  }

  // ----- structural strategy

  /** The message id the structural strategy acknowledges in a decoded packet, if any. */
  function ObjAckMid(p: Packet): Option<Value> {
    if At(p.data, 0) == Str("message") then Some(At(p.data, 1)) else None
  }

  /** `packetCloneObj` once `createAck` has returned `key`, with `now` standing for `Date.now()`. */
  function CloneObj(p: Packet, key: nat, now: int): (r: Packet)
    ensures ObjAckMid(p).Some? ==>
      r.kind == p.kind && r.nsp == p.nsp && r.id == Some(key) &&
      |r.data| == |p.data| + 1 && r.data[..|p.data|] == p.data && r.data[|p.data|] == Num(now)
    ensures ObjAckMid(p).None? ==> r == p
  {
    if ObjAckMid(p).Some? then p.(id := Some(key), data := p.data + [Num(now)]) else p
  }

  // ----- the grammar the textual strategy accepts

  lemma {:induction false} QuoteAtSpec(d: string, j: nat, k: nat)
    ensures QuoteAt(d, j) == Some(k) <==>
      j <= k < |d| && d[k] == '"' && forall i :: j <= i < k ==> d[i] != '"' && !IsSpace(d[i])
    decreases |d| - j
  {
    if j < |d| && d[j] != '"' && !IsSpace(d[j]) {
      QuoteAtSpec(d, j + 1, k);
    }
  }

  /**
   * The textual strategy accepts a body exactly when it starts with
   * `["message","`, then a message id free of `"` and `\s`, then `"`; the
   * message id is that text.
   */
  lemma MessageMidSpec(d: string, m: string)
    ensures MessageMid(d) == Some(m) <==>
      PlainMid(m) && |d| >= |MessageHead| + |m| + 1 && d[..|MessageHead| + |m| + 1] == MessageHead + m + "\""
  {
    var h := |MessageHead|;
    if MessageMid(d) == Some(m) {
      var k := QuoteAt(d, h).value;
      QuoteAtSpec(d, h, k);
      assert m == d[h..k];
      assert d[..h + |m| + 1] == d[..h] + d[h..k] + [d[k]];
    }
    if PlainMid(m) && |d| >= h + |m| + 1 && d[..h + |m| + 1] == MessageHead + m + "\"" {
      var k := h + |m|;
      assert d[..h] == MessageHead;
      forall i | h <= i < k ensures d[i] != '"' && !IsSpace(d[i]) {
        assert d[i] == d[..h + |m| + 1][i] == m[i - h];
      }
      assert d[k] == d[..h + |m| + 1][k];
      QuoteAtSpec(d, h, k);
      assert d[h..k] == m;
    }
  }

  // ----- what the textual strategy leaves in place

  lemma BodyOfPrefixed(pre: string, d: string)
    requires '[' !in pre && |d| >= 1 && d[0] == '['
    ensures Body(pre + d) == d
  {
    var t := pre + d;
    IndexOfAfter(pre, d, '[');
    assert IndexOf(d, '[') == Some(0);
    assert t[|pre|..] == d;
  }

  /**
   * A rewritten frame keeps the accepted body from the first `[` byte for
   * byte, so it is accepted again with the same message id; a frame that is
   * not accepted comes back unchanged.
   */
  lemma CloneStrKeepsBody(frames: seq<string>, nsp: string, key: nat)
    requires |frames| >= 1
    requires '[' !in nsp && frames[0] != [] && frames[0][0] != '['
    ensures Body(CloneStr(frames, nsp, key)[0]) == Body(frames[0])
    ensures TextAckMid(CloneStr(frames, nsp, key)) == TextAckMid(frames)
    ensures TextAckMid(frames).None? ==> CloneStr(frames, nsp, key) == [frames[0]]
  {
    var p := frames[0];
    var d := Body(p);
    if MessageMid(d).Some? {
      MessageMidSpec(d, MessageMid(d).value);
      assert d[0] == MessageHead[0];
      SpliceHasNoBracket(p[0], nsp, key, d);
    }
  }

  /** The spliced header holds no `[`, so the body is still found where it starts. */
  lemma SpliceHasNoBracket(kind: char, nsp: string, key: nat, d: string)
    requires kind != '[' && '[' !in nsp
    requires |d| >= 1 && d[0] == '['
    ensures Body(Splice(kind, nsp, key, d)) == d
  {
    var digits := NatText(key);
    var pre := [kind] + NspPart(nsp) + digits;
    assert '[' !in digits by {
      forall i | 0 <= i < |digits| ensures digits[i] != '[' {
      }
    }
    assert '[' !in NspPart(nsp);
    assert '[' !in pre;
    assert Splice(kind, nsp, key, d) == pre + d;
    BodyOfPrefixed(pre, d);
  }

  // ----- reading the header back

  /** The header fields of an encoded packet: type character, namespace, ack id and the JSON text after them. */
  datatype Header = Header(kind: char, nsp: string, id: Option<nat>, json: string)

  /** The length of the longest prefix of decimal digits. */
  function DigitRun(t: string): (n: nat)
    ensures n <= |t|
    ensures forall i :: 0 <= i < n ==> '0' <= t[i] <= '9'
    ensures n < |t| ==> !('0' <= t[n] <= '9')
    decreases |t|
  {
    if t != [] && '0' <= t[0] <= '9' then 1 + DigitRun(t[1..]) else 0
  }

  /** The number a string of decimal digits denotes. */
  function DecimalValue(t: string): nat
    requires forall i :: 0 <= i < |t| ==> '0' <= t[i] <= '9'
    decreases |t|
  {
    if t == [] then 0 else 10 * DecimalValue(t[..|t| - 1]) + (t[|t| - 1] as int - '0' as int)
  }

  /**
   * The Socket.IO text header: the type character, then a namespace running
   * from a `/` to the next `,` (the default namespace `/` when there is no
   * `/`), then an optional run of digits (the ack id), then the JSON text.
   */
  function ReadHeader(t: string): Option<Header> {
    if t == [] then None
    else
      var parts := SplitNsp(t[1..]);
      var n := DigitRun(parts.1);
      Some(Header(t[0], parts.0, if n == 0 then None else Some(DecimalValue(parts.1[..n])), parts.1[n..]))
  }

  /** The namespace at the front of a header (up to the next `,`, which is dropped) and what follows it. */
  function SplitNsp(rest: string): (string, string) {
    if rest != [] && rest[0] == '/' then
      match IndexOf(rest, ',')
      case None => (rest, "")
      case Some(c) => (rest[..c], rest[c + 1..])
    else ("/", rest)
  }

  lemma {:induction false} DecimalOfNatText(k: nat)
    ensures DecimalValue(NatText(k)) == k
    decreases k
  {
    if k >= 10 {
      DecimalOfNatText(k / 10);
      var t := NatText(k);
      assert t[..|t| - 1] == NatText(k / 10);
    }
  }

  lemma {:induction false} DigitRunOfDigits(ds: string, d: string)
    requires forall i :: 0 <= i < |ds| ==> '0' <= ds[i] <= '9'
    requires d != [] && !('0' <= d[0] <= '9')
    ensures DigitRun(ds + d) == |ds|
    decreases |ds|
  {
    if ds != [] {
      assert (ds + d)[1..] == ds[1..] + d;
      DigitRunOfDigits(ds[1..], d);
    }
  }

  /** The header written by the splice reads back field by field. */
  lemma ReadSplicedHeader(kind: char, nsp: string, key: nat, d: string)
    requires |d| >= 1 && d[0] == '['
    requires nsp == "/" || (|nsp| >= 1 && nsp[0] == '/' && ',' !in nsp)
    ensures ReadHeader(Splice(kind, nsp, key, d)) == Some(Header(kind, nsp, Some(key), d))
  {
    var t := Splice(kind, nsp, key, d);
    assert t[1..] == NspPart(nsp) + (NatText(key) + d);
    SplitNspOf(nsp, NatText(key) + d);
    ReadHeaderParts(t, nsp, NatText(key), d);
    DecimalOfNatText(key);
  }

  lemma ReadHeaderParts(t: string, nsp: string, digits: string, d: string)
    requires t != [] && SplitNsp(t[1..]) == (nsp, digits + d)
    requires digits != [] && forall i :: 0 <= i < |digits| ==> '0' <= digits[i] <= '9'
    requires d != [] && !('0' <= d[0] <= '9')
    ensures ReadHeader(t) == Some(Header(t[0], nsp, Some(DecimalValue(digits)), d))
  {
    var after := digits + d;
    DigitRunOfDigits(digits, d);
    assert after[..|digits|] == digits;
    assert after[|digits|..] == d;
  }

  lemma SplitNspOf(nsp: string, after: string)
    requires nsp == "/" || (|nsp| >= 1 && nsp[0] == '/' && ',' !in nsp)
    requires after != [] && after[0] != '/'
    ensures SplitNsp(NspPart(nsp) + after) == (nsp, after)
  {
    var rest := NspPart(nsp) + after;
    if nsp != "/" {
      assert rest == nsp + ([','] + after);
      IndexOfAfter(nsp, [','] + after, ',');
      assert IndexOf(rest, ',') == Some(|nsp|);
      assert rest[..|nsp|] == nsp;
      assert rest[|nsp| + 1..] == after;
    } else {
      assert rest == after;
    }
  }

  /**
   * The textual strategy puts the ack key in the frame's envelope: the
   * rewritten frame's header reads back as the original type character, the
   * configured namespace and the ack key, followed by the untouched body.
   */
  lemma SplicedHeaderReadsBack(frames: seq<string>, nsp: string, key: nat)
    requires |frames| >= 1 && TextAckMid(frames).Some?
    requires nsp == "/" || (|nsp| >= 1 && nsp[0] == '/' && ',' !in nsp)
    ensures ReadHeader(CloneStr(frames, nsp, key)[0]) == Some(Header(frames[0][0], nsp, Some(key), Body(frames[0])))
  {
    var d := Body(frames[0]);
    MessageMidSpec(d, TextAckMid(frames).value);
    assert d[0] == MessageHead[0];
    ReadSplicedHeader(frames[0][0], nsp, key, d);
  }

  // ----- the two strategies side by side

  /** An event name or message id that JSON writes between quotes unchanged: no `"` and no `\`. */
  predicate JsonPlain(s: string) {
    forall i :: 0 <= i < |s| ==> s[i] != '"' && s[i] != '\\'
  }

  /** The encoded text of an event frame whose first two arguments are the strings `event` and `mid`. */
  function EncodedEvent(kind: char, header: string, event: string, mid: string, tail: string): string {
    [kind] + header + EventBody(event, mid, tail)
  }

  /** The JSON array text `["event","mid"` followed by the rest of the arguments. */
  function EventBody(event: string, mid: string, tail: string): string {
    "[\"" + event + "\"" + (",\"" + mid + "\"" + tail)
  }

  /** A body whose quoted event name is not `message` is never accepted. */
  lemma OtherEventRejected(event: string, rest: string)
    requires JsonPlain(event) && event != "message"
    ensures MessageMid("[\"" + event + "\"" + rest).None?
  {
    var d := "[\"" + event + "\"" + rest;
    var h := |MessageHead|;
    if |d| >= h {
      assert d[2..2 + |event|] == event;
      assert d[2 + |event|] == '"';
      var i: nat;
      if |event| < 7 {
        i := 2 + |event|;
      } else if |event| > 7 {
        i := 9;
        assert d[9] == event[7];
      } else {
        assert !(forall j :: 0 <= j < 7 ==> event[j] == "message"[j]);
        var j :| 0 <= j < 7 && event[j] != "message"[j];
        i := 2 + j;
        assert d[i] == event[j];
      }
      assert d[i] != MessageHead[i];
      assert d[..h][i] == d[i];
    }
  }

  /**
   * On a frame whose event name and message id need no JSON escaping and whose
   * message id has no white space, the two strategies agree on whether an ack
   * is attached (exactly for the event `message`) and on the message id the
   * ack records.
   */
  lemma StrategiesAgreeOnAck(kind: char, header: string, event: string, mid: string, tail: string, more: seq<Value>, p: Packet)
    requires kind != '[' && '[' !in header
    requires JsonPlain(event) && JsonPlain(mid) && PlainMid(mid)
    requires p.data == [Str(event), Str(mid)] + more
    ensures TextAckMid([EncodedEvent(kind, header, event, mid, tail)]).Some? <==> ObjAckMid(p).Some?
    ensures ObjAckMid(p).Some? <==> event == "message"
    ensures ObjAckMid(p).Some? ==>
      TextAckMid([EncodedEvent(kind, header, event, mid, tail)]) == Some(mid) && ObjAckMid(p) == Some(Str(mid))
  {
    var d := EventBody(event, mid, tail);
    assert d[0] == '[';
    BodyOfPrefixed([kind] + header, d);
    assert At(p.data, 0) == Str(event) && At(p.data, 1) == Str(mid);
    EventBodyAckMid(event, mid, tail);
  }

  /** The textual strategy accepts an event body exactly for the event `message`, and then reads the message id. */
  lemma EventBodyAckMid(event: string, mid: string, tail: string)
    requires JsonPlain(event) && PlainMid(mid)
    ensures MessageMid(EventBody(event, mid, tail)) == if event == "message" then Some(mid) else None
  {
    var d := EventBody(event, mid, tail);
    if event == "message" {
      assert d == MessageHead + mid + "\"" + tail;
      assert d[..|MessageHead| + |mid| + 1] == MessageHead + mid + "\"";
      MessageMidSpec(d, mid);
    } else {
      OtherEventRejected(event, ",\"" + mid + "\"" + tail);
    }
  }

  /** The scan for the closing quote gives up at the first white space before any quote. */
  lemma {:induction false} QuoteAtStopsAtSpace(d: string, j: nat, k: nat)
    requires j <= k < |d| && IsSpace(d[k])
    requires forall i :: j <= i < k ==> d[i] != '"'
    ensures QuoteAt(d, j).None?
    decreases k - j
  {
    if j < k && !IsSpace(d[j]) {
      QuoteAtStopsAtSpace(d, j + 1, k);
    }
  }

  /**
   * The textual strategy attaches no ack to a `message` frame whose message
   * id has white space before any quote, whatever follows it.
   */
  lemma SpacedMidRejected(mid: string, tail: string, k: nat)
    requires k < |mid| && IsSpace(mid[k])
    requires forall i :: 0 <= i < k ==> mid[i] != '"'
    ensures MessageMid(EventBody("message", mid, tail)).None?
  {
    var d := EventBody("message", mid, tail);
    var h := |MessageHead|;
    assert d == MessageHead + (mid + ("\"" + tail));
    assert d[..h] == MessageHead;
    forall i | h <= i < h + k ensures d[i] != '"' {
      assert d[i] == mid[i - h];
    }
    assert d[h + k] == mid[k];
    QuoteAtStopsAtSpace(d, h, h + k);
  }

  /** A message id with a space is acknowledged by the structural strategy but not by the textual one. */
  lemma StrategiesDifferOnSpacedMid()
    ensures TextAckMid([EncodedEvent('2', "", "message", "a b", "]")]).None?
    ensures ObjAckMid(Packet(2, None, [Str("message"), Str("a b")], None)) == Some(Str("a b"))
  {
    var d := EventBody("message", "a b", "]");
    assert d[0] == '[';
    BodyOfPrefixed("2", d);
    assert "a b"[1] == ' ';
    SpacedMidRejected("a b", "]", 1);
  }

  /** A numeric message id is acknowledged by the structural strategy but not by the textual one. */
  lemma StrategiesDifferOnNumericMid()
    ensures TextAckMid(["2[\"message\",5,\"hi\"]"]).None?
    ensures ObjAckMid(Packet(2, None, [Str("message"), Num(5), Str("hi")], None)) == Some(Num(5))
  {
    var d := "[\"message\",5,\"hi\"]";
    assert d[0] == '[';
    BodyOfPrefixed("2", d);
    assert d[..|MessageHead|][11] == '5' != MessageHead[11];
  }

  /**
   * A message id with an escaped quote is acknowledged by the textual
   * strategy with the text up to the escaped quote, backslash included, and by
   * the structural strategy with the whole decoded id.
   */
  lemma StrategiesDifferOnEscapedMid()
    ensures TextAckMid(["2[\"message\",\"a\\\"b\"]"]) == Some("a\\")
    ensures ObjAckMid(Packet(2, None, [Str("message"), Str("a\"b")], None)) == Some(Str("a\"b"))
  {
    var d := "[\"message\",\"a\\\"b\"]";
    assert d[0] == '[';
    BodyOfPrefixed("2", d);
    assert d[..|MessageHead| + 3] == MessageHead + "a\\" + "\"";
    MessageMidSpec(d, "a\\");
  }
}
