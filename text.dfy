/**
 * String helpers shared by the gateway: JavaScript's `String.prototype.split`
 * with a one-character separator (the configured `config.separator`), the
 * "skip empty entries" filter every caller applies to its result, and the
 * key formats of the shared redis store.
 */
module Text {
  import opened Wrappers

  /**
   * `s.split(sep)`: the pieces between occurrences of `sep`, in order. There is
   * always at least one piece; `"".split(sep)` is `[""]`.
   */
  function Split(s: string, sep: char): (r: seq<string>)
    ensures |r| >= 1
    decreases |s|
  {
    if s == [] then [""]
    else
      var rest := Split(s[1..], sep);
      if s[0] == sep then [""] + rest
      else [[s[0]] + rest[0]] + rest[1..]
  }

  /** `pieces.join(sep)`: the inverse of `Split`. */
  function Join(pieces: seq<string>, sep: char): string
    decreases |pieces|
  {
    if pieces == [] then ""
    else if |pieces| == 1 then pieces[0]
    else pieces[0] + [sep] + Join(pieces[1..], sep)
  }

  /** The pieces that are not the empty string, in order (the `if (room)` guard of every caller). */
  function NonEmpty(pieces: seq<string>): seq<string>
    decreases |pieces|
  {
    if pieces == [] then []
    else if pieces[0] == "" then NonEmpty(pieces[1..])
    else [pieces[0]] + NonEmpty(pieces[1..])
  }

  /** The non-empty entries of a separator-joined list. */
  function Entries(s: string, sep: char): seq<string> {
    NonEmpty(Split(s, sep))
  }

  /** No element occurs twice. */
  predicate NoDup(s: seq<string>) {
    forall i, j :: 0 <= i < j < |s| ==> s[i] != s[j]
  }

  /** `p.indexOf(c)` on a string or an array, with `None` for -1. */
  function IndexOf<T(==)>(p: seq<T>, c: T): (r: Option<nat>)
    ensures r.Some? ==> r.value < |p| && p[r.value] == c && c !in p[..r.value]
    ensures r.None? ==> c !in p
    decreases |p|
  {
    if p == [] then None
    else if p[0] == c then Some(0)
    else
      var r := IndexOf(p[1..], c);
      if r.Some? then
        assert p[..r.value + 1] == [p[0]] + p[1..][..r.value];
        Some(r.value + 1)
      else
        assert p == [p[0]] + p[1..];
        None
  }

  /** Searching past a prefix that lacks the character. */
  lemma {:induction false} IndexOfAfter<T>(a: seq<T>, b: seq<T>, c: T)
    requires c !in a
    ensures IndexOf(a + b, c) == if IndexOf(b, c).Some? then Some(|a| + IndexOf(b, c).value) else None
    decreases |a|
  {
    if a == [] {
      assert a + b == b;
    } else {
      assert a[0] in a;
      assert (a + b)[1..] == a[1..] + b;
      IndexOfAfter(a[1..], b, c);
    }
  }

  // ----- keys of the shared store (`util.format` with `%s` on strings is concatenation)

  /** `user@<uid>`: the id of the socket that owns the uid. */
  function UserKey(uid: string): string { "user@" + uid }

  /** `room@<uid>`: the separator-joined tag list stored for a uid. */
  function RoomKey(uid: string): string { "room@" + uid }

  /** `tag@<tag>@<uid>`: marker that the uid carries the tag. */
  function TagKey(tag: string, uid: string): string { "tag@" + tag + "@" + uid }

  /** `msg@<mid>@<uid>`: marker that the uid acknowledged message mid. */
  function AckKey(mid: string, uid: string): string { "msg@" + mid + "@" + uid }

  // ----- properties of Split

  /** Splitting and joining again gives back the original text. */
  lemma {:induction false} JoinSplit(s: string, sep: char)
    ensures Join(Split(s, sep), sep) == s
    decreases |s|
  {
    if s != [] {
      JoinSplit(s[1..], sep);
      var rest := Split(s[1..], sep);
      if s[0] == sep {
        assert Split(s, sep) == [""] + rest;
        assert s == [sep] + s[1..];
      } else {
        var r := Split(s, sep);
        assert r == [[s[0]] + rest[0]] + rest[1..];
        if |rest| == 1 {
          assert Join(r, sep) == [s[0]] + rest[0];
        } else {
          assert r[1..] == rest[1..];
          assert Join(r, sep) == [s[0]] + rest[0] + [sep] + Join(rest[1..], sep);
          assert Join(rest, sep) == rest[0] + [sep] + Join(rest[1..], sep);
        }
        assert s == [s[0]] + s[1..];
      }
    }
  }

  /** No piece contains the separator. */
  lemma {:induction false} SplitPiecesFree(s: string, sep: char)
    ensures forall i :: 0 <= i < |Split(s, sep)| ==> sep !in Split(s, sep)[i]
    decreases |s|
  {
    if s != [] {
      SplitPiecesFree(s[1..], sep);
      var rest := Split(s[1..], sep);
      if s[0] != sep {
        var r := Split(s, sep);
        forall i | 0 <= i < |r| ensures sep !in r[i] {
          if i == 0 {
            assert r[0] == [s[0]] + rest[0];
          } else {
            assert r[i] == rest[i];
          }
        }
      }
    }
  }

  /** The number of pieces is one more than the number of separators. */
  lemma {:induction false} SplitCount(s: string, sep: char)
    ensures |Split(s, sep)| == multiset(s)[sep] + 1
    decreases |s|
  {
    if s != [] {
      SplitCount(s[1..], sep);
      assert s == [s[0]] + s[1..];
      assert multiset(s) == multiset{s[0]} + multiset(s[1..]);
    }
  }

  // ----- properties of NonEmpty and Entries

  /** An element is kept exactly when it was a non-empty piece. */
  lemma {:induction false} NonEmptyMembers(pieces: seq<string>, x: string)
    ensures x in NonEmpty(pieces) <==> x in pieces && x != ""
    decreases |pieces|
  {
    if pieces != [] {
      NonEmptyMembers(pieces[1..], x);
      assert pieces == [pieces[0]] + pieces[1..];
    }
  }

  /** Filtering is compatible with appending one piece at the end (what a forward loop needs). */
  lemma {:induction false} NonEmptySnoc(pieces: seq<string>, p: string)
    ensures NonEmpty(pieces + [p]) == NonEmpty(pieces) + (if p == "" then [] else [p])
    decreases |pieces|
  {
    if pieces == [] {
      assert [p][1..] == [];
    } else {
      assert (pieces + [p])[1..] == pieces[1..] + [p];
      NonEmptySnoc(pieces[1..], p);
    }
  }

  /** Each non-empty piece is kept as often as it occurs: duplicates are not removed. */
  lemma {:induction false} NonEmptyCount(pieces: seq<string>, x: string)
    requires x != ""
    ensures multiset(NonEmpty(pieces))[x] == multiset(pieces)[x]
    decreases |pieces|
  {
    if pieces != [] {
      NonEmptyCount(pieces[1..], x);
      assert pieces == [pieces[0]] + pieces[1..];
      assert multiset(pieces) == multiset{pieces[0]} + multiset(pieces[1..]);
    }
  }

  /** The kept elements are non-empty and at most as many as the pieces. */
  lemma {:induction false} NonEmptyShape(pieces: seq<string>)
    ensures |NonEmpty(pieces)| <= |pieces|
    ensures forall i :: 0 <= i < |NonEmpty(pieces)| ==> NonEmpty(pieces)[i] != ""
    decreases |pieces|
  {
    if pieces != [] {
      NonEmptyShape(pieces[1..]);
    }
  }

  /**
   * The entries of a list are exactly its non-empty pieces; none is empty and
   * none contains the separator.
   */
  lemma EntriesShape(s: string, sep: char)
    ensures forall x :: x in Entries(s, sep) <==> x in Split(s, sep) && x != ""
    ensures forall i :: 0 <= i < |Entries(s, sep)| ==> Entries(s, sep)[i] != "" && sep !in Entries(s, sep)[i]
  {
    forall x ensures x in Entries(s, sep) <==> x in Split(s, sep) && x != "" {
      NonEmptyMembers(Split(s, sep), x);
    }
    NonEmptyShape(Split(s, sep));
    SplitPiecesFree(s, sep);
    forall i | 0 <= i < |Entries(s, sep)| ensures sep !in Entries(s, sep)[i] {
      var x := Entries(s, sep)[i];
      NonEmptyMembers(Split(s, sep), x);
    }
  }

  /** A list made only of separators (the empty list included) has no entries. */
  lemma {:induction false} OnlySeparatorsNoEntries(s: string, sep: char)
    requires forall i :: 0 <= i < |s| ==> s[i] == sep
    ensures Entries(s, sep) == []
    decreases |s|
  {
    if s == [] {
      assert NonEmpty([""]) == NonEmpty([""][1..]);
    } else {
      OnlySeparatorsNoEntries(s[1..], sep);
      var r := Split(s, sep);
      assert r == [""] + Split(s[1..], sep);
      assert r[1..] == Split(s[1..], sep);
    }
  }

  /** A list with some non-separator character has at least one entry. */
  lemma {:induction false} SomeTextSomeEntry(s: string, sep: char, k: nat)
    requires k < |s| && s[k] != sep
    ensures Entries(s, sep) != []
    decreases |s|
  {
    var rest := Split(s[1..], sep);
    if s[0] != sep {
      assert Split(s, sep)[0] != "";
    } else {
      SomeTextSomeEntry(s[1..], sep, k - 1);
      assert Split(s, sep) == [""] + rest;
    }
  }

  // ----- the key formats keep the kinds of marker apart

  /** A tag marker never coincides with an ownership key or a stored tag list. */
  lemma KeyKindsDistinct(t: string, u: string, v: string, m: string)
    ensures TagKey(t, u) != UserKey(v) && TagKey(t, u) != RoomKey(v)
    ensures AckKey(m, u) != UserKey(v) && AckKey(m, u) != TagKey(t, v)
    ensures UserKey(u) != RoomKey(v)
  {
    assert TagKey(t, u)[0] == 't' && UserKey(v)[0] == 'u' && RoomKey(v)[0] == 'r' && AckKey(m, u)[0] == 'm';
  }

  /** For one uid, distinct tags give distinct markers. */
  lemma TagKeyInjective(t1: string, t2: string, u: string)
    requires TagKey(t1, u) == TagKey(t2, u)
    ensures t1 == t2
  {
    var k1, k2 := TagKey(t1, u), TagKey(t2, u);
    assert |t1| == |t2|;
    assert t1 == k1[4..4 + |t1|];
    assert t2 == k2[4..4 + |t2|];
  }
}
