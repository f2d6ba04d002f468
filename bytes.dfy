/**
  Byte strings and the separator operations of Go's `bytes` package that the
  event parser relies on: `bytes.Index` for a one-byte separator and
  `bytes.SplitN` with a positive limit.  A Go `string` converted from a byte
  slice is the same byte string, so both are `Bytes` here.
 */
module Bytes {

  /**
    One byte, written as a `char` so that string literals can be used.  Only
    the %q rendering looks at byte values; it states what it needs of them.
   */
  type Byte = char

  predicate IsByte(c: Byte)
  {
    c as int < 256
  }

  predicate AllBytes(s: Bytes)
  {
    forall i :: 0 <= i < |s| ==> IsByte(s[i])
  }

  type Bytes = seq<Byte>

  /** `bytes.Index(s, []byte{c})`: the first position of `c` in `s`, or -1. */
  function Index(s: Bytes, c: Byte): (i: int)
    ensures -1 <= i < |s|
    ensures 0 <= i ==> s[i] == c
  {
    if |s| == 0 then -1
    else if s[0] == c then 0
    else
      var j := Index(s[1..], c);
      if j == -1 then -1 else j + 1
  }

  /** Index finds the first occurrence, and gives -1 exactly when there is none. */
  lemma {:induction false} IndexSpec(s: Bytes, c: Byte)
    ensures Index(s, c) == -1 <==> c !in s
    ensures forall j :: 0 <= j < Index(s, c) ==> s[j] != c
  {
    if |s| > 0 && s[0] != c {
      IndexSpec(s[1..], c);
      assert forall j :: 0 < j < |s| ==> s[1..][j - 1] == s[j];
    }
  }

  /** The first separator of `a + [c] + b` is the one after `a` when `a` holds none. */
  lemma IndexAfter(a: Bytes, c: Byte, b: Bytes)
    requires c !in a
    ensures Index(a + [c] + b, c) == |a|
  {
    var s := a + [c] + b;
    IndexSpec(s, c);
    assert s[|a|] == c;
    assert forall j :: 0 <= j < |a| ==> s[j] == a[j];
  }

  /** Concatenates `parts` with `sep` between neighbours (`bytes.Join`). */
  function Join(parts: seq<Bytes>, sep: Byte): Bytes
  {
    if |parts| == 0 then []
    else if |parts| == 1 then parts[0]
    else parts[0] + [sep] + Join(parts[1..], sep)
  }

  /** Number of occurrences of `c` in `s`. */
  function Count(s: Bytes, c: Byte): nat
  {
    multiset(s)[c]
  }

  /** A string holding `sep` is the part before its first `sep`, `sep`, and the rest. */
  lemma Cut(s: Bytes, sep: Byte) returns (a: Bytes, t: Bytes)
    requires sep in s
    ensures s == a + [sep] + t && sep !in a
  {
    var i := Index(s, sep);
    IndexSpec(s, sep);
    a, t := s[..i], s[i + 1..];
    assert s == a + [sep] + t;
    assert forall j :: 0 <= j < i ==> a[j] == s[j];
  }

  /**
    `bytes.SplitN(s, []byte{sep}, n)` for `n >= 1`: at most `n` pieces, cut at
    the first `n - 1` separators; the last piece keeps any further separators.
   */
  function SplitN(s: Bytes, sep: Byte, n: nat): (r: seq<Bytes>)
    requires n >= 1
    ensures 1 <= |r| <= n
    decreases n
  {
    var i := Index(s, sep);
    if n == 1 || i == -1 then [s]
    else [s[..i]] + SplitN(s[i + 1..], sep, n - 1)
  }

  /** With no separator, or a limit of one, SplitN leaves the string whole. */
  lemma SplitNWhole(s: Bytes, sep: Byte, n: nat)
    requires n == 1 || (n > 1 && sep !in s)
    ensures SplitN(s, sep, n) == [s]
  {
  }

  /** Past the first separator, SplitN continues on the rest with one piece fewer. */
  lemma SplitNFirst(s: Bytes, sep: Byte, n: nat, a: Bytes, tail: Bytes)
    requires n >= 2 && sep !in a && s == a + [sep] + tail
    ensures SplitN(s, sep, n) == [a] + SplitN(tail, sep, n - 1)
  {
    IndexAfter(a, sep, tail);
    assert s[..|a|] == a;
    assert s[|a| + 1..] == tail;
  }

  /** Joining a piece in front of a non-empty list puts one separator between. */
  lemma JoinCons(a: Bytes, rest: seq<Bytes>, sep: Byte)
    requires |rest| >= 1
    ensures Join([a] + rest, sep) == a + [sep] + Join(rest, sep)
  {
    assert ([a] + rest)[1..] == rest;
  }

  /** Names the head and tail of a non-empty list. */
  lemma Uncons(r: seq<Bytes>) returns (a: Bytes, rest: seq<Bytes>)
    requires |r| >= 1
    ensures r == [a] + rest && r[0] == a && r[1..] == rest
  {
    a, rest := r[0], r[1..];
  }

  /**
    The shape of what SplitN returns for limit `n`: one to `n` pieces, none
    before the last holding `sep`, and the last holding none either unless
    the limit was reached.
   */
  predicate SplitShape(r: seq<Bytes>, sep: Byte, n: nat)
    decreases |r|
  {
    if |r| == 0 then false
    else if |r| == 1 then n == 1 || (n > 1 && sep !in r[0])
    else n >= 2 && sep !in r[0] && SplitShape(r[1..], sep, n - 1)
  }

  /** SplitShape stated over indices. */
  lemma {:induction false} SplitShapeAt(r: seq<Bytes>, sep: Byte, n: nat)
    ensures SplitShape(r, sep, n) <==>
      1 <= |r| <= n &&
      (forall k :: 0 <= k < |r| - 1 ==> sep !in r[k]) &&
      (|r| < n ==> sep !in r[|r| - 1])
    decreases |r|
  {
    if |r| > 1 {
      var a, rest := Uncons(r);
      if n >= 1 {
        SplitShapeAt(rest, sep, n - 1);
      }
      assert forall k :: 0 < k < |r| ==> rest[k - 1] == r[k];
    }
  }

  /**
    SplitN's pieces have SplitN's shape: only the first `n - 1` separators are
    cut, so only the last piece can still hold one.
   */
  lemma {:induction false} SplitNShape(s: Bytes, sep: Byte, n: nat)
    requires n >= 1
    ensures SplitShape(SplitN(s, sep, n), sep, n)
    decreases n
  {
    if n >= 2 && sep in s {
      var a, t := Cut(s, sep);
      SplitNFirst(s, sep, n, a, t);
      SplitNShape(t, sep, n - 1);
      ShapeCons(a, SplitN(t, sep, n - 1), sep, n);
    } else {
      SplitNWhole(s, sep, n);
    }
  }

  /** SplitN's pieces join back to the input: nothing is lost or added. */
  lemma {:induction false} SplitNJoinBack(s: Bytes, sep: Byte, n: nat)
    requires n >= 1
    ensures Join(SplitN(s, sep, n), sep) == s
    decreases n
  {
    if n >= 2 && sep in s {
      var a, t := Cut(s, sep);
      SplitNFirst(s, sep, n, a, t);
      SplitNJoinBack(t, sep, n - 1);
      JoinCons(a, SplitN(t, sep, n - 1), sep);
    } else {
      SplitNWhole(s, sep, n);
    }
  }

  /**
    SplitN returns one piece more than there are separators, up to the limit:
    it reaches `n` pieces exactly when `s` holds at least `n - 1` separators.
   */
  lemma {:induction false} SplitNCount(s: Bytes, sep: Byte, n: nat)
    requires n >= 1
    ensures |SplitN(s, sep, n)| == if Count(s, sep) + 1 < n then Count(s, sep) + 1 else n
    decreases n
  {
    if n >= 2 && sep in s {
      var a, t := Cut(s, sep);
      SplitNFirst(s, sep, n, a, t);
      SplitNCount(t, sep, n - 1);
      CountCut(s, sep, a, t);
    } else {
      SplitNWhole(s, sep, n);
      if sep !in s {
        assert multiset(s)[sep] == 0;
      }
    }
  }

  /** Cutting at a separator takes exactly one separator out of the count. */
  lemma CountCut(s: Bytes, sep: Byte, a: Bytes, t: Bytes)
    requires s == a + [sep] + t && sep !in a
    ensures Count(s, sep) == Count(t, sep) + 1
  {
    assert multiset(s) == multiset(a) + multiset([sep]) + multiset(t);
    assert multiset(a)[sep] == 0;
  }

  /** A separator-free piece in front of a shaped list for one piece fewer. */
  lemma ShapeCons(a: Bytes, rest: seq<Bytes>, sep: Byte, n: nat)
    requires n >= 2 && sep !in a && SplitShape(rest, sep, n - 1)
    ensures SplitShape([a] + rest, sep, n)
  {
    var r := [a] + rest;
    assert r[0] == a && r[1..] == rest;
  }

  /**
    The shape determines the pieces: SplitN of joined pieces that have SplitN's
    shape gives those pieces back.
   */
  lemma {:induction false} SplitNJoin(r: seq<Bytes>, sep: Byte, n: nat)
    requires SplitShape(r, sep, n)
    ensures n >= 1 && SplitN(Join(r, sep), sep, n) == r
    decreases |r|
  {
    var a, rest := Uncons(r);
    if |rest| == 0 {
      assert Join([a], sep) == a;
      SplitNWhole(a, sep, n);
    } else {
      SplitNJoin(rest, sep, n - 1);
      JoinCons(a, rest, sep);
      SplitNFirst(Join(r, sep), sep, n, a, Join(rest, sep));
    }
  }

  /**
    Go's `make` and `copy`: `parts` extended with empty entries up to `want`
    entries; a list that is long enough is returned unchanged.
   */
  function Pad(parts: seq<Bytes>, want: nat): (r: seq<Bytes>)
    ensures |r| == if |parts| < want then want else |parts|
    ensures forall k :: 0 <= k < |r| ==> r[k] == if k < |parts| then parts[k] else []
  {
    if |parts| < want then parts + seq(want - |parts|, _ => []) else parts
  }
}
