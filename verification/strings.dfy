/** The string operations of Python that the access layer relies on:
    substring search (`in`, `str.find`), `str.split` with a separator,
    `os.path.basename` on POSIX paths, and `str.lower` restricted to ASCII.
 */
module Strings {
  import opened Results

  /** `sub` occurs in `s` starting at index `i`. */
  predicate OccursAt(s: string, sub: string, i: nat)
  {
    i + |sub| <= |s| && s[i..i + |sub|] == sub
  }

  /** `sub` occurs somewhere in `s`. */
  ghost predicate Occurs(s: string, sub: string)
  {
    exists i: nat :: OccursAt(s, sub, i)
  }

  /** The first index at or after `from` at which `sub` occurs in `s`. */
  function FindFrom(s: string, sub: string, from: nat): (r: Option<nat>)
    ensures r.Some? ==> from <= r.value && OccursAt(s, sub, r.value)
    decreases |s| - from
  {
    if from + |sub| > |s| then None
    else if s[from..from + |sub|] == sub then Some(from)
    else FindFrom(s, sub, from + 1)
  }

  /** The first index at which `sub` occurs in `s` (Python's `str.find`,
      with `None` for -1). */
  function FirstIndex(s: string, sub: string): (r: Option<nat>)
    ensures r.Some? ==> OccursAt(s, sub, r.value)
  {
    FindFrom(s, sub, 0)
  }

  /** `FindFrom` finds the earliest occurrence at or after `from`, and
      reports none only when there is none from there on. */
  lemma {:induction false} FindFromFinds(s: string, sub: string, from: nat)
    ensures FindFrom(s, sub, from).Some? ==>
              forall j: nat :: from <= j < FindFrom(s, sub, from).value ==> !OccursAt(s, sub, j)
    ensures FindFrom(s, sub, from).None? ==> forall j: nat :: from <= j ==> !OccursAt(s, sub, j)
    decreases |s| - from
  {
    if from + |sub| <= |s| && s[from..from + |sub|] != sub {
      FindFromFinds(s, sub, from + 1);
    }
  }

  /** `FirstIndex` finds the earliest occurrence, and reports none only
      when there is none at all. */
  lemma FirstIndexFinds(s: string, sub: string)
    ensures FirstIndex(s, sub).Some? ==> forall j: nat :: j < FirstIndex(s, sub).value ==> !OccursAt(s, sub, j)
    ensures FirstIndex(s, sub).None? ==> forall j: nat :: !OccursAt(s, sub, j)
  {
    FindFromFinds(s, sub, 0);
  }

  /** Python's `sub in s`. */
  predicate Contains(s: string, sub: string)
  {
    FirstIndex(s, sub).Some?
  }

  lemma ContainsMeansOccurs(s: string, sub: string)
    ensures Contains(s, sub) <==> Occurs(s, sub)
  {
    FirstIndexFinds(s, sub);
  }

  /** An occurrence inside a prefix of `s` is an occurrence in `s`. */
  lemma OccursInPrefix(s: string, sub: string, n: nat, j: nat)
    requires n <= |s|
    requires OccursAt(s[..n], sub, j)
    ensures OccursAt(s, sub, j) && j + |sub| <= n
  {
  }

  /** Python's `s.split(sep)` for a non-empty separator: the pieces between
      the occurrences found by scanning left to right without overlap. */
  function Split(s: string, sep: string): (pieces: seq<string>)
    requires |sep| > 0
    ensures |pieces| >= 1
    decreases |s|
  {
    match FirstIndex(s, sep)
    case None => [s]
    case Some(i) => [s[..i]] + Split(s[i + |sep|..], sep)
  }

  /** The first piece ends at the first occurrence; the others are the
      pieces of the remainder. */
  lemma SplitAtFirst(s: string, sep: string, i: nat)
    requires |sep| > 0
    requires FirstIndex(s, sep) == Some(i)
    ensures Split(s, sep) == [s[..i]] + Split(s[i + |sep|..], sep)
  {
  }

  /** There is more than one piece exactly when the separator occurs, the
      first cut is at its first occurrence, and no piece contains it. */
  lemma {:induction false} SplitPieces(s: string, sep: string)
    requires |sep| > 0
    ensures var pieces := Split(s, sep);
            && (|pieces| > 1 <==> Contains(s, sep))
            && (|pieces| > 1 ==> FirstIndex(s, sep) == Some(|pieces[0]|))
            && forall k :: 0 <= k < |pieces| ==> !Contains(pieces[k], sep)
    decreases |s|
  {
    var pieces := Split(s, sep);
    match FirstIndex(s, sep)
    case None =>
      assert pieces == [s];
    case Some(i) =>
      var head := s[..i];
      var tail := Split(s[i + |sep|..], sep);
      assert pieces == [head] + tail;
      FirstIndexFinds(s, sep);
      assert !Contains(head, sep) by {
        if Contains(head, sep) {
          var j := FirstIndex(head, sep).value;
          OccursInPrefix(s, sep, i, j);
          assert false;
        }
      }
      SplitPieces(s[i + |sep|..], sep);
      forall k | 0 <= k < |pieces|
        ensures !Contains(pieces[k], sep)
      {
        if k > 0 {
          assert pieces[k] == tail[k - 1];
        }
      }
  }

  /** Python's `sep.join(pieces)`. */
  function Join(pieces: seq<string>, sep: string): string
    requires |pieces| >= 1
    decreases |pieces|
  {
    if |pieces| == 1 then pieces[0] else pieces[0] + sep + Join(pieces[1..], sep)
  }

  /** Splitting and joining again gives back the original string. */
  lemma {:induction false} SplitJoinRoundTrip(s: string, sep: string)
    requires |sep| > 0
    ensures Join(Split(s, sep), sep) == s
    decreases |s|
  {
    match FirstIndex(s, sep)
    case None =>
    case Some(i) =>
      var rest := s[i + |sep|..];
      var tail := Split(rest, sep);
      SplitJoinRoundTrip(rest, sep);
      var pieces := Split(s, sep);
      assert pieces == [s[..i]] + tail;
      assert pieces[1..] == tail;
      assert Join(pieces, sep) == s[..i] + sep + rest;
      assert s == s[..i] + sep + rest by {
        assert s[i..i + |sep|] == sep;
        assert s == s[..i] + s[i..i + |sep|] + rest;
      }
  }

  /** Each cut is made at the first occurrence in what is left of the
      string, the order in which Python scans: piece `k`, when it is not the
      last, is followed by the first occurrence of the separator in the
      rest of the string. */
  lemma {:induction false} SplitScansLeftToRight(s: string, sep: string, k: nat)
    requires |sep| > 0
    requires k < |Split(s, sep)| - 1
    ensures FirstIndex(Join(Split(s, sep)[k..], sep), sep) == Some(|Split(s, sep)[k]|)
    decreases |s|
  {
    var pieces := Split(s, sep);
    var i := FirstIndex(s, sep).value;
    var rest := s[i + |sep|..];
    var tail := Split(rest, sep);
    assert pieces == [s[..i]] + tail;
    if k == 0 {
      SplitJoinRoundTrip(s, sep);
      assert pieces[0..] == pieces;
    } else {
      assert pieces[k..] == tail[k - 1..];
      assert pieces[k] == tail[k - 1];
      SplitScansLeftToRight(rest, sep, k - 1);
    }
  }

  /** Python's `xs[-1]`. */
  function Last<T>(xs: seq<T>): T
    requires |xs| > 0
  {
    xs[|xs| - 1]
  }

  lemma LastOfCons<T>(x: T, xs: seq<T>)
    requires |xs| > 0
    ensures Last([x] + xs) == Last(xs)
  {
  }

  /** Python's `s.split(sep)[-1]`. */
  function LastPiece(s: string, sep: string): string
    requires |sep| > 0
  {
    Last(Split(s, sep))
  }

  /** Past the first occurrence, the last piece is that of the remainder. */
  lemma LastPieceOfRemainder(s: string, sep: string, i: nat)
    requires |sep| > 0
    requires FirstIndex(s, sep) == Some(i)
    ensures LastPiece(s, sep) == LastPiece(s[i + |sep|..], sep)
  {
    var rest := s[i + |sep|..];
    SplitAtFirst(s, sep, i);
    LastOfCons(s[..i], Split(rest, sep));
  }

  /** A suffix `p` of the remainder after an occurrence at `i` is a suffix
      of `s`, and an occurrence ending where `p` starts carries over. */
  lemma SuffixOfRemainder(s: string, sep: string, i: nat, p: string)
    requires OccursAt(s, sep, i)
    requires |p| <= |s| - i - |sep|
    requires s[i + |sep|..][|s| - i - |sep| - |p|..] == p
    ensures s[|s| - |p|..] == p
  {
    assert s[i + |sep|..][|s| - i - |sep| - |p|..] == s[|s| - |p|..];
  }

  /** The last piece is a suffix of `s`, and all of `s` when the separator
      does not occur. */
  lemma {:induction false} LastPieceIsSuffix(s: string, sep: string)
    requires |sep| > 0
    ensures |LastPiece(s, sep)| <= |s|
    ensures s[|s| - |LastPiece(s, sep)|..] == LastPiece(s, sep)
    ensures !Contains(s, sep) ==> LastPiece(s, sep) == s
    decreases |s|
  {
    match FirstIndex(s, sep)
    case None =>
      assert Split(s, sep) == [s];
    case Some(i) =>
      var rest := s[i + |sep|..];
      LastPieceIsSuffix(rest, sep);
      LastPieceOfRemainder(s, sep, i);
      var p := LastPiece(rest, sep);
      assert LastPiece(s, sep) == p;
      SuffixOfRemainder(s, sep, i, p);
      assert s[|s| - |p|..] == p;
  }

  /** When the separator occurs, the last piece directly follows an
      occurrence of it. */
  lemma {:induction false} LastPieceFollowsSeparator(s: string, sep: string)
    requires |sep| > 0
    ensures Contains(s, sep) ==> |LastPiece(s, sep)| + |sep| <= |s|
    ensures Contains(s, sep) ==> OccursAt(s, sep, |s| - |LastPiece(s, sep)| - |sep|)
    decreases |s|
  {
    if !Contains(s, sep) {
      return;
    }
    var i := FirstIndex(s, sep).value;
    var rest := s[i + |sep|..];
    LastPieceOfRemainder(s, sep, i);
    var p := LastPiece(rest, sep);
    assert LastPiece(s, sep) == p;
    LastPieceIsSuffix(rest, sep);
    var j: nat;
    if Contains(rest, sep) {
      LastPieceFollowsSeparator(rest, sep);
      var k := |rest| - |p| - |sep|;
      OccurrenceInRemainder(s, sep, i, k);
      j := i + |sep| + k;
    } else {
      assert p == rest;
      j := i;
    }
    assert OccursAt(s, sep, j) && j == |s| - |p| - |sep|;
  }

  /** An occurrence in the remainder after position `i + |sep|` is an
      occurrence in `s`, shifted by that amount. */
  lemma OccurrenceInRemainder(s: string, sep: string, i: nat, k: nat)
    requires i + |sep| <= |s|
    requires OccursAt(s[i + |sep|..], sep, k)
    ensures OccursAt(s, sep, i + |sep| + k)
  {
    assert s[i + |sep| + k..i + |sep| + k + |sep|] == s[i + |sep|..][k..k + |sep|];
  }

  /** POSIX `os.path.basename`: the part of `path` after its last '/'. */
  function Basename(path: string): (base: string)
    ensures |base| <= |path| && path[|path| - |base|..] == base
    ensures '/' !in base
    ensures |base| < |path| ==> path[|path| - |base| - 1] == '/'
    decreases |path|
  {
    if |path| == 0 || path[|path| - 1] == '/' then ""
    else Basename(path[..|path| - 1]) + [path[|path| - 1]]
  }

  /** ASCII `str.lower` of one character. */
  function LowerChar(c: char): char
  {
    if 'A' <= c <= 'Z' then (c as int + 32) as char else c
  }

  /** `str.lower`, restricted to ASCII letters. */
  function Lower(s: string): string
  {
    seq(|s|, i requires 0 <= i < |s| => LowerChar(s[i]))
  }

  /** Python's `sub.lower() in s.lower()`. */
  function ContainsIgnoringCase(s: string, sub: string): (r: bool)
    ensures r <==> Occurs(Lower(s), Lower(sub))
  {
    ContainsMeansOccurs(Lower(s), Lower(sub));
    Contains(Lower(s), Lower(sub))
  }

  /** The empty string occurs in every string, so every title passes an
      empty-name filter. */
  lemma EmptyIsContained(s: string)
    ensures ContainsIgnoringCase(s, "")
  {
  }
}
