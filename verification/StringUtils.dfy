/** Replacing and splitting strings. */
module StringUtils {

  /** std::string::erase at the front: s without its first n characters. */
  function Drop(s: string, n: nat): string
  {
    if n <= |s| then s[n..] else []
  }

  predicate OccursAt(s: string, pattern: string, i: int)
  {
    0 <= i <= i + |pattern| <= |s| && s[i..i + |pattern|] == pattern
  }

  /** The first place of pattern in s, or -1. */
  function Find(s: string, pattern: string): (i: int)
    ensures -1 <= i <= |s| && (i >= 0 ==> OccursAt(s, pattern, i))
    ensures forall k :: 0 <= k && (i < 0 || k < i) ==> !OccursAt(s, pattern, k)
  {
    FindFrom(s, pattern, 0)
  }

  /** std::string::find */
  function FindFrom(s: string, pattern: string, start: nat): (i: int)
    ensures i == -1 || start <= i <= |s|
    ensures i >= 0 ==> OccursAt(s, pattern, i)
    ensures forall k :: start <= k && (i < 0 || k < i) ==> !OccursAt(s, pattern, k)
    decreases |s| - start
  {
    if start > |s| then -1 else if OccursAt(s, pattern, start) then start else FindFrom(s, pattern, start + 1)
  }

  /** s cut at its occurrences of a pattern, from left to right. */
  function Pieces(s: string, pattern: string): (ps: seq<string>)
    requires pattern != []
    ensures ps != []
    decreases |s|
  {
    var i := Find(s, pattern);
    if i < 0 then [s] else [s[..i]] + Pieces(s[i + |pattern|..], pattern)
  }

  function Joined(ps: seq<string>, between: string): string
  {
    if ps == [] then [] else if |ps| == 1 then ps[0] else ps[0] + between + Joined(ps[1..], between)
  }

  /** The pieces put together again are the string. */
  lemma {:induction false} PiecesRejoin(s: string, pattern: string)
    requires pattern != []
    ensures Joined(Pieces(s, pattern), pattern) == s
    decreases |s|
  {
    var i := Find(s, pattern);
    if i >= 0 {
      PiecesRejoin(s[i + |pattern|..], pattern);
      assert s == s[..i] + pattern + s[i + |pattern|..];
      assert ([s[..i]] + Pieces(s[i + |pattern|..], pattern))[1..] == Pieces(s[i + |pattern|..], pattern);
    }
  }

  lemma FirstPieceFree(s: string, pattern: string, i: nat)
    requires pattern != [] && i <= |s| && forall k :: 0 <= k < i ==> !OccursAt(s, pattern, k)
    ensures Find(s[..i], pattern) == -1
  {
    forall k | OccursAt(s[..i], pattern, k)
      ensures 0 <= k < i && OccursAt(s, pattern, k)
    {
      assert s[..i][k..k + |pattern|] == s[k..k + |pattern|];
    }
  }

  /** No piece has the pattern in it. */
  lemma {:induction false} PiecesFree(s: string, pattern: string)
    requires pattern != []
    ensures forall j :: 0 <= j < |Pieces(s, pattern)| ==> Find(Pieces(s, pattern)[j], pattern) == -1
    decreases |s|
  {
    var i := Find(s, pattern);
    if i >= 0 {
      PiecesFree(s[i + |pattern|..], pattern);
      FirstPieceFree(s, pattern, i);
    }
  }

  /** The first piece ends where the pattern first occurs. */
  lemma FirstPiece(s: string, pattern: string)
    requires pattern != []
    ensures var n := |Pieces(s, pattern)[0]|;
            n <= |s| && Pieces(s, pattern)[0] == s[..n] && (n < |s| || |Pieces(s, pattern)| > 1 ==> OccursAt(s, pattern, n))
            && forall k :: 0 <= k < n ==> !OccursAt(s, pattern, k)
  {
    if Find(s, pattern) < 0 { assert s[..|s|] == s; }
  }

  lemma {:induction false} JoinedLength(ps: seq<string>, a: string, b: string)
    requires ps != []
    ensures |Joined(ps, a)| + (|ps| - 1) * |b| == |Joined(ps, b)| + (|ps| - 1) * |a|
    decreases |ps|
  {
    if |ps| > 1 {
      JoinedLength(ps[1..], a, b);
      var n, x, y := |ps| - 2, |a|, |b|;
      assert (n + 1) * x == n * x + x && (n + 1) * y == n * y + y;
    }
  }

  /** Replacing changes the length by as much as the occurrences do. */
  lemma ReplacedLength(s: string, pattern: string, newpat: string)
    requires pattern != []
    ensures var count := |Pieces(s, pattern)| - 1;
            |Joined(Pieces(s, pattern), newpat)| + count * |pattern| == |s| + count * |newpat|
  {
    PiecesRejoin(s, pattern);
    JoinedLength(Pieces(s, pattern), pattern, newpat);
  }

  /** From the first occurrence on. */
  lemma PiecesStep(s: string, pattern: string, between: string)
    requires pattern != []
    ensures var i := Find(s, pattern);
            if i < 0 then Pieces(s, pattern) == [s] && Joined(Pieces(s, pattern), between) == s
            else Pieces(s, pattern) == [s[..i]] + Pieces(s[i + |pattern|..], pattern)
                 && Joined(Pieces(s, pattern), between) == s[..i] + between + Joined(Pieces(s[i + |pattern|..], pattern), between)
  {
    var i := Find(s, pattern);
    if i >= 0 {
      assert ([s[..i]] + Pieces(s[i + |pattern|..], pattern))[1..] == Pieces(s[i + |pattern|..], pattern);
    }
  }

  lemma OccursLater(done: string, rest: string, pattern: string, j: nat)
    ensures OccursAt(done + rest, pattern, |done| + j) <==> OccursAt(rest, pattern, j)
  {
    if j + |pattern| <= |rest| {
      assert (done + rest)[|done| + j..|done| + j + |pattern|] == rest[j..j + |pattern|];
    }
  }

  lemma {:induction false} FindLaterFrom(done: string, rest: string, pattern: string, j: nat)
    requires j <= |rest| + 1
    ensures FindFrom(done + rest, pattern, |done| + j)
            == if FindFrom(rest, pattern, j) < 0 then -1 else |done| + FindFrom(rest, pattern, j)
    decreases |rest| - j
  {
    if j <= |rest| {
      OccursLater(done, rest, pattern, j);
      FindLaterFrom(done, rest, pattern, j + 1);
    }
  }

  /** Looking further on is looking in what is left. */
  lemma FindLater(done: string, rest: string, pattern: string)
    ensures FindFrom(done + rest, pattern, |done|) == (if Find(rest, pattern) < 0 then -1 else |done| + Find(rest, pattern))
  {
    FindLaterFrom(done, rest, pattern, 0);
  }

  /** Of the result, done is made, and rest is left to do. */
  predicate Doing(s: string, pattern: string, newpat: string, done: string, rest: string, count: nat)
    requires pattern != []
  {
    Joined(Pieces(s, pattern), newpat) == done + Joined(Pieces(rest, pattern), newpat)
    && count + |Pieces(rest, pattern)| == |Pieces(s, pattern)|
  }

  lemma DoneMore(s: string, pattern: string, newpat: string, done: string, rest: string, count: nat)
    requires pattern != [] && Doing(s, pattern, newpat, done, rest, count) && Find(rest, pattern) >= 0
    ensures var i := Find(rest, pattern);
            Doing(s, pattern, newpat, done + rest[..i] + newpat, rest[i + |pattern|..], count + 1)
  {
    PiecesStep(rest, pattern, newpat);
    var i := Find(rest, pattern);
    var j := Joined(Pieces(rest[i + |pattern|..], pattern), newpat);
    assert done + (rest[..i] + newpat + j) == (done + rest[..i] + newpat) + j;
  }

  /** Replaces the occurrence at the place i of rest. */
  method ReplaceAt(str: string, pos: nat, psize: nat, newpat: string, ghost done: string, ghost rest: string, ghost i: nat) returns (r: string)
    requires str == done + rest && pos == |done| + i && i + psize <= |rest|
    ensures r == (done + rest[..i] + newpat) + rest[i + psize..]
  {
    assert str[..pos] == done + rest[..i] && str[pos + psize..] == rest[i + psize..];
    r := str[..pos] + newpat + str[pos + psize..];
  }

  /** Replaces the next occurrence. */
  method ReplaceNext(str: string, pos: nat, pattern: string, newpat: string, ghost s: string, ghost was: string,
                     ghost left: string, ghost count: nat)
    returns (r: string, ghost done: string, ghost rest: string)
    requires pattern != [] && str == was + left && pos == FindFrom(str, pattern, |was|)
    requires Doing(s, pattern, newpat, was, left, count)
    ensures r == done + rest && |done| == pos + |newpat| && |rest| < |left|
    ensures Doing(s, pattern, newpat, done, rest, count + 1)
  {
    FindLater(was, left, pattern);
    ghost var i := Find(left, pattern);
    DoneMore(s, pattern, newpat, was, left, count);
    r := ReplaceAt(str, pos, |pattern|, newpat, was, left, i);
    done, rest := was + left[..i] + newpat, left[i + |pattern|..];
  }

  /** Replaces the occurrences from left to right, none of which may overlap, and counts them. */
  method Replace(s: string, pattern: string, newpat: string) returns (str: string, count: nat)
    requires pattern != []
    ensures str == Joined(Pieces(s, pattern), newpat) && count == |Pieces(s, pattern)| - 1
  {
    str, count := s, 0;
    var pos := FindFrom(str, pattern, 0);
    ghost var done, rest := [], s;
    assert [] + s == s && [] + Joined(Pieces(s, pattern), newpat) == Joined(Pieces(s, pattern), newpat);
    while pos >= 0
      invariant str == done + rest && pos == FindFrom(str, pattern, |done|)
      invariant Doing(s, pattern, newpat, done, rest, count)
      decreases |rest|
    {
      str, done, rest := ReplaceNext(str, pos, pattern, newpat, s, done, rest, count);
      count := count + 1;
      pos := FindFrom(str, pattern, pos + |newpat|);
    }
    FindLater(done, rest, pattern);
    PiecesStep(rest, pattern, newpat);
  }

  function NonEmpty(ps: seq<string>): seq<string>
  {
    if ps == [] then [] else (if ps[0] == [] then [] else [ps[0]]) + NonEmpty(ps[1..])
  }

  function Kept(ps: seq<string>, keep_empty: bool): seq<string>
  {
    if keep_empty then ps else NonEmpty(ps)
  }

  lemma KeptFirst(p: string, ps: seq<string>, keep_empty: bool)
    ensures Kept([p] + ps, keep_empty) == (if keep_empty || p != [] then [p] else []) + Kept(ps, keep_empty)
  {
    assert ([p] + ps)[1..] == ps;
  }

  lemma WholeDropped(s: string, n: nat)
    requires n <= |s|
    ensures s == s[..n] + s[n..] && s[n..|s|] == s[n..]
  {
  }

  /** The first piece from substart on, and where it ends. */
  method NextPiece(s: string, delim: string, substart: nat) returns (temp: string, subend: nat)
    requires delim != [] && substart <= |s|
    ensures substart <= subend <= |s| && temp == s[substart..subend]
    ensures if subend == |s| then Pieces(s[substart..], delim) == [temp] + []
            else subend + |delim| <= |s| && Pieces(s[substart..], delim) == [temp] + Pieces(s[subend + |delim|..], delim)
  {
    ghost var rest := s[substart..];
    WholeDropped(s, substart);
    FindLater(s[..substart], rest, delim);
    PiecesStep(rest, delim, []);
    var found := FindFrom(s, delim, substart);
    subend := if found < 0 then |s| else found;
    temp := s[substart..subend];
    if found >= 0 {
      assert rest[..subend - substart] == temp && rest[subend - substart + |delim|..] == s[subend + |delim|..];
    }
  }

  /** What is kept of pieces are all of them, or those that are not empty, as often as they occur and in their
      order: what is in front is kept in front. */
  lemma {:induction false} KeptPieces(ps: seq<string>, keep_empty: bool)
    ensures keep_empty ==> Kept(ps, keep_empty) == ps
    ensures !keep_empty ==> forall p :: multiset(Kept(ps, keep_empty))[p] == if p == [] then 0 else multiset(ps)[p]
    decreases |ps|
  {
    if ps != [] {
      KeptPieces(ps[1..], keep_empty);
      KeptFirst(ps[0], ps[1..], keep_empty);
      assert ps == [ps[0]] + ps[1..];
    }
  }

  lemma {:induction false} KeptParts(ps: seq<string>, qs: seq<string>, keep_empty: bool)
    ensures Kept(ps + qs, keep_empty) == Kept(ps, keep_empty) + Kept(qs, keep_empty)
    decreases |ps|
  {
    if ps == [] {
      assert ps + qs == qs;
    } else {
      assert ps + qs == [ps[0]] + (ps[1..] + qs) && ps == [ps[0]] + ps[1..];
      KeptParts(ps[1..], qs, keep_empty);
      KeptFirst(ps[0], ps[1..] + qs, keep_empty);
      KeptFirst(ps[0], ps[1..], keep_empty);
    }
  }

  /** Appends the pieces of s, the empty ones only on request. */
  method Splits(s: string, delim: string, result: seq<string>, keep_empty: bool) returns (r: seq<string>)
    requires delim != []
    ensures r == result + Kept(Pieces(s, delim), keep_empty)
  {
    r := result;
    var substart := 0;
    ghost var goal := result + Kept(Pieces(s, delim), keep_empty);
    assert s[0..] == s;
    while true
      invariant substart <= |s| && goal == r + Kept(Pieces(s[substart..], delim), keep_empty)
      decreases |s| - substart
    {
      var temp, subend := NextPiece(s, delim, substart);
      ghost var ps := if subend == |s| then [] else Pieces(s[subend + |delim|..], delim);
      r := AppendKept(r, temp, keep_empty, ps, goal);
      if subend == |s| { break; }
      substart := subend + |delim|;
    }
  }

  method AppendKept(was: seq<string>, temp: string, keep_empty: bool, ghost ps: seq<string>, ghost goal: seq<string>)
    returns (r: seq<string>)
    requires goal == was + Kept([temp] + ps, keep_empty)
    ensures goal == r + Kept(ps, keep_empty) && (ps == [] ==> r == goal)
  {
    KeptAfter(was, temp, ps, keep_empty);
    r := if keep_empty || temp != [] then was + [temp] else was;
    if ps == [] { assert [temp] + ps == [temp]; }
  }

  lemma KeptAfter(r: seq<string>, p: string, ps: seq<string>, keep_empty: bool)
    ensures r + Kept([p] + ps, keep_empty) == (if keep_empty || p != [] then r + [p] else r) + Kept(ps, keep_empty)
    ensures ps == [] ==> r + Kept([p], keep_empty) == if keep_empty || p != [] then r + [p] else r
  {
    KeptFirst(p, ps, keep_empty);
    if ps == [] { assert [p] + ps == [p]; }
  }
}
