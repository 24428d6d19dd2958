/** Paths of watchers: how they are taken apart, with slashes wherever they may be. */
module Paths {
  import StringUtils

  datatype Option<T> = None | Some(value: T)

  predicate IsName(s: string)
  {
    s != [] && '/' !in s
  }

  predicate IsPath(cs: seq<string>)
  {
    forall i :: 0 <= i < |cs| ==> IsName(cs[i])
  }

  function Join(cs: seq<string>): string
  {
    if cs == [] then [] else if |cs| == 1 then cs[0] else cs[0] + ['/'] + Join(cs[1..])
  }

  /** The names in s, as kbe_split gives them. */
  function Split(s: string): seq<string>
  {
    if s == [] then []
    else if s[0] == '/' then Split(s[1..])
    else Extend(s[0], s[1..], Split(s[1..]))
  }

  /** A character before rest, whose names are cs, begins its first name or a new one. */
  function Extend(c: char, rest: string, cs: seq<string>): seq<string>
  {
    if rest == [] || rest[0] == '/' || cs == [] then [[c]] + cs else [[c] + cs[0]] + cs[1..]
  }

  function Front(cs: seq<string>): seq<string>
    requires cs != []
  {
    cs[..|cs| - 1]
  }

  function Last<T>(cs: seq<T>): T
    requires cs != []
  {
    cs[|cs| - 1]
  }

  lemma FrontAndLast(cs: seq<string>, name: string)
    ensures Front(cs + [name]) == cs && Last(cs + [name]) == name
  {
  }

  // Splitting.

  /** rest follows a name: it is nothing or starts with a slash. */
  predicate Follows(rest: string)
  {
    rest == [] || rest[0] == '/'
  }

  lemma {:induction false} SplitFirst(name: string, rest: string)
    requires IsName(name) && Follows(rest)
    ensures Split(name + rest) == [name] + Split(rest)
    decreases |name|
  {
    var s, tail := name + rest, name[1..];
    assert s[1..] == tail + rest;
    if tail == [] {
      assert tail + rest == rest && name == [name[0]];
    } else {
      assert IsName(tail) by { assert forall c :: c in tail ==> c in name; }
      assert s[1] == tail[0] && tail[0] in tail;
      SplitFirst(tail, rest);
      ExtendFirst(name[0], tail, rest);
      assert name == [name[0]] + tail;
    }
  }

  lemma ExtendFirst(c: char, tail: string, rest: string)
    requires IsName(tail)
    ensures Extend(c, tail + rest, [tail] + Split(rest)) == [[c] + tail] + Split(rest)
  {
    assert (tail + rest)[0] == tail[0] && tail[0] in tail;
    assert ([tail] + Split(rest))[1..] == Split(rest);
  }

  lemma {:induction false} FirstName(s: string) returns (name: string, rest: string)
    requires s != [] && s[0] != '/'
    ensures s == name + rest && IsName(name) && Follows(rest) && Split(s) == [name] + Split(rest)
    decreases |s|
  {
    if |s| == 1 || s[1] == '/' {
      name, rest := [s[0]], s[1..];
    } else {
      name, rest := FirstName(s[1..]);
      name := [s[0]] + name;
    }
    SplitFirst(name, rest);
  }

  lemma SplitName(b: string)
    requires IsName(b)
    ensures Split(b) == [b]
  {
    SplitFirst(b, []);
    assert b + [] == b && [b] + Split([]) == [b];
  }

  lemma {:induction false} SplitAppend(s: string, t: string)
    ensures Split(s + ['/'] + t) == Split(s) + Split(t)
    decreases |s|
  {
    var u := s + ['/'] + t;
    if s == [] {
      assert u[0] == '/' && u[1..] == t;
    } else {
      assert u[0] == s[0] && u[1..] == s[1..] + ['/'] + t;
      SplitAppend(s[1..], t);
      ExtendAppend(s[0], s[1..], t, Split(s[1..]), Split(t));
    }
  }

  lemma ExtendAppend(c: char, s: string, t: string, cs: seq<string>, ds: seq<string>)
    requires Follows(s) || cs != []
    ensures Extend(c, s + ['/'] + t, cs + ds) == Extend(c, s, cs) + ds
  {
    assert (s + ['/'] + t)[0] == if s == [] then '/' else s[0];
    if Follows(s) {
      assert [[c]] + (cs + ds) == [[c]] + cs + ds;
    } else {
      ExtendedAppend([c] + cs[0], cs, ds);
    }
  }

  lemma ExtendedAppend(name: string, cs: seq<string>, ds: seq<string>)
    requires cs != []
    ensures [name] + (cs + ds)[1..] == [name] + cs[1..] + ds
  {
    assert (cs + ds)[1..] == cs[1..] + ds;
  }

  lemma SplitTrail(s: string)
    ensures Split(s + ['/']) == Split(s)
  {
    SplitAppend(s, []);
    assert s + ['/'] + [] == s + ['/'];
  }

  lemma {:induction false} SplitNames(s: string)
    ensures IsPath(Split(s))
    decreases |s|
  {
    if s != [] && s[0] == '/' {
      SplitNames(s[1..]);
    } else if s != [] {
      var name, rest := FirstName(s);
      SplitNames(rest);
    }
  }

  // Joining.

  lemma JoinFirst(name: string, cs: seq<string>)
    ensures Join([name] + cs) == name + (if cs == [] then [] else ['/'] + Join(cs))
  {
    assert ([name] + cs)[1..] == cs;
  }

  lemma {:induction false} JoinLast(cs: seq<string>, name: string)
    ensures Join(cs + [name]) == (if cs == [] then [] else Join(cs) + ['/']) + name
    decreases |cs|
  {
    if cs != [] {
      var tail := cs[1..];
      assert cs == [cs[0]] + tail && cs + [name] == [cs[0]] + (tail + [name]);
      JoinFirst(cs[0], tail + [name]);
      JoinFirst(cs[0], tail);
      JoinLast(tail, name);
    }
  }

  lemma {:induction false} SplitJoin(cs: seq<string>)
    requires IsPath(cs)
    ensures Split(Join(cs)) == cs
    decreases |cs|
  {
    if cs != [] {
      var tail := cs[1..];
      assert cs == [cs[0]] + tail;
      JoinFirst(cs[0], tail);
      SplitJoin(tail);
      if tail == [] {
        SplitName(cs[0]);
        assert cs[0] + [] == cs[0];
      } else {
        SplitFirst(cs[0], ['/'] + Join(tail));
        assert (['/'] + Join(tail))[1..] == Join(tail);
      }
    }
  }

  /** Slashes that are not needed make a path longer. */
  lemma {:induction false} JoinShorter(s: string)
    ensures |Join(Split(s))| <= |s|
    decreases |s|
  {
    if s != [] && s[0] == '/' {
      JoinShorter(s[1..]);
    } else if s != [] {
      var name, rest := FirstName(s);
      JoinFirst(name, Split(rest));
      if rest != [] { JoinShorter(rest[1..]); }
    }
  }

  /** The slashes that a path has too many. */
  function Surplus(p: string): (n: nat)
  {
    JoinShorter(p);
    |p| - |Join(Split(p))|
  }

  lemma SurplusFirst(p: string, name: string, q: string)
    requires Split(p) == [name] + Split(q)
    ensures Surplus(p) == |p| - |name| - (if Split(q) == [] then 0 else 1 + |q| - Surplus(q))
  {
    JoinFirst(name, Split(q));
  }

  lemma NoNames(q: string)
    requires Split(q) == []
    ensures Surplus(q) == |q| && (q == [] <==> Surplus(q) <= 1 && q != ['/'])
    ensures q != [] ==> Route(q).None?
  {
    if q != [] { assert q[0] == '/'; }
  }

  // Going through a path from the front.

  /** The names gone through: each is erased with one character more. None if only slashes are left. */
  function Route(path: string): Option<seq<string>>
    decreases |path|
  {
    if path == [] then Some([])
    else if Split(path) == [] then None
    else
      var first := Split(path)[0];
      var rest := Route(StringUtils.Drop(path, |first| + 1));
      if rest.None? then None else Some([first] + rest.value)
  }

  lemma SameRest(name: string, a: seq<string>, b: seq<string>)
    ensures [name] + a == [name] + b <==> a == b
  {
    assert ([name] + a)[1..] == a && ([name] + b)[1..] == b;
  }

  lemma RouteUnfold(p: string, name: string, q: string)
    requires p != [] && Split(p) == [name] + Split(q) && q == StringUtils.Drop(p, |name| + 1)
    ensures Route(p) == Some(Split(p)) <==> Route(q) == Some(Split(q))
  {
    if Route(q).Some? { SameRest(name, Route(q).value, Split(q)); }
  }

  /** q is the rest of a path after its first name, of which one slash was erased unless there was none. */
  lemma RouteStep(p: string, name: string, q: string)
    requires p != [] && Split(p) == [name] + Split(q) && q == StringUtils.Drop(p, |name| + 1)
    requires |p| == |name| + |q| + 1 || (q == [] && |p| == |name|)
    requires Route(q) == Some(Split(q)) <==> Surplus(q) <= 1 && q != ['/']
    ensures Route(p) == Some(Split(p)) <==> Surplus(p) <= 1
  {
    RouteUnfold(p, name, q);
    SurplusFirst(p, name, q);
    if Split(q) == [] { NoNames(q); }
  }

  /** Erasing the first name and one character more leaves at most one name less, and erasing two
      characters fewer as many names. */
  lemma {:induction false} DropFew(p: string, k: nat)
    requires Split(p) != [] && k <= |Split(p)[0]| + 1
    ensures var n := |Split(StringUtils.Drop(p, k))|;
            n >= |Split(p)| - 1 && (k < |Split(p)[0]| ==> n >= |Split(p)|)
    decreases |p|
  {
    if k == 0 {
      assert StringUtils.Drop(p, 0) == p;
    } else if p[0] == '/' {
      DropFew(p[1..], k - 1);
      assert StringUtils.Drop(p, k) == StringUtils.Drop(p[1..], k - 1);
    } else {
      var name, rest := FirstName(p);
      DropName(p, name, rest, k);
    }
  }

  lemma DropName(p: string, name: string, rest: string, k: nat)
    requires p == name + rest && IsName(name) && Follows(rest) && k <= |name| + 1
    ensures |Split(StringUtils.Drop(p, k))| == |Split(rest)| + (if k < |name| then 1 else 0)
    ensures k >= |name| ==> Split(StringUtils.Drop(p, k)) == Split(rest)
  {
    if k < |name| {
      assert StringUtils.Drop(p, k) == name[k..] + rest;
      SplitFirst(name[k..], rest);
    } else if k == |name| {
      assert StringUtils.Drop(p, k) == rest;
    } else {
      assert StringUtils.Drop(p, k) == StringUtils.Drop(rest, 1);
    }
  }

  /** A route passes no name by. */
  lemma {:induction false} LongRoute(p: string)
    requires Route(p).Some?
    ensures |Route(p).value| >= |Split(p)|
    decreases |p|
  {
    if p != [] {
      DropFew(p, |Split(p)[0]| + 1);
      LongRoute(StringUtils.Drop(p, |Split(p)[0]| + 1));
    }
  }

  lemma SlashesSurplus(p: string, t: string)
    requires |p| == |t| + 2 && Split(p) == Split(t)
    ensures Surplus(p) > 1
  {
    JoinShorter(t);
  }

  lemma DropSlashes(p: string, t: string, k: nat)
    requires p == ['/', '/'] + t && k >= 2
    ensures Split(p) == Split(t) && StringUtils.Drop(p, k) == StringUtils.Drop(t, k - 2)
  {
    assert p[1..] == ['/'] + t && p[1..][1..] == t;
  }

  /** With more than one slash at the front the first name is gone through twice. */
  lemma SlashesRepeat(p: string, t: string)
    requires p == ['/', '/'] + t && Split(p) != []
    ensures Route(p) != Some(Split(p))
  {
    DropSlashes(p, t, 2);
    SplitNames(t);
    var n := |Split(t)[0]|;
    DropSlashes(p, t, n + 1);
    DropFew(t, n - 1);
    if Route(p).Some? { LongRoute(StringUtils.Drop(p, n + 1)); }
  }

  /** A path is gone through name by name if and only if it has at most one slash too many, and is not
      just a slash. */
  lemma {:induction false} RouteRight(p: string)
    ensures Route(p) == Some(Split(p)) <==> Surplus(p) <= 1 && p != ['/']
    decreases |p|
  {
    if Split(p) == [] {
      NoNames(p);
    } else if p[0] != '/' {
      var name, rest := FirstName(p);
      var q := StringUtils.Drop(p, |name| + 1);
      DropName(p, name, rest, |name| + 1);
      RouteRight(q);
      RouteStep(p, name, q);
    } else if p[1] == '/' {
      var t := p[2..];
      assert p == ['/', '/'] + t;
      DropSlashes(p, t, 2);
      SlashesSurplus(p, t);
      SlashesRepeat(p, t);
    } else {
      var name, rest := FirstName(p[1..]);
      assert StringUtils.Drop(p, |name| + 1) == rest;
      RouteRight(rest);
      RouteStep(p, name, rest);
    }
  }

  // Paths from the back.

  function LastSlash(s: string): (i: nat)
    requires '/' in s
    ensures i < |s| && s[i] == '/' && '/' !in s[i + 1..]
  {
    if s[|s| - 1] == '/' then |s| - 1
    else
      var i := LastSlash(s[..|s| - 1]);
      assert s[i + 1..] == s[..|s| - 1][i + 1..] + [s[|s| - 1]];
      i
  }

  /** A path that ends with a slash, without it. */
  lemma CutSlash(x: string) returns (y: string)
    requires x != [] && x[|x| - 1] == '/'
    ensures x == y + ['/'] && Split(y) == Split(x) && |y| < |x|
  {
    y := x[..|x| - 1];
    assert x == y + ['/'];
    SplitTrail(y);
  }

  /** What comes before the last slash of a path that does not end with it, and the name after it. */
  lemma CutLast(x: string) returns (a: string, b: string)
    requires '/' in x && x[|x| - 1] != '/'
    ensures IsName(b) && x == a + ['/'] + b && Split(x) == Split(a) + [b]
  {
    var i := LastSlash(x);
    a, b := x[..i], x[i + 1..];
    assert x == a + ['/'] + b;
    SplitAppend(a, b);
    SplitName(b);
  }

  lemma {:induction false} LastFits(s: string)
    requires Split(s) != []
    ensures |Last(Split(s))| <= |s| && ('/' in s ==> |Last(Split(s))| < |s|)
    decreases |s|
  {
    if '/' !in s {
      SplitName(s);
    } else if s[|s| - 1] == '/' {
      var y := CutSlash(s);
      LastFits(y);
    } else {
      var a, b := CutLast(s);
      FrontAndLast(Split(a), b);
    }
  }

  /** A path has a name if it has a slash. */
  predicate HasParts(path: string)
  {
    '/' in path ==> Split(path) != []
  }

  /** The last name of a path. */
  function NameOf(path: string): string
    requires HasParts(path)
  {
    if '/' !in path then path else Last(Split(path))
  }

  /** A path without as many characters at its end as its last name and a slash have. */
  function DirOf(path: string): string
    requires HasParts(path)
  {
    if '/' !in path then []
    else
      LastFits(path);
      path[..|path| - |NameOf(path)| - 1]
  }

  /** Cutting off less than the last name leaves as many names. */
  lemma {:induction false} CutFew(x: string, k: nat, z: string)
    requires Split(x) != [] && k < |Last(Split(x))| <= |x| && z == x[..|x| - k]
    ensures |Split(z)| >= |Split(x)|
    decreases |x|
  {
    if k == 0 {
      assert z == x;
    } else if x[|x| - 1] == '/' {
      var y := CutSlash(x);
      LastFits(y);
      CutFew(y, k - 1, z);
    } else {
      CutInName(x, k, z);
    }
  }

  lemma CutInName(x: string, k: nat, z: string)
    requires Split(x) != [] && k < |Last(Split(x))| <= |x| && z == x[..|x| - k] && x[|x| - 1] != '/'
    ensures |Split(z)| == |Split(x)|
  {
    if '/' !in x {
      SplitName(x);
      SplitName(z);
    } else {
      var a, b := CutLast(x);
      FrontAndLast(Split(a), b);
      assert z == a + ['/'] + b[..|b| - k];
      SplitAppend(a, b[..|b| - k]);
      SplitName(b[..|b| - k]);
    }
  }

  /** A path with at most one slash more than its names need. */
  predicate Tidy(path: string)
  {
    Split(path) != [] && Surplus(path) <= 1
  }

  lemma TidyNamed(path: string, cs: seq<string>, b: string)
    requires Split(path) == cs + [b]
    ensures Tidy(path) <==> |path| <= |b| + 1 + (if cs == [] then 0 else |Join(cs)| + 1)
  {
    JoinLast(cs, b);
  }

  /** The directory d of a path that ends with the name b, and perhaps with a slash. */
  lemma NamedDir(path: string, d: string, b: string)
    requires Split(path) == Split(d) + [b] && |path| == |d| + 1 + |b|
    ensures Route(d) == Some(Split(d)) <==> Tidy(path)
  {
    TidyNamed(path, Split(d), b);
    RouteRight(d);
    if Split(d) == [] { NoNames(d); }
  }

  lemma InnerRight(path: string)
    requires Split(path) != [] && '/' in path && path[|path| - 1] != '/'
    ensures Route(DirOf(path)) == Some(Front(Split(path))) <==> Tidy(path)
  {
    var a, b := CutLast(path);
    FrontAndLast(Split(a), b);
    assert DirOf(path) == a;
    NamedDir(path, a, b);
  }

  lemma EndedDir(path: string, d: string, b: string)
    requires path == d + b + ['/'] && Split(path) != [] && Last(Split(path)) == b
    ensures DirOf(path) == d
  {
    assert path[|d + b|] == '/';
    assert path[..|d|] == d;
  }

  lemma NameEnded(path: string, x: string)
    requires path == x + ['/'] && Split(path) == Split(x) != [] && '/' !in x
    ensures Route(DirOf(path)) == Some(Front(Split(path))) && Tidy(path)
  {
    SplitName(x);
    TidyNamed(path, [], x);
    EndedDir(path, [], x);
  }

  lemma OnceEnded(path: string, x: string)
    requires path == x + ['/'] && Split(path) == Split(x) != [] && '/' in x && x[|x| - 1] != '/'
    ensures Route(DirOf(path)) == Some(Front(Split(path))) <==> Tidy(path)
  {
    var a, b := CutLast(x);
    SplitTrail(a);
    FrontAndLast(Split(a), b);
    EndedDir(path, a + ['/'], b);
    NamedDir(path, a + ['/'], b);
  }

  lemma EndedTwiceDir(path: string, x: string, k: nat)
    requires path == x + ['/'] + ['/'] && Split(path) != [] && k + 1 == |Last(Split(path))| <= |x|
    ensures DirOf(path) == x[..|x| - k]
  {
    assert path[|x|] == '/' && path[..|x| - k] == x[..|x| - k];
  }

  /** A path that ends with two slashes keeps part of its last name or all of it. */
  lemma TwiceEnded(path: string, x: string)
    requires path == x + ['/'] + ['/'] && Split(path) == Split(x) != []
    ensures Route(DirOf(path)) != Some(Front(Split(path))) && !Tidy(path)
  {
    JoinShorter(x);
    LastFits(x);
    SplitNames(x);
    var k := |Last(Split(x))| - 1;
    EndedTwiceDir(path, x, k);
    CutFew(x, k, x[..|x| - k]);
    if Route(x[..|x| - k]).Some? { LongRoute(x[..|x| - k]); }
  }

  /** Whatever its slashes, the names before the last are gone through if and only if the path is tidy. */
  lemma DirRight(path: string)
    requires Split(path) != []
    ensures Route(DirOf(path)) == Some(Front(Split(path))) <==> Tidy(path)
  {
    if '/' !in path {
      SplitName(path);
      TidyNamed(path, [], path);
    } else if path[|path| - 1] != '/' {
      InnerRight(path);
    } else {
      var x := CutSlash(path);
      if '/' !in x {
        NameEnded(path, x);
      } else if x[|x| - 1] != '/' {
        OnceEnded(path, x);
      } else {
        var y := CutSlash(x);
        TwiceEnded(path, y);
      }
    }
  }

  lemma SameEnds(cs: seq<string>, r: seq<string>, name: string)
    requires cs != []
    ensures r + [name] == cs <==> r == Front(cs) && name == Last(cs)
  {
    FrontAndLast(r, name);
    assert Front(cs) + [Last(cs)] == cs;
  }

  /** A watcher named name is put at the path if and only if the path is tidy and ends with that name. */
  lemma LandsRight(path: string, name: string)
    requires Split(path) != [] && Route(DirOf(path)).Some?
    ensures Route(DirOf(path)).value + [name] == Split(path) <==> Tidy(path) && name == Last(Split(path))
  {
    DirRight(path);
    SameEnds(Split(path), Route(DirOf(path)).value, name);
  }

  /** Names joined by single slashes: the directory is the names before the last. */
  lemma JoinedParts(cs: seq<string>)
    requires IsPath(cs) && cs != []
    ensures Split(Join(cs)) == cs && Tidy(Join(cs)) && DirOf(Join(cs)) == Join(Front(cs)) && NameOf(Join(cs)) == Last(cs)
  {
    SplitJoin(cs);
    assert Front(cs) + [Last(cs)] == cs;
    JoinLast(Front(cs), Last(cs));
    if |cs| > 1 {
      assert Join(cs)[|Join(Front(cs))|] == '/';
      assert Join(cs)[..|Join(Front(cs))|] == Join(Front(cs));
    }
  }

  lemma PairParts(a: string, b: string)
    requires IsName(a) && IsName(b)
    ensures var path := a + ['/'] + b;
            Split(path) == [a, b] && Tidy(path) && DirOf(path) == a && NameOf(path) == b && Route(a) == Some([a])
  {
    JoinFirst(a, [b]);
    JoinedParts([a, b]);
    assert Join([a, b]) == a + ['/'] + b && Join(Front([a, b])) == a;
    DirRight(a + ['/'] + b);
  }

  lemma RouteFirst(p: string, name: string, cs: seq<string>, q: string, rs: seq<string>)
    requires p != [] && Split(p) == [name] + cs && q == StringUtils.Drop(p, |name| + 1) && Route(q) == Some(rs)
    ensures Route(p) == Some([name] + rs)
  {
  }

  lemma SlashesName(b: string)
    requires IsName(b)
    ensures Split("//" + b) == Split("///" + b) == [b] && Route("//" + b) == Some([b, [Last(b)]])
  {
    var end := [Last(b)];
    assert ("///" + b)[1..] == "//" + b && ("//" + b)[1..] == "/" + b && ("/" + b)[1..] == b;
    SplitName(b);
    SplitName(end);
    RouteFirst(end, end, [], [], []);
    assert StringUtils.Drop("//" + b, |b| + 1) == end;
    RouteFirst("//" + b, b, [], end, [end]);
    assert [b] + [end] == [b, end];
  }

  lemma SlashesRoute(d: string, a: string, b: string)
    requires IsName(a) && IsName(b) && d == a + ("///" + b)
    ensures Split(d) == [a, b] && Route(d) == Some([a, b, [Last(b)]])
  {
    SlashesName(b);
    SplitFirst(a, "///" + b);
    assert StringUtils.Drop(d, |a| + 1) == "//" + b;
    RouteFirst(d, a, [b], "//" + b, [b, [Last(b)]]);
    assert [a] + [b, [Last(b)]] == [a, b, [Last(b)]];
  }

  /** A name with three slashes before it is gone through, and after it its last character as if it were
      a name. */
  lemma SlashesMislead(a: string, b: string, c: string)
    requires IsName(a) && IsName(b) && IsName(c)
    ensures var path := a + ("///" + b) + ['/'] + c;
            Split(path) == [a, b] + [c] && Route(DirOf(path)) == Some([a, b, [Last(b)]])
  {
    var d := a + ("///" + b);
    SlashesRoute(d, a, b);
    NamedLast(d, c);
  }

  lemma NamedLast(d: string, c: string)
    requires IsName(c)
    ensures var path := d + ['/'] + c; Split(path) == Split(d) + [c] && DirOf(path) == d
  {
    var path := d + ['/'] + c;
    SplitAppend(d, c);
    SplitName(c);
    FrontAndLast(Split(d), c);
    assert path[|d|] == '/' && path[..|d|] == d;
  }
}
