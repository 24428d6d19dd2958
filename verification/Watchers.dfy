/** Watchers in a tree of named paths. */
module Watchers {
  import StringUtils
  import opened Paths

  /** A path taken apart into directory and name. */
  method Parts(path: string) returns (szpath: string, name: string)
    requires HasParts(path)
    ensures szpath == DirOf(path) && name == NameOf(path)
  {
    if '/' !in path {
      szpath, name := [], path;
    } else {
      LastFits(path);
      var vec := Split(path);
      name := vec[|vec| - 1];
      szpath := path[..|path| - |name| - 1];
    }
  }

  /** The first name of a path, which is then erased with the slash after it. */
  method TakeFirst(path: string, ghost cs: seq<string>) returns (first: string, rest: string)
    requires path != [] && Route(path) == Some(cs)
    ensures |rest| < |path| && cs != [] && first == cs[0] && Route(rest) == Some(cs[1..])
  {
    var vec := Split(path);
    first := vec[0];
    rest := StringUtils.Drop(path, |vec[0]| + 1);
  }

  class Watcher {
    const name_: string
    const path_: string

    constructor (path: string)
      requires HasParts(path)
      ensures name_ == NameOf(path) && path_ == DirOf(path)
      ensures Split(path) != [] && path == Join(Split(path)) ==> name_ == Last(Split(path)) && path_ == Join(Front(Split(path)))
    {
      if Split(path) != [] && path == Join(Split(path)) {
        SplitNames(path);
        JoinedParts(Split(path));
      }
      var p, n := Parts(path);
      name_, path_ := n, p;
    }
  }

  // The tree, by the directories' names.

  type Tree = map<seq<string>, WatcherPaths>

  ghost predicate Rooted(t: Tree)
  {
    forall d :: d in t && d != [] ==> Front(d) in t
  }

  /** Every directory is the one its parent has under its name, and no two are the same. */
  ghost predicate IsTree(t: Tree)
    reads t.Values
  {
    [] in t
    && (forall d, k: string {:trigger t[d].watcherPaths_[k]} {:trigger k in t[d].watcherPaths_} :: d in t ==>
          (k in t[d].watcherPaths_ <==> d + [k] in t) && (k in t[d].watcherPaths_ ==> t[d].watcherPaths_[k] == t[d + [k]]))
    && Rooted(t)
    && (forall d, e :: d in t && e in t && t[d] == t[e] ==> d == e)
  }

  /** The watcher at a path of the tree. */
  ghost function Lookup(t: Tree, p: seq<string>): Option<Watcher>
    reads t.Values
  {
    if p != [] && Front(p) in t && Last(p) in t[Front(p)].watchers_ then Some(t[Front(p)].watchers_[Last(p)]) else None
  }

  class WatcherPaths {
    var watcherPaths_: map<string, WatcherPaths>
    var watchers_: map<string, Watcher>

    constructor ()
      ensures watcherPaths_ == map[] && watchers_ == map[]
    {
      watcherPaths_, watchers_ := map[], map[];
    }

    /** Watchers::addWatcher */
    method AddHere(pwo: Watcher) returns (ok: bool)
      modifies this`watchers_
      ensures ok == (pwo.name_ !in old(watchers_))
      ensures watchers_ == if ok then old(watchers_)[pwo.name_ := pwo] else old(watchers_)
    {
      if pwo.name_ in watchers_ { return false; }
      watchers_ := watchers_[pwo.name_ := pwo];
      ok := true;
    }

    /** Makes an empty directory under this, which is at d. */
    method MakeChild(name: string, ghost t: Tree, ghost d: seq<string>) returns (child: WatcherPaths, ghost u: Tree)
      requires IsTree(t) && d in t && t[d] == this && name !in watcherPaths_
      modifies this`watcherPaths_
      ensures fresh(child) && u == t[d + [name] := child] && d + [name] !in t && IsTree(u)
      ensures forall p :: Lookup(u, p) == old(Lookup(t, p))
    {
      child := new WatcherPaths();
      watcherPaths_ := watcherPaths_[name := child];
      u := t[d + [name] := child];
      assert Front(d + [name]) == d;
      forall e, k: string | e in u
        ensures k in u[e].watcherPaths_ <==> e + [k] in u
        ensures k in u[e].watcherPaths_ ==> u[e].watcherPaths_[k] == u[e + [k]]
      {
        ChildOf(t, d, name, e, k);
      }
    }

    /** Adds a watcher below this, which is at d, making directories where there are none. */
    method AddBelow(path: string, pwo: Watcher, ghost cs: seq<string>, ghost t: Tree, ghost d: seq<string>)
      returns (ok: bool, ghost u: Tree)
      requires IsTree(t) && d in t && t[d] == this && Route(path) == Some(cs)
      modifies t.Values
      ensures IsTree(u) && t.Keys <= u.Keys && (forall e :: e in t ==> u[e] == t[e])
      ensures forall e :: e in u && e !in t ==> fresh(u[e])
      ensures ok == old(Lookup(t, d + cs + [pwo.name_])).None?
      ensures forall p :: Lookup(u, p) == if ok && p == d + cs + [pwo.name_] then Some(pwo) else old(Lookup(t, p))
      decreases |path|, 0
    {
      if |path| > 0 {
        var first, rest := TakeFirst(path, cs);
        assert d + cs == (d + [first]) + cs[1..];
        if first in watcherPaths_ {
          ok, u := watcherPaths_[first].AddBelow(rest, pwo, cs[1..], t, d + [first]);
        } else {
          ok, u := AddMissing(first, rest, pwo, cs[1..], t, d);
        }
      } else {
        assert d + cs == d;
        ok := AddLeaf(pwo, t, d);
        u := t;
      }
    }

    /** Makes the first directory, and adds below it. */
    method AddMissing(first: string, rest: string, pwo: Watcher, ghost cs: seq<string>, ghost t: Tree, ghost d: seq<string>)
      returns (ok: bool, ghost u: Tree)
      requires IsTree(t) && d in t && t[d] == this && first !in watcherPaths_ && Route(rest) == Some(cs)
      modifies t.Values
      ensures IsTree(u) && t.Keys <= u.Keys && (forall e :: e in t ==> u[e] == t[e])
      ensures forall e :: e in u && e !in t ==> fresh(u[e])
      ensures ok == old(Lookup(t, (d + [first]) + cs + [pwo.name_])).None?
      ensures forall p ::
        Lookup(u, p) == if ok && p == (d + [first]) + cs + [pwo.name_] then Some(pwo) else old(Lookup(t, p))
      decreases |rest|, 1
    {
      var watcherPaths;
      ghost var v;
      watcherPaths, v := MakeChild(first, t, d);
      ok, u := watcherPaths.AddBelow(rest, pwo, cs, v, d + [first]);
    }

    method AddLeaf(pwo: Watcher, ghost t: Tree, ghost d: seq<string>) returns (ok: bool)
      requires IsTree(t) && d in t && t[d] == this
      modifies this`watchers_
      ensures IsTree(t) && ok == old(Lookup(t, d + [pwo.name_])).None?
      ensures forall p :: Lookup(t, p) == if ok && p == d + [pwo.name_] then Some(pwo) else old(Lookup(t, p))
    {
      assert Front(d + [pwo.name_]) == d && Last(d + [pwo.name_]) == pwo.name_;
      ok := AddHere(pwo);
      forall p | p != [] && Front(p) == d && Last(p) == pwo.name_
        ensures p == d + [pwo.name_]
      {
      }
    }

    /** Adds a watcher where the directory of the path leads, under its own name. */
    method AddWatcher(path: string, pwo: Watcher, ghost t: Tree) returns (ok: bool, ghost u: Tree)
      requires IsTree(t) && t[[]] == this && HasParts(path) && Route(DirOf(path)).Some?
      modifies t.Values
      ensures IsTree(u) && u[[]] == this
      ensures var p := Route(DirOf(path)).value + [pwo.name_];
              ok == old(Lookup(t, p)).None? && forall q :: Lookup(u, q) == if ok && q == p then Some(pwo) else old(Lookup(t, q))
      ensures Split(path) != [] ==>
        (Route(DirOf(path)).value + [pwo.name_] == Split(path) <==> Tidy(path) && pwo.name_ == Last(Split(path)))
    {
      var szpath, name := Parts(path);
      ghost var cs := Route(szpath).value;
      assert [] + cs == cs;
      if Split(path) != [] { LandsRight(path, pwo.name_); }
      ok, u := AddBelow(szpath, pwo, cs, t, []);
    }

    /** Goes down from the root. */
    method Find(vec: seq<string>, ghost t: Tree) returns (node: Option<WatcherPaths>)
      requires IsTree(t) && t[[]] == this
      ensures node == if vec in t then Some(t[vec]) else None
    {
      var pCurrWatcherPaths := this;
      for i := 0 to |vec|
        invariant vec[..i] in t && pCurrWatcherPaths == t[vec[..i]]
      {
        assert vec[..i + 1] == vec[..i] + [vec[i]];
        if vec[i] !in pCurrWatcherPaths.watcherPaths_ {
          if vec in t { PrefixIn(t, vec, i + 1); }
          return None;
        }
        pCurrWatcherPaths := pCurrWatcherPaths.watcherPaths_[vec[i]];
      }
      assert vec[..|vec|] == vec;
      node := Some(pCurrWatcherPaths);
    }

    method HasWatcherPath(fullpath: string, ghost t: Tree) returns (b: bool)
      requires IsTree(t) && t[[]] == this && Split(fullpath) != []
      ensures b == (|Split(fullpath)| > 1 && Front(Split(fullpath)) in t)
    {
      var vec := Split(fullpath);
      if |vec| == 1 { return false; }
      var node := Find(vec[..|vec| - 1], t);
      b := node.Some?;
    }

    /** Removes the watcher of a path with a directory. */
    method DelWatcher(fullpath: string, ghost t: Tree) returns (ok: bool)
      requires IsTree(t) && t[[]] == this && Split(fullpath) != []
      modifies t.Values
      ensures IsTree(t) && ok == (|Split(fullpath)| > 1 && old(Lookup(t, Split(fullpath))).Some?)
      ensures forall p :: Lookup(t, p) == if ok && p == Split(fullpath) then None else old(Lookup(t, p))
    {
      var has := HasWatcherPath(fullpath, t);
      if !has { return false; }
      var vec := Split(fullpath);
      var name := vec[|vec| - 1];
      var node := Find(vec[..|vec| - 1], t);
      ok := node.value.DelHere(name, t, Front(vec));
      assert Front(vec) + [name] == vec;
    }

    method DelHere(name: string, ghost t: Tree, ghost d: seq<string>) returns (ok: bool)
      requires IsTree(t) && d in t && t[d] == this
      modifies this`watchers_
      ensures IsTree(t) && ok == old(Lookup(t, d + [name])).Some?
      ensures forall p :: Lookup(t, p) == if ok && p == d + [name] then None else old(Lookup(t, p))
    {
      assert Front(d + [name]) == d && Last(d + [name]) == name;
      ok := Erase(name);
      forall p | p != [] && Front(p) == d && Last(p) == name
        ensures p == d + [name]
      {
      }
    }

    method Erase(name: string) returns (ok: bool)
      modifies this`watchers_
      ensures ok == (name in old(watchers_)) && watchers_ == old(watchers_) - {name}
    {
      ok := name in watchers_;
      watchers_ := watchers_ - {name};
    }

    /** The watcher of a path with a directory. */
    method GetWatcher(fullpath: string, ghost t: Tree) returns (w: Option<Watcher>)
      requires IsTree(t) && t[[]] == this && Split(fullpath) != []
      ensures w == if |Split(fullpath)| > 1 then Lookup(t, Split(fullpath)) else None
    {
      var has := HasWatcherPath(fullpath, t);
      if !has { return None; }
      var vec := Split(fullpath);
      var name := vec[|vec| - 1];
      var node := Find(vec[..|vec| - 1], t);
      w := if name in node.value.watchers_ then Some(node.value.watchers_[name]) else None;
    }
  }

  /** A directory by itself is a tree without watchers. */
  lemma NewTree(root: WatcherPaths, p: seq<string>)
    requires root.watcherPaths_ == map[] && root.watchers_ == map[]
    ensures IsTree(map[[] := root]) && Lookup(map[[] := root], p).None?
  {
  }

  lemma {:induction false} PrefixIn(t: Tree, d: seq<string>, n: nat)
    requires Rooted(t) && d in t && n <= |d|
    ensures d[..n] in t
    decreases |d|
  {
    if n == |d| {
      assert d[..n] == d;
    } else {
      PrefixIn(t, Front(d), n);
      assert Front(d)[..n] == d[..n];
    }
  }

  lemma ChildOf(t: Tree, d: seq<string>, name: string, e: seq<string>, k: string)
    requires Rooted(t) && d in t && d + [name] !in t
    ensures e + [k] == d + [name] <==> e == d && k == name
    ensures e == d + [name] ==> e + [k] !in t
  {
    assert Front(e + [k]) == e && Last(e + [k]) == k && Front(d + [name]) == d && Last(d + [name]) == name;
  }

  /** A watcher made from another path is not found at the path it is added under, but at its own. */
  method MissesItsPath(a: string, b: string, c: string)
    returns (given: Option<Watcher>, own: Option<Watcher>, pwo: Watcher)
    requires IsName(a) && IsName(b) && IsName(c) && b != c
    ensures given.None? && own == Some(pwo)
  {
    PairParts(a, b);
    PairParts(a, c);
    var root := new WatcherPaths();
    NewTree(root, [a, b]);
    NewTree(root, [a, c]);
    pwo := new Watcher(a + ['/'] + c);
    var ok;
    ghost var t;
    ok, t := root.AddWatcher(a + ['/'] + b, pwo, map[[] := root]);
    given := root.GetWatcher(a + ['/'] + b, t);
    own := root.GetWatcher(a + ['/'] + c, t);
  }
}
