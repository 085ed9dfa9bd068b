/**
 The in-memory runtimes: one instance per block whose runtime differs, looked up at the nearest
 ancestor, and re-keyed when a block is finalised.
 */
module Runtimes {
  import opened Basics
  import opened Ancestry
  import opened BlockTreeSpec

  /** A loaded runtime, known by its identity. */
  type Instance = nat

  type Mapping = map<Hash, Instance>

  // ---------------------------------------------------------------- paths

  /** The blocks from `root` down to `h`. */
  ghost function PathTo(bs: Blocks, root: Hash, h: Hash): (path: seq<Hash>)
    requires WellFormed(bs)
    ensures path != [] && path[|path| - 1] == h
    decreases Height(bs, h)
  {
    if h == root || h !in bs || bs[h].parent.None? then [h] else PathTo(bs, root, bs[h].parent.value) + [h]
  }

  /** The path is a chain of parents, numbered upwards from the root. */
  lemma {:induction false} PathIsChain(bs: Blocks, root: Hash, h: Hash)
    requires WellFormed(bs) && root in bs && h in bs && AncOrEq(bs, root, h)
    ensures var path := PathTo(bs, root, h);
      && IsPath(bs, path) && path[0] == root && |path| == bs[h].number - bs[root].number + 1
      && forall i :: 0 <= i < |path| ==> bs[path[i]].number == bs[root].number + i
    decreases Height(bs, h)
  {
    if h != root { PathIsChain(bs, root, bs[h].parent.value); }
  }

  /** The path holds exactly the blocks between its ends. */
  lemma {:induction false} PathMembers(bs: Blocks, root: Hash, h: Hash, x: Hash)
    requires WellFormed(bs) && AncOrEq(bs, root, h)
    ensures x in PathTo(bs, root, h) <==> AncOrEq(bs, root, x) && AncOrEq(bs, x, h)
    decreases Height(bs, h)
  {
    if h == root {
      if AncOrEq(bs, root, x) && AncOrEq(bs, x, h) { AncAntisymmetric(bs, root, x); }
    } else {
      PathMembers(bs, root, bs[h].parent.value, x);
    }
  }

  /** What finalising `fin` adds to the finalised chain; a genesis root counts as new. */
  ghost function Segment(bs: Blocks, root: Hash, fin: Hash): (s: seq<Hash>)
    requires WellFormed(bs) && root in bs && fin in bs && fin != root && AncOrEq(bs, root, fin)
    ensures s != [] && s[|s| - 1] == fin
    ensures forall x :: x in s <==> AncOrEq(bs, root, x) && AncOrEq(bs, x, fin) && (x != root || bs[root].number == 0)
  {
    PathIsChain(bs, root, fin);
    AncHeight(bs, root, fin);
    var path := PathTo(bs, root, fin);
    assert forall x :: x in path <==> AncOrEq(bs, root, x) && AncOrEq(bs, x, fin) by {
      forall x ensures x in path <==> AncOrEq(bs, root, x) && AncOrEq(bs, x, fin) { PathMembers(bs, root, fin, x); }
    }
    if bs[root].number == 0 then path else
      assert path == [root] + path[1..];
      path[1..]
  }

  // ---------------------------------------------------------------- lookups

  /** The instance a block uses: the entry nearest to it on the way up to the root. */
  ghost function RuntimeOf(bs: Blocks, root: Hash, m: Mapping, h: Hash): Option<Instance>
    requires WellFormed(bs)
    decreases Height(bs, h)
  {
    if h in m then Some(m[h])
    else if h == root || h !in bs || bs[h].parent.None? then None
    else RuntimeOf(bs, root, m, bs[h].parent.value)
  }

  /** A lookup either finds an entry on the path or there is none. */
  lemma {:induction false} RuntimeMeaning(bs: Blocks, root: Hash, m: Mapping, h: Hash)
    requires WellFormed(bs) && AncOrEq(bs, root, h)
    ensures RuntimeOf(bs, root, m, h).None? <==> forall x :: AncOrEq(bs, root, x) && AncOrEq(bs, x, h) ==> x !in m
    ensures RuntimeOf(bs, root, m, h).Some? ==> exists x ::
      && x in m && AncOrEq(bs, root, x) && AncOrEq(bs, x, h) && m[x] == RuntimeOf(bs, root, m, h).value
      && forall y :: StrictAnc(bs, x, y) && AncOrEq(bs, y, h) ==> y !in m
    decreases Height(bs, h)
  {
    if h in m {
      assert AncOrEq(bs, h, h);
      forall y | AncOrEq(bs, h, y) && AncOrEq(bs, y, h) ensures y == h { AncAntisymmetric(bs, h, y); }
    } else if h == root {
      forall x | AncOrEq(bs, root, x) && AncOrEq(bs, x, h) ensures x !in m { AncAntisymmetric(bs, root, x); }
    } else {
      RuntimeMeaning(bs, root, m, bs[h].parent.value);
    }
  }

  /** A lookup from below a block is settled below it, or is that block's own lookup. */
  lemma {:induction false} RuntimeSplit(bs: Blocks, root: Hash, fin: Hash, m: Mapping, b: Hash)
    requires WellFormed(bs) && AncOrEq(bs, root, fin) && AncOrEq(bs, fin, b)
    ensures RuntimeOf(bs, root, m, b) ==
      if RuntimeOf(bs, fin, m, b).Some? then RuntimeOf(bs, fin, m, b) else RuntimeOf(bs, root, m, fin)
    decreases Height(bs, b)
  {
    if b != fin && b !in m {
      if b == root { AncAntisymmetric(bs, root, fin); }
      RuntimeSplit(bs, root, fin, m, bs[b].parent.value);
    }
  }

  // ---------------------------------------------------------------- finalisation

  /** The last of these blocks with an entry. */
  ghost function Closest(m: Mapping, hs: seq<Hash>): (r: Option<Instance>)
    ensures r.None? <==> forall h :: h in hs ==> h !in m
  {
    if hs == [] then None
    else if hs[|hs| - 1] in m then Some(m[hs[|hs| - 1]])
    else Closest(m, hs[..|hs| - 1])
  }

  /** The mapping after a finalisation, as a value. */
  ghost function Finalised(m: Mapping, hs: seq<Hash>): Mapping
    requires hs != []
  {
    if |m| == 0 then m
    else if |m| == 1 then var k :| k in m; map[hs[|hs| - 1] := m[k]]
    else if Closest(m, hs).Some? then map[hs[|hs| - 1] := Closest(m, hs).value]
    else m
  }

  /** Re-keys the mapping to the finalised block and stops, once each, the instances it no longer needs. */
  method OnFinalisation(m: Mapping, hs: seq<Hash>) returns (m': Mapping, stopped: seq<Instance>)
    requires hs != []
    ensures m' == Finalised(m, hs)
    ensures multiset(stopped) == if m' == m || |m| == 1 then multiset{} else multiset(m.Values - m'.Values)
  {
    if |m| == 0 { return m, []; }
    var finalised := hs[|hs| - 1];
    if |m| == 1 {
      var k :| k in m;
      OneKey(m);
      return map[finalised := m[k]], [];
    }
    var idx := |hs| - 1;
    assert hs[..idx + 1] == hs;
    while idx >= 0
      invariant -1 <= idx < |hs| && Closest(m, hs) == Closest(m, hs[..idx + 1])
    {
      var current := hs[idx];
      if current in m {
        m' := map[finalised := m[current]];
        stopped := StopOthers(m, m[current]);
        assert finalised in m'.Keys && m'.Values == {m[current]};
        assert |m'| == 1;
        return;
      }
      assert hs[..idx + 1][..idx] == hs[..idx];
      idx := idx - 1;
    }
    return m, [];
  }

  /** Every other instance is stopped, once. */
  method StopOthers(m: Mapping, kept: Instance) returns (stopped: seq<Instance>)
    ensures multiset(stopped) == multiset(m.Values - {kept})
  {
    stopped := [];
    var seen: set<Instance> := {};
    var rest := m.Keys;
    while rest != {}
      invariant rest <= m.Keys
      invariant seen == (set h | h in m && h !in rest && m[h] != kept :: m[h])
      invariant multiset(stopped) == multiset(seen)
      decreases |rest|
    {
      var h :| h in rest;
      rest := rest - {h};
      if m[h] != kept && m[h] !in seen {
        stopped := stopped + [m[h]];
        seen := seen + {m[h]};
      }
    }
    assert seen == m.Values - {kept};
  }

  lemma {:induction false} OneKey(m: Mapping)
    requires |m| == 1
    ensures forall a, b :: a in m && b in m ==> a == b
  {
    forall a, b | a in m && b in m ensures a == b {
      assert a != b ==> {a, b} <= m.Keys && |m.Keys - {a, b}| == |m.Keys| - 2;
    }
  }

  lemma {:induction false} ClosestIsRuntime(bs: Blocks, root: Hash, m: Mapping, fin: Hash)
    requires WellFormed(bs) && root in bs && fin in bs && fin != root && AncOrEq(bs, root, fin)
    ensures Closest(m, Segment(bs, root, fin)).Some? ==>
      RuntimeOf(bs, root, m, fin) == Closest(m, Segment(bs, root, fin))
    ensures Closest(m, Segment(bs, root, fin)).None? ==>
      RuntimeOf(bs, root, m, fin) == if root in m then Some(m[root]) else None
  {
    PathIsChain(bs, root, fin);
    ClosestOnPath(bs, root, m, fin);
    var path := PathTo(bs, root, fin);
    assert path == [root] + path[1..];
    ClosestPrepend(m, root, path[1..]);
  }

  lemma {:induction false} ClosestOnPath(bs: Blocks, root: Hash, m: Mapping, h: Hash)
    requires WellFormed(bs) && AncOrEq(bs, root, h)
    ensures Closest(m, PathTo(bs, root, h)) == RuntimeOf(bs, root, m, h)
    decreases Height(bs, h)
  {
    var path := PathTo(bs, root, h);
    if h == root {
      assert path[..0] == [];
    } else {
      assert path[..|path| - 1] == PathTo(bs, root, bs[h].parent.value);
      ClosestOnPath(bs, root, m, bs[h].parent.value);
    }
  }

  lemma {:induction false} ClosestPrepend(m: Mapping, h: Hash, hs: seq<Hash>)
    ensures Closest(m, [h] + hs) ==
      if Closest(m, hs).Some? then Closest(m, hs) else if h in m then Some(m[h]) else None
  {
    var all := [h] + hs;
    if hs == [] {
      assert all[..0] == [];
    } else {
      assert all[..|all| - 1] == [h] + hs[..|hs| - 1];
      ClosestPrepend(m, h, hs[..|hs| - 1]);
    }
  }

  // ---------------------------------------------------------------- what finalisation keeps

  /** Every surviving block still looks up the instance it used. */
  ghost predicate LookupsKept(bs: Blocks, root: Hash, fin: Hash, m: Mapping, m': Mapping)
    requires WellFormed(bs)
  {
    forall b :: b in Tree(bs, fin) ==> RuntimeOf(bs, fin, m', b) == RuntimeOf(bs, root, m, b)
  }

  /** What a caller can check beforehand: the finalised chain's instance is the only one the survivors use. */
  ghost predicate KeepsLookups(bs: Blocks, root: Hash, fin: Hash, m: Mapping)
    requires WellFormed(bs) && root in bs && fin in bs && fin != root && AncOrEq(bs, root, fin)
  {
    if |m| == 0 then true
    else if |m| == 1 then forall k :: k in m ==> AncOrEq(bs, root, k) && AncOrEq(bs, k, fin)
    else if exists h :: h in Segment(bs, root, fin) && h in m then
      forall d :: d in Tree(bs, fin) && d != fin && d in m ==> Some(m[d]) == RuntimeOf(bs, root, m, fin)
    else root !in m
  }

  /** Exactly when finalising a block leaves every lookup as it was. */
  lemma {:induction false} FinalisationKeepsLookupsIff(bs: Blocks, root: Hash, fin: Hash, m: Mapping)
    requires WellFormed(bs) && root in bs && fin in bs && fin != root && AncOrEq(bs, root, fin)
    ensures LookupsKept(bs, root, fin, m, Finalised(m, Segment(bs, root, fin))) <==> KeepsLookups(bs, root, fin, m)
  {
    var hs := Segment(bs, root, fin);
    ClosestIsRuntime(bs, root, m, fin);
    if |m| == 0 {
      assert m == map[];
      KeptUnchanged(bs, root, fin, m);
    } else if |m| == 1 {
      KeptOneKey(bs, root, fin, m);
    } else if Closest(m, hs).Some? {
      KeptByOne(bs, root, fin, m, Closest(m, hs).value);
    } else {
      KeptUnchanged(bs, root, fin, m);
    }
  }

  lemma {:induction false} KeptOneKey(bs: Blocks, root: Hash, fin: Hash, m: Mapping)
    requires WellFormed(bs) && root in bs && fin in bs && fin != root && AncOrEq(bs, root, fin) && |m| == 1
    ensures LookupsKept(bs, root, fin, m, Finalised(m, Segment(bs, root, fin))) <==>
      forall k :: k in m ==> AncOrEq(bs, root, k) && AncOrEq(bs, k, fin)
  {
    OneKey(m);
    var k :| k in m;
    KeptByOne(bs, root, fin, m, m[k]);
    RuntimeMeaning(bs, root, m, fin);
    if AncOrEq(bs, root, k) && AncOrEq(bs, k, fin) {
      forall d | d in Tree(bs, fin) && d in m ensures d == fin { AncAntisymmetric(bs, d, fin); }
    }
  }

  lemma {:induction false} RuntimeFromKey(bs: Blocks, fin: Hash, v: Instance, b: Hash)
    requires WellFormed(bs) && AncOrEq(bs, fin, b)
    ensures RuntimeOf(bs, fin, map[fin := v], b) == Some(v)
    decreases Height(bs, b)
  {
    if b != fin { RuntimeFromKey(bs, fin, v, bs[b].parent.value); }
  }

  /** With one instance kept, nothing changes just when every survivor used it. */
  lemma {:induction false} KeptByOne(bs: Blocks, root: Hash, fin: Hash, m: Mapping, v: Instance)
    requires WellFormed(bs) && fin in bs && AncOrEq(bs, root, fin)
    ensures LookupsKept(bs, root, fin, m, map[fin := v]) <==>
      RuntimeOf(bs, root, m, fin) == Some(v) && forall d :: d in Tree(bs, fin) && d != fin && d in m ==> m[d] == v
  {
    var m' := map[fin := v];
    forall b | b in Tree(bs, fin) ensures RuntimeOf(bs, fin, m', b) == Some(v) { RuntimeFromKey(bs, fin, v, b); }
    if LookupsKept(bs, root, fin, m, m') {
      assert fin in Tree(bs, fin);
      forall d | d in Tree(bs, fin) && d != fin && d in m ensures m[d] == v {
        assert RuntimeOf(bs, fin, m', d) == RuntimeOf(bs, root, m, d);
      }
    }
    if RuntimeOf(bs, root, m, fin) == Some(v) && forall d :: d in Tree(bs, fin) && d != fin && d in m ==> m[d] == v {
      forall b | b in Tree(bs, fin) ensures RuntimeOf(bs, fin, m', b) == RuntimeOf(bs, root, m, b) {
        RuntimeSplit(bs, root, fin, m, b);
        RuntimeMeaning(bs, fin, m, b);
        RuntimeMeaning(bs, root, m, fin);
        if RuntimeOf(bs, fin, m, b).Some? {
          var x :| x in m && AncOrEq(bs, fin, x) && AncOrEq(bs, x, b) && m[x] == RuntimeOf(bs, fin, m, b).value;
          if x != fin { AncHeight(bs, fin, x); }
        }
      }
    }
  }

  /** With the mapping untouched, nothing changes just when the finalised block used nothing from above it. */
  lemma {:induction false} KeptUnchanged(bs: Blocks, root: Hash, fin: Hash, m: Mapping)
    requires WellFormed(bs) && fin in bs && AncOrEq(bs, root, fin) && fin !in m
    ensures LookupsKept(bs, root, fin, m, m) <==> RuntimeOf(bs, root, m, fin).None?
  {
    assert fin in Tree(bs, fin) && RuntimeOf(bs, fin, m, fin) == None;
    forall b | b in Tree(bs, fin) ensures RuntimeOf(bs, root, m, b) ==
        if RuntimeOf(bs, fin, m, b).Some? then RuntimeOf(bs, fin, m, b) else RuntimeOf(bs, root, m, fin) {
      RuntimeSplit(bs, root, fin, m, b);
    }
  }

  /** An entry of the old root and one on another fork: finalising the next block loses its runtime. */
  lemma {:induction false} FinalisationCanLoseRuntime()
    ensures var bs := map[10 := Block(None, 5, 0, false), 11 := Block(Some(10), 6, 0, false),
                          12 := Block(Some(10), 6, 0, false)];
      var m: Mapping := map[10 := 1, 12 := 2];
      && WellFormed(bs) && AncOrEq(bs, 10, 11)
      && RuntimeOf(bs, 10, m, 11) == Some(1)
      && RuntimeOf(bs, 11, Finalised(m, Segment(bs, 10, 11)), 11) == None
  {
    var bs := map[10 := Block(None, 5, 0, false), 11 := Block(Some(10), 6, 0, false),
                  12 := Block(Some(10), 6, 0, false)];
    var m: Mapping := map[10 := 1, 12 := 2];
    assert AncOrEq(bs, 10, 10);
    assert m.Keys == {10, 12} && |m| == 2;
    ClosestIsRuntime(bs, 10, m, 11);
    assert !AncOrEq(bs, 12, 11);
    assert 10 !in Segment(bs, 10, 11) && 12 !in Segment(bs, 10, 11);
  }
}
