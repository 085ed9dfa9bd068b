/** When pruning reports every block of the other forks: no block of the tree has more than two children. */
module PruneComplete {
  import opened Basics
  import opened Ancestry
  import opened BlockTreeSpec
  import opened BlockTreeNode
  import opened BlockTrees
  import opened PruneWalk

  // ---------------------------------------------------------------- the walk is local

  predicate SameAt(sl: Slices, sl': Slices, x: Hash) {
    x in sl && x in sl' && sl'[x] == sl[x]
  }

  /** Elsewhere than at and below `h` no slice has changed. */
  ghost predicate Elsewhere(bs: Blocks, sl: Slices, sl': Slices, h: Hash)
    requires WellFormed(bs)
  {
    sl'.Keys == sl.Keys && forall x {:trigger SameAt(sl, sl', x)} ::
      x in sl && !AncOrEq(bs, h, x) ==> SameAt(sl, sl', x)
  }

  lemma {:induction false} ElsewhereTrans(bs: Blocks, a: Slices, b: Slices, c: Slices, h: Hash)
    requires WellFormed(bs) && Elsewhere(bs, a, b, h) && Elsewhere(bs, b, c, h)
    ensures Elsewhere(bs, a, c, h)
  {
    forall x {:trigger SameAt(a, c, x)} | x in a && !AncOrEq(bs, h, x) ensures SameAt(a, c, x) {
      assert SameAt(a, b, x) && SameAt(b, c, x);
    }
  }

  /**
   Besides the slices at and below a block, the walk changes only its parent's, and only if the block is on
   another fork: by deleting it.
   */
  ghost predicate Local(bs: Blocks, sl: Slices, sl': Slices, h: Hash, fin: Hash)
    requires WellFormed(bs)
  {
    Elsewhere(bs, if Unrelated(bs, h, fin) then Without(bs, sl, h) else sl, sl', h)
  }

  lemma {:induction false} WalkLocal(bs: Blocks, sl: Slices, h: Hash, fin: Hash, out: seq<Hash>)
    requires WellFormed(bs) && Fine(sl) && Placed(bs, sl, h, fin)
    ensures Local(bs, sl, Walk(bs, sl, h, fin, out).0, h, fin)
    decreases Upper(bs, bs[h].number), 1, 0
  {
    if !AncOrEq(bs, fin, h) {
      var cut := !AncOrEq(bs, h, fin);
      var sl1, out1 := if cut then Without(bs, sl, h) else sl, if cut then out + [h] else out;
      if cut { PrunesOne(bs, fin, sl, out, h); }
      WalkChildrenLocal(bs, sl1, h, fin, out1, 0, sl1[h].len);
    }
  }

  lemma {:induction false} WalkChildrenLocal(bs: Blocks, sl: Slices, h: Hash, fin: Hash, out: seq<Hash>, i: nat, n: nat)
    requires WellFormed(bs) && Fine(sl) && h in bs && h in sl
    ensures Elsewhere(bs, sl, WalkChildren(bs, sl, h, fin, out, i, n).0, h)
    decreases Upper(bs, bs[h].number), 0, if i < n then n - i else 0
  {
    if i < n && i < |sl[h].slots| {
      var c := sl[h].slots[i];
      if c in bs && bs[c].parent == Some(h) {
        assert FineAt(sl, sl[h]);
        UpperShrinks(bs, h);
        WalkLocal(bs, sl, c, fin, out);
        WalkPrunes(bs, sl, c, fin, out);
        var r := Walk(bs, sl, c, fin, out);
        BelowChild(bs, sl, r.0, h, c, fin);
        WalkChildrenLocal(bs, r.0, h, fin, r.1, i + 1, n);
        ElsewhereTrans(bs, sl, r.0, WalkChildren(bs, r.0, h, fin, r.1, i + 1, n).0, h);
      }
    }
  }

  lemma {:induction false} BelowChild(bs: Blocks, sl: Slices, sl': Slices, h: Hash, c: Hash, fin: Hash)
    requires WellFormed(bs) && c in bs && bs[c].parent == Some(h) && Local(bs, sl, sl', c, fin)
    ensures Elsewhere(bs, sl, sl', h)
  {
    forall x {:trigger SameAt(sl, sl', x)} | x in sl && !AncOrEq(bs, h, x) ensures SameAt(sl, sl', x) {
      if AncOrEq(bs, c, x) { AncTransitive(bs, h, c, x); }
      assert SameAt(sl, sl', x) || SameAt(Without(bs, sl, c), sl', x);
    }
  }

  // ---------------------------------------------------------------- at most two children

  /** The slices at and below a block have not been cut. */
  ghost predicate WholeBelow(bs: Blocks, kids: Kids, sl: Slices, h: Hash)
    requires WellFormed(bs)
  {
    sl.Keys == kids.Keys && forall x {:trigger SameAt(Whole(kids), sl, x)} ::
      x in kids && AncOrEq(bs, h, x) ==> SameAt(Whole(kids), sl, x)
  }

  /** Every block at or below `h` on another fork is reported. */
  ghost predicate AllReported(bs: Blocks, kids: Kids, h: Hash, fin: Hash, out: seq<Hash>)
    requires WellFormed(bs)
  {
    forall x {:trigger x in out} :: x in kids && AncOrEq(bs, h, x) && Unrelated(bs, x, fin) ==> x in out
  }

  ghost predicate Narrow(kids: Kids) {
    forall h {:trigger kids[h]} :: h in kids ==> |kids[h]| <= 2
  }

  lemma {:induction false} WalkReportsAll(bs: Blocks, root: Hash, kids: Kids, sl: Slices, h: Hash, fin: Hash,
      out: seq<Hash>)
    requires TreeLinks(bs, root, kids) && Narrow(kids) && Fine(sl) && Placed(bs, sl, h, fin)
    requires WholeBelow(bs, kids, sl, h)
    ensures AllReported(bs, kids, h, fin, Walk(bs, sl, h, fin, out).1)
    decreases Upper(bs, bs[h].number), 1
  {
    if AncOrEq(bs, fin, h) {
      forall x | x in kids && AncOrEq(bs, h, x) ensures AncOrEq(bs, fin, x) { AncTransitive(bs, fin, h, x); }
    } else {
      var cut := !AncOrEq(bs, h, fin);
      var sl1, out1 := if cut then Without(bs, sl, h) else sl, if cut then out + [h] else out;
      if cut { PrunesOne(bs, fin, sl, out, h); CutAbove(bs, kids, sl, h); }
      assert SameAt(Whole(kids), sl1, h);
      ChildrenReportAll(bs, root, kids, sl1, h, fin, out1);
      WalkChildrenPrunes(bs, sl1, h, fin, out1, 0, |kids[h]|);
      var r := WalkChildren(bs, sl1, h, fin, out1, 0, |kids[h]|);
      forall x {:trigger x in r.1} | x in kids && AncOrEq(bs, h, x) && Unrelated(bs, x, fin) ensures x in r.1 {
        if x == h { assert r.1[|out|] == h; }
      }
    }
  }

  lemma {:induction false} CutAbove(bs: Blocks, kids: Kids, sl: Slices, h: Hash)
    requires WellFormed(bs) && h in bs && WholeBelow(bs, kids, sl, h)
    ensures WholeBelow(bs, kids, Without(bs, sl, h), h)
  {
    forall x {:trigger SameAt(Whole(kids), Without(bs, sl, h), x)} | x in kids && AncOrEq(bs, h, x)
      ensures SameAt(Whole(kids), Without(bs, sl, h), x)
    {
      assert SameAt(Whole(kids), sl, x);
      if bs[h].parent == Some(x) { AncStep(bs, h); AncHeight(bs, x, h); AncAntisymmetric(bs, x, h); }
    }
  }

  /** What is below a block is at or below one of its children. */
  ghost predicate StrictlyReported(bs: Blocks, kids: Kids, h: Hash, fin: Hash, out: seq<Hash>)
    requires WellFormed(bs)
  {
    forall x {:trigger x in out} :: x in kids && StrictAnc(bs, h, x) && Unrelated(bs, x, fin) ==> x in out
  }

  lemma {:induction false} ByChildren(bs: Blocks, root: Hash, kids: Kids, h: Hash, fin: Hash, out: seq<Hash>)
    requires TreeLinks(bs, root, kids) && h in kids
    requires forall j {:trigger kids[h][j]} :: 0 <= j < |kids[h]| ==> AllReported(bs, kids, kids[h][j], fin, out)
    ensures StrictlyReported(bs, kids, h, fin, out)
  {
    forall x {:trigger x in out} | x in kids && StrictAnc(bs, h, x) && Unrelated(bs, x, fin) ensures x in out {
      var c := ChildToward(bs, h, x);
      AncStep(bs, c);
      AncTransitive(bs, root, h, c);
      if c == root { AncAntisymmetric(bs, h, root); }
      assert ListedByParent(bs, kids, c);
      var j :| 0 <= j < |kids[h]| && kids[h][j] == c;
      assert AllReported(bs, kids, kids[h][j], fin, out);
    }
  }

  lemma {:induction false} MoreReported(bs: Blocks, kids: Kids, h: Hash, fin: Hash, out: seq<Hash>, out': seq<Hash>)
    requires WellFormed(bs) && AllReported(bs, kids, h, fin, out) && out <= out'
    ensures AllReported(bs, kids, h, fin, out')
  {
    forall x {:trigger x in out'} | x in kids && AncOrEq(bs, h, x) && Unrelated(bs, x, fin) ensures x in out' {
      assert x in out;
    }
  }

  lemma {:induction false} ChildrenReportAll(bs: Blocks, root: Hash, kids: Kids, sl: Slices, h: Hash, fin: Hash,
      out: seq<Hash>)
    requires TreeLinks(bs, root, kids) && Narrow(kids) && Fine(sl) && h in bs && h in kids
    requires WholeBelow(bs, kids, sl, h)
    ensures StrictlyReported(bs, kids, h, fin, WalkChildren(bs, sl, h, fin, out, 0, |kids[h]|).1)
    decreases Upper(bs, bs[h].number), 0
  {
    var n := |kids[h]|;
    var all := WalkChildren(bs, sl, h, fin, out, 0, n);
    if n > 0 {
      assert SameAt(Whole(kids), sl, h) && sl[h].slots == kids[h];
      var c := kids[h][0];
      UpperShrinks(bs, h);
      ChildWhole(bs, kids, sl, h, c);
      WalkReportsAll(bs, root, kids, sl, c, fin, out);
      WalkPrunes(bs, sl, c, fin, out);
      var r := Walk(bs, sl, c, fin, out);
      if n == 1 {
        assert all == WalkChildren(bs, r.0, h, fin, r.1, 1, 1) == r;
      } else {
        SecondChild(bs, root, kids, sl, h, fin, out, r);
        var d := kids[h][1];
        WalkReportsAll(bs, root, kids, r.0, d, fin, r.1);
        WalkPrunes(bs, r.0, d, fin, r.1);
        var r' := Walk(bs, r.0, d, fin, r.1);
        assert all == WalkChildren(bs, r.0, h, fin, r.1, 1, 2) == WalkChildren(bs, r'.0, h, fin, r'.1, 2, 2) == r';
        MoreReported(bs, kids, c, fin, r.1, r'.1);
      }
    }
    ByChildren(bs, root, kids, h, fin, all.1);
  }

  lemma {:induction false} ChildWhole(bs: Blocks, kids: Kids, sl: Slices, h: Hash, c: Hash)
    requires WellFormed(bs) && c in bs && bs[c].parent == Some(h) && WholeBelow(bs, kids, sl, h)
    ensures WholeBelow(bs, kids, sl, c)
  {
    forall x {:trigger SameAt(Whole(kids), sl, x)} | x in kids && AncOrEq(bs, c, x) ensures SameAt(Whole(kids), sl, x) {
      AncStep(bs, c);
      AncTransitive(bs, h, c, x);
    }
  }

  /** After the first of two children has been walked, the second is still in its slot, with its subtree whole. */
  lemma {:induction false} SecondChild(bs: Blocks, root: Hash, kids: Kids, sl: Slices, h: Hash, fin: Hash,
      out: seq<Hash>, r: (Slices, seq<Hash>))
    requires TreeLinks(bs, root, kids) && Fine(sl) && h in bs && h in kids && WholeBelow(bs, kids, sl, h)
    requires |kids[h]| == 2
    requires r == Walk(bs, sl, kids[h][0], fin, out) && kids[h][0] in bs && bs[kids[h][0]].parent == Some(h)
    ensures kids[h][1] in bs && bs[kids[h][1]].parent == Some(h) && kids[h][1] != kids[h][0]
    ensures h in r.0 && |r.0[h].slots| == 2 && r.0[h].slots[1] == kids[h][1] && WholeBelow(bs, kids, r.0, kids[h][1])
  {
    var c, d := kids[h][0], kids[h][1];
    assert SameAt(Whole(kids), sl, h);
    OnceOnly(kids[h], 0, 1);
    AncStep(bs, c);
    if AncOrEq(bs, c, h) { AncAntisymmetric(bs, c, h); }
    WalkLocal(bs, sl, c, fin, out);
    assert SameAt(sl, r.0, h) || SameAt(Without(bs, sl, c), r.0, h);
    DeletedFirst(c, d);
    assert kids[h] == [c, d];
    forall x {:trigger SameAt(Whole(kids), r.0, x)} | x in kids && AncOrEq(bs, d, x)
      ensures SameAt(Whole(kids), r.0, x)
    {
      SiblingApart(bs, h, c, d, x);
      AncStep(bs, d);
      AncTransitive(bs, h, d, x);
      assert SameAt(Whole(kids), sl, x);
      assert SameAt(sl, r.0, x) || SameAt(Without(bs, sl, c), r.0, x);
    }
  }

  lemma {:induction false} DeletedFirst(c: Hash, d: Hash)
    ensures Deleted(Slice([c, d], 2), c) == Slice([d, d], 1)
  {
    assert [c, d][..2] == [c, d];
    assert FirstIn([c, d], c) == 0;
  }

  lemma {:induction false} SiblingApart(bs: Blocks, h: Hash, c: Hash, d: Hash, x: Hash)
    requires WellFormed(bs) && c in bs && d in bs && bs[c].parent == Some(h) && bs[d].parent == Some(h) && c != d
    requires AncOrEq(bs, d, x)
    ensures !AncOrEq(bs, c, x) && x != h
  {
    if AncOrEq(bs, c, x) { AncSameNumber(bs, c, d, x); }
    AncStep(bs, d);
    if x == h { AncAntisymmetric(bs, d, h); }
  }

  /** If no block of the tree has more than two children, pruning reports every block of the other forks. */
  lemma {:induction false} NarrowReportsAll(bs: Blocks, root: Hash, kids: Kids, fin: Hash, x: Hash)
    requires TreeLinks(bs, root, kids) && Narrow(kids) && fin in kids && fin != root
    requires x in kids && Unrelated(bs, x, fin)
    ensures x in Reported(bs, kids, root, fin)
  {
    WholeFine(bs, root, kids);
    WalkReportsAll(bs, root, kids, Whole(kids), root, fin, []);
  }

  // ---------------------------------------------------------------- more than two

  /** What the walk from a block reports is at or below it. */
  lemma {:induction false} ReportsBelow(bs: Blocks, sl: Slices, h: Hash, fin: Hash, out: seq<Hash>, x: Hash)
    requires WellFormed(bs) && h in bs && x in Walk(bs, sl, h, fin, out).1
    ensures x in out || AncOrEq(bs, h, x)
    decreases Upper(bs, bs[h].number), 1, 0
  {
    if !AncOrEq(bs, fin, h) {
      var cut := !AncOrEq(bs, h, fin);
      var sl1, out1 := if cut then Without(bs, sl, h) else sl, if cut then out + [h] else out;
      ChildrenReportBelow(bs, sl1, h, fin, out1, 0, if h in sl1 then sl1[h].len else 0, x);
    }
  }

  lemma {:induction false} ChildrenReportBelow(bs: Blocks, sl: Slices, h: Hash, fin: Hash, out: seq<Hash>, i: nat,
      n: nat, x: Hash)
    requires WellFormed(bs) && h in bs && x in WalkChildren(bs, sl, h, fin, out, i, n).1
    ensures x in out || AncOrEq(bs, h, x)
    decreases Upper(bs, bs[h].number), 0, if i < n then n - i else 0
  {
    if i < n && h in sl && i < |sl[h].slots| {
      var c := sl[h].slots[i];
      if c in bs && bs[c].parent == Some(h) {
        UpperShrinks(bs, h);
        var r := Walk(bs, sl, c, fin, out);
        ChildrenReportBelow(bs, r.0, h, fin, r.1, i + 1, n, x);
        if x in r.1 {
          ReportsBelow(bs, sl, c, fin, out, x);
          if AncOrEq(bs, c, x) { AncStep(bs, c); AncTransitive(bs, h, c, x); }
        }
      }
    }
  }

  /** Deleting brings nothing new into the slots from the second on. */
  lemma {:induction false} DeletedTail(s: Slice, c: Hash, d: Hash)
    requires d !in s.slots[if |s.slots| > 0 then 1 else 0..]
    ensures d !in Deleted(s, c).slots[if |s.slots| > 0 then 1 else 0..] && |Deleted(s, c).slots| == |s.slots|
  {
    var s' := Deleted(s, c);
    forall k | 1 <= k < |s'.slots| ensures s'.slots[k] != d {
      assert s.slots[1..][k - 1] == s.slots[k];
      if k + 1 < |s.slots| { assert s.slots[1..][k] == s.slots[k + 1]; }
    }
  }

  /** Once a child has moved to the first slot, the rest of the loop does not reach it. */
  lemma {:induction false} RestSkips(bs: Blocks, sl: Slices, h: Hash, fin: Hash, out: seq<Hash>, i: nat, n: nat,
      d: Hash)
    requires WellFormed(bs) && Fine(sl) && h in bs && h in sl && d in bs && bs[d].parent == Some(h)
    requires i >= 1 && |sl[h].slots| > 0 && d !in sl[h].slots[1..] && d !in out
    ensures d !in WalkChildren(bs, sl, h, fin, out, i, n).1
    decreases if i < n then n - i else 0
  {
    if i < n && i < |sl[h].slots| {
      var c := sl[h].slots[i];
      if c in bs && bs[c].parent == Some(h) {
        assert sl[h].slots[1..][i - 1] == c;
        assert FineAt(sl, sl[h]);
        WalkPrunes(bs, sl, c, fin, out);
        WalkLocal(bs, sl, c, fin, out);
        var r := Walk(bs, sl, c, fin, out);
        AncStep(bs, c);
        if AncOrEq(bs, c, h) { AncAntisymmetric(bs, c, h); }
        assert SameAt(sl, r.0, h) || SameAt(Without(bs, sl, c), r.0, h);
        DeletedTail(sl[h], c, d);
        if d in r.1 {
          ReportsBelow(bs, sl, c, fin, out, d);
          SiblingApart(bs, h, c, d, d);
        }
        RestSkips(bs, r.0, h, fin, r.1, i + 1, n, d);
      }
    }
  }

  /** If the first two children of the root are both on other forks, the second is never reported. */
  lemma {:induction false} SecondForkSkipped(bs: Blocks, root: Hash, kids: Kids, fin: Hash)
    requires TreeLinks(bs, root, kids) && fin in kids && fin != root && |kids[root]| >= 2
    requires Unrelated(bs, kids[root][0], fin) && Unrelated(bs, kids[root][1], fin)
    ensures kids[root][1] !in Reported(bs, kids, root, fin)
  {
    var sl, cs, n := Whole(kids), kids[root], |kids[root]|;
    var c, d := cs[0], cs[1];
    var e := ChildToward(bs, root, fin);
    assert ListedByParent(bs, kids, e);
    WholeFine(bs, root, kids);
    assert sl[root].slots[0] == c && FineAt(sl, sl[root]);
    if AncOrEq(bs, fin, root) { AncAntisymmetric(bs, fin, root); }
    WalkPrunes(bs, sl, c, fin, []);
    WalkLocal(bs, sl, c, fin, []);
    var r := Walk(bs, sl, c, fin, []);
    AncStep(bs, c);
    if AncOrEq(bs, c, root) { AncAntisymmetric(bs, c, root); }
    assert SameAt(Without(bs, sl, c), r.0, root);
    ShiftedSecond(cs);
    if d in r.1 {
      ReportsBelow(bs, sl, c, fin, [], d);
      SiblingApart(bs, root, c, d, d);
    }
    RestSkips(bs, r.0, root, fin, r.1, 1, n, d);
    assert WalkChildren(bs, sl, root, fin, [], 0, n) == WalkChildren(bs, r.0, root, fin, r.1, 1, n);
  }

  lemma {:induction false} WholeFine(bs: Blocks, root: Hash, kids: Kids)
    requires TreeLinks(bs, root, kids)
    ensures Fine(Whole(kids))
  {
    var sl := Whole(kids);
    forall h {:trigger FineAt(sl, sl[h])} | h in sl ensures FineAt(sl, sl[h]) {
      assert NoRepeats(kids[h]) && sl[h].slots[..sl[h].len] == kids[h];
    }
  }

  /** Deleting the first of several different children leaves the second in the first slot only. */
  lemma {:induction false} ShiftedSecond(cs: seq<Hash>)
    requires |cs| >= 3 && NoRepeats(cs)
    ensures var s := Deleted(Slice(cs, |cs|), cs[0]); |s.slots| == |cs| && cs[1] !in s.slots[1..] && cs[0] != cs[1]
  {
    var s := Deleted(Slice(cs, |cs|), cs[0]);
    assert cs[..|cs|] == cs && FirstIn(cs, cs[0]) == 0;
    forall k | 0 <= k < |cs| && k != 1 ensures cs[k] != cs[1] { OnceOnly(cs, k, 1); }
    forall k | 1 <= k < |s.slots| ensures s.slots[k] != cs[1] {
      assert s.slots[k] == cs[if k < |cs| - 1 then k + 1 else k];
    }
  }

  lemma {:induction false} OnceOnly(cs: seq<Hash>, i: nat, j: nat)
    requires i < |cs| && j < |cs| && i != j && NoRepeats(cs)
    ensures cs[i] != cs[j]
  {
    if i < j {
      assert cs == cs[..j] + cs[j..];
      assert cs[i] in cs[..j] && cs[j] in cs[j..];
      assert multiset(cs) == multiset(cs[..j]) + multiset(cs[j..]);
      assert multiset(cs)[cs[i]] <= 1;
      assert cs[..j][i] == cs[i] && cs[j..][0] == cs[j];
    } else {
      OnceOnly(cs, j, i);
    }
  }
}
