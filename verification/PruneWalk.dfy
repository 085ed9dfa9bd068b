/**
 The pruning walk as a value: which blocks it reports, from the lists of children alone. The loop over a
 block's children reads the array behind a slice that shrinks under it, so the walk works on slices.
 */
module PruneWalk {
  import opened Basics
  import opened Ancestry
  import opened BlockTreeSpec

  /** The children of a block: the first `len` of the slots. */
  datatype Slice = Slice(slots: seq<Hash>, len: nat)

  type Slices = map<Hash, Slice>

  /** Where a hash first appears; past the end if it does not. */
  function FirstIn(hs: seq<Hash>, h: Hash): (i: nat)
    ensures i <= |hs| && (i < |hs| ==> hs[i] == h) && forall j :: 0 <= j < i ==> hs[j] != h
  {
    if hs == [] || hs[0] == h then 0 else 1 + FirstIn(hs[1..], h)
  }

  /** The array behind a slice of length `n` after its element `i` is deleted: the last element stays behind. */
  function ShiftLeft<T>(slots: seq<T>, i: nat, n: nat): (r: seq<T>)
    requires i < n <= |slots|
    ensures |r| == |slots| && forall k {:trigger r[k]} ::
      0 <= k < |r| ==> r[k] == slots[if i <= k < n - 1 then k + 1 else k]
  {
    slots[..i] + slots[i + 1..n] + slots[n - 1..]
  }

  /** The slice without a child: the rest moves one slot to the left, and the last one stays behind. */
  function Deleted(s: Slice, h: Hash): Slice {
    if s.len > |s.slots| then s
    else
      var i := FirstIn(s.slots[..s.len], h);
      if i == s.len then s else Slice(ShiftLeft(s.slots, i, s.len), s.len - 1)
  }

  /** The walk from a block: its own subtree is left alone, a fork is reported and cut, and the children follow. */
  ghost function Walk(bs: Blocks, sl: Slices, h: Hash, fin: Hash, out: seq<Hash>): (Slices, seq<Hash>)
    requires WellFormed(bs) && h in bs
    decreases Upper(bs, bs[h].number), 1, 0
  {
    if AncOrEq(bs, fin, h) then (sl, out)
    else
      var cut := !AncOrEq(bs, h, fin);
      var sl' := if cut then Without(bs, sl, h) else sl;
      WalkChildren(bs, sl', h, fin, if cut then out + [h] else out, 0, if h in sl' then sl'[h].len else 0)
  }

  /** The slices after a block is deleted from its parent's. */
  function Without(bs: Blocks, sl: Slices, h: Hash): Slices {
    if h in bs && bs[h].parent.Some? && bs[h].parent.value in sl
    then sl[bs[h].parent.value := Deleted(sl[bs[h].parent.value], h)] else sl
  }

  /** The loop over the first `n` slots, from slot `i` on. */
  ghost function WalkChildren(bs: Blocks, sl: Slices, h: Hash, fin: Hash, out: seq<Hash>, i: nat, n: nat): (Slices,
      seq<Hash>)
    requires WellFormed(bs) && h in bs
    decreases Upper(bs, bs[h].number), 0, if i < n then n - i else 0
  {
    if i >= n || h !in sl || i >= |sl[h].slots| then (sl, out)
    else
      var c := sl[h].slots[i];
      if c !in bs || bs[c].parent != Some(h) then (sl, out)
      else
        UpperShrinks(bs, h);
        var r := Walk(bs, sl, c, fin, out);
        WalkChildren(bs, r.0, h, fin, r.1, i + 1, n)
  }

  /** The slices of a tree that has not been cut. */
  function Whole(kids: map<Hash, seq<Hash>>): Slices {
    map h | h in kids :: Slice(kids[h], |kids[h]|)
  }

  /** What pruning a whole tree to one of its blocks reports. */
  ghost function Reported(bs: Blocks, kids: map<Hash, seq<Hash>>, root: Hash, fin: Hash): seq<Hash>
    requires WellFormed(bs) && root in bs
  {
    if fin == root || fin !in kids then [] else Walk(bs, Whole(kids), root, fin, []).1
  }

  // ---------------------------------------------------------------- what the walk keeps

  ghost predicate NoRepeats(hs: seq<Hash>) {
    forall h {:trigger multiset(hs)[h]} :: multiset(hs)[h] <= 1
  }

  /** Taking out one of several different hashes. */
  lemma {:induction false} RemoveOne(hs: seq<Hash>, i: nat)
    requires NoRepeats(hs) && i < |hs|
    ensures NoRepeats(hs[..i] + hs[i + 1..]) && hs[i] !in hs[..i] + hs[i + 1..]
  {
    var rest := hs[..i] + hs[i + 1..];
    assert hs == hs[..i] + [hs[i]] + hs[i + 1..];
    assert multiset(hs) == multiset(rest) + multiset{hs[i]};
    assert multiset(hs)[hs[i]] <= 1;
    assert hs[i] !in multiset(rest);
    forall h {:trigger multiset(rest)[h]} ensures multiset(rest)[h] <= 1 { assert multiset(hs)[h] <= 1; }
  }

  /** A slice fits its array, lists no child twice, and its slots hold blocks of the tree. */
  ghost predicate FineAt(sl: Slices, s: Slice) {
    s.len <= |s.slots| && NoRepeats(s.slots[..s.len]) && forall i :: 0 <= i < |s.slots| ==> s.slots[i] in sl
  }

  ghost predicate Fine(sl: Slices) {
    forall h {:trigger FineAt(sl, sl[h])} :: h in sl ==> FineAt(sl, sl[h])
  }

  function ChildrenOf(s: Slice): seq<Hash> {
    if s.len <= |s.slots| then s.slots[..s.len] else []
  }

  /** One deletion: the array keeps its length, its slots hold nothing new, and the child is gone from the list. */
  lemma {:induction false} DeletedMeans(sl: Slices, s: Slice, h: Hash)
    requires FineAt(sl, s)
    ensures var s' := Deleted(s, h);
      && FineAt(sl, s') && |s'.slots| == |s.slots| && h !in ChildrenOf(s')
      && (forall c :: c in ChildrenOf(s') ==> c in ChildrenOf(s))
      && (forall c :: c in ChildrenOf(s) && c != h ==> c in ChildrenOf(s'))
  {
    var hs := s.slots[..s.len];
    var i := FirstIn(hs, h);
    if i < s.len {
      ListedShift(s.slots, i, s.len);
      RemoveOne(hs, i);
      assert forall c :: c in hs <==> c in hs[..i] + hs[i + 1..] || c == h by {
        assert hs == hs[..i] + [hs[i]] + hs[i + 1..];
      }
    }
  }

  lemma {:induction false} ListedShift(slots: seq<Hash>, i: nat, n: nat)
    requires i < n <= |slots|
    ensures var hs := slots[..n]; ShiftLeft(slots, i, n)[..n - 1] == hs[..i] + hs[i + 1..]
  {
  }

  /** The block is not among its parent's children. */
  predicate CutOff(bs: Blocks, sl: Slices, h: Hash) {
    h in bs && bs[h].parent.Some? && bs[h].parent.value in sl && h !in ChildrenOf(sl[bs[h].parent.value])
  }

  /** At and below the finalised block nothing changes; elsewhere no block gains a child. */
  ghost predicate SliceKept(bs: Blocks, fin: Hash, sl: Slices, sl': Slices, h: Hash)
    requires WellFormed(bs) && h in sl && h in sl'
  {
    && |sl'[h].slots| == |sl[h].slots| && (AncOrEq(bs, fin, h) ==> sl'[h] == sl[h])
    && forall c :: c in ChildrenOf(sl'[h]) ==> c in ChildrenOf(sl[h])
  }

  /** What is reported is a block of the tree, on another fork than the finalised one, and cut off from its parent. */
  ghost predicate ReportedAt(bs: Blocks, fin: Hash, sl: Slices, h: Hash)
    requires WellFormed(bs)
  {
    h in sl && Unrelated(bs, h, fin) && CutOff(bs, sl, h)
  }

  /** What any part of the walk does. */
  ghost predicate Prunes(bs: Blocks, fin: Hash, sl: Slices, out: seq<Hash>, sl': Slices, out': seq<Hash>)
    requires WellFormed(bs)
  {
    && Fine(sl') && sl'.Keys == sl.Keys && out <= out'
    && (forall h {:trigger SliceKept(bs, fin, sl, sl', h)} :: h in sl ==> SliceKept(bs, fin, sl, sl', h))
    && (forall h {:trigger ReportedAt(bs, fin, sl', h)} :: h in out' ==> h in out || ReportedAt(bs, fin, sl', h))
  }

  lemma {:induction false} PrunesNone(bs: Blocks, fin: Hash, sl: Slices, out: seq<Hash>)
    requires WellFormed(bs) && Fine(sl)
    ensures Prunes(bs, fin, sl, out, sl, out)
  {
  }

  lemma {:induction false} PrunesTrans(bs: Blocks, fin: Hash, sl: Slices, out: seq<Hash>, sl1: Slices,
      out1: seq<Hash>, sl2: Slices, out2: seq<Hash>)
    requires WellFormed(bs) && Prunes(bs, fin, sl, out, sl1, out1) && Prunes(bs, fin, sl1, out1, sl2, out2)
    ensures Prunes(bs, fin, sl, out, sl2, out2)
  {
    forall h {:trigger SliceKept(bs, fin, sl, sl2, h)} | h in sl ensures SliceKept(bs, fin, sl, sl2, h) {
      assert SliceKept(bs, fin, sl, sl1, h) && SliceKept(bs, fin, sl1, sl2, h);
    }
    forall h {:trigger ReportedAt(bs, fin, sl2, h)} | h in out2 && h !in out ensures ReportedAt(bs, fin, sl2, h) {
      if h in out1 {
        assert ReportedAt(bs, fin, sl1, h);
        assert SliceKept(bs, fin, sl1, sl2, bs[h].parent.value);
      } else {
        assert ReportedAt(bs, fin, sl2, h);
      }
    }
  }

  /** One block of another fork, reported and cut. */
  lemma {:induction false} PrunesOne(bs: Blocks, fin: Hash, sl: Slices, out: seq<Hash>, h: Hash)
    requires WellFormed(bs) && Fine(sl) && h in sl && h in bs && Unrelated(bs, h, fin)
    requires bs[h].parent.Some? && bs[h].parent.value in sl
    ensures Prunes(bs, fin, sl, out, Without(bs, sl, h), out + [h])
  {
    var p, sl' := bs[h].parent.value, Without(bs, sl, h);
    assert FineAt(sl, sl[p]);
    DeletedMeans(sl, sl[p], h);
    if AncOrEq(bs, fin, p) { AncTransitive(bs, fin, p, h); }
    forall x {:trigger FineAt(sl', sl'[x])} | x in sl' ensures FineAt(sl', sl'[x]) {
      assert FineAt(sl, sl[x]);
    }
  }

  /** Blocks above the finalised one, or with a parent to be cut from. */
  ghost predicate Placed(bs: Blocks, sl: Slices, h: Hash, fin: Hash)
    requires WellFormed(bs)
  {
    h in bs && h in sl && (AncOrEq(bs, h, fin) || (bs[h].parent.Some? && bs[h].parent.value in sl))
  }

  lemma {:induction false} WalkPrunes(bs: Blocks, sl: Slices, h: Hash, fin: Hash, out: seq<Hash>)
    requires WellFormed(bs) && Fine(sl) && Placed(bs, sl, h, fin)
    ensures var r := Walk(bs, sl, h, fin, out); Prunes(bs, fin, sl, out, r.0, r.1)
    decreases Upper(bs, bs[h].number), 1, 0
  {
    PrunesNone(bs, fin, sl, out);
    if !AncOrEq(bs, fin, h) {
      var cut := !AncOrEq(bs, h, fin);
      var sl', out' := if cut then Without(bs, sl, h) else sl, if cut then out + [h] else out;
      if cut { PrunesOne(bs, fin, sl, out, h); }
      WalkChildrenPrunes(bs, sl', h, fin, out', 0, sl'[h].len);
      var r := WalkChildren(bs, sl', h, fin, out', 0, sl'[h].len);
      PrunesTrans(bs, fin, sl, out, sl', out', r.0, r.1);
    }
  }

  lemma {:induction false} WalkChildrenPrunes(bs: Blocks, sl: Slices, h: Hash, fin: Hash, out: seq<Hash>, i: nat,
      n: nat)
    requires WellFormed(bs) && Fine(sl) && h in bs && h in sl
    ensures var r := WalkChildren(bs, sl, h, fin, out, i, n); Prunes(bs, fin, sl, out, r.0, r.1)
    decreases Upper(bs, bs[h].number), 0, if i < n then n - i else 0
  {
    PrunesNone(bs, fin, sl, out);
    if i < n && i < |sl[h].slots| {
      var c := sl[h].slots[i];
      if c in bs && bs[c].parent == Some(h) {
        UpperShrinks(bs, h);
        assert FineAt(sl, sl[h]);
        WalkPrunes(bs, sl, c, fin, out);
        var r := Walk(bs, sl, c, fin, out);
        WalkChildrenPrunes(bs, r.0, h, fin, r.1, i + 1, n);
        var r' := WalkChildren(bs, r.0, h, fin, r.1, i + 1, n);
        PrunesTrans(bs, fin, sl, out, r.0, r.1, r'.0, r'.1);
      }
    }
  }

  /** A block of another fork is reported when the walk reaches it. */
  lemma {:induction false} WalkReports(bs: Blocks, sl: Slices, h: Hash, fin: Hash, out: seq<Hash>)
    requires WellFormed(bs) && Fine(sl) && Placed(bs, sl, h, fin) && Unrelated(bs, h, fin)
    ensures h in Walk(bs, sl, h, fin, out).1
  {
    var sl', out' := Without(bs, sl, h), out + [h];
    PrunesOne(bs, fin, sl, out, h);
    WalkChildrenPrunes(bs, sl', h, fin, out', 0, sl'[h].len);
    assert out'[|out|] == h;
  }

  /** The first child of the root is always reached. */
  lemma {:induction false} FirstForkReported(bs: Blocks, kids: map<Hash, seq<Hash>>, root: Hash, fin: Hash)
    requires WellFormed(bs) && Fine(Whole(kids)) && root in bs && root in kids && fin in kids && fin != root
    requires AncOrEq(bs, root, fin)
    requires kids[root] != [] && kids[root][0] in bs && bs[kids[root][0]].parent == Some(root)
    requires Unrelated(bs, kids[root][0], fin)
    ensures kids[root][0] in Reported(bs, kids, root, fin)
  {
    var sl, c := Whole(kids), kids[root][0];
    if AncOrEq(bs, fin, root) { AncAntisymmetric(bs, fin, root); }
    assert FineAt(sl, sl[root]) && sl[root].slots[0] == c;
    WalkReports(bs, sl, c, fin, []);
    WalkPrunes(bs, sl, c, fin, []);
    var r := Walk(bs, sl, c, fin, []);
    WalkChildrenPrunes(bs, r.0, root, fin, r.1, 1, |kids[root]|);
    var all := WalkChildren(bs, r.0, root, fin, r.1, 1, |kids[root]|);
    assert WalkChildren(bs, sl, root, fin, [], 0, |kids[root]|) == all;
    var i :| 0 <= i < |r.1| && r.1[i] == c;
    assert all.1[i] == c;
  }

  // ---------------------------------------------------------------- a fork that is not reported

  /** Three blocks below one. */
  function Fork3(): (bs: Blocks)
    ensures WellFormed(bs) && forall a, b :: 1 <= a <= 3 && 1 <= b <= 3 && a != b ==> Unrelated(bs, a, b)
  {
    map[0 := Block(None, 0, 0, false), 1 := Block(Some(0), 1, 0, false),
        2 := Block(Some(0), 1, 0, false), 3 := Block(Some(0), 1, 0, false)]
  }

  /**
   The second of three siblings is skipped when the third is finalised: deleting the first moves it into
   the slot already read.
   */
  lemma {:induction false} SiblingSkipped()
    ensures Reported(Fork3(), map[0 := [1, 2, 3], 1 := [], 2 := [], 3 := []], 0, 3) == [1]
    ensures Unrelated(Fork3(), 2, 3)
  {
    var bs := Fork3();
    var sl := Whole(map[0 := [1, 2, 3], 1 := [], 2 := [], 3 := []]);
    assert sl[0].slots == [1, 2, 3];
    var cut := Without(bs, sl, 1);
    assert FirstIn([1, 2, 3], 1) == 0 && [1, 2, 3][..3] == [1, 2, 3];
    assert cut[0].slots == [2, 3, 3];
    assert cut[1] == Slice([], 0);
    assert Walk(bs, sl, 1, 3, []) == (cut, [1]) by {
      assert WalkChildren(bs, cut, 1, 3, [1], 0, 0) == (cut, [1]);
      assert [] + [1] == [1];
    }
    assert Walk(bs, cut, 3, 3, [1]) == (cut, [1]);
    assert WalkChildren(bs, cut, 0, 3, [1], 3, 3) == (cut, [1]);
    assert WalkChildren(bs, cut, 0, 3, [1], 2, 3) == (cut, [1]);
    assert WalkChildren(bs, cut, 0, 3, [1], 1, 3) == (cut, [1]);
    assert WalkChildren(bs, sl, 0, 3, [], 0, 3) == (cut, [1]);
    assert AncOrEq(bs, 0, 3) && !AncOrEq(bs, 3, 0);
  }
}
