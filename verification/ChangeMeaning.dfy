/**
 What the operations of the change forest amount to, said in terms of the block history alone: where an
 imported change goes and when it is refused, which root a finalisation enacts, and which roots stay.
 */
module ChangeMeaning {
  import opened Basics
  import opened Ancestry
  import opened ChangeTree

  // ---------------------------------------------------------------- import: what is stored

  /** `ns'` is `ns` with a childless node for `c` after the last root, or after the last child of one of its nodes. */
  ghost predicate AddedLeaf(ns: seq<ChangeNode>, ns': seq<ChangeNode>, c: PendingChange) {
    if ns == [] then ns' == [ChangeNode(c, [])]
    else
      && ns' != [] && ns'[0].change == ns[0].change
      && ( (ns'[0] == ns[0] && AddedLeaf(ns[1..], ns'[1..], c))
           || (ns'[1..] == ns[1..] && AddedLeaf(ns[0].nodes, ns'[0].nodes, c)))
  }

  /** Every change held, as often as it is held. */
  ghost function Contents(ns: seq<ChangeNode>): multiset<PendingChange> {
    if ns == [] then multiset{} else multiset{ns[0].change} + Contents(ns[0].nodes) + Contents(ns[1..])
  }

  /** A successful import stores the change itself, as a new last sibling somewhere, and touches nothing else. */
  lemma {:induction false} ImportAddsLeaf(ns: seq<ChangeNode>, c: PendingChange, o: Oracle)
    requires ImportInto(ns, c, o).Ok?
    ensures AddedLeaf(ns, ImportInto(ns, c, o).value, c)
    decreases ns
  {
    var ns' := ImportInto(ns, c, o).value;
    if ImportSiblings(ns, c, o).value.None? {
      AppendAddsLeaf(ns, c);
    } else {
      var m := ImportNode(ns[0], c, o).value;
      if m.Some? {
        ImportAddsLeaf(ns[0].nodes, c, o);
        assert ns'[1..] == ns[1..];
      } else {
        ImportAddsLeaf(ns[1..], c, o);
        assert ns'[1..] == ImportSiblings(ns[1..], c, o).value.value;
      }
    }
  }

  lemma {:induction false} AppendAddsLeaf(ns: seq<ChangeNode>, c: PendingChange)
    ensures AddedLeaf(ns, ns + [ChangeNode(c, [])], c)
  {
    if ns != [] {
      AppendAddsLeaf(ns[1..], c);
      assert (ns + [ChangeNode(c, [])])[1..] == ns[1..] + [ChangeNode(c, [])];
    }
  }

  /** The changes held are the old ones and the new one, each with all its fields. */
  lemma {:induction false} LeafContents(ns: seq<ChangeNode>, ns': seq<ChangeNode>, c: PendingChange)
    requires AddedLeaf(ns, ns', c)
    ensures Contents(ns') == Contents(ns) + multiset{c}
  {
    forall x ensures Contents(ns')[x] == (Contents(ns) + multiset{c})[x] { LeafCount(ns, ns', c, x); }
  }

  lemma {:induction false} LeafCount(ns: seq<ChangeNode>, ns': seq<ChangeNode>, c: PendingChange, x: PendingChange)
    requires AddedLeaf(ns, ns', c)
    ensures Contents(ns')[x] == Contents(ns)[x] + if x == c then 1 else 0
  {
    if ns == [] {
      assert ns'[1..] == [];
    } else if ns'[0] == ns[0] && AddedLeaf(ns[1..], ns'[1..], c) {
      LeafCount(ns[1..], ns'[1..], c, x);
    } else {
      LeafCount(ns[0].nodes, ns'[0].nodes, c, x);
    }
  }

  lemma {:induction false} LeafHashes(ns: seq<ChangeNode>, ns': seq<ChangeNode>, c: PendingChange)
    requires AddedLeaf(ns, ns', c)
    ensures Hashes(ns') == Hashes(ns) + {c.hash}
  {
    if ns == [] {
      assert ns'[1..] == [];
    } else if ns'[0] == ns[0] && AddedLeaf(ns[1..], ns'[1..], c) {
      LeafHashes(ns[1..], ns'[1..], c);
    } else {
      LeafHashes(ns[0].nodes, ns'[0].nodes, c);
    }
  }

  /** The order among the changes already held stays. */
  lemma {:induction false} LeafKeepsAbove(ns: seq<ChangeNode>, ns': seq<ChangeNode>, c: PendingChange, x: Hash, y: Hash)
    requires AddedLeaf(ns, ns', c) && y != c.hash
    ensures Above(ns', x, y) <==> Above(ns, x, y)
  {
    if ns == [] {
      assert ns'[1..] == [];
    } else if ns'[0] == ns[0] && AddedLeaf(ns[1..], ns'[1..], c) {
      LeafKeepsAbove(ns[1..], ns'[1..], c, x, y);
    } else {
      LeafHashes(ns[0].nodes, ns'[0].nodes, c);
      LeafKeepsAbove(ns[0].nodes, ns'[0].nodes, c, x, y);
    }
  }

  /** The new change lies below exactly the held changes of its block's ancestors. */
  lemma {:induction false} ImportPlaces(bs: Blocks, ns: seq<ChangeNode>, c: PendingChange, o: Oracle, x: Hash)
    requires WellFormed(bs) && Shape(bs, ns) && Sound(bs, o) && Announced(bs, c) && ImportInto(ns, c, o).Ok?
    ensures Above(ImportInto(ns, c, o).value, x, c.hash) <==> x in Hashes(ns) && StrictAnc(bs, x, c.hash)
    decreases ns
  {
    ImportAddsOne(bs, ns, c, o);
    var ns' := ImportInto(ns, c, o).value;
    if ImportSiblings(ns, c, o).value.None? {
      AppendedBelowNone(bs, ns, c, o, x);
    } else {
      var m := ImportNode(ns[0], c, o).value;
      if m.Some? {
        assert ns'[1..] == ns[1..];
        ImportPlaces(bs, ns[0].nodes, c, o, x);
        ImportAddsOne(bs, ns[0].nodes, c, o);
        if Above(ns[1..], x, c.hash) { AboveWithin(ns[1..], x, c.hash); }
        if x in Hashes(ns[1..]) { OneRootAbove(bs, ns, x, c.hash); }
      } else {
        assert ns'[1..] == ImportSiblings(ns[1..], c, o).value.value;
        ImportPlaces(bs, ns[1..], c, o, x);
        if Above(ns[0].nodes, x, c.hash) { AboveWithin(ns[0].nodes, x, c.hash); }
        HeadDeclines(bs, ns, c, o, x);
      }
    }
  }

  /** A root above a block excludes every change under another root. */
  lemma {:induction false} OneRootAbove(bs: Blocks, ns: seq<ChangeNode>, x: Hash, h: Hash)
    requires WellFormed(bs) && ns != [] && Shape(bs, ns) && AncOrEq(bs, ns[0].change.hash, h)
    requires x in Hashes(ns[1..])
    ensures !AncOrEq(bs, x, h)
  {
    TreesUnrelated(bs, ns, ns[0].change.hash, x);
    if AncOrEq(bs, x, h) { AncComparable(bs, ns[0].change.hash, x, h); }
  }

  lemma {:induction false} HeadDeclines(bs: Blocks, ns: seq<ChangeNode>, c: PendingChange, o: Oracle, x: Hash)
    requires WellFormed(bs) && ns != [] && Shape(bs, ns) && Sound(bs, o) && Announced(bs, c)
    requires ImportNode(ns[0], c, o) == Ok(None)
    ensures x == ns[0].change.hash || x in Hashes(ns[0].nodes) ==> !AncOrEq(bs, x, c.hash)
  {
    var r := ns[0].change.hash;
    if AncOrEq(bs, r, c.hash) { AncHeight(bs, r, c.hash); }
    if x in Hashes(ns[0].nodes) && AncOrEq(bs, x, c.hash) { AncTransitive(bs, r, x, c.hash); }
  }

  lemma {:induction false} AppendedBelowNone(bs: Blocks, ns: seq<ChangeNode>, c: PendingChange, o: Oracle, x: Hash)
    requires WellFormed(bs) && Shape(bs, ns) && Sound(bs, o) && Announced(bs, c)
    requires ImportSiblings(ns, c, o) == Ok(None)
    ensures !Above(ns + [ChangeNode(c, [])], x, c.hash)
    ensures x in Hashes(ns) ==> !AncOrEq(bs, x, c.hash)
  {
    SiblingsDecline(bs, ns, c, o);
    AppendAbove(ns, c, x, c.hash);
    if Above(ns, x, c.hash) { AboveWithin(ns, x, c.hash); }
    if x in Hashes(ns) && AncOrEq(bs, x, c.hash) {
      var r := RootOf(bs, ns, x);
      AncTransitive(bs, r, x, c.hash);
    }
  }

  // ---------------------------------------------------------------- import: when it is refused

  /**
   Children descend from their node, and no change is announced at or below the block of an earlier sibling
   of its own or of a node above it. Unlike the shape this survives announcements in any order.
   */
  ghost predicate FirstFit(bs: Blocks, ns: seq<ChangeNode>)
    requires WellFormed(bs)
  {
    ns != [] ==>
      && Announced(bs, ns[0].change)
      && (forall h :: h in Hashes(ns[0].nodes) ==> StrictAnc(bs, ns[0].change.hash, h))
      && (forall h :: h in Hashes(ns[1..]) ==> !AncOrEq(bs, ns[0].change.hash, h))
      && FirstFit(bs, ns[0].nodes)
      && FirstFit(bs, ns[1..])
  }

  lemma {:induction false} ShapeFirstFit(bs: Blocks, ns: seq<ChangeNode>)
    requires WellFormed(bs) && Shape(bs, ns)
    ensures FirstFit(bs, ns)
  {
    if ns != [] {
      ShapeFirstFit(bs, ns[0].nodes);
      ShapeFirstFit(bs, ns[1..]);
      forall h | h in Hashes(ns[1..]) ensures !AncOrEq(bs, ns[0].change.hash, h) {
        TreesUnrelated(bs, ns, ns[0].change.hash, h);
      }
    }
  }

  lemma {:induction false} FirstFitDescending(bs: Blocks, ns: seq<ChangeNode>)
    requires WellFormed(bs) && FirstFit(bs, ns)
    ensures Descending(bs, ns)
  {
    if ns != [] {
      FirstFitDescending(bs, ns[0].nodes);
      FirstFitDescending(bs, ns[1..]);
    }
  }

  /** A lookup made for the import failed. */
  ghost predicate ImportLookupFailed(ns: seq<ChangeNode>, c: PendingChange, o: Oracle) {
    exists h :: h in Hashes(ns) && o(h, c.hash).Err?
  }

  /**
   A change is refused as a duplicate exactly when its block is held, whatever the order of announcements was;
   the only other refusal is a failed lookup.
   */
  lemma {:induction false} ImportMeaning(bs: Blocks, ns: seq<ChangeNode>, c: PendingChange, o: Oracle)
    requires WellFormed(bs) && FirstFit(bs, ns) && Sound(bs, o) && Announced(bs, c)
    ensures match ImportInto(ns, c, o)
      case Ok(ns') => c.hash !in Hashes(ns) && AddedLeaf(ns, ns', c) && FirstFit(bs, ns')
      case Err(DuplicateHashes) => c.hash in Hashes(ns)
      case Err(e) => e == AncestryCheckFailed && ImportLookupFailed(ns, c, o)
    decreases ns, 2
  {
    ImportSiblingsMeaning(bs, ns, c, o);
    if ImportSiblings(ns, c, o) == Ok(None) {
      AppendAddsLeaf(ns, c);
      AppendFirstFit(bs, ns, c);
    }
  }

  lemma {:induction false} ImportSiblingsMeaning(bs: Blocks, ns: seq<ChangeNode>, c: PendingChange, o: Oracle)
    requires WellFormed(bs) && FirstFit(bs, ns) && Sound(bs, o) && Announced(bs, c)
    ensures match ImportSiblings(ns, c, o)
      case Ok(None) => c.hash !in Hashes(ns) && forall h :: h in Hashes(ns) ==> !AncOrEq(bs, h, c.hash)
      case Ok(Some(ns')) => c.hash !in Hashes(ns) && AddedLeaf(ns, ns', c) && FirstFit(bs, ns')
      case Err(DuplicateHashes) => c.hash in Hashes(ns)
      case Err(e) => e == AncestryCheckFailed && ImportLookupFailed(ns, c, o)
    decreases ns, 1
  {
    if ns != [] {
      var n, rest := ns[0], ns[1..];
      match ImportNode(n, c, o)
      case Err(_) =>
        RefusedByNode(bs, ns, c, o);
      case Ok(Some(m)) =>
        ImportMeaning(bs, n.nodes, c, o);
        assert ([m] + rest)[1..] == rest;
        LeafHashes(n.nodes, m.nodes, c);
        assert c.hash !in Hashes(rest);
      case Ok(None) =>
        NodeDeclines(bs, n, c, o);
        ImportSiblingsMeaning(bs, rest, c, o);
        var r := ImportSiblings(rest, c, o);
        if r.Ok? && r.value.Some? {
          assert ([n] + r.value.value)[1..] == r.value.value;
          LeafHashes(rest, r.value.value, c);
        }
    }
  }

  lemma {:induction false} RefusedByNode(bs: Blocks, ns: seq<ChangeNode>, c: PendingChange, o: Oracle)
    requires WellFormed(bs) && ns != [] && FirstFit(bs, ns) && Sound(bs, o) && Announced(bs, c)
    requires ImportNode(ns[0], c, o).Err?
    ensures match ImportNode(ns[0], c, o).error
      case DuplicateHashes => c.hash in Hashes(ns)
      case e => e == AncestryCheckFailed && ImportLookupFailed(ns, c, o)
    decreases ns, 0
  {
    if ns[0].change.hash != c.hash && o(ns[0].change.hash, c.hash).Ok? {
      ImportMeaning(bs, ns[0].nodes, c, o);
    }
  }

  /** A node that does not take the change holds nothing at or above its block. */
  lemma {:induction false} NodeDeclines(bs: Blocks, n: ChangeNode, c: PendingChange, o: Oracle)
    requires WellFormed(bs) && Sound(bs, o) && Announced(bs, c) && Announced(bs, n.change)
    requires forall h :: h in Hashes(n.nodes) ==> StrictAnc(bs, n.change.hash, h)
    requires ImportNode(n, c, o) == Ok(None)
    ensures forall h :: h == n.change.hash || h in Hashes(n.nodes) ==> !AncOrEq(bs, h, c.hash)
  {
    var r := n.change.hash;
    if AncOrEq(bs, r, c.hash) { AncHeight(bs, r, c.hash); }
    forall h | h in Hashes(n.nodes) ensures !AncOrEq(bs, h, c.hash) {
      if AncOrEq(bs, h, c.hash) { AncTransitive(bs, r, h, c.hash); }
    }
  }

  lemma {:induction false} AppendFirstFit(bs: Blocks, ns: seq<ChangeNode>, c: PendingChange)
    requires WellFormed(bs) && FirstFit(bs, ns) && Announced(bs, c)
    requires forall h :: h in Hashes(ns) ==> !AncOrEq(bs, h, c.hash)
    ensures FirstFit(bs, ns + [ChangeNode(c, [])])
  {
    var ns' := ns + [ChangeNode(c, [])];
    if ns == [] {
      assert ns'[1..] == [];
    } else {
      AppendFirstFit(bs, ns[1..], c);
      AppendHashes(ns[1..], c);
      assert ns'[1..] == ns[1..] + [ChangeNode(c, [])];
    }
  }

  // ---------------------------------------------------------------- finalisation: which root is enacted

  /** The change was announced on the chain of the finalised block, which has reached the end of its delay. */
  ghost predicate Ripe(bs: Blocks, c: PendingChange, hash: Hash, number: nat)
    requires WellFormed(bs)
  {
    AncOrEq(bs, c.hash, hash) && c.number + c.delay <= number
  }

  ghost predicate FirstRipe(bs: Blocks, ns: seq<ChangeNode>, i: nat, hash: Hash, number: nat)
    requires WellFormed(bs)
  {
    && i < |ns| && Ripe(bs, ns[i].change, hash, number)
    && forall j :: 0 <= j < i ==> !Ripe(bs, ns[j].change, hash, number)
  }

  ghost predicate NoneRipe(bs: Blocks, ns: seq<ChangeNode>, hash: Hash, number: nat)
    requires WellFormed(bs)
  {
    forall j :: 0 <= j < |ns| ==> !Ripe(bs, ns[j].change, hash, number)
  }

  /** Finalisation has passed a child of the node as well. */
  ghost predicate ChildPassed(bs: Blocks, n: ChangeNode, hash: Hash)
    requires WellFormed(bs)
  {
    exists k :: 0 <= k < |n.nodes| && AncOrEq(bs, n.nodes[k].change.hash, hash)
  }

  /** A lookup that the search may make failed. */
  ghost predicate FindLookupFailed(ns: seq<ChangeNode>, hash: Hash, o: Oracle) {
    exists h :: h in Hashes(ns) && o(h, hash).Err?
  }

  /**
   The first root that is ripe decides: it is enacted, or refused when one of its children is finalised too.
   The only other error is a failed lookup.
   */
  lemma {:induction false} FindApplicableMeaning(bs: Blocks, ns: seq<ChangeNode>, hash: Hash, number: nat, o: Oracle)
    requires WellFormed(bs) && Descending(bs, ns) && Sound(bs, o) && hash in bs && bs[hash].number == number
    ensures match FindApplicableChange(ns, hash, number, o)
      case Ok(None) => NoneRipe(bs, ns, hash, number)
      case Ok(Some(n)) =>
        exists i: nat :: FirstRipe(bs, ns, i, hash, number) && n == ns[i] && !ChildPassed(bs, ns[i], hash)
      case Err(UnfinalizedAncestor) =>
        exists i: nat :: FirstRipe(bs, ns, i, hash, number) && ChildPassed(bs, ns[i], hash)
      case Err(e) => e == AncestryCheckFailed && FindLookupFailed(ns, hash, o)
  {
    if ns != [] {
      AppliesMeaning(bs, ns[0], hash, number, o);
      var a := Applies(ns[0], hash, number, o);
      if a == Ok(false) {
        FindApplicableMeaning(bs, ns[1..], hash, number, o);
        ShiftRipe(bs, ns, hash, number);
      } else if a.Ok? || a.error == UnfinalizedAncestor {
        assert FirstRipe(bs, ns, 0, hash, number);
      }
    }
  }

  /** Looking past a root that is not ripe. */
  lemma {:induction false} ShiftRipe(bs: Blocks, ns: seq<ChangeNode>, hash: Hash, number: nat)
    requires WellFormed(bs) && ns != [] && !Ripe(bs, ns[0].change, hash, number)
    ensures NoneRipe(bs, ns[1..], hash, number) ==> NoneRipe(bs, ns, hash, number)
    ensures forall i: nat :: FirstRipe(bs, ns[1..], i, hash, number) ==> FirstRipe(bs, ns, i + 1, hash, number)
  {
    assert forall j :: 1 <= j < |ns| ==> ns[j] == ns[1..][j - 1];
  }

  lemma {:induction false} AppliesMeaning(bs: Blocks, n: ChangeNode, hash: Hash, number: nat, o: Oracle)
    requires WellFormed(bs) && Descending(bs, n.nodes) && Sound(bs, o) && hash in bs && bs[hash].number == number
    ensures match Applies(n, hash, number, o)
      case Ok(false) => !Ripe(bs, n.change, hash, number)
      case Ok(true) => Ripe(bs, n.change, hash, number) && !ChildPassed(bs, n, hash)
      case Err(UnfinalizedAncestor) => Ripe(bs, n.change, hash, number) && ChildPassed(bs, n, hash)
      case Err(e) => e == AncestryCheckFailed && exists h ::
        (h == n.change.hash || h in Hashes(n.nodes)) && o(h, hash).Err?
  {
    ChildrenAllowMeaning(bs, n.nodes, hash, number, o);
  }

  lemma {:induction false} ChildrenAllowMeaning(bs: Blocks, ns: seq<ChangeNode>, hash: Hash, number: nat, o: Oracle)
    requires WellFormed(bs) && Descending(bs, ns) && Sound(bs, o) && hash in bs && bs[hash].number == number
    ensures match ChildrenAllow(ns, hash, number, o)
      case Ok(_) => forall k :: 0 <= k < |ns| ==> !AncOrEq(bs, ns[k].change.hash, hash)
      case Err(UnfinalizedAncestor) => exists k :: 0 <= k < |ns| && AncOrEq(bs, ns[k].change.hash, hash)
      case Err(e) => e == AncestryCheckFailed && FindLookupFailed(ns, hash, o)
  {
    if ns != [] {
      ChildrenAllowMeaning(bs, ns[1..], hash, number, o);
      var r := ns[0].change.hash;
      if StrictAnc(bs, r, hash) { AncHeight(bs, r, hash); }
      assert forall k :: 1 <= k < |ns| ==> ns[k] == ns[1..][k - 1];
      if exists k :: 0 <= k < |ns[1..]| && AncOrEq(bs, ns[1..][k].change.hash, hash) {
        var k :| 0 <= k < |ns[1..]| && AncOrEq(bs, ns[1..][k].change.hash, hash);
        assert ns[k + 1] == ns[1..][k];
      }
    }
  }

  /** With every lookup answered, each outcome happens exactly when the history says so. */
  lemma {:induction false} FindApplicableIff(bs: Blocks, ns: seq<ChangeNode>, hash: Hash, number: nat, o: Oracle)
    requires WellFormed(bs) && Descending(bs, ns) && Sound(bs, o) && hash in bs && bs[hash].number == number
    requires !FindLookupFailed(ns, hash, o)
    ensures var r := FindApplicableChange(ns, hash, number, o);
      && (r == Ok(None) <==> NoneRipe(bs, ns, hash, number))
      && (forall i: nat :: FirstRipe(bs, ns, i, hash, number) ==>
            r == if ChildPassed(bs, ns[i], hash) then Err(UnfinalizedAncestor) else Ok(Some(ns[i])))
  {
    FindApplicableMeaning(bs, ns, hash, number, o);
    forall i: nat, j: nat | FirstRipe(bs, ns, i, hash, number) && FirstRipe(bs, ns, j, hash, number) ensures i == j {
    }
  }

  // ---------------------------------------------------------------- finalisation: which roots stay

  /** The roots announced at or below a block, in order and with everything under them. */
  ghost function RootsAtOrBelow(bs: Blocks, ns: seq<ChangeNode>, hash: Hash): seq<ChangeNode>
    requires WellFormed(bs)
  {
    if ns == [] then []
    else (if AncOrEq(bs, hash, ns[0].change.hash) then [ns[0]] else []) + RootsAtOrBelow(bs, ns[1..], hash)
  }

  /** Pruning keeps exactly these roots; it fails only on a failed lookup. */
  lemma {:induction false} PruneExact(bs: Blocks, ns: seq<ChangeNode>, hash: Hash, o: Oracle)
    requires WellFormed(bs) && Sound(bs, o)
    ensures match PruneChanges(ns, hash, o)
      case Ok(kept) => kept == RootsAtOrBelow(bs, ns, hash)
      case Err(e) => e == AncestryCheckFailed && exists h :: h in RootHashes(ns) && o(hash, h).Err?
  {
    if ns != [] {
      HeadRoots(ns);
      PruneExact(bs, ns[1..], hash, o);
      assert o(hash, ns[0].change.hash).Ok? ==>
        (o(hash, ns[0].change.hash).value <==> AncOrEq(bs, hash, ns[0].change.hash));
    }
  }

  /** A sub-sequence of the roots is still in the order of first fit. */
  lemma {:induction false} KeptFirstFit(bs: Blocks, ns: seq<ChangeNode>, hash: Hash)
    requires WellFormed(bs) && FirstFit(bs, ns)
    ensures FirstFit(bs, RootsAtOrBelow(bs, ns, hash))
    ensures Hashes(RootsAtOrBelow(bs, ns, hash)) <= Hashes(ns)
  {
    if ns != [] {
      KeptFirstFit(bs, ns[1..], hash);
      if AncOrEq(bs, hash, ns[0].change.hash) {
        var kept := RootsAtOrBelow(bs, ns, hash);
        assert kept[0] == ns[0] && kept[1..] == RootsAtOrBelow(bs, ns[1..], hash);
      } else {
        assert RootsAtOrBelow(bs, ns, hash) == RootsAtOrBelow(bs, ns[1..], hash);
      }
    }
  }

  lemma {:induction false} KeptContents(bs: Blocks, ns: seq<ChangeNode>, hash: Hash)
    requires WellFormed(bs)
    ensures Contents(RootsAtOrBelow(bs, ns, hash)) <= Contents(ns)
  {
    if ns != [] {
      KeptContents(bs, ns[1..], hash);
      var kept := RootsAtOrBelow(bs, ns, hash);
      if AncOrEq(bs, hash, ns[0].change.hash) {
        assert kept[0] == ns[0] && kept[1..] == RootsAtOrBelow(bs, ns[1..], hash);
      } else {
        assert kept == RootsAtOrBelow(bs, ns[1..], hash);
      }
    }
  }

  /** The children of a root, taken by themselves. */
  lemma {:induction false} InnerFirstFit(bs: Blocks, ns: seq<ChangeNode>, i: nat)
    requires WellFormed(bs) && FirstFit(bs, ns) && i < |ns|
    ensures FirstFit(bs, ns[i].nodes) && Contents(ns[i].nodes) <= Contents(ns)
  {
    if i > 0 { InnerFirstFit(bs, ns[1..], i - 1); }
  }
}
