/**
 The forest of scheduled GRANDPA authority-set changes (`changeTree`): import of a
 change, search for the change to apply on finalisation, and pruning.
 */
module ChangeTree {
  import opened Basics
  import opened Ancestry

  /** A pending change, with what it uses of its announcing header: hash and number. */
  datatype PendingChange = PendingChange(
    hash: Hash, number: nat, delay: nat, bestFinalized: nat, authorities: seq<nat>)
  {
    function EffectiveNumber(): nat { number + delay }
  }

  datatype ChangeNode = ChangeNode(change: PendingChange, nodes: seq<ChangeNode>)

  datatype ChangeError =
    | DuplicateHashes | AncestryCheckFailed | AlreadyHasForcedChange
    | UnfinalizedAncestor | PendingScheduledChanges

  /** `isDescendantOf(parent, child)`: an answer, or the failure of the lookup. */
  type Oracle = (Hash, Hash) -> Result<bool, ()>

  /** Answers, when given, are the ancestry of `bs`; a lookup may fail at any time. */
  ghost predicate Sound(bs: Blocks, o: Oracle)
    requires WellFormed(bs)
  {
    forall a, d :: o(a, d).Ok? ==> (o(a, d).value <==> AncOrEq(bs, a, d))
  }

  /** The change was announced by a block of the history. */
  ghost predicate Announced(bs: Blocks, c: PendingChange) {
    c.hash in bs && bs[c.hash].number == c.number
  }

  // ---------------------------------------------------------------- operations

  /** One node's answer to an import: the node rewritten, or nothing when the change does not belong below it. */
  function ImportNode(n: ChangeNode, c: PendingChange, o: Oracle): Result<Option<ChangeNode>, ChangeError>
    decreases n, 1
  {
    if c.hash == n.change.hash then Err(DuplicateHashes)
    else match o(n.change.hash, c.hash)
      case Err(_) => Err(AncestryCheckFailed)
      case Ok(isDescendant) =>
        if !isDescendant || c.number <= n.change.number then Ok(None)
        else match ImportInto(n.nodes, c, o)
          case Err(e) => Err(e)
          case Ok(ns) => Ok(Some(n.(nodes := ns)))
  }

  /** The first sibling that takes the change wins. */
  function ImportSiblings(ns: seq<ChangeNode>, c: PendingChange,
      o: Oracle): Result<Option<seq<ChangeNode>>, ChangeError>
    decreases ns, 2
  {
    if ns == [] then Ok(None)
    else match ImportNode(ns[0], c, o)
      case Err(e) => Err(e)
      case Ok(Some(m)) => Ok(Some([m] + ns[1..]))
      case Ok(None) =>
        match ImportSiblings(ns[1..], c, o)
        case Err(e) => Err(e)
        case Ok(None) => Ok(None)
        case Ok(Some(rest)) => Ok(Some([ns[0]] + rest))
  }

  /** Siblings are tried in order; the change becomes a new last sibling when none takes it. */
  function ImportInto(ns: seq<ChangeNode>, c: PendingChange, o: Oracle): Result<seq<ChangeNode>, ChangeError>
    decreases ns, 3
  {
    match ImportSiblings(ns, c, o)
    case Err(e) => Err(e)
    case Ok(Some(ns')) => Ok(ns')
    case Ok(None) => Ok(ns + [ChangeNode(c, [])])
  }

  /** The child check of `findApplicableChange`: some child is already finalised, so a change was skipped. */
  function ChildrenAllow(ns: seq<ChangeNode>, hash: Hash, number: nat, o: Oracle): Result<(), ChangeError> {
    if ns == [] then Ok(())
    else match o(ns[0].change.hash, hash)
      case Err(_) => Err(AncestryCheckFailed)
      case Ok(isDescendant) =>
        if ns[0].change.number <= number && isDescendant then Err(UnfinalizedAncestor)
        else ChildrenAllow(ns[1..], hash, number, o)
  }

  /** Whether finalising `hash` applies this root. */
  function Applies(n: ChangeNode, hash: Hash, number: nat, o: Oracle): Result<bool, ChangeError> {
    if n.change.EffectiveNumber() > number then Ok(false)
    else if hash != n.change.hash && o(n.change.hash, hash).Err? then Err(AncestryCheckFailed)
    else if hash != n.change.hash && !o(n.change.hash, hash).value then Ok(false)
    else match ChildrenAllow(n.nodes, hash, number, o)
      case Err(e) => Err(e)
      case Ok(_) => Ok(true)
  }

  /** The first root that applies. */
  function FindApplicableChange(ns: seq<ChangeNode>, hash: Hash, number: nat,
      o: Oracle): Result<Option<ChangeNode>, ChangeError> {
    if ns == [] then Ok(None)
    else match Applies(ns[0], hash, number, o)
      case Err(e) => Err(e)
      case Ok(true) => Ok(Some(ns[0]))
      case Ok(false) => FindApplicableChange(ns[1..], hash, number, o)
  }

  /** Roots whose announcing block descends from `hash` (or is it). */
  function PruneChanges(ns: seq<ChangeNode>, hash: Hash, o: Oracle): Result<seq<ChangeNode>, ChangeError> {
    if ns == [] then Ok([])
    else match o(hash, ns[0].change.hash)
      case Err(_) => Err(AncestryCheckFailed)
      case Ok(isDescendant) =>
        match PruneChanges(ns[1..], hash, o)
        case Err(e) => Err(e)
        case Ok(rest) => Ok(if isDescendant then [ns[0]] + rest else rest)
  }

  /** The applied node, if any, and the roots afterwards. */
  function FindApplicable(ns: seq<ChangeNode>, hash: Hash, number: nat, o: Oracle)
    : Result<(Option<ChangeNode>, seq<ChangeNode>), ChangeError>
  {
    match FindApplicableChange(ns, hash, number, o)
    case Err(e) => Err(e)
    case Ok(Some(n)) => Ok((Some(n), n.nodes))
    case Ok(None) =>
      match PruneChanges(ns, hash, o)
      case Err(e) => Err(e)
      case Ok(rest) => Ok((None, rest))
  }

  // ---------------------------------------------------------------- the forest's meaning

  ghost function Hashes(ns: seq<ChangeNode>): set<Hash> {
    if ns == [] then {} else {ns[0].change.hash} + Hashes(ns[0].nodes) + Hashes(ns[1..])
  }

  ghost function RootHashes(ns: seq<ChangeNode>): set<Hash> {
    set i | 0 <= i < |ns| :: ns[i].change.hash
  }

  ghost function Size(ns: seq<ChangeNode>): nat {
    if ns == [] then 0 else 1 + Size(ns[0].nodes) + Size(ns[1..])
  }

  /** A node with hash `y` lies strictly below a node with hash `x`. */
  ghost predicate Above(ns: seq<ChangeNode>, x: Hash, y: Hash) {
    ns != [] &&
    ( (ns[0].change.hash == x && y in Hashes(ns[0].nodes))
      || Above(ns[0].nodes, x, y)
      || Above(ns[1..], x, y))
  }

  /** Level by level: children descend from their node, siblings are on different forks. */
  ghost predicate Shape(bs: Blocks, ns: seq<ChangeNode>)
    requires WellFormed(bs)
  {
    ns != [] ==>
      && Announced(bs, ns[0].change)
      && (forall h :: h in Hashes(ns[0].nodes) ==> StrictAnc(bs, ns[0].change.hash, h))
      && Shape(bs, ns[0].nodes)
      && (forall r :: r in RootHashes(ns[1..]) ==> Unrelated(bs, ns[0].change.hash, r))
      && Shape(bs, ns[1..])
  }

  /** The weaker half of the shape, which needs no assumption on import order: children descend from their node. */
  ghost predicate Descending(bs: Blocks, ns: seq<ChangeNode>)
    requires WellFormed(bs)
  {
    ns != [] ==>
      && Announced(bs, ns[0].change)
      && (forall h :: h in Hashes(ns[0].nodes) ==> StrictAnc(bs, ns[0].change.hash, h))
      && Descending(bs, ns[0].nodes)
      && Descending(bs, ns[1..])
  }

  /** No change of the forest is announced below `h`. */
  ghost predicate NoneBelow(bs: Blocks, ns: seq<ChangeNode>, h: Hash)
    requires WellFormed(bs)
  {
    forall y :: y in Hashes(ns) ==> !StrictAnc(bs, h, y)
  }

  // ---------------------------------------------------------------- lemmas: forest = ancestry

  lemma {:induction false} RootsInHashes(ns: seq<ChangeNode>)
    ensures RootHashes(ns) <= Hashes(ns)
  {
    if ns != [] {
      RootsInHashes(ns[1..]);
      forall h | h in RootHashes(ns) ensures h in Hashes(ns) {
        var i :| 0 <= i < |ns| && ns[i].change.hash == h;
        if i > 0 { assert ns[1..][i - 1].change.hash == h; assert h in RootHashes(ns[1..]); }
      }
    }
  }

  lemma {:induction false} AboveWithin(ns: seq<ChangeNode>, x: Hash, y: Hash)
    requires Above(ns, x, y)
    ensures x in Hashes(ns) && y in Hashes(ns)
  {
    if ns[0].change.hash == x && y in Hashes(ns[0].nodes) {
    } else if Above(ns[0].nodes, x, y) {
      AboveWithin(ns[0].nodes, x, y);
    } else {
      AboveWithin(ns[1..], x, y);
    }
  }

  /** Every change sits under exactly one root, whose block is an ancestor. */
  lemma {:induction false} RootOf(bs: Blocks, ns: seq<ChangeNode>, h: Hash) returns (r: Hash)
    requires WellFormed(bs) && Shape(bs, ns) && h in Hashes(ns)
    ensures r in RootHashes(ns) && AncOrEq(bs, r, h)
  {
    if h == ns[0].change.hash || h in Hashes(ns[0].nodes) {
      r := ns[0].change.hash;
    } else {
      r := RootOf(bs, ns[1..], h);
      var i :| 0 <= i < |ns[1..]| && ns[1..][i].change.hash == r;
      assert ns[i + 1].change.hash == r;
    }
  }

  /** Changes under different roots are on different forks. */
  lemma {:induction false} TreesUnrelated(bs: Blocks, ns: seq<ChangeNode>, x: Hash, y: Hash)
    requires WellFormed(bs) && ns != [] && Shape(bs, ns)
    requires x == ns[0].change.hash || x in Hashes(ns[0].nodes)
    requires y in Hashes(ns[1..])
    ensures Unrelated(bs, x, y)
  {
    var a := ns[0].change.hash;
    var b := RootOf(bs, ns[1..], y);
    if AncOrEq(bs, x, y) {
      AncTransitive(bs, a, x, y);
      AncComparable(bs, a, b, y);
    } else if AncOrEq(bs, y, x) {
      AncTransitive(bs, b, y, x);
      AncComparable(bs, a, b, x);
    }
  }

  /**
   The forest is the ancestry: of two changes held, one is above the other exactly when its
   announcing block is a strict ancestor.
   */
  lemma {:induction false} AboveIsAncestry(bs: Blocks, ns: seq<ChangeNode>, x: Hash, y: Hash)
    requires WellFormed(bs) && Shape(bs, ns) && x in Hashes(ns) && y in Hashes(ns)
    ensures Above(ns, x, y) <==> StrictAnc(bs, x, y)
  {
    var r, inner, rest := ns[0].change.hash, ns[0].nodes, ns[1..];
    var xIn, yIn := x in Hashes(inner), y in Hashes(inner);
    var xTail, yTail := x in Hashes(rest), y in Hashes(rest);
    if Above(inner, x, y) { AboveWithin(inner, x, y); }
    if Above(rest, x, y) { AboveWithin(rest, x, y); }
    if xTail && (y == r || yIn) { TreesUnrelated(bs, ns, y, x); }
    if yTail && (x == r || xIn) { TreesUnrelated(bs, ns, x, y); }
    if xIn && yIn { AboveIsAncestry(bs, inner, x, y); }
    if xTail && yTail { AboveIsAncestry(bs, rest, x, y); }
    if y == r && StrictAnc(bs, x, y) && xIn { AncAntisymmetric(bs, x, y); }
  }

  /** No announcing block occurs twice. */
  lemma {:induction false} HashesUnique(bs: Blocks, ns: seq<ChangeNode>)
    requires WellFormed(bs) && Shape(bs, ns)
    ensures |Hashes(ns)| == Size(ns)
  {
    if ns != [] {
      var r, inner, rest := ns[0].change.hash, ns[0].nodes, ns[1..];
      HashesUnique(bs, inner);
      HashesUnique(bs, rest);
      assert {r} + Hashes(inner) !! Hashes(rest) by {
        forall h | h in Hashes(rest) ensures h != r && h !in Hashes(inner) {
          if h == r || h in Hashes(inner) { TreesUnrelated(bs, ns, h, h); }
        }
      }
      assert {r} !! Hashes(inner);
    }
  }

  lemma {:induction false} ShapeDescending(bs: Blocks, ns: seq<ChangeNode>)
    requires WellFormed(bs) && Shape(bs, ns)
    ensures Descending(bs, ns)
  {
    if ns != [] {
      ShapeDescending(bs, ns[0].nodes);
      ShapeDescending(bs, ns[1..]);
    }
  }

  // ---------------------------------------------------------------- lemmas: import

  /** A sibling list none of whose members takes the change: no root is an ancestor of it, and it is not held. */
  lemma {:induction false} SiblingsDecline(bs: Blocks, ns: seq<ChangeNode>, c: PendingChange, o: Oracle)
    requires WellFormed(bs) && Shape(bs, ns) && Sound(bs, o) && Announced(bs, c)
    requires ImportSiblings(ns, c, o) == Ok(None)
    ensures forall r :: r in RootHashes(ns) ==> !AncOrEq(bs, r, c.hash)
    ensures c.hash !in Hashes(ns)
  {
    if ns != [] {
      SiblingsDecline(bs, ns[1..], c, o);
      if AncOrEq(bs, ns[0].change.hash, c.hash) { AncHeight(bs, ns[0].change.hash, c.hash); }
      forall r | r in RootHashes(ns) ensures !AncOrEq(bs, r, c.hash) {
        var i :| 0 <= i < |ns| && ns[i].change.hash == r;
        if i > 0 { assert ns[1..][i - 1].change.hash == r; }
      }
    }
  }

  /** The import adds exactly one hash, which was not held, and keeps the other roots in place. */
  lemma {:induction false} ImportAddsOne(bs: Blocks, ns: seq<ChangeNode>, c: PendingChange, o: Oracle)
    requires WellFormed(bs) && Shape(bs, ns) && Sound(bs, o) && Announced(bs, c)
    requires ImportInto(ns, c, o).Ok?
    ensures c.hash !in Hashes(ns)
    ensures Hashes(ImportInto(ns, c, o).value) == Hashes(ns) + {c.hash}
    ensures RootHashes(ImportInto(ns, c, o).value)
         == if ImportSiblings(ns, c, o).value.None? then RootHashes(ns) + {c.hash} else RootHashes(ns)
    decreases ns
  {
    var s := ImportSiblings(ns, c, o).value;
    if s.None? {
      SiblingsDecline(bs, ns, c, o);
      AppendHashes(ns, c);
    } else {
      var rest := ns[1..];
      var m := ImportNode(ns[0], c, o).value;
      if m.Some? {
        ImportAddsOne(bs, ns[0].nodes, c, o);
        var ns' := [m.value] + rest;
        assert ns'[1..] == rest;
        if c.hash in Hashes(rest) { TreesUnrelated(bs, ns, ns[0].change.hash, c.hash); }
        ConsRoots(ns, m.value, rest);
      } else {
        ImportAddsOne(bs, rest, c, o);
        var rest' := ImportSiblings(rest, c, o).value.value;
        var ns' := [ns[0]] + rest';
        assert ns'[1..] == rest';
        if c.hash in Hashes(ns[0].nodes) { AncHeight(bs, ns[0].change.hash, c.hash); }
        ConsRoots(ns, ns[0], rest');
      }
    }
  }

  lemma {:induction false} ConsRoots(ns: seq<ChangeNode>, m: ChangeNode, rest: seq<ChangeNode>)
    requires ns != [] && m.change == ns[0].change && RootHashes(rest) == RootHashes(ns[1..])
    ensures RootHashes([m] + rest) == RootHashes(ns)
  {
    HeadRoots(ns);
    HeadRoots([m] + rest);
    assert ([m] + rest)[1..] == rest;
  }

  lemma {:induction false} HeadRoots(ns: seq<ChangeNode>)
    requires ns != []
    ensures RootHashes(ns) == {ns[0].change.hash} + RootHashes(ns[1..])
  {
    forall h | h in RootHashes(ns) ensures h in {ns[0].change.hash} + RootHashes(ns[1..]) {
      var i :| 0 <= i < |ns| && ns[i].change.hash == h;
      if i > 0 { assert ns[1..][i - 1].change.hash == h; }
    }
    forall h | h in RootHashes(ns[1..]) ensures h in RootHashes(ns) {
      var i :| 0 <= i < |ns[1..]| && ns[1..][i].change.hash == h;
      assert ns[i + 1].change.hash == h;
    }
  }

  lemma {:induction false} AppendHashes(ns: seq<ChangeNode>, c: PendingChange)
    ensures Hashes(ns + [ChangeNode(c, [])]) == Hashes(ns) + {c.hash}
    ensures RootHashes(ns + [ChangeNode(c, [])]) == RootHashes(ns) + {c.hash}
  {
    var ns' := ns + [ChangeNode(c, [])];
    HeadRoots(ns');
    if ns == [] {
      assert ns'[1..] == [];
    } else {
      HeadRoots(ns);
      AppendHashes(ns[1..], c);
      assert ns'[1..] == ns[1..] + [ChangeNode(c, [])];
    }
  }

  /** Appending a fork of its own keeps the shape. */
  lemma {:induction false} AppendShape(bs: Blocks, ns: seq<ChangeNode>, c: PendingChange)
    requires WellFormed(bs) && Shape(bs, ns) && Announced(bs, c)
    requires forall r :: r in RootHashes(ns) ==> Unrelated(bs, r, c.hash)
    ensures Shape(bs, ns + [ChangeNode(c, [])])
  {
    var ns' := ns + [ChangeNode(c, [])];
    if ns == [] {
      assert ns'[1..] == [];
    } else {
      HeadRoots(ns);
      AppendShape(bs, ns[1..], c);
      AppendHashes(ns[1..], c);
      assert ns'[1..] == ns[1..] + [ChangeNode(c, [])];
    }
  }

  /** Importing a change no held change descends from keeps the shape. */
  lemma {:induction false} ImportKeepsShape(bs: Blocks, ns: seq<ChangeNode>, c: PendingChange, o: Oracle)
    requires WellFormed(bs) && Shape(bs, ns) && Sound(bs, o) && Announced(bs, c)
    requires NoneBelow(bs, ns, c.hash)
    requires ImportInto(ns, c, o).Ok?
    ensures Shape(bs, ImportInto(ns, c, o).value)
    decreases ns
  {
    var s := ImportSiblings(ns, c, o).value;
    if s.None? {
      SiblingsDecline(bs, ns, c, o);
      RootsInHashes(ns);
      AppendShape(bs, ns, c);
    } else {
      HeadRoots(ns);
      var rest := ns[1..];
      var m := ImportNode(ns[0], c, o).value;
      if m.Some? {
        ImportKeepsShape(bs, ns[0].nodes, c, o);
        ImportAddsOne(bs, ns[0].nodes, c, o);
        assert ([m.value] + rest)[1..] == rest;
      } else {
        ImportKeepsShape(bs, rest, c, o);
        ImportAddsOne(bs, rest, c, o);
        var rest' := ImportSiblings(rest, c, o).value.value;
        assert ([ns[0]] + rest')[1..] == rest';
      }
    }
  }

  /** The imported change becomes a leaf. */
  lemma {:induction false} ImportedIsLeaf(bs: Blocks, ns: seq<ChangeNode>, c: PendingChange, o: Oracle, y: Hash)
    requires WellFormed(bs) && Shape(bs, ns) && Sound(bs, o) && Announced(bs, c)
    requires ImportInto(ns, c, o).Ok?
    ensures !Above(ImportInto(ns, c, o).value, c.hash, y)
    decreases ns
  {
    ImportAddsOne(bs, ns, c, o);
    var s := ImportSiblings(ns, c, o).value;
    var ns' := ImportInto(ns, c, o).value;
    if s.None? {
      if Above(ns', c.hash, y) { AppendAbove(ns, c, c.hash, y); AboveWithin(ns, c.hash, y); }
    } else {
      var rest := ns[1..];
      var m := ImportNode(ns[0], c, o).value;
      if m.Some? {
        ImportedIsLeaf(bs, ns[0].nodes, c, o, y);
        assert ns'[1..] == rest;
        if Above(rest, c.hash, y) { AboveWithin(rest, c.hash, y); }
      } else {
        ImportedIsLeaf(bs, rest, c, o, y);
        assert ns'[1..] == ImportSiblings(rest, c, o).value.value;
        if Above(ns[0].nodes, c.hash, y) { AboveWithin(ns[0].nodes, c.hash, y); }
      }
    }
  }

  lemma {:induction false} AppendAbove(ns: seq<ChangeNode>, c: PendingChange, x: Hash, y: Hash)
    ensures Above(ns + [ChangeNode(c, [])], x, y) ==> Above(ns, x, y)
  {
    var ns' := ns + [ChangeNode(c, [])];
    if ns == [] {
      assert ns'[1..] == [];
    } else {
      assert ns'[1..] == ns[1..] + [ChangeNode(c, [])];
      AppendAbove(ns[1..], c, x, y);
    }
  }

  /**
   Exactly when a successful import keeps the forest equal to the ancestry: no change already
   held is announced below the new one. The source never looks for such a change.
   */
  lemma {:induction false} ImportKeepsShapeIff(bs: Blocks, ns: seq<ChangeNode>, c: PendingChange, o: Oracle)
    requires WellFormed(bs) && Shape(bs, ns) && Sound(bs, o) && Announced(bs, c)
    requires ImportInto(ns, c, o).Ok?
    ensures Shape(bs, ImportInto(ns, c, o).value) <==> NoneBelow(bs, ns, c.hash)
  {
    var ns' := ImportInto(ns, c, o).value;
    if NoneBelow(bs, ns, c.hash) {
      ImportKeepsShape(bs, ns, c, o);
    } else if Shape(bs, ns') {
      var y :| y in Hashes(ns) && StrictAnc(bs, c.hash, y);
      ImportAddsOne(bs, ns, c, o);
      AboveIsAncestry(bs, ns', c.hash, y);
      ImportedIsLeaf(bs, ns, c, o, y);
    }
  }

  /** The forest loses the shape of the ancestry when the later block announces first. */
  lemma {:induction false} ImportCanBreakShape(o: Oracle)
    requires o(2, 1) == Ok(false)
    ensures exists ns: seq<ChangeNode>, c: PendingChange ::
      Shape(ChainOf3(), ns) && ImportInto(ns, c, o).Ok? && !Shape(ChainOf3(), ImportInto(ns, c, o).value)
  {
    var bs, ns, c := ChainOf3(), [ChangeNode(PendingChange(2, 2, 0, 0, []), [])], PendingChange(1, 1, 0, 0, []);
    assert ns[1..] == [];
    assert Shape(bs, ns);
    assert ImportInto(ns, c, o) == Ok(ns + [ChangeNode(c, [])]);
    var after := ns + [ChangeNode(c, [])];
    assert after[1..] == [ChangeNode(c, [])] && after[1..][0].change.hash == 1;
    assert 1 in RootHashes(after[1..]);
  }

  /** Announcing a change twice from one block is always refused. */
  lemma {:induction false} DuplicateRejected(bs: Blocks, ns: seq<ChangeNode>, c: PendingChange, o: Oracle)
    requires WellFormed(bs) && Shape(bs, ns) && Sound(bs, o) && Announced(bs, c)
    requires c.hash in Hashes(ns)
    ensures ImportInto(ns, c, o).Err?
  {
    if ImportInto(ns, c, o).Ok? { ImportAddsOne(bs, ns, c, o); }
  }

  // ---------------------------------------------------------------- lemmas: apply and prune

  /** The applied node is a root, finalised, due, and no change below it is finalised. */
  lemma {:induction false} ApplicableMeaning(bs: Blocks, ns: seq<ChangeNode>, hash: Hash, number: nat, o: Oracle)
    requires WellFormed(bs) && Descending(bs, ns) && Sound(bs, o) && hash in bs && bs[hash].number == number
    requires FindApplicableChange(ns, hash, number, o).Ok? && FindApplicableChange(ns, hash, number, o).value.Some?
    ensures var n := FindApplicableChange(ns, hash, number, o).value.value;
      && n in ns && n.change.hash in Hashes(ns) && Announced(bs, n.change) && Descending(bs, n.nodes)
      && AncOrEq(bs, n.change.hash, hash) && n.change.EffectiveNumber() <= number
      && (forall h :: h in Hashes(n.nodes) ==> h in Hashes(ns) && !AncOrEq(bs, h, hash))
      && (Shape(bs, ns) ==> Shape(bs, n.nodes))
  {
    if Applies(ns[0], hash, number, o) == Ok(true) {
      ChildrenNotFinalised(bs, ns[0].nodes, hash, number, o);
    } else {
      ApplicableMeaning(bs, ns[1..], hash, number, o);
    }
  }

  lemma {:induction false} ChildrenNotFinalised(bs: Blocks, ns: seq<ChangeNode>, hash: Hash, number: nat, o: Oracle)
    requires WellFormed(bs) && Descending(bs, ns) && Sound(bs, o) && hash in bs && bs[hash].number == number
    requires ChildrenAllow(ns, hash, number, o).Ok?
    ensures forall h :: h in Hashes(ns) ==> !AncOrEq(bs, h, hash)
  {
    if ns != [] {
      ChildrenNotFinalised(bs, ns[1..], hash, number, o);
      var r := ns[0].change.hash;
      if AncOrEq(bs, r, hash) && r != hash { AncHeight(bs, r, hash); }
      forall h | h in Hashes(ns[0].nodes) ensures !AncOrEq(bs, h, hash) {
        if AncOrEq(bs, h, hash) { AncTransitive(bs, r, h, hash); }
      }
    }
  }

  /** Without any assumption on order, an import adds at most its own hash and children still descend. */
  lemma {:induction false} ImportKeepsDescending(bs: Blocks, ns: seq<ChangeNode>, c: PendingChange, o: Oracle)
    requires WellFormed(bs) && Descending(bs, ns) && Sound(bs, o) && Announced(bs, c)
    requires ImportInto(ns, c, o).Ok?
    ensures Descending(bs, ImportInto(ns, c, o).value)
    ensures Hashes(ImportInto(ns, c, o).value) <= Hashes(ns) + {c.hash}
    decreases ns
  {
    var s := ImportSiblings(ns, c, o).value;
    if s.None? {
      AppendHashes(ns, c);
      AppendDescending(bs, ns, c);
    } else {
      var rest := ns[1..];
      var m := ImportNode(ns[0], c, o).value;
      if m.Some? {
        ImportKeepsDescending(bs, ns[0].nodes, c, o);
        assert ([m.value] + rest)[1..] == rest;
      } else {
        ImportKeepsDescending(bs, rest, c, o);
        var rest' := ImportSiblings(rest, c, o).value.value;
        assert ([ns[0]] + rest')[1..] == rest';
      }
    }
  }

  lemma {:induction false} AppendDescending(bs: Blocks, ns: seq<ChangeNode>, c: PendingChange)
    requires WellFormed(bs) && Descending(bs, ns) && Announced(bs, c)
    ensures Descending(bs, ns + [ChangeNode(c, [])])
  {
    var ns' := ns + [ChangeNode(c, [])];
    if ns == [] {
      assert ns'[1..] == [];
    } else {
      AppendDescending(bs, ns[1..], c);
      assert ns'[1..] == ns[1..] + [ChangeNode(c, [])];
    }
  }

  lemma {:induction false} PruneKeepsDescending(bs: Blocks, ns: seq<ChangeNode>, hash: Hash, o: Oracle)
    requires WellFormed(bs) && Descending(bs, ns) && PruneChanges(ns, hash, o).Ok?
    ensures Descending(bs, PruneChanges(ns, hash, o).value)
    ensures Hashes(PruneChanges(ns, hash, o).value) <= Hashes(ns)
  {
    if ns != [] {
      PruneKeepsDescending(bs, ns[1..], hash, o);
      var rest := PruneChanges(ns[1..], hash, o).value;
      assert ([ns[0]] + rest)[1..] == rest;
    }
  }

  /** Pruning keeps a sub-forest, whose roots are those at or below the finalised block. */
  lemma {:induction false} PruneKeepsShape(bs: Blocks, ns: seq<ChangeNode>, hash: Hash, o: Oracle)
    requires WellFormed(bs) && Shape(bs, ns) && Sound(bs, o) && PruneChanges(ns, hash, o).Ok?
    ensures var kept := PruneChanges(ns, hash, o).value;
      Shape(bs, kept) && RootHashes(kept) == (set r | r in RootHashes(ns) && AncOrEq(bs, hash, r))
  {
    if ns != [] {
      PruneKeepsShape(bs, ns[1..], hash, o);
      HeadRoots(ns);
      var keptRest := PruneChanges(ns[1..], hash, o).value;
      if AncOrEq(bs, hash, ns[0].change.hash) {
        var kept := [ns[0]] + keptRest;
        assert kept[1..] == keptRest;
        HeadRoots(kept);
      }
    }
  }

  /**
   Exactly the changes kept by pruning: those whose root is at or below the finalised block. A change
   still waiting for its delay on the finalised chain goes, and takes its descendants with it.
   */
  lemma {:induction false} PruneMeaning(bs: Blocks, ns: seq<ChangeNode>, hash: Hash, o: Oracle)
    requires WellFormed(bs) && Shape(bs, ns) && Sound(bs, o) && PruneChanges(ns, hash, o).Ok?
    ensures forall h :: h in Hashes(PruneChanges(ns, hash, o).value) <==> h in Hashes(ns) && KeptRoot(bs, ns, hash, h)
  {
    if ns != [] {
      PruneMeaning(bs, ns[1..], hash, o);
      var keptRest := PruneChanges(ns[1..], hash, o).value;
      assert ([ns[0]] + keptRest)[1..] == keptRest;
      forall h | h in Hashes(ns) ensures
          h in Hashes(PruneChanges(ns, hash, o).value) <==> KeptRoot(bs, ns, hash, h) {
        PruneOne(bs, ns, hash, h);
      }
    }
  }

  /** The root above `h` is itself at or below the finalised block. */
  ghost predicate KeptRoot(bs: Blocks, ns: seq<ChangeNode>, hash: Hash, h: Hash)
    requires WellFormed(bs)
  {
    exists r :: r in RootHashes(ns) && AncOrEq(bs, r, h) && AncOrEq(bs, hash, r)
  }

  lemma {:induction false} PruneOne(bs: Blocks, ns: seq<ChangeNode>, hash: Hash, h: Hash)
    requires WellFormed(bs) && ns != [] && Shape(bs, ns) && h in Hashes(ns)
    ensures var r := ns[0].change.hash;
      if h == r || h in Hashes(ns[0].nodes)
      then (KeptRoot(bs, ns, hash, h) <==> AncOrEq(bs, hash, r)) && h !in Hashes(ns[1..])
      else KeptRoot(bs, ns, hash, h) <==> KeptRoot(bs, ns[1..], hash, h)
  {
    HeadRoots(ns);
    RootsInHashes(ns[1..]);
    var r := ns[0].change.hash;
    if h == r || h in Hashes(ns[0].nodes) {
      if h in Hashes(ns[1..]) { TreesUnrelated(bs, ns, h, h); }
      forall q | q in RootHashes(ns[1..]) ensures !AncOrEq(bs, q, h) {
        TreesUnrelated(bs, ns, h, q);
      }
    } else {
      TreesUnrelated(bs, ns, r, h);
    }
  }
}
