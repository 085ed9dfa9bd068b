/** What the block state answers about its chain, and what every run of additions and finalisations keeps. */
module FinalisedRuns {
  import opened Basics
  import opened Ancestry
  import opened BlockTreeSpec
  import opened BlockTrees
  import opened FinalisedChain
  import opened Runtimes
  import TreeQueries
  import ForkChoice

  // ---------------------------------------------------------------- lookups

  /** On the finalised chain, or in the tree above its end. */
  ghost predicate OnRecord(bs: Blocks, last: Hash, h: Hash)
    requires WellFormed(bs)
  {
    h in bs && (AncOrEq(bs, last, h) || AncOrEq(bs, h, last))
  }

  lemma {:induction false} AncestorOnRecord(bs: Blocks, last: Hash, x: Hash, d: Hash)
    requires WellFormed(bs) && OnRecord(bs, last, d) && AncOrEq(bs, x, d)
    ensures OnRecord(bs, last, x)
  {
    if x != d { AncHeight(bs, x, d); }
    if AncOrEq(bs, last, d) { AncComparable(bs, x, last, d); } else { AncTransitive(bs, x, d, last); }
  }

  /** The row of every block of the finalised chain is that block. */
  lemma {:induction false} RowOfAncestor(s: BlockState, h: Hash)
    requires s.Valid() && AncOrEq(s.bt.g.bs, h, s.lastFinalised)
    ensures h in s.bt.g.bs && s.bt.g.bs[h].number in s.rows && s.rows[s.bt.g.bs[h].number] == h && h in s.headers
  {
    var bs, last := s.bt.g.bs, s.lastFinalised;
    if h != last { AncHeight(bs, h, last); }
    var n := bs[h].number;
    assert bs[h].parent.None? ==> h == s.genesisHash;
    assert RowAt(bs, s.genesisHash, s.rows, s.headers, n);
    RowIsAncestor(bs, s.genesisHash, last, s.rows, s.headers, n, bs[last].number);
    AncSameNumber(bs, h, s.rows[n], last);
  }

  /** Everything on record has a header. */
  lemma {:induction false} RecordHasHeader(s: BlockState, h: Hash)
    requires s.Valid() && OnRecord(s.bt.g.bs, s.lastFinalised, h)
    ensures s.HasHeader(h)
  {
    if AncOrEq(s.bt.g.bs, h, s.lastFinalised) { RowOfAncestor(s, h); } else { s.Known(h); }
  }

  lemma {:induction false} HeaderIsHistory(s: BlockState, h: Hash)
    requires s.Valid() && s.HasHeader(h)
    ensures var bs, hd := s.bt.g.bs, s.GetHeader(h).value;
      && h in bs && bs[h].number == hd.number >= bs[s.genesisHash].number
      && (bs[h].number > bs[s.genesisHash].number ==> bs[h].parent == Some(hd.parent))
  {
    assert s.bt.g.bs[h].parent.None? ==> h == s.genesisHash;
  }

  /**
   Ancestry, from the tree or else from stored headers: every answer is right, and there is an answer
   whenever both blocks are on record.
   */
  method IsDescendantOf(s: BlockState, ancestor: Hash, descendant: Hash) returns (r: Result<bool, StateError>)
    requires s.Valid()
    ensures r.Ok? ==> r.value == AncOrEq(s.bt.g.bs, ancestor, descendant)
    ensures OnRecord(s.bt.g.bs, s.lastFinalised, ancestor) && OnRecord(s.bt.g.bs, s.lastFinalised, descendant) ==> r.Ok?
  {
    var inTree := TreeQueries.IsDescendantOf(s.bt, ancestor, descendant);
    if inTree.Ok? { return Ok(inTree.value); }
    r := WalkHeaders(s, ancestor, descendant);
  }

  method WalkHeaders(s: BlockState, ancestor: Hash, descendant: Hash) returns (r: Result<bool, StateError>)
    requires s.Valid() && ancestor != descendant
    ensures r.Ok? ==> r.value == AncOrEq(s.bt.g.bs, ancestor, descendant)
    ensures OnRecord(s.bt.g.bs, s.lastFinalised, ancestor) && OnRecord(s.bt.g.bs, s.lastFinalised, descendant) ==> r.Ok?
  {
    ghost var bs := s.bt.g.bs;
    ghost var onRecord := OnRecord(bs, s.lastFinalised, ancestor) && OnRecord(bs, s.lastFinalised, descendant);
    if onRecord { RecordHasHeader(s, descendant); RecordHasHeader(s, ancestor); }
    var start := s.GetHeader(descendant);
    if start.None? { return Err(HeaderNotFound); }
    var goal := s.GetHeader(ancestor);
    if goal.None? { return Err(HeaderNotFound); }
    HeaderIsHistory(s, ancestor);
    var header := start.value;
    ghost var current := descendant;
    while header.number > goal.value.number
      invariant s.HasHeader(current) && s.GetHeader(current) == Some(header) && current != ancestor
      invariant AncOrEq(bs, current, descendant)
      invariant AncOrEq(bs, ancestor, descendant) <==> AncOrEq(bs, ancestor, current)
      decreases header.number
    {
      HeaderIsHistory(s, current);
      if header.parent == ancestor { return Ok(true); }
      ghost var parent := header.parent;
      AncTransitive(bs, parent, current, descendant);
      if onRecord { AncestorOnRecord(bs, s.lastFinalised, parent, descendant); RecordHasHeader(s, parent); }
      var next := s.GetHeader(header.parent);
      if next.None? { return Err(HeaderNotFound); }
      HeaderIsHistory(s, parent);
      current := header.parent;
      header := next.value;
    }
    HeaderIsHistory(s, current);
    if AncOrEq(bs, ancestor, current) { AncHeight(bs, ancestor, current); }
    return Ok(false);
  }

  /** The block with a number on the chain of the best leaf, from the tree or from the stored rows. */
  method GetHashByNumber(s: BlockState, num: nat) returns (r: Result<Hash, StateError>)
    requires s.Valid()
    ensures forall leaf {:trigger IsBest(s.bt.g.bs, s.lastFinalised, leaf)} ::
      IsBest(s.bt.g.bs, s.lastFinalised, leaf) ==>
      && (r.Ok? <==> s.bt.g.bs[s.genesisHash].number <= num <= s.bt.g.bs[leaf].number)
      && (r.Ok? ==> AncestorAt(s.bt.g.bs, leaf, num, r.value))
  {
    var found, leaf := ForkChoice.GetHashByNumber(s.bt, num);
    ghost var bs, last := s.bt.g.bs, s.lastFinalised;
    forall other {:trigger IsBest(bs, last, other)} | IsBest(bs, last, other) ensures other == leaf {
      BestUnique(bs, last, other, leaf);
    }
    s.InTreeAbove(leaf);
    assert RowAt(bs, s.genesisHash, s.rows, s.headers, bs[last].number);
    if found.Ok? { return Ok(found.value); }
    if found.error != NumLowerThanRoot { return Err(FromTree(found.error)); }
    if num !in s.rows { return Err(HeaderNotFound); }
    RowIsAncestor(bs, s.genesisHash, last, s.rows, s.headers, num, bs[last].number);
    assert RowAt(bs, s.genesisHash, s.rows, s.headers, num);
    AncTransitive(bs, s.rows[num], last, leaf);
    return Ok(s.rows[num]);
  }

  // ---------------------------------------------------------------- runs

  datatype Op =
    | Add(hash: Hash, header: Header, hasBody: bool, arrival: int)
    | Finalise(hash: Hash, round: nat, setID: nat)

  /** A block's hash determines its parent; the genesis block's parent is no block. */
  ghost predicate Genuine(world: Hash -> Hash, genesis: Hash, op: Op) {
    op.Add? ==> op.header.parent == world(op.hash) && op.hash != world(genesis)
  }

  ghost predicate Follows(world: Hash -> Hash, genesis: Hash, bs: Blocks) {
    && world(genesis) !in bs && genesis in bs && bs[genesis].parent.None?
    && forall h {:trigger bs[h].parent} :: h in bs && h != genesis ==> bs[h].parent == Some(world(h))
  }

  ghost predicate Extends(bs: Blocks, bs': Blocks) {
    forall h {:trigger bs[h]} {:trigger bs'[h]} :: h in bs ==> h in bs' && bs'[h] == bs[h]
  }

  ghost predicate Grows(rows: Rows, rows': Rows) {
    forall n :: n in rows ==> n in rows' && rows'[n] == rows[n]
  }

  lemma {:induction false} AncGrows(bs: Blocks, bs': Blocks, a: Hash, d: Hash)
    requires WellFormed(bs) && WellFormed(bs') && Extends(bs, bs') && AncOrEq(bs, a, d)
    ensures AncOrEq(bs', a, d)
    decreases Height(bs, d)
  {
    if a != d { AncGrows(bs, bs', a, bs[d].parent.value); }
  }

  /** What every call keeps: blocks and rows only grow, the last finalised block moves down the tree, the set ID up. */
  ghost predicate Progress(bs: Blocks, rows: Rows, last: Hash, top: nat, bs': Blocks, rows': Rows, last': Hash,
      top': nat) {
    Extends(bs, bs') && Grows(rows, rows') && WellFormed(bs') && AncOrEq(bs', last, last') && top' >= top
  }

  lemma {:induction false} ProgressTrans(bs: Blocks, rows: Rows, last: Hash, top: nat, bs1: Blocks, rows1: Rows,
      last1: Hash, top1: nat,
                                         bs2: Blocks, rows2: Rows, last2: Hash, top2: nat)
    requires Progress(bs, rows, last, top, bs1, rows1, last1, top1)
    requires Progress(bs1, rows1, last1, top1, bs2, rows2, last2, top2)
    ensures Progress(bs, rows, last, top, bs2, rows2, last2, top2)
  {
    AncGrows(bs1, bs2, last, last1);
    AncTransitive(bs2, last, last1, last2);
  }

  ghost predicate StrandedBy(s: BlockState, op: Op)
    requires WellFormed(s.bt.g.bs)
    reads s, s.bt
  {
    op.Finalise? && Strands(s.bt.g.bs, s.bt.g.kids, s.lastFinalised, s.unfinalised, s.highest.1, op.hash, op.setID)
  }

  /** What a call does to the history and to the last finalised block. */
  ghost predicate Did(op: Op, bs: Blocks, kids: Kids, last: Hash, unf: Headers, top: nat, bs': Blocks, last': Hash)
    requires WellFormed(bs)
  {
    match op
    case Add(h, header, hasBody, arrival) =>
      && last' == last
      && bs' == if hasBody && AddResult(bs, last, h, header.parent, header.number, header.primary).Ok?
                then bs[h := Block(Some(header.parent), header.number, arrival, header.primary.value)] else bs
    case Finalise(h, round, setID) =>
      bs' == bs && last' == if Reachable(bs, kids, last, unf, h) && setID >= top then h else last
  }

  /** One call, successful or not. It tells whether it has stranded blocks. */
  method Step(s: BlockState, op: Op, ghost world: Hash -> Hash) returns (stranded: bool)
    requires s.Valid() && Follows(world, s.genesisHash, s.bt.g.bs) && Genuine(world, s.genesisHash, op)
    modifies s, s.bt, s.bt.g.nodes
    ensures stranded <==> old(StrandedBy(s, op))
    ensures s.Tracks() && (!stranded ==> s.Valid())
    ensures stranded ==> op.setID < s.highest.1 && Stranded(s.bt.g.bs, s.lastFinalised, op.hash, s.unfinalised)
    ensures Follows(world, s.genesisHash, s.bt.g.bs) && fresh(s.bt.g.nodes - old(s.bt.g.nodes))
    ensures Did(op, old(s.bt.g.bs), old(s.bt.g.kids), old(s.lastFinalised), old(s.unfinalised), old(s.highest.1),
                s.bt.g.bs, s.lastFinalised)
    ensures Progress(old(s.bt.g.bs), old(s.rows), old(s.lastFinalised), old(s.highest.1),
                     s.bt.g.bs, s.rows, s.lastFinalised, s.highest.1)
  {
    if op.Add? {
      StepAdd(s, op, world);
      return false;
    }
    stranded := StepFinalise(s, op);
  }

  method StepAdd(s: BlockState, op: Op, ghost world: Hash -> Hash)
    requires s.Valid() && Follows(world, s.genesisHash, s.bt.g.bs) && Genuine(world, s.genesisHash, op) && op.Add?
    modifies s`unfinalised, s.bt`leaves, s.bt`g, s.bt.g.nodes`children, s.bt.g.nodes`slots
    ensures s.Valid() && Follows(world, s.genesisHash, s.bt.g.bs) && fresh(s.bt.g.nodes - old(s.bt.g.nodes))
    ensures Did(op, old(s.bt.g.bs), old(s.bt.g.kids), old(s.lastFinalised), old(s.unfinalised), old(s.highest.1),
                s.bt.g.bs, s.lastFinalised)
    ensures Extends(old(s.bt.g.bs), s.bt.g.bs)
  {
    var _ := s.AddBlock(op.hash, op.header, op.hasBody, op.arrival);
  }

  method StepFinalise(s: BlockState, op: Op) returns (stranded: bool)
    requires s.Valid() && op.Finalise?
    modifies s, s.bt, s.bt.g.nodes`children, s.bt.g.nodes`slots, s.bt.g.nodes`parent
    ensures stranded <==> old(StrandedBy(s, op))
    ensures s.Tracks() && (!stranded ==> s.Valid()) && s.bt.g.nodes == old(s.bt.g.nodes)
    ensures stranded ==> op.setID < s.highest.1 && Stranded(s.bt.g.bs, s.lastFinalised, op.hash, s.unfinalised)
    ensures Did(op, old(s.bt.g.bs), old(s.bt.g.kids), old(s.lastFinalised), old(s.unfinalised), old(s.highest.1),
                s.bt.g.bs, s.lastFinalised)
    ensures Progress(old(s.bt.g.bs), old(s.rows), old(s.lastFinalised), old(s.highest.1),
                     s.bt.g.bs, s.rows, s.lastFinalised, s.highest.1)
  {
    var again := op.hash == s.lastFinalised;
    var r := s.SetFinalisedHash(op.hash, op.round, op.setID);
    return r == Err(SetIDLower) && !again;
  }

  /** What a run needs of one call. */
  method Proceed(s: BlockState, op: Op, ghost world: Hash -> Hash) returns (stranded: bool)
    requires s.Valid() && Follows(world, s.genesisHash, s.bt.g.bs) && Genuine(world, s.genesisHash, op)
    modifies s, s.bt, s.bt.g.nodes
    ensures s.Tracks() && (!stranded ==> s.Valid())
    ensures stranded ==> op.Finalise? && op.setID < s.highest.1
    ensures stranded ==> Stranded(s.bt.g.bs, s.lastFinalised, op.hash, s.unfinalised)
    ensures Follows(world, s.genesisHash, s.bt.g.bs) && fresh(s.bt.g.nodes - old(s.bt.g.nodes))
    ensures Progress(old(s.bt.g.bs), old(s.rows), old(s.lastFinalised), old(s.highest.1),
                     s.bt.g.bs, s.rows, s.lastFinalised, s.highest.1)
  {
    stranded := Step(s, op, world);
  }

  /**
   Over every run, up to the first call that strands blocks, the state stays consistent: the root is the
   last finalised block and descends from every earlier one, the stored rows only grow, and the highest
   set ID never falls. `n` counts the calls made; after a stranding call nothing at or below the refused
   block can be finalised.
   */
  method Run(s: BlockState, ops: seq<Op>, ghost world: Hash -> Hash) returns (n: nat, stranded: bool)
    requires s.Valid() && Follows(world, s.genesisHash, s.bt.g.bs)
    requires forall i :: 0 <= i < |ops| ==> Genuine(world, s.genesisHash, ops[i])
    modifies s, s.bt, s.bt.g.nodes
    ensures n <= |ops| && s.Tracks() && (!stranded ==> n == |ops| && s.Valid())
    ensures stranded ==> n > 0 && ops[n - 1].Finalise? && ops[n - 1].setID < s.highest.1
    ensures stranded ==> Stranded(s.bt.g.bs, s.lastFinalised, ops[n - 1].hash, s.unfinalised)
    ensures Progress(old(s.bt.g.bs), old(s.rows), old(s.lastFinalised), old(s.highest.1),
                     s.bt.g.bs, s.rows, s.lastFinalised, s.highest.1)
    decreases ops
  {
    if ops == [] { return 0, false; }
    stranded := Proceed(s, ops[0], world);
    if stranded { return 1, true; }
    ghost var bs, rows, last, top := s.bt.g.bs, s.rows, s.lastFinalised, s.highest.1;
    n, stranded := Run(s, ops[1..], world);
    n := n + 1;
    ProgressTrans(old(s.bt.g.bs), old(s.rows), old(s.lastFinalised), old(s.highest.1), bs, rows, last, top,
                  s.bt.g.bs, s.rows, s.lastFinalised, s.highest.1);
  }

  // ---------------------------------------------------------------- a stranding call

  /** A child of the last finalised block that is in memory can be finalised. */
  lemma {:induction false} ChildReachable(s: BlockState, h: Hash)
    requires s.Valid() && h in s.bt.g.bs && s.bt.g.bs[h].parent == Some(s.lastFinalised) && Storable(s.unfinalised, h)
    ensures Reachable(s.bt.g.bs, s.bt.g.kids, s.lastFinalised, s.unfinalised, h)
  {
    var bs, last := s.bt.g.bs, s.lastFinalised;
    assert AncOrEq(bs, last, h);
    assert PathTo(bs, last, last) == [last];
    assert PathTo(bs, last, h) == [last, h];
    assert Steps([last, h]) == {h};
  }

  /** A new block right after the last finalised one. */
  method AddChild(s: BlockState, h: Hash)
    requires s.Valid() && h !in s.bt.g.bs
    modifies s`unfinalised, s.bt`leaves, s.bt`g, s.bt.g.nodes`children, s.bt.g.nodes`slots
    ensures s.Valid() && fresh(s.bt.g.nodes - old(s.bt.g.nodes)) && s.bt.g.bs.Keys == old(s.bt.g.bs.Keys) + {h}
    ensures Reachable(s.bt.g.bs, s.bt.g.kids, s.lastFinalised, s.unfinalised, h)
  {
    var last := s.GetHeader(s.lastFinalised);
    s.Known(s.lastFinalised);
    HeaderIsHistory(s, s.lastFinalised);
    var header := Header(s.lastFinalised, last.value.number + 1, Some(0), Some(false));
    var added := s.AddBlock(h, header, true, 0);
    assert added.Ok?;
    ChildReachable(s, h);
  }

  method Beginning() returns (s: BlockState)
    ensures fresh(s) && fresh(s.bt) && fresh(s.bt.g.nodes) && s.Valid()
    ensures s.highest == (0, 0) && s.bt.g.bs.Keys == {0, 1}
    ensures Reachable(s.bt.g.bs, s.bt.g.kids, s.lastFinalised, s.unfinalised, 1)
  {
    s := OnlyGenesis();
    AddChild(s, 1);
  }

  method OnlyGenesis() returns (s: BlockState)
    ensures fresh(s) && fresh(s.bt) && fresh(s.bt.g.nodes) && s.Valid() && s.highest == (0, 0) && s.bt.g.bs.Keys == {0}
  {
    s := new BlockState(0, Header(9, 0, Some(0), Some(false)), 0);
  }

  /** Block 1 is finalised by set 1. */
  method FinalisedOne() returns (s: BlockState)
    ensures fresh(s) && fresh(s.bt) && fresh(s.bt.g.nodes) && s.Valid()
    ensures s.lastFinalised == 1 && s.highest == (0, 1) && s.bt.g.bs.Keys == {0, 1}
  {
    s := Beginning();
    var _ := s.SetFinalisedHash(1, 0, 1);
  }

  /** Then block 2, asked for by set 0, is refused, but it has left the memory. */
  method StrandingExample() returns (s: BlockState)
    ensures s.Tracks() && !s.Valid() && s.lastFinalised == 1 && Stranded(s.bt.g.bs, 1, 2, s.unfinalised)
  {
    s := SecondChild();
    Refuse(s);
  }

  method SecondChild() returns (s: BlockState)
    ensures fresh(s) && fresh(s.bt) && fresh(s.bt.g.nodes) && s.Valid() && s.lastFinalised == 1 && s.highest == (0, 1)
    ensures Reachable(s.bt.g.bs, s.bt.g.kids, s.lastFinalised, s.unfinalised, 2)
  {
    s := FinalisedOne();
    AddChild(s, 2);
  }

  method Refuse(s: BlockState)
    requires s.Valid() && s.lastFinalised == 1 && s.highest == (0, 1)
    requires Reachable(s.bt.g.bs, s.bt.g.kids, s.lastFinalised, s.unfinalised, 2)
    modifies s, s.bt, s.bt.g.nodes
    ensures s.Tracks() && !s.Valid() && s.lastFinalised == 1 && Stranded(s.bt.g.bs, 1, 2, s.unfinalised)
  {
    var _ := s.SetFinalisedHash(2, 1, 0);
  }
}
