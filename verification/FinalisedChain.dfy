/**
 The block state: the block tree over the unfinalised blocks, the stored headers, and the stored
 rows from block number to hash that grow with every finalisation.
 */
module FinalisedChain {
  import opened Basics
  import opened Ancestry
  import opened BlockTreeSpec
  import opened BlockTreeNode
  import opened PruneWalk
  import opened BlockTrees
  import opened Runtimes
  import TreeQueries

  /** `slot` is none when the header carries no readable slot; `primary` when its digest is not BABE's. */
  datatype Header = Header(parent: Hash, number: nat, slot: Option<nat>, primary: Option<bool>)

  type Headers = map<Hash, Header>
  type Rows = map<nat, Hash>

  datatype StateError =
    | NilBody | UnknownBlock | MissingBlock | BadSlot | SetIDLower | HeaderNotFound | FromTree(error: TreeError)

  // ---------------------------------------------------------------- the stored chain, as values

  /** Stored headers are the headers of the history. */
  ghost predicate Describes(bs: Blocks, hs: Headers) {
    forall h {:trigger hs[h]} :: h in hs ==>
      h in bs && bs[h].number == hs[h].number && (bs[h].parent.Some? ==> bs[h].parent == Some(hs[h].parent))
  }

  /** Everything known grew from the genesis block. */
  ghost predicate OneOrigin(bs: Blocks, genesis: Hash) {
    && genesis in bs && bs[genesis].parent.None?
    && forall h {:trigger bs[h].parent} ::
      h in bs && h != genesis ==> bs[h].parent.Some? && bs[h].number > bs[genesis].number
  }

  ghost predicate RowAt(bs: Blocks, genesis: Hash, rows: Rows, headers: Headers, n: nat)
    requires genesis in bs
  {
    && n in rows && rows[n] in bs && bs[rows[n]].number == n && rows[n] in headers
    && if n == bs[genesis].number then rows[n] == genesis
       else n > 0 && (n - 1) in rows && bs[rows[n]].parent == Some(rows[n - 1])
  }

  /** One row per number from the genesis block to the last finalised one, each the parent of the next. */
  ghost predicate RowsFrom(bs: Blocks, genesis: Hash, last: Hash, rows: Rows, headers: Headers) {
    && genesis in bs && last in bs && bs[last].number in rows && rows[bs[last].number] == last
    && (forall n {:trigger n in rows} :: n in rows <==> bs[genesis].number <= n <= bs[last].number)
    && (forall n {:trigger RowAt(bs, genesis, rows, headers, n)} :: n in rows ==> RowAt(bs, genesis, rows, headers, n))
  }

  /** Rows are ancestors of the last finalised block. */
  lemma {:induction false} RowIsAncestor(bs: Blocks, genesis: Hash, last: Hash, rows: Rows, headers: Headers, n: nat,
      m: nat)
    requires WellFormed(bs) && RowsFrom(bs, genesis, last, rows, headers) && n in rows && m in rows && n <= m
    ensures AncOrEq(bs, rows[n], rows[m])
    decreases m
  {
    assert RowAt(bs, genesis, rows, headers, m);
    if n < m {
      RowIsAncestor(bs, genesis, last, rows, headers, n, m - 1);
    }
  }

  /** The rows of the first `k` steps of a path whose first block has number `base`. */
  ghost predicate BatchOf(path: seq<Hash>, base: nat, k: nat, batch: Rows)
    requires k < |path|
  {
    && (forall n {:trigger n in batch} :: n in batch <==> base < n <= base + k)
    && (forall n {:trigger batch[n]} :: n in batch ==> batch[n] == path[n - base])
  }

  /** Writing the rows of the path to a descendant makes that descendant the end of the chain. */
  lemma {:induction false} RowsExtend(bs: Blocks, genesis: Hash, last: Hash, rows: Rows, headers: Headers, fin: Hash,
      batch: Rows, headers': Headers)
    requires WellFormed(bs) && RowsFrom(bs, genesis, last, rows, headers)
    requires fin in bs && last != fin && AncOrEq(bs, last, fin)
    requires var path := PathTo(bs, last, fin); BatchOf(path, bs[last].number, |path| - 1, batch)
    requires headers.Keys <= headers'.Keys && forall h :: h in PathTo(bs, last, fin)[1..] ==> h in headers'
    ensures RowsFrom(bs, genesis, fin, rows + batch, headers')
  {
    var path, rows', base := PathTo(bs, last, fin), rows + batch, bs[last].number;
    PathIsChain(bs, last, fin);
    AncHeight(bs, last, fin);
    forall n {:trigger RowAt(bs, genesis, rows', headers', n)} | n in rows'
      ensures RowAt(bs, genesis, rows', headers', n)
    {
      if n in batch {
        var k := n - base;
        assert path[k] == path[1..][k - 1];
        assert bs[path[k]].parent == Some(path[k - 1]);
        assert (n - 1) in rows' && rows'[n - 1] == path[k - 1];
      } else {
        assert RowAt(bs, genesis, rows, headers, n);
      }
    }
  }

  /** The blocks of the tree below its root can be found among the unfinalised blocks. */
  ghost predicate Waiting(bs: Blocks, root: Hash, unfinalised: Headers)
    requires WellFormed(bs)
  {
    forall h :: h in Tree(bs, root) && h != root ==> h in unfinalised
  }

  /** What every call keeps: headers in memory and in the store are those of a history with one origin. */
  ghost predicate Faithful(bs: Blocks, genesis: Hash, unfinalised: Headers, headers: Headers) {
    OneOrigin(bs, genesis) && Describes(bs, unfinalised) && Describes(bs, headers)
  }

  /** What every call that does not strand blocks keeps. */
  ghost predicate Consistent(bs: Blocks, genesis: Hash, last: Hash, unfinalised: Headers, headers: Headers,
      rows: Rows) {
    && WellFormed(bs) && OneOrigin(bs, genesis) && Describes(bs, unfinalised) && Describes(bs, headers)
    && RowsFrom(bs, genesis, last, rows, headers) && Waiting(bs, last, unfinalised)
  }

  lemma {:induction false} OriginExtend(bs: Blocks, genesis: Hash, h: Hash, b: Block)
    requires OneOrigin(bs, genesis) && h !in bs && WellFormed(bs[h := b])
    requires b.parent.Some? && b.parent.value in bs
    ensures OneOrigin(bs[h := b], genesis)
  {
    var bs', p := bs[h := b], b.parent.value;
    assert bs'[h].parent == b.parent;
    assert bs[p].parent.None? ==> p == genesis;
    forall x | x in bs' && x != genesis ensures bs'[x].parent.Some? && bs'[x].number > bs'[genesis].number {
      assert x in bs ==> bs[x].parent == bs'[x].parent;
    }
  }

  lemma {:induction false} AddConsistent(bs: Blocks, genesis: Hash, last: Hash, unfinalised: Headers,
      headers: Headers, rows: Rows, h: Hash, header: Header, b: Block)
    requires Consistent(bs, genesis, last, unfinalised, headers, rows) && h !in bs && WellFormed(bs[h := b])
    requires header.parent in Tree(bs, last) && b.parent == Some(header.parent) && b.number == header.number
    ensures Consistent(bs[h := b], genesis, last, unfinalised[h := header], headers, rows)
  {
    var bs' := bs[h := b];
    TreeExtend(bs, last, h, b);
    OriginExtend(bs, genesis, h, b);
    assert Describes(bs', unfinalised[h := header]);
    forall n {:trigger RowAt(bs', genesis, rows, headers, n)} | n in rows
      ensures RowAt(bs', genesis, rows, headers, n)
    {
      assert RowAt(bs, genesis, rows, headers, n);
    }
  }

  /** The blocks that finalising `fin` must find in memory, the first one with a readable slot if it has number 1. */
  ghost predicate Ready(bs: Blocks, last: Hash, fin: Hash, unfinalised: Headers)
    requires WellFormed(bs)
  {
    AllStorable(unfinalised, Steps(PathTo(bs, last, fin)))
  }

  ghost predicate Storable(unfinalised: Headers, h: Hash) {
    h in unfinalised && (unfinalised[h].number == 1 ==> unfinalised[h].slot.Some?)
  }

  ghost predicate AllStorable(unfinalised: Headers, hs: set<Hash>) {
    forall h {:trigger Storable(unfinalised, h)} :: h in hs ==> Storable(unfinalised, h)
  }

  function Among(hs: seq<Hash>): set<Hash> {
    set h | h in hs
  }

  /** Some of the headers held. */
  ghost function Picked(hs: Headers, chosen: set<Hash>): Headers {
    map h | h in hs && h in chosen :: hs[h]
  }

  /** A path without its first block. */
  ghost function Steps(path: seq<Hash>): set<Hash>
    requires path != []
  {
    set h | h in path[1..]
  }

  /** Moving the path to `fin` into the store makes it the end of the chain, and its descendants stay in memory. */
  lemma {:induction false} FinaliseConsistent(bs: Blocks, genesis: Hash, last: Hash, unfinalised: Headers,
      headers: Headers, rows: Rows, fin: Hash, batch: Rows, headers': Headers)
    requires Consistent(bs, genesis, last, unfinalised, headers, rows)
    requires fin in bs && last != fin && AncOrEq(bs, last, fin)
    requires var path := PathTo(bs, last, fin);
      && BatchOf(path, bs[last].number, |path| - 1, batch) && headers'.Keys == headers.Keys + Steps(path)
    requires Describes(bs, headers')
    ensures Consistent(bs, genesis, fin, unfinalised - Steps(PathTo(bs, last, fin)), headers', rows + batch)
  {
    RowsExtend(bs, genesis, last, rows, headers, fin, batch, headers');
    forall h | h in Tree(bs, fin) && h != fin ensures h in unfinalised && h !in Steps(PathTo(bs, last, fin)) {
      AncTransitive(bs, last, fin, h);
      AncHeight(bs, fin, h);
      if h == last { AncAntisymmetric(bs, last, fin); }
      PathMembers(bs, last, fin, h);
      if AncOrEq(bs, h, fin) { AncAntisymmetric(bs, h, fin); }
    }
  }

  /** A longer list of stored headers is harmless. */
  lemma {:induction false} StoreMore(bs: Blocks, genesis: Hash, last: Hash, headers: Headers, rows: Rows,
      headers': Headers)
    requires RowsFrom(bs, genesis, last, rows, headers) && headers.Keys <= headers'.Keys
    ensures RowsFrom(bs, genesis, last, rows, headers')
  {
    forall n {:trigger RowAt(bs, genesis, rows, headers', n)} | n in rows
      ensures RowAt(bs, genesis, rows, headers', n)
    {
      assert RowAt(bs, genesis, rows, headers, n);
    }
  }

  /** No block at or below `fin` can be finalised. */
  ghost predicate Stranded(bs: Blocks, last: Hash, fin: Hash, unfinalised: Headers)
    requires WellFormed(bs)
  {
    forall x :: x in Tree(bs, fin) ==> !Ready(bs, last, x, unfinalised)
  }

  /** After the path to `fin` has been moved: consistent for the new end, and stranded for the old one. */
  lemma {:induction false} MovedConsistent(bs: Blocks, genesis: Hash, last: Hash, unf0: Headers, headers0: Headers,
      rows0: Rows, fin: Hash, unf: Headers, headers: Headers, rows: Rows)
    requires Consistent(bs, genesis, last, unf0, headers0, rows0) && Describes(bs, headers)
    requires fin in bs && last != fin && AncOrEq(bs, last, fin)
    requires Moved(bs, last, fin, unf0, headers0, rows0, unf, headers, rows)
    ensures Consistent(bs, genesis, fin, unf, headers, rows)
    ensures Stranded(bs, last, fin, unf) && !Waiting(bs, last, unf)
    ensures forall n :: n in rows0 ==> n in rows && rows[n] == rows0[n]
  {
    var path := PathTo(bs, last, fin);
    var batch :| BatchOf(path, bs[last].number, |path| - 1, batch) && rows == rows0 + batch;
    FinaliseConsistent(bs, genesis, last, unf0, headers0, rows0, fin, batch, headers);
    PathIsChain(bs, last, fin);
    AncHeight(bs, last, fin);
    assert path[1..][|path| - 2] == fin;
    assert fin in Steps(path) && fin !in unf;
    forall x | x in Tree(bs, fin) ensures !Ready(bs, last, x, unf) {
      AncTransitive(bs, last, fin, x);
      StepsHold(bs, last, fin, x);
      assert !Storable(unf, fin);
    }
  }

  lemma {:induction false} StepsHold(bs: Blocks, last: Hash, fin: Hash, x: Hash)
    requires WellFormed(bs) && fin in bs && last != fin && AncOrEq(bs, last, fin) && AncOrEq(bs, fin, x)
    requires AncOrEq(bs, last, x)
    ensures fin in Steps(PathTo(bs, last, x))
  {
    var path := PathTo(bs, last, x);
    AncHeight(bs, last, fin);
    if fin != x { AncHeight(bs, fin, x); }
    PathIsChain(bs, last, x);
    PathMembers(bs, last, x, fin);
    var i :| 0 <= i < |path| && path[i] == fin;
    assert path[1..][i - 1] == fin;
  }

  /** Forgetting blocks of other forks is harmless. */
  lemma {:induction false} DropConsistent(bs: Blocks, genesis: Hash, fin: Hash, unfinalised: Headers,
      headers: Headers, rows: Rows, dropped: set<Hash>)
    requires Consistent(bs, genesis, fin, unfinalised, headers, rows)
    requires forall x :: x in dropped ==> Unrelated(bs, x, fin)
    ensures Consistent(bs, genesis, fin, unfinalised - dropped, headers, rows)
  {
  }

  // ---------------------------------------------------------------- what a finalisation does, as values

  /** The highest round and set are the last ones, and record the last finalised block. */
  predicate OnTop(highest: (nat, nat), round: nat, setID: nat, finalisedAt: map<(nat, nat), Hash>, last: Hash) {
    highest == (round, setID) && highest in finalisedAt && finalisedAt[highest] == last
  }

  /** The headers stored by a call, and the record of the round once its path is stored. */
  ghost predicate Stamped(bs: Blocks, kids: Kids, last: Hash, unf0: Headers, headers0: Headers, headers: Headers,
      at0: map<(nat, nat), Hash>, at: map<(nat, nat), Hash>, hash: Hash, round: nat, setID: nat)
    requires WellFormed(bs)
  {
    && headers == headers0 + Picked(unf0, Storing(bs, kids, last, unf0, hash))
    && at == if Reachable(bs, kids, last, unf0, hash) then at0[(round, setID) := hash] else at0
  }

  /** Why a path cannot be stored: its end is not in the tree, or the slot of its first block cannot be read. */
  function Refusal(kids: Kids, hash: Hash): Result<(), StateError> {
    if hash in kids then Err(BadSlot) else Err(FromTree(EndNodeNotFound))
  }

  /** Once the path is stored, the round is refused for a set ID below the highest. */
  function Recorded(moved: Result<(), StateError>, top: (nat, nat), setID: nat): Result<(), StateError> {
    if moved.Ok? && setID < top.1 then Err(SetIDLower) else moved
  }

  /** The block is in the tree and the path to it can be stored. */
  ghost predicate Reachable(bs: Blocks, kids: Kids, last: Hash, unfinalised: Headers, hash: Hash)
    requires WellFormed(bs)
  {
    hash in kids && Ready(bs, last, hash, unfinalised)
  }

  /** A call that can only do harm: the blocks up to `hash` are stored, and then the set ID is refused. */
  ghost predicate Strands(bs: Blocks, kids: Kids, last: Hash, unfinalised: Headers, top: nat, hash: Hash, setID: nat)
    requires WellFormed(bs)
  {
    hash != last && Reachable(bs, kids, last, unfinalised, hash) && setID < top
  }

  /** The blocks that are stored on the way to a block, if it can be reached. */
  ghost function Stepping(bs: Blocks, kids: Kids, last: Hash, unfinalised: Headers, hash: Hash): set<Hash>
    requires WellFormed(bs)
  {
    if Reachable(bs, kids, last, unfinalised, hash) then Steps(PathTo(bs, last, hash)) else {}
  }

  /** The blocks whose headers a call stores: the whole path, or just a first block whose slot cannot be read. */
  ghost function Storing(bs: Blocks, kids: Kids, last: Hash, unfinalised: Headers, hash: Hash): set<Hash>
    requires WellFormed(bs)
  {
    if hash !in kids then {}
    else if Ready(bs, last, hash, unfinalised) then Steps(PathTo(bs, last, hash))
    else set h | h in Steps(PathTo(bs, last, hash)) && h in bs && bs[h].number == 1
  }

  /**
   The path to `hash` has been written, if it can be: then the state is consistent for `hash`, and for the
   old end only if that is the same; rows only grow and the path has left the memory.
   */
  ghost predicate Written(bs: Blocks, genesis: Hash, kids: Kids, last: Hash, unf0: Headers, unf: Headers,
      headers: Headers, rows0: Rows, rows: Rows, hash: Hash, moved: Result<(), StateError>)
    requires WellFormed(bs)
  {
    match moved
    case Ok(_) =>
      && Reachable(bs, kids, last, unf0, hash)
      && unf == unf0 - Stepping(bs, kids, last, unf0, hash)
      && (forall n :: n in rows0 ==> n in rows && rows[n] == rows0[n])
      && Consistent(bs, genesis, hash, unf, headers, rows)
      && (Consistent(bs, genesis, last, unf, headers, rows) <==> hash == last)
      && (hash != last ==> Stranded(bs, last, hash, unf))
    case Err(e) =>
      && !Reachable(bs, kids, last, unf0, hash)
      && rows == rows0 && unf == unf0 - Stepping(bs, kids, last, unf0, hash)
      && Consistent(bs, genesis, last, unf, headers, rows)
      && moved == Refusal(kids, hash)
  }

  /** The blocks that a call takes out of memory: the path that is stored, and then what pruning reports. */
  ghost function Leaving(bs: Blocks, kids: Kids, last: Hash, unfinalised: Headers, top: nat, hash: Hash,
      setID: nat): set<Hash>
    requires WellFormed(bs) && last in bs
  {
    var stored := Stepping(bs, kids, last, unfinalised, hash);
    if setID < top || !Reachable(bs, kids, last, unfinalised, hash) then stored
    else stored + Among(Reported(bs, kids, last, hash))
  }

  /** What a call does to the last finalised block, the memory, the highest round and the rows. */
  ghost predicate Outcome(bs: Blocks, kids: Kids, last: Hash, unf0: Headers, top: (nat, nat), rows0: Rows, hash: Hash,
                          round: nat, setID: nat, r: Result<(), StateError>,
                          last': Hash, unf: Headers, top': (nat, nat), rows: Rows)
    requires WellFormed(bs) && last in bs
  {
    && (r.Ok? <==> Reachable(bs, kids, last, unf0, hash) && setID >= top.1)
    && (r == Err(SetIDLower) <==> Reachable(bs, kids, last, unf0, hash) && setID < top.1)
    && (if r.Ok? then last' == hash && top' == (round, setID) else last' == last && top' == top)
    && (Strands(bs, kids, last, unf0, top.1, hash, setID) ==> Stranded(bs, last, hash, unf))
    && (forall n :: n in rows0 ==> n in rows && rows[n] == rows0[n])
    && (!Reachable(bs, kids, last, unf0, hash) ==> rows == rows0)
    && unf == unf0 - Leaving(bs, kids, last, unf0, top.1, hash, setID)
  }

  lemma {:induction false} OutcomeFrom(bs: Blocks, genesis: Hash, kids: Kids, last: Hash, unf0: Headers, unf1: Headers,
                                       headers: Headers, top: (nat, nat), rows0: Rows, rows: Rows, hash: Hash,
                                       round: nat, setID: nat, moved: Result<(), StateError>)
    requires WellFormed(bs) && last in bs
    requires Written(bs, genesis, kids, last, unf0, unf1, headers, rows0, rows, hash, moved)
    ensures var r := Recorded(moved, top, setID);
      var unf := if r.Ok? then unf1 - Among(Reported(bs, kids, last, hash)) else unf1;
      && Outcome(bs, kids, last, unf0, top, rows0, hash, round, setID, r,
                 if r.Ok? then hash else last, unf, if r.Ok? then (round, setID) else top, rows)
      && (r.Ok? ==> Consistent(bs, genesis, hash, unf1, headers, rows))
      && (!Reachable(bs, kids, last, unf0, hash) ==> r == Refusal(kids, hash))
  {
    LeavesTwice(unf0, unf1, Stepping(bs, kids, last, unf0, hash), Among(Reported(bs, kids, last, hash)));
  }

  lemma {:induction false} NothingLeaves(bs: Blocks, kids: Kids, last: Hash, unf: Headers, headers: Headers, top: nat,
      hash: Hash, setID: nat)
    requires WellFormed(bs) && last in bs && hash !in kids
    ensures unf == unf - Leaving(bs, kids, last, unf, top, hash, setID)
    ensures headers == headers + Picked(unf, Storing(bs, kids, last, unf, hash))
  {
  }

  lemma {:induction false} LeavesTwice(m: Headers, m1: Headers, a: set<Hash>, b: set<Hash>)
    requires m1 == m - a
    ensures m1 - b == m - (a + b)
  {
  }

  // ---------------------------------------------------------------- the block state

  class BlockState {
    const bt: BlockTree
    const genesisHash: Hash
    var unfinalised: Headers
    var headers: Headers
    var rows: Rows
    var finalisedAt: map<(nat, nat), Hash>
    var highest: (nat, nat)
    var lastFinalised: Hash
    var lastRound: nat
    var lastSetID: nat

    ghost predicate Valid()
      reads this, bt, bt.g.nodes
    {
      && bt.Valid() && bt.root.hash == lastFinalised
      && Consistent(bt.g.bs, genesisHash, lastFinalised, unfinalised, headers, rows)
      && OnTop(highest, lastRound, lastSetID, finalisedAt, lastFinalised)
    }

    constructor (genesis: Hash, header: Header, now: int)
      ensures Valid() && fresh(bt) && fresh(bt.g.nodes) && genesisHash == lastFinalised == genesis && highest == (0, 0)
      ensures bt.g.bs == map[genesis := Block(None, header.number, now, false)] && unfinalised == map[]
    {
      genesisHash, lastFinalised, lastRound, lastSetID := genesis, genesis, 0, 0;
      unfinalised, headers, rows := map[], map[genesis := header], map[header.number := genesis];
      finalisedAt, highest := map[(0, 0) := genesis], (0, 0);
      bt := new BlockTree(genesis, header.number, now);
      new;
      assert RowAt(bt.g.bs, genesisHash, rows, headers, header.number);
    }

    predicate HasHeader(h: Hash)
      reads this
    {
      h in unfinalised || h in headers
    }

    function GetHeader(h: Hash): (r: Option<Header>)
      reads this
      ensures r.Some? <==> HasHeader(h)
    {
      if h in unfinalised then Some(unfinalised[h]) else if h in headers then Some(headers[h]) else None
    }

    /** Adds a block to the tree and keeps it among the unfinalised ones. */
    method AddBlock(h: Hash, header: Header, hasBody: bool, arrival: int) returns (r: Result<(), StateError>)
      requires Valid()
      requires h in bt.g.bs ==>
        bt.g.bs[h].parent == Some(header.parent) || (bt.g.bs[h].parent.None? && header.parent !in bt.g.bs)
      modifies this`unfinalised, bt`leaves, bt`g, bt.g.nodes`children, bt.g.nodes`slots
      ensures Valid() && fresh(bt.g.nodes - old(bt.g.nodes))
      ensures r == if !hasBody then Err(NilBody) else
        match AddResult(old(bt.g.bs), lastFinalised, h, header.parent, header.number, header.primary)
        case Ok(_) => Ok(())
        case Err(e) => Err(FromTree(e))
      ensures r.Err? ==> bt.g.bs == old(bt.g.bs) && unfinalised == old(unfinalised)
      ensures r.Ok? ==> h !in old(bt.g.bs) && unfinalised == old(unfinalised)[h := header]
      ensures r.Ok? ==>
        bt.g.bs == old(bt.g.bs)[h := Block(Some(header.parent), header.number, arrival, header.primary.value)]
    {
      if !hasBody { return Err(NilBody); }
      ghost var bs0 := bt.g.bs;
      var added := bt.AddBlock(h, header.parent, header.number, arrival, header.primary);
      if added.Err? {
        return Err(FromTree(added.error));
      }
      unfinalised := unfinalised[h := header];
      ghost var b := Block(Some(header.parent), header.number, arrival, header.primary.value);
      AddConsistent(bs0, genesisHash, lastFinalised, old(unfinalised), headers, rows, h, header, b);
      return Ok(());
    }

    /** Everything but the promise that the tree's blocks are in memory and the rows end at the root. */
    ghost predicate Tracks()
      reads this, bt, bt.g.nodes
    {
      bt.Valid() && bt.root.hash == lastFinalised && Faithful(bt.g.bs, genesisHash, unfinalised, headers)
    }

    /** Moves the blocks of the path, its first aside, from memory to the store. */
    method StoreSteps(path: seq<Hash>, ghost bs: Blocks) returns (r: Result<Rows, StateError>)
      requires Numbered(bs, path) && Describes(bs, unfinalised) && Describes(bs, headers)
      requires forall i :: 0 < i < |path| ==> path[i] != genesisHash
      modifies this`unfinalised, this`headers
      ensures r.Ok? <==> AllStorable(old(unfinalised), Steps(path))
      ensures r.Ok? ==> Stored(bs, path, |path|, old(unfinalised), old(headers), unfinalised, headers, r.value)
      ensures Describes(bs, unfinalised)
      ensures r.Err? ==>
        Describes(bs, headers) && old(headers.Keys) <= headers.Keys && unfinalised.Keys <= old(unfinalised.Keys)
      ensures r == Err(BadSlot) ==> unfinalised == old(unfinalised)
      ensures r == Err(BadSlot) ==> |path| > 1 && FirstStored(path[1], old(unfinalised), old(headers), headers)
      ensures r.Err? ==>
        r == Err(BadSlot) || (r == Err(MissingBlock) && exists h :: h in Steps(path) && h !in old(unfinalised))
    {
      var batch: Rows := map[];
      var i := 1;
      StoredStart(bs, path, unfinalised, headers);
      while i < |path|
        invariant 1 <= i <= |path| && Stored(bs, path, i, old(unfinalised), old(headers), unfinalised, headers, batch)
      {
        var h := path[i];
        if Storable(unfinalised, h) {
          StoredNext(bs, path, i, old(unfinalised), old(headers), unfinalised, headers, batch);
        } else {
          StoredFails(bs, path, i, old(unfinalised), old(headers), unfinalised, headers, batch);
        }
        if h != genesisHash {
          var number := StoreBlock(h);
          if number.Err? { return Err(number.error); }
          batch := batch[number.value := h];
        }
        i := i + 1;
      }
      assert path[..i] == path;
      return Ok(batch);
    }

    /** Moves one block from memory to the store; its header is written before its slot is read. */
    method StoreBlock(h: Hash) returns (r: Result<nat, StateError>)
      modifies this`unfinalised, this`headers
      ensures r.Ok? <==> Storable(old(unfinalised), h)
      ensures r.Ok? ==> r.value == old(unfinalised)[h].number && unfinalised == old(unfinalised) - {h}
      ensures headers == if h in old(unfinalised) then old(headers)[h := old(unfinalised)[h]] else old(headers)
      ensures r.Err? ==> unfinalised == old(unfinalised)
      ensures r.Err? ==> r.error == if h !in old(unfinalised) then MissingBlock else BadSlot
      ensures r == Err(BadSlot) ==> old(unfinalised)[h].number == 1
    {
      if h !in unfinalised { return Err(MissingBlock); }
      var block := unfinalised[h];
      headers := headers[h := block];
      if block.number == 1 {
        if block.slot.None? { return Err(BadSlot); }
      }
      unfinalised := unfinalised - {h};
      return Ok(block.number);
    }

    /** Stores the path from the last finalised block; one missing from memory stops it before any row is written. */
    method HandleFinalisedBlock(hash: Hash) returns (r: Result<(), StateError>)
      requires Tracks()
      modifies this`unfinalised, this`headers, this`rows
      ensures Tracks()
      ensures r.Ok? <==>
        hash == lastFinalised || (hash in bt.g.kids && Ready(bt.g.bs, lastFinalised, hash, old(unfinalised)))
      ensures hash == lastFinalised || hash !in bt.g.kids ==>
        rows == old(rows) && headers == old(headers) && unfinalised == old(unfinalised)
      ensures hash != lastFinalised && hash !in bt.g.kids ==> r == Err(FromTree(EndNodeNotFound))
      ensures hash != lastFinalised && hash in bt.g.kids ==>
        PathOutcome(bt.g.bs, lastFinalised, hash, old(unfinalised), old(headers), old(rows),
                    r, unfinalised, headers, rows)
    {
      if hash == lastFinalised { return Ok(()); }
      var subchain := Subchain(hash);
      if subchain.Err? { return Err(subchain.error); }
      r := StorePath(subchain.value, bt.g.bs, hash);
    }

    method StorePath(path: seq<Hash>, ghost bs: Blocks, ghost hash: Hash) returns (r: Result<(), StateError>)
      requires WellFormed(bs) && lastFinalised in bs && hash in bs && lastFinalised != hash
      requires AncOrEq(bs, lastFinalised, hash)
      requires path == PathTo(bs, lastFinalised, hash) && Numbered(bs, path) && path[0] == lastFinalised
      requires forall i :: 0 < i < |path| ==> path[i] != genesisHash
      requires Describes(bs, unfinalised) && Describes(bs, headers)
      modifies this`unfinalised, this`headers, this`rows
      ensures Describes(bs, unfinalised) && Describes(bs, headers)
      ensures r.Ok? <==> Ready(bs, lastFinalised, hash, old(unfinalised))
      ensures PathOutcome(bs, lastFinalised, hash, old(unfinalised), old(headers), old(rows),
                          r, unfinalised, headers, rows)
    {
      var stored := StoreSteps(path, bs);
      if stored.Err? { return Err(stored.error); }
      StoredMoved(bs, lastFinalised, hash, old(unfinalised), old(headers), rows, unfinalised, headers, stored.value);
      rows := rows + stored.value;
      return Ok(());
    }

    /** The path from the last finalised block, for every block of the tree. */
    method Subchain(hash: Hash) returns (r: Result<seq<Hash>, StateError>)
      requires Tracks() && hash != lastFinalised
      ensures r.Ok? <==> hash in bt.g.kids
      ensures r.Ok? ==>
        r.value == PathTo(bt.g.bs, lastFinalised, hash) && Numbered(bt.g.bs, r.value) && r.value[0] == lastFinalised
      ensures r.Ok? ==> forall i :: 0 < i < |r.value| ==> r.value[i] != genesisHash
      ensures r.Err? ==> r == Err(FromTree(EndNodeNotFound))
    {
      var subchain := TreeQueries.RangeInMemory(bt, lastFinalised, hash);
      InTreeAbove(hash);
      if subchain.Err? { return Err(FromTree(subchain.error)); }
      TreeQueries.CollectedIsPathIff(bt.g.bs, lastFinalised, hash, subchain.value);
      PathIsChain(bt.g.bs, lastFinalised, hash);
      NoGenesisAbove(hash);
      return Ok(subchain.value);
    }

    /**
     Finalises a block. It succeeds exactly for blocks of the tree whose path is ready and whose set ID is
     not below the highest. Every other call but a stranding one keeps the state consistent; after a
     stranding call no block at or below the refused one can be finalised any more.
     */
    method SetFinalisedHash(hash: Hash, round: nat, setID: nat) returns (r: Result<(), StateError>)
      requires Valid()
      modifies this, bt, bt.g.nodes`children, bt.g.nodes`slots, bt.g.nodes`parent
      ensures Tracks() && bt.g.bs == old(bt.g.bs) && bt.g.nodes == old(bt.g.nodes)
      ensures r.Ok? <==>
        hash in old(bt.g.kids) && old(Ready(bt.g.bs, lastFinalised, hash, unfinalised)) && setID >= old(highest).1
      ensures Valid() <==>
        !Strands(bt.g.bs, old(bt.g.kids), old(lastFinalised), old(unfinalised), old(highest.1), hash, setID)
      ensures Strands(bt.g.bs, old(bt.g.kids), old(lastFinalised), old(unfinalised), old(highest.1), hash, setID) ==>
        Stranded(bt.g.bs, lastFinalised, hash, unfinalised)
      ensures r.Ok? ==> lastFinalised == hash && AncOrEq(bt.g.bs, old(lastFinalised), hash) && highest == (round, setID)
      ensures r.Err? ==> lastFinalised == old(lastFinalised) && highest == old(highest)
      ensures forall n :: n in old(rows) ==> n in rows && rows[n] == old(rows)[n]
      ensures r == Err(SetIDLower) <==>
        old(Reachable(bt.g.bs, bt.g.kids, lastFinalised, unfinalised, hash)) && setID < old(highest.1)
      ensures unfinalised == old(unfinalised) -
        Leaving(bt.g.bs, old(bt.g.kids), old(lastFinalised), old(unfinalised), old(highest.1), hash, setID)
      ensures !old(Reachable(bt.g.bs, bt.g.kids, lastFinalised, unfinalised, hash)) ==>
        rows == old(rows) && r == if old(HasHeader(hash)) then Refusal(old(bt.g.kids), hash) else Err(UnknownBlock)
      ensures Stamped(bt.g.bs, old(bt.g.kids), old(lastFinalised), old(unfinalised), old(headers), headers,
                      old(finalisedAt), finalisedAt, hash, round, setID)
      ensures (lastRound, lastSetID) == if r.Ok? then (round, setID) else old((lastRound, lastSetID))
      ensures bt.runtimes == if r.Ok? then
          RuntimesAfter(bt.g.bs, old(lastFinalised), old(bt.g.kids.Keys), old(bt.runtimes), hash) else old(bt.runtimes)
      ensures r.Ok? && hash != old(lastFinalised) ==>
        (KeepsLookups(bt.g.bs, old(lastFinalised), hash, old(bt.runtimes)) <==>
          LookupsKept(bt.g.bs, old(lastFinalised), hash, old(bt.runtimes), bt.runtimes))
    {
      TreeHasHeader(hash);
      if !HasHeader(hash) {
        NothingLeaves(bt.g.bs, bt.g.kids, lastFinalised, unfinalised, headers, highest.1, hash, setID);
        return Err(UnknownBlock);
      }
      ghost var last, m := lastFinalised, bt.runtimes;
      r := Commit(hash, round, setID);
      if r.Ok? && hash != last { FinalisationKeepsLookupsIff(bt.g.bs, last, hash, m); }
    }

    /** A refused call leaves the state consistent exactly if nothing has been moved. */
    lemma {:induction false} RefusedValid(hash: Hash, unf0: Headers, rows0: Rows, moved: Result<(), StateError>)
      requires bt.Valid() && bt.root.hash == lastFinalised
      requires OnTop(highest, lastRound, lastSetID, finalisedAt, lastFinalised)
      requires Written(bt.g.bs, genesisHash, bt.g.kids, lastFinalised, unf0, unfinalised, headers, rows0, rows,
                       hash, moved)
      ensures Valid() <==> !Reachable(bt.g.bs, bt.g.kids, lastFinalised, unf0, hash) || hash == lastFinalised
    {
    }

    /** The rest of the call, for a block with a header. */
    method Commit(hash: Hash, round: nat, setID: nat) returns (r: Result<(), StateError>)
      requires Valid()
      modifies this, bt, bt.g.nodes`children, bt.g.nodes`slots, bt.g.nodes`parent
      ensures (r.Err? ==> Tracks()) && bt.g.bs == old(bt.g.bs) && bt.g.nodes == old(bt.g.nodes)
      ensures r.Ok? ==> Valid()
      ensures r.Err? ==> (Valid() <==>
        !Strands(bt.g.bs, old(bt.g.kids), old(lastFinalised), old(unfinalised), old(highest.1), hash, setID))
      ensures Outcome(bt.g.bs, old(bt.g.kids), old(lastFinalised), old(unfinalised), old(highest), old(rows),
                      hash, round, setID, r, lastFinalised, unfinalised, highest, rows)
      ensures bt.runtimes == if r.Ok? then
          RuntimesAfter(bt.g.bs, old(lastFinalised), old(bt.g.kids.Keys), old(bt.runtimes), hash) else old(bt.runtimes)
      ensures (lastRound, lastSetID) == if r.Ok? then (round, setID) else old((lastRound, lastSetID))
      ensures !old(Reachable(bt.g.bs, bt.g.kids, lastFinalised, unfinalised, hash)) ==>
        r == Refusal(old(bt.g.kids), hash)
      ensures Stamped(bt.g.bs, old(bt.g.kids), old(lastFinalised), old(unfinalised), old(headers), headers,
                      old(finalisedAt), finalisedAt, hash, round, setID)
    {
      r := Write(hash, round, setID, bt.g.bs, bt.g.kids);
      if r.Ok? { Advance(hash, round, setID, bt.g.bs, bt.g.kids); }
    }

    /** The writes before the tree is re-rooted, and what they decide. */
    method Write(hash: Hash, round: nat, setID: nat, ghost bs: Blocks, ghost kids: Kids)
      returns (r: Result<(), StateError>)
      requires Valid() && bs == bt.g.bs && kids == bt.g.kids
      modifies this`unfinalised, this`headers, this`rows, this`finalisedAt, this`highest
      ensures Tracks()
      ensures r.Ok? ==> hash in kids && OnTop(highest, round, setID, finalisedAt, hash)
      ensures r.Ok? ==> Consistent(bs, genesisHash, hash, unfinalised, headers, rows)
      ensures r.Err? ==>
        (Valid() <==> !Strands(bs, kids, lastFinalised, old(unfinalised), old(highest.1), hash, setID))
      ensures Outcome(bs, kids, lastFinalised, old(unfinalised), old(highest), old(rows), hash, round, setID, r,
                      if r.Ok? then hash else lastFinalised,
                      if r.Ok? then unfinalised - Among(Reported(bs, kids, lastFinalised, hash)) else unfinalised,
                      highest, rows)
      ensures !Reachable(bs, kids, lastFinalised, old(unfinalised), hash) ==> r == Refusal(kids, hash)
      ensures Stamped(bs, kids, lastFinalised, old(unfinalised), old(headers), headers,
                      old(finalisedAt), finalisedAt, hash, round, setID)
    {
      ghost var unf0, rows0, top := unfinalised, rows, highest;
      r := MovePath(hash, bs, kids);
      OutcomeFrom(bs, genesisHash, kids, lastFinalised, unf0, unfinalised, headers, top, rows0, rows,
                  hash, round, setID, r);
      ghost var moved := r;
      if r.Ok? { r := RecordRound(hash, round, setID); }
      if r.Err? { RefusedValid(hash, unf0, rows0, moved); }
    }

    lemma {:induction false} TreeHasHeader(hash: Hash)
      requires Valid()
      ensures hash in bt.g.kids ==> HasHeader(hash)
    {
      Known(hash);
    }

    /** The finalised hash of the round is written before the set ID is compared with the highest. */
    method RecordRound(hash: Hash, round: nat, setID: nat) returns (r: Result<(), StateError>)
      requires Tracks()
      modifies this`finalisedAt, this`highest
      ensures Tracks()
      ensures finalisedAt == old(finalisedAt)[(round, setID) := hash]
      ensures r == if setID < old(highest).1 then Err(SetIDLower) else Ok(())
      ensures highest == if r.Ok? then (round, setID) else old(highest)
    {
      finalisedAt := finalisedAt[(round, setID) := hash];
      if setID < highest.1 { return Err(SetIDLower); }
      highest := (round, setID);
      return Ok(());
    }

    method MovePath(hash: Hash, ghost bs: Blocks, ghost kids: Kids) returns (r: Result<(), StateError>)
      requires Valid() && bs == bt.g.bs && kids == bt.g.kids
      modifies this`unfinalised, this`headers, this`rows
      ensures Tracks() && bs == bt.g.bs && kids == bt.g.kids
      ensures headers ==
        old(headers) + Picked(old(unfinalised), Storing(bs, kids, lastFinalised, old(unfinalised), hash))
      ensures Written(bs, genesisHash, kids, lastFinalised, old(unfinalised), unfinalised, headers, old(rows), rows,
                      hash, r)
    {
      Known(hash);
      ghost var unf0, headers0, rows0 := unfinalised, headers, rows;
      r := HandleFinalisedBlock(hash);
      WrittenFrom(bt.g.bs, genesisHash, bt.g.kids, lastFinalised, unf0, headers0, rows0, hash,
                  r, unfinalised, headers, rows);
    }

    /** Blocks of the tree have a header, and their path can be found in memory. */
    lemma {:induction false} Known(hash: Hash)
      requires Valid()
      ensures hash in bt.g.kids ==> HasHeader(hash) && forall h ::
        h in Steps(PathTo(bt.g.bs, lastFinalised, hash)) ==> h in unfinalised
      ensures Ready(bt.g.bs, lastFinalised, lastFinalised, unfinalised)
    {
      assert RowAt(bt.g.bs, genesisHash, rows, headers, bt.g.bs[lastFinalised].number);
      if hash in bt.g.kids {
        var path := PathTo(bt.g.bs, lastFinalised, hash);
        PathIsChain(bt.g.bs, lastFinalised, hash);
        forall h | h in Steps(path) ensures h in unfinalised {
          PathMembers(bt.g.bs, lastFinalised, hash, h);
          var i :| 0 <= i < |path[1..]| && path[1..][i] == h;
          assert h == path[i + 1];
        }
      }
    }

    /** Re-roots the tree and forgets the blocks reported as pruned. */
    method Advance(hash: Hash, round: nat, setID: nat, ghost bs: Blocks, ghost kids: Kids)
      requires bt.Valid() && bt.root.hash == lastFinalised && hash in kids && bs == bt.g.bs && kids == bt.g.kids
      requires Consistent(bs, genesisHash, hash, unfinalised, headers, rows)
      requires OnTop(highest, round, setID, finalisedAt, hash)
      modifies this`unfinalised, this`lastFinalised, this`lastRound, this`lastSetID
      modifies bt, bt.g.nodes`children, bt.g.nodes`slots, bt.g.nodes`parent
      ensures Valid()
      ensures lastFinalised == hash && bs == bt.g.bs && bt.g.nodes == old(bt.g.nodes)
      ensures unfinalised == old(unfinalised) - Among(Reported(bs, kids, old(lastFinalised), hash))
      ensures bt.runtimes == RuntimesAfter(bs, old(lastFinalised), kids.Keys, old(bt.runtimes), hash)
      ensures lastRound == round && lastSetID == setID
      ensures headers == old(headers) && rows == old(rows) && finalisedAt == old(finalisedAt) && highest == old(highest)
    {
      var pruned := Reroot(hash, bs, kids);
      Settle(hash, round, setID, pruned, bs);
    }

    method Reroot(hash: Hash, ghost bs: Blocks, ghost kids: Kids) returns (pruned: seq<Hash>)
      requires bt.Valid() && hash in kids && bs == bt.g.bs && kids == bt.g.kids
      modifies bt, bt.g.nodes`children, bt.g.nodes`slots, bt.g.nodes`parent
      ensures bt.Valid() && bt.root.hash == hash && bs == bt.g.bs && bt.g.nodes == old(bt.g.nodes)
      ensures pruned == Reported(bs, kids, old(bt.root.hash), hash)
      ensures forall x :: x in pruned ==> Unrelated(bs, x, hash)
      ensures bt.runtimes == RuntimesAfter(bs, old(bt.root.hash), kids.Keys, old(bt.runtimes), hash)
      ensures headers == old(headers) && rows == old(rows) && finalisedAt == old(finalisedAt) && highest == old(highest)
      ensures unfinalised == old(unfinalised)
    {
      pruned := bt.Prune(hash);
    }

    method Settle(hash: Hash, round: nat, setID: nat, pruned: seq<Hash>, ghost bs: Blocks)
      requires bt.Valid() && bt.root.hash == hash && bs == bt.g.bs
      requires Consistent(bs, genesisHash, hash, unfinalised, headers, rows)
      requires OnTop(highest, round, setID, finalisedAt, hash) && forall x :: x in pruned ==> Unrelated(bs, x, hash)
      modifies this`unfinalised, this`lastFinalised, this`lastRound, this`lastSetID
      ensures Valid() && lastFinalised == hash && unfinalised == old(unfinalised) - Among(pruned)
      ensures lastRound == round && lastSetID == setID
    {
      DropConsistent(bs, genesisHash, hash, unfinalised, headers, rows, Among(pruned));
      DropPruned(pruned);
      SetLast(hash, round, setID);
    }

    method SetLast(hash: Hash, round: nat, setID: nat)
      modifies this`lastFinalised, this`lastRound, this`lastSetID
      ensures lastFinalised == hash && lastRound == round && lastSetID == setID
    {
      lastFinalised, lastRound, lastSetID := hash, round, setID;
    }

    method DropPruned(pruned: seq<Hash>)
      modifies this`unfinalised
      ensures unfinalised == old(unfinalised) - Among(pruned)
    {
      var i := 0;
      while i < |pruned|
        invariant 0 <= i <= |pruned| && unfinalised == old(unfinalised) - Among(pruned[..i])
      {
        assert pruned[..i + 1] == pruned[..i] + [pruned[i]];
        unfinalised := unfinalised - {pruned[i]};
        i := i + 1;
      }
      assert pruned[..i] == pruned;
    }

    lemma {:induction false} InTreeAbove(hash: Hash)
      requires Tracks()
      ensures hash in bt.g.kids ==> bt.g.bs[lastFinalised].number <= bt.g.bs[hash].number
    {
      if hash in bt.g.kids && hash != lastFinalised { AncHeight(bt.g.bs, lastFinalised, hash); }
    }

    lemma {:induction false} NoGenesisAbove(hash: Hash)
      requires Tracks() && hash in bt.g.kids
      ensures var path := PathTo(bt.g.bs, lastFinalised, hash); forall i :: 0 < i < |path| ==> path[i] != genesisHash
    {
      var bs, path := bt.g.bs, PathTo(bt.g.bs, lastFinalised, hash);
      PathIsChain(bs, lastFinalised, hash);
      forall i | 0 < i < |path| ensures path[i] != genesisHash {
        assert bs[path[i]].parent == Some(path[i - 1]);
      }
    }
  }

  /** The path to `fin` has been moved from memory to the store, with its rows. */
  ghost predicate Moved(bs: Blocks, last: Hash, fin: Hash, unf0: Headers, headers0: Headers, rows0: Rows,
      unf: Headers, headers: Headers, rows: Rows)
    requires WellFormed(bs) && last in bs && fin in bs && last != fin && AncOrEq(bs, last, fin)
  {
    var path := PathTo(bs, last, fin);
    && unf == unf0 - Steps(path) && headers.Keys == headers0.Keys + Steps(path)
    && headers == headers0 + Picked(unf0, Steps(path))
    && exists batch {:trigger BatchOf(path, bs[last].number, |path| - 1, batch)} ::
         BatchOf(path, bs[last].number, |path| - 1, batch) && rows == rows0 + batch
  }

  lemma {:induction false} StoredMoved(bs: Blocks, last: Hash, fin: Hash, unf0: Headers, headers0: Headers,
      rows0: Rows, unf: Headers, headers: Headers, batch: Rows)
    requires WellFormed(bs) && last in bs && fin in bs && last != fin && AncOrEq(bs, last, fin)
    requires var path := PathTo(bs, last, fin);
      path[0] == last && Numbered(bs, path) && Stored(bs, path, |path|, unf0, headers0, unf, headers, batch)
    ensures Moved(bs, last, fin, unf0, headers0, rows0, unf, headers, rows0 + batch)
  {
    var path := PathTo(bs, last, fin);
    assert path[..|path|] == path;
    PickedKeys(headers0, unf0, Steps(path));
  }

  lemma {:induction false} PickedKeys(headers: Headers, unf: Headers, chosen: set<Hash>)
    requires AllStorable(unf, chosen)
    ensures (headers + Picked(unf, chosen)).Keys == headers.Keys + chosen
  {
    forall h | h in chosen ensures h in Picked(unf, chosen) { assert Storable(unf, h); }
  }

  /** Blocks numbered upwards one by one. */
  ghost predicate Numbered(bs: Blocks, path: seq<Hash>) {
    path != [] && forall i ::
      0 <= i < |path| ==> path[i] in bs && path[0] in bs && bs[path[i]].number == bs[path[0]].number + i
  }

  /** Only the header of one block has been stored, a block numbered 1. */
  ghost predicate FirstStored(h: Hash, unf0: Headers, headers0: Headers, headers: Headers) {
    h in unf0 && unf0[h].number == 1 && headers == headers0[h := unf0[h]]
  }

  /** The path is stored; or only its first header, for want of a slot; or something is missing from memory. */
  ghost predicate PathOutcome(bs: Blocks, last: Hash, fin: Hash, unf0: Headers, headers0: Headers, rows0: Rows,
      r: Result<(), StateError>, unf: Headers, headers: Headers, rows: Rows)
    requires WellFormed(bs) && last in bs && fin in bs && last != fin && AncOrEq(bs, last, fin)
  {
    var path := PathTo(bs, last, fin);
    match r
    case Ok(_) => Moved(bs, last, fin, unf0, headers0, rows0, unf, headers, rows)
    case Err(BadSlot) =>
      rows == rows0 && unf == unf0 && |path| > 1 && FirstStored(path[1], unf0, headers0, headers)
    case Err(e) =>
      && e == MissingBlock && rows == rows0 && headers0.Keys <= headers.Keys
      && exists h :: h in Steps(path) && h !in unf0
  }

  /** What a call has stored, from the two ways it can go. */
  lemma {:induction false} StoredHeaders(bs: Blocks, kids: Kids, last: Hash, hash: Hash, unf0: Headers,
      headers0: Headers, headers: Headers)
    requires WellFormed(bs) && last in bs && Describes(bs, unf0)
    requires (hash in kids ==> hash in bs && AncOrEq(bs, last, hash))
    requires if hash !in kids || hash == last then headers == headers0
      else if Ready(bs, last, hash, unf0) then headers == headers0 + Picked(unf0, Steps(PathTo(bs, last, hash)))
      else |PathTo(bs, last, hash)| > 1 && FirstStored(PathTo(bs, last, hash)[1], unf0, headers0, headers)
    ensures headers == headers0 + Picked(unf0, Storing(bs, kids, last, unf0, hash))
  {
    if hash in kids && hash != last && !Ready(bs, last, hash, unf0) {
      FirstOfPath(bs, last, hash);
      PickedNext(headers0, unf0, {}, PathTo(bs, last, hash)[1]);
      assert headers0 + Picked(unf0, {}) == headers0;
    }
  }

  /** Numbers go up along a path, so only its first step can have number 1. */
  lemma {:induction false} FirstOfPath(bs: Blocks, last: Hash, hash: Hash)
    requires WellFormed(bs) && last in bs && hash in bs && AncOrEq(bs, last, hash) && |PathTo(bs, last, hash)| > 1
    ensures var path := PathTo(bs, last, hash);
      && path[1] in bs
      && (bs[path[1]].number == 1 ==> (set h | h in Steps(path) && h in bs && bs[h].number == 1) == {path[1]})
  {
    var path := PathTo(bs, last, hash);
    PathIsChain(bs, last, hash);
    assert path[1..][0] == path[1];
    forall h | h in Steps(path) && bs[h].number == 1 ensures h == path[1] {
      var i :| 0 <= i < |path[1..]| && path[1..][i] == h;
      assert h == path[i + 1];
    }
  }

  /** What an attempt to store the path amounts to, when every block of the tree is in memory. */
  lemma {:induction false} WrittenFrom(bs: Blocks, genesis: Hash, kids: Kids, last: Hash, unf0: Headers,
      headers0: Headers, rows0: Rows, hash: Hash, r: Result<(), StateError>, unf: Headers, headers: Headers, rows: Rows)
    requires Consistent(bs, genesis, last, unf0, headers0, rows0) && kids.Keys == Tree(bs, last)
    requires Describes(bs, unf) && Describes(bs, headers) && Ready(bs, last, last, unf0)
    requires hash in kids ==> forall h :: h in Steps(PathTo(bs, last, hash)) ==> h in unf0
    requires r.Ok? <==> hash == last || (hash in kids && Ready(bs, last, hash, unf0))
    requires if hash == last || hash !in kids then rows == rows0 && headers == headers0 && unf == unf0
      else PathOutcome(bs, last, hash, unf0, headers0, rows0, r, unf, headers, rows)
    requires hash != last && hash !in kids ==> r == Err(FromTree(EndNodeNotFound))
    ensures Written(bs, genesis, kids, last, unf0, unf, headers, rows0, rows, hash, r)
    ensures headers == headers0 + Picked(unf0, Storing(bs, kids, last, unf0, hash))
  {
    StoredHeaders(bs, kids, last, hash, unf0, headers0, headers);
    if hash != last && hash in kids {
      if r.Ok? {
        MovedConsistent(bs, genesis, last, unf0, headers0, rows0, hash, unf, headers, rows);
      } else {
        StoreMore(bs, genesis, last, headers0, rows, headers);
      }
    }
  }

  /** What has been moved and batched after the first `k` blocks of the path. */
  ghost predicate Stored(bs: Blocks, path: seq<Hash>, k: nat, unf0: Headers, headers0: Headers, unf: Headers,
      headers: Headers, batch: Rows)
    requires Numbered(bs, path) && 0 < k <= |path|
  {
    && BatchOf(path, bs[path[0]].number, k - 1, batch)
    && unf == unf0 - Steps(path[..k]) && headers == headers0 + Picked(unf0, Steps(path[..k]))
    && Describes(bs, headers) && AllStorable(unf0, Steps(path[..k]))
  }

  /** Storing one more block. */
  lemma {:induction false} StoredNext(bs: Blocks, path: seq<Hash>, k: nat, unf0: Headers, headers0: Headers,
      unf: Headers, headers: Headers, batch: Rows)
    requires Numbered(bs, path) && 0 < k < |path| && Stored(bs, path, k, unf0, headers0, unf, headers, batch)
    requires Describes(bs, unf0) && Storable(unf, path[k])
    ensures var h := path[k];
      Stored(bs, path, k + 1, unf0, headers0, unf - {h}, headers[h := unf[h]], batch[unf[h].number := h])
  {
    var h := path[k];
    StepsNext(path, k);
    assert unf[h] == unf0[h] && Storable(unf0, h);
    PickedNext(headers0, unf0, Steps(path[..k]), h);
    BatchNext(path, bs[path[0]].number, k - 1, batch);
    StoredOne(unf0, unf, Steps(path[..k]), h);
  }

  lemma {:induction false} StoredOne(unf0: Headers, unf: Headers, steps: set<Hash>, h: Hash)
    requires unf == unf0 - steps
    ensures unf - {h} == unf0 - (steps + {h})
  {
  }

  /** Where the storing stops: at a block not in memory, or at the first one, for want of a slot. */
  lemma {:induction false} StoredFails(bs: Blocks, path: seq<Hash>, k: nat, unf0: Headers, headers0: Headers,
      unf: Headers, headers: Headers, batch: Rows)
    requires Numbered(bs, path) && 0 < k < |path| && Stored(bs, path, k, unf0, headers0, unf, headers, batch)
    requires Describes(bs, unf0) && !Storable(unf, path[k])
    ensures var h := path[k];
      && !AllStorable(unf0, Steps(path)) && h in Steps(path)
      && (h !in unf ==> h !in unf0)
      && (h in unf ==> unf == unf0 && FirstStored(path[1], unf0, headers0, headers[h := unf[h]]))
  {
    var h := path[k];
    StepsNext(path, k);
    assert forall j :: 0 <= j < k ==> bs[path[j]].number != bs[h].number;
    assert h !in path[..k][1..];
    assert !Storable(unf0, h);
    if h in unf {
      assert unf[h] == unf0[h] && bs[h].number == 1 && k == 1;
      assert Steps(path[..1]) == {} && Picked(unf0, {}) == map[];
    }
  }

  lemma {:induction false} StoredStart(bs: Blocks, path: seq<Hash>, unf: Headers, headers: Headers)
    requires Numbered(bs, path) && Describes(bs, headers)
    ensures Stored(bs, path, 1, unf, headers, unf, headers, map[])
  {
    assert Steps(path[..1]) == {} && Picked(unf, {}) == map[];
  }

  lemma {:induction false} PickedNext(headers: Headers, unf: Headers, chosen: set<Hash>, h: Hash)
    requires h in unf
    ensures headers + Picked(unf, chosen + {h}) == (headers + Picked(unf, chosen))[h := unf[h]]
  {
  }

  lemma {:induction false} BatchNext(path: seq<Hash>, base: nat, k: nat, batch: Rows)
    requires k + 1 < |path| && BatchOf(path, base, k, batch)
    ensures BatchOf(path, base, k + 1, batch[base + k + 1 := path[k + 1]])
  {
  }

  lemma {:induction false} StepsNext(path: seq<Hash>, i: nat)
    requires 0 < i < |path|
    ensures Steps(path[..i + 1]) == Steps(path[..i]) + {path[i]} && path[i] in Steps(path)
  {
    assert path[..i + 1][1..] == path[..i][1..] + [path[i]];
    assert path[1..][i - 1] == path[i];
  }
}
