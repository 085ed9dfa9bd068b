/**
 GRANDPA authority-set state: the two collections of pending changes, the current set ID and the
 block number at which each set began. Operations are given as functions on the state's value;
 the class runs them in place.
 */
module GrandpaState {
  import opened Basics
  import opened Ancestry
  import opened ChangeTree
  import opened ChangeMeaning
  import opened ForcedChanges

  /** What the state holds: pending changes, and the database rows for set IDs. */
  datatype View = View(
    forced: seq<PendingChange>,
    roots: seq<ChangeNode>,
    setId: nat,
    changes: map<nat, nat>,
    authorities: map<nat, seq<nat>>)

  function Genesis(authorities: seq<nat>): View {
    View([], [], 0, map[0 := 0], map[0 := authorities])
  }

  function AddScheduled(v: View, c: PendingChange, o: Oracle): (View, Result<(), ChangeError>) {
    match ImportInto(v.roots, c, o)
    case Err(e) => (v, Err(e))
    case Ok(roots) => (v.(roots := roots), Ok(()))
  }

  function AddForced(v: View, c: PendingChange, o: Oracle): (View, Result<(), ChangeError>) {
    match ImportForced(v.forced, c, o)
    case Err(e) => (v, Err(e))
    case Ok(forced) => (v.(forced := forced), Ok(()))
  }

  /** The set ID moves on by one; the new set begins after the change's effective block. */
  function Enact(v: View, c: PendingChange): View {
    v.(setId := v.setId + 1,
       authorities := v.authorities[v.setId + 1 := c.authorities],
       changes := v.changes[v.setId + 1 := c.EffectiveNumber()])
  }

  function ApplyScheduled(v: View, hash: Hash, number: nat, o: Oracle): (View, Result<(), ChangeError>) {
    match PruneForced(v.forced, hash, o)
    case Err(e) => (v, Err(e))
    case Ok(forced) =>
      var v1 := v.(forced := forced);
      if v.roots == [] then (v1, Ok(()))
      else match FindApplicable(v.roots, hash, number, o)
        case Err(e) => (v1, Err(e))
        case Ok((None, roots)) => (v1.(roots := roots), Ok(()))
        case Ok((Some(n), roots)) => (Enact(v1.(roots := roots), n.change), Ok(()))
  }

  /** A scheduled change due by the forced change's finalised block, on its chain, must be applied first. */
  function Dependant(ns: seq<ChangeNode>, c: PendingChange, o: Oracle): Result<bool, ChangeError> {
    if ns == [] then Ok(false)
    else if ns[0].change.EffectiveNumber() > c.bestFinalized then Dependant(ns[1..], c, o)
    else match o(ns[0].change.hash, c.hash)
      case Err(_) => Err(AncestryCheckFailed)
      case Ok(true) => Ok(true)
      case Ok(false) => Dependant(ns[1..], c, o)
  }

  function ApplyForced(v: View, hash: Hash, number: nat, o: Oracle): (View, Result<(), ChangeError>) {
    match FindForced(v.forced, hash, number, o)
    case Err(e) => (v, Err(e))
    case Ok(None) => (v, Ok(()))
    case Ok(Some(c)) =>
      match Dependant(v.roots, c, o)
      case Err(e) => (v, Err(e))
      case Ok(true) => (v, Err(PendingScheduledChanges))
      case Ok(false) =>
        (Enact(v.(changes := v.changes[v.setId := c.bestFinalized], forced := [], roots := []), c), Ok(()))
  }

  // ---------------------------------------------------------------- what applying a forced change means

  /** A scheduled change on the chain of the forced change's block, due by the finalised block it names. */
  ghost predicate Blocking(bs: Blocks, x: PendingChange, c: PendingChange)
    requires WellFormed(bs)
  {
    AncOrEq(bs, x.hash, c.hash) && x.number + x.delay <= c.bestFinalized
  }

  ghost predicate Blocked(bs: Blocks, ns: seq<ChangeNode>, c: PendingChange)
    requires WellFormed(bs)
  {
    exists n :: n in ns && Blocking(bs, n.change, c)
  }

  /** Only the roots are looked at; the answer is whether one of them is blocking. */
  lemma {:induction false} DependantMeaning(bs: Blocks, ns: seq<ChangeNode>, c: PendingChange, o: Oracle)
    requires WellFormed(bs) && Sound(bs, o)
    ensures match Dependant(ns, c, o)
      case Ok(b) => b <==> Blocked(bs, ns, c)
      case Err(e) => e == AncestryCheckFailed && exists n :: n in ns && o(n.change.hash, c.hash).Err?
  {
    if ns != [] {
      DependantMeaning(bs, ns[1..], c, o);
      assert ns == [ns[0]] + ns[1..];
      assert ns[0] in ns;
      assert o(ns[0].change.hash, c.hash).Ok? ==>
        (o(ns[0].change.hash, c.hash).value <==> AncOrEq(bs, ns[0].change.hash, c.hash));
      assert forall n :: n in ns <==> n == ns[0] || n in ns[1..];
    }
  }

  /** The state after a forced change: both collections empty, the current set ended at the finalised block it names. */
  ghost predicate EnactedForced(v: View, v': View, c: PendingChange) {
    && v'.forced == [] && v'.roots == [] && v'.setId == v.setId + 1
    && v'.authorities == v.authorities[v.setId + 1 := c.authorities]
    && v'.changes == v.changes[v.setId := c.bestFinalized][v.setId + 1 := c.number + c.delay]
  }

  /** A lookup made for a block import failed: on the block's chain, or on that of a forced change. */
  ghost predicate ImportedLookupFailed(v: View, hash: Hash, o: Oracle) {
    || (exists x :: x in v.forced && o(x.hash, hash).Err?)
    || (exists x, n :: x in v.forced && n in v.roots && o(n.change.hash, x.hash).Err?)
  }

  /** The change found for a block import is enacted, or refused because a root blocks it. */
  lemma {:induction false} FoundForced(bs: Blocks, v: View, hash: Hash, number: nat, o: Oracle, i: nat)
    requires WellFormed(bs) && Sound(bs, o) && FirstDue(bs, v.forced, i, hash, number)
    requires FindForced(v.forced, hash, number, o) == Ok(Some(v.forced[i]))
    ensures var (v', r) := ApplyForced(v, hash, number, o);
      match r
      case Ok(_) => !Blocked(bs, v.roots, v.forced[i]) && EnactedForced(v, v', v.forced[i])
      case Err(PendingScheduledChanges) => v' == v && Blocked(bs, v.roots, v.forced[i])
      case Err(e) => v' == v && e == AncestryCheckFailed && ImportedLookupFailed(v, hash, o)
  {
    assert v.forced[i] in v.forced;
    DependantMeaning(bs, v.roots, v.forced[i], o);
  }

  /**
   A block import enacts a change exactly when one is due at the block and no root blocks it; a blocked one
   is an error, and without a due change or on an error nothing happens. The first change due decides.
   */
  lemma {:induction false} ApplyForcedMeaning(bs: Blocks, v: View, hash: Hash, number: nat, o: Oracle)
    requires WellFormed(bs) && Sound(bs, o)
    ensures var (v', r) := ApplyForced(v, hash, number, o);
      match r
      case Ok(_) =>
        if forall c :: c in v.forced ==> !Due(bs, c, hash, number) then v' == v
        else exists i: nat ::
          FirstDue(bs, v.forced, i, hash, number) && !Blocked(bs, v.roots, v.forced[i])
          && EnactedForced(v, v', v.forced[i])
      case Err(PendingScheduledChanges) =>
        v' == v && exists i: nat :: FirstDue(bs, v.forced, i, hash, number) && Blocked(bs, v.roots, v.forced[i])
      case Err(e) => v' == v && e == AncestryCheckFailed && ImportedLookupFailed(v, hash, o)
  {
    FindForcedMeaning(bs, v.forced, hash, number, o);
    var found := FindForced(v.forced, hash, number, o);
    if found.Ok? && found.value.Some? {
      var i: nat :| FirstDue(bs, v.forced, i, hash, number) && found.value.value == v.forced[i];
      FoundForced(bs, v, hash, number, o, i);
    }
  }

  /** With one change per fork there is nothing to choose: the outcome is decided by the change that is due. */
  lemma {:induction false} ApplyForcedIff(bs: Blocks, v: View, hash: Hash, number: nat, o: Oracle, c: PendingChange)
    requires WellFormed(bs) && Sound(bs, o) && OnePerFork(bs, v.forced) && c in v.forced && Due(bs, c, hash, number)
    requires ApplyForced(v, hash, number, o).1 != Err(AncestryCheckFailed)
    ensures var (v', r) := ApplyForced(v, hash, number, o);
      if Blocked(bs, v.roots, c) then r == Err(PendingScheduledChanges) && v' == v
      else r == Ok(()) && EnactedForced(v, v', c)
  {
    ApplyForcedMeaning(bs, v, hash, number, o);
    forall d | d in v.forced && Due(bs, d, hash, number) ensures d == c {
      var i :| 0 <= i < |v.forced| && v.forced[i] == c;
      var j :| 0 <= j < |v.forced| && v.forced[j] == d;
      AtMostOneDue(bs, v.forced, i, j, hash, number);
    }
  }

  // ---------------------------------------------------------------- what announcements and finalisations mean

  /** A scheduled announcement stores the change itself as a new leaf, exactly when its block is not held yet. */
  lemma {:induction false} AddScheduledMeaning(bs: Blocks, v: View, c: PendingChange, o: Oracle)
    requires WellFormed(bs) && FirstFit(bs, v.roots) && Sound(bs, o) && Announced(bs, c)
    ensures var (v', r) := AddScheduled(v, c, o);
      match r
      case Ok(_) =>
        && c.hash !in Hashes(v.roots) && v' == v.(roots := v'.roots) && FirstFit(bs, v'.roots)
        && AddedLeaf(v.roots, v'.roots, c) && Contents(v'.roots) == Contents(v.roots) + multiset{c}
        && (forall x, y :: y in Hashes(v.roots) ==> (Above(v'.roots, x, y) <==> Above(v.roots, x, y)))
      case Err(DuplicateHashes) => v' == v && c.hash in Hashes(v.roots)
      case Err(e) => v' == v && e == AncestryCheckFailed && ImportLookupFailed(v.roots, c, o)
  {
    ImportMeaning(bs, v.roots, c, o);
    var r := ImportInto(v.roots, c, o);
    if r.Ok? {
      LeafContents(v.roots, r.value, c);
      forall x, y | y in Hashes(v.roots) ensures Above(r.value, x, y) <==> Above(v.roots, x, y) {
        LeafKeepsAbove(v.roots, r.value, c, x, y);
      }
    }
  }

  /** A forced announcement is inserted exactly when nothing held is at or above its block. */
  lemma {:induction false} AddForcedMeaning(bs: Blocks, v: View, c: PendingChange, o: Oracle)
    requires WellFormed(bs) && Sound(bs, o)
    ensures var (v', r) := AddForced(v, c, o);
      match r
      case Ok(_) =>
        && (forall x :: x in v.forced ==> !AncOrEq(bs, x.hash, c.hash))
        && v' == v.(forced := v'.forced)
        && exists k: nat :: k <= |v.forced| && v'.forced == v.forced[..k] + [c] + v.forced[k..]
      case Err(DuplicateHashes) =>
        v' == v && exists i: nat :: FirstAtOrAbove(bs, v.forced, i, c.hash) && v.forced[i].hash == c.hash
      case Err(AlreadyHasForcedChange) =>
        v' == v && exists i: nat :: FirstAtOrAbove(bs, v.forced, i, c.hash) && v.forced[i].hash != c.hash
      case Err(e) => v' == v && e == AncestryCheckFailed && exists x :: x in v.forced && o(x.hash, c.hash).Err?
  {
    CheckMeaning(bs, v.forced, c, o);
    if ImportCheck(v.forced, c, o).Ok? {
      var k := SearchIndex(v.forced, c, 0, |v.forced|);
      assert AddForced(v, c, o).0.forced == v.forced[..k] + [c] + v.forced[k..];
    }
  }

  /** The state after a scheduled change: its children take the place of all roots, and one set begins. */
  ghost predicate EnactedScheduled(v: View, v': View, n: ChangeNode) {
    && v'.roots == n.nodes && v'.setId == v.setId + 1
    && v'.authorities == v.authorities[v.setId + 1 := n.change.authorities]
    && v'.changes == v.changes[v.setId + 1 := n.change.number + n.change.delay]
  }

  /** A lookup made for a finalisation failed. */
  ghost predicate FinalisedLookupFailed(v: View, hash: Hash, o: Oracle) {
    || (exists x :: x in v.forced && o(hash, x.hash).Err?)
    || FindLookupFailed(v.roots, hash, o)
    || (exists h :: h in RootHashes(v.roots) && o(hash, h).Err?)
  }

  /**
   A finalisation keeps the forced changes at or below the block. It enacts the first root that is ripe, unless
   one of that root's children is finalised too, which is an error; with no ripe root it keeps, in order and
   unchanged, the roots at or below the block.
   */
  lemma {:induction false} ApplyScheduledMeaning(bs: Blocks, v: View, hash: Hash, number: nat, o: Oracle)
    requires WellFormed(bs) && Descending(bs, v.roots) && Sound(bs, o) && hash in bs && bs[hash].number == number
    ensures var (v', r) := ApplyScheduled(v, hash, number, o);
      match r
      case Ok(_) =>
        && v'.forced == AtOrBelow(bs, v.forced, hash)
        && if NoneRipe(bs, v.roots, hash, number) then
             v' == v.(forced := v'.forced, roots := RootsAtOrBelow(bs, v.roots, hash))
           else
             exists i: nat ::
               FirstRipe(bs, v.roots, i, hash, number) && !ChildPassed(bs, v.roots[i], hash)
               && EnactedScheduled(v, v', v.roots[i])
      case Err(UnfinalizedAncestor) =>
        && v' == v.(forced := AtOrBelow(bs, v.forced, hash))
        && exists i: nat :: FirstRipe(bs, v.roots, i, hash, number) && ChildPassed(bs, v.roots[i], hash)
      case Err(e) =>
        && e == AncestryCheckFailed && FinalisedLookupFailed(v, hash, o)
        && (v' == v || v' == v.(forced := AtOrBelow(bs, v.forced, hash)))
  {
    PruneForcedFilters(bs, v.forced, hash, o);
    if PruneForced(v.forced, hash, o).Ok? {
      FindApplicableMeaning(bs, v.roots, hash, number, o);
      if FindApplicableChange(v.roots, hash, number, o) == Ok(None) { PruneExact(bs, v.roots, hash, o); }
    }
  }

  // ---------------------------------------------------------------- lookups, as loops

  method LookupForced(l: seq<PendingChange>, hash: Hash, number: nat, o: Oracle)
    returns (r: Result<Option<PendingChange>, ChangeError>)
    ensures r == FindForced(l, hash, number, o)
  {
    var i := 0;
    while i < |l|
      invariant 0 <= i <= |l| && FindForced(l, hash, number, o) == FindForced(l[i..], hash, number, o)
    {
      assert l[i..][1..] == l[i + 1..];
      if l[i].hash == hash && l[i].EffectiveNumber() == number { return Ok(Some(l[i])); }
      var isDescendant := o(l[i].hash, hash);
      if isDescendant.Err? { return Err(AncestryCheckFailed); }
      if isDescendant.value && l[i].EffectiveNumber() == number { return Ok(Some(l[i])); }
      i := i + 1;
    }
    return Ok(None);
  }

  method LookupDependant(ns: seq<ChangeNode>, c: PendingChange, o: Oracle) returns (r: Result<bool, ChangeError>)
    ensures r == Dependant(ns, c, o)
  {
    var i := 0;
    while i < |ns|
      invariant 0 <= i <= |ns| && Dependant(ns, c, o) == Dependant(ns[i..], c, o)
    {
      assert ns[i..][1..] == ns[i + 1..];
      if ns[i].change.EffectiveNumber() <= c.bestFinalized {
        var isDescendant := o(ns[i].change.hash, c.hash);
        if isDescendant.Err? { return Err(AncestryCheckFailed); }
        if isDescendant.value { return Ok(true); }
      }
      i := i + 1;
    }
    return Ok(false);
  }

  // ---------------------------------------------------------------- the state in place

  class State {
    var forced: seq<PendingChange>
    var roots: seq<ChangeNode>
    var setId: nat
    var changes: map<nat, nat>
    var authorities: map<nat, seq<nat>>

    function Now(): View
      reads this
    {
      View(forced, roots, setId, changes, authorities)
    }

    constructor (genesisAuthorities: seq<nat>)
      ensures Now() == Genesis(genesisAuthorities)
    {
      forced, roots, setId := [], [], 0;
      changes, authorities := map[0 := 0], map[0 := genesisAuthorities];
    }

    method AddScheduledChange(c: PendingChange, o: Oracle) returns (r: Result<(), ChangeError>)
      modifies this
      ensures (Now(), r) == AddScheduled(old(Now()), c, o)
    {
      var imported := ImportRoots(roots, c, o);
      if imported.Err? { return Err(imported.error); }
      roots := if imported.value.Some? then imported.value.value else roots + [ChangeNode(c, [])];
      return Ok(());
    }

    method AddForcedChange(c: PendingChange, o: Oracle) returns (r: Result<(), ChangeError>)
      modifies this
      ensures (Now(), r) == AddForced(old(Now()), c, o)
    {
      var i := 0;
      while i < |forced|
        invariant 0 <= i <= |forced| && Now() == old(Now())
        invariant ImportCheck(forced, c, o) == ImportCheck(forced[i..], c, o)
      {
        assert forced[i..][1..] == forced[i + 1..];
        if forced[i].hash == c.hash { return Err(DuplicateHashes); }
        var isDescendant := o(forced[i].hash, c.hash);
        if isDescendant.Err? { return Err(AncestryCheckFailed); }
        if isDescendant.value { return Err(AlreadyHasForcedChange); }
        i := i + 1;
      }
      var k := Search(forced, c);
      forced := InsertAt(forced, k, c);
      return Ok(());
    }

    /** Keeps the forced changes at or below `hash`. */
    method PruneForcedChanges(hash: Hash, o: Oracle) returns (r: Result<(), ChangeError>)
      modifies this
      ensures match PruneForced(old(forced), hash, o)
        case Err(e) => r == Err(e) && Now() == old(Now())
        case Ok(kept) => r == Ok(()) && Now() == old(Now()).(forced := kept)
    {
      var onBranch := [];
      var i := 0;
      assert forced[0..] == forced;
      ghost var all := PruneForced(forced, hash, o);
      if all.Ok? { assert [] + all.value == all.value; }
      while i < |forced|
        invariant 0 <= i <= |forced| && Now() == old(Now())
        invariant match PruneForced(forced[i..], hash, o)
          case Err(e) => PruneForced(forced, hash, o) == Err(e)
          case Ok(kept) => PruneForced(forced, hash, o) == Ok(onBranch + kept)
      {
        assert forced[i..][1..] == forced[i + 1..];
        var isDescendant := o(hash, forced[i].hash);
        if isDescendant.Err? { return Err(AncestryCheckFailed); }
        ghost var rest := PruneForced(forced[i + 1..], hash, o);
        if rest.Ok? { assert onBranch + ([forced[i]] + rest.value) == onBranch + [forced[i]] + rest.value; }
        if isDescendant.value { onBranch := onBranch + [forced[i]]; }
        i := i + 1;
      }
      forced := onBranch;
      return Ok(());
    }

    /** Keeps the roots at or below `hash`, with everything under them. */
    method PruneScheduledChanges(hash: Hash, o: Oracle) returns (r: Result<(), ChangeError>)
      modifies this
      ensures match PruneChanges(old(roots), hash, o)
        case Err(e) => r == Err(e) && Now() == old(Now())
        case Ok(kept) => r == Ok(()) && Now() == old(Now()).(roots := kept)
    {
      var onBranch := [];
      var i := 0;
      assert roots[0..] == roots;
      ghost var all := PruneChanges(roots, hash, o);
      if all.Ok? { assert [] + all.value == all.value; }
      while i < |roots|
        invariant 0 <= i <= |roots| && Now() == old(Now())
        invariant match PruneChanges(roots[i..], hash, o)
          case Err(e) => PruneChanges(roots, hash, o) == Err(e)
          case Ok(kept) => PruneChanges(roots, hash, o) == Ok(onBranch + kept)
      {
        assert roots[i..][1..] == roots[i + 1..];
        var isDescendant := o(hash, roots[i].change.hash);
        if isDescendant.Err? { return Err(AncestryCheckFailed); }
        ghost var rest := PruneChanges(roots[i + 1..], hash, o);
        if rest.Ok? { assert onBranch + ([roots[i]] + rest.value) == onBranch + [roots[i]] + rest.value; }
        if isDescendant.value { onBranch := onBranch + [roots[i]]; }
        i := i + 1;
      }
      roots := onBranch;
      return Ok(());
    }

    method ApplyScheduledChanges(hash: Hash, number: nat, o: Oracle) returns (r: Result<(), ChangeError>)
      modifies this
      ensures (Now(), r) == ApplyScheduled(old(Now()), hash, number, o)
    {
      r := PruneForcedChanges(hash, o);
      if r.Err? || |roots| == 0 { return; }
      match FindApplicableChange(roots, hash, number, o)
      case Err(e) =>
        r := Err(e);
      case Ok(None) =>
        r := PruneScheduledChanges(hash, o);
      case Ok(Some(n)) =>
        roots := n.nodes;
        setId := setId + 1;
        authorities := authorities[setId := n.change.authorities];
        changes := changes[setId := n.change.EffectiveNumber()];
    }

    method ApplyForcedChanges(hash: Hash, number: nat, o: Oracle) returns (r: Result<(), ChangeError>)
      modifies this
      ensures (Now(), r) == ApplyForced(old(Now()), hash, number, o)
      ensures r.Err? ==> Now() == old(Now())
      ensures r.Ok? && setId != old(setId) ==> forced == [] && roots == [] && setId == old(setId) + 1
    {
      var found := LookupForced(forced, hash, number, o);
      if found.Err? { return Err(found.error); }
      if found.value.None? { return Ok(()); }
      var c := found.value.value;
      var dependant := LookupDependant(roots, c, o);
      if dependant.Err? { return Err(dependant.error); }
      if dependant.value { return Err(PendingScheduledChanges); }
      changes := changes[setId := c.bestFinalized];
      setId := setId + 1;
      authorities := authorities[setId := c.authorities];
      changes := changes[setId := c.EffectiveNumber()];
      forced, roots := [], [];
      return Ok(());
    }

    /** The set that finalises a block: the search runs backwards from the current set. */
    method GetSetIDByBlockNumber(b: nat) returns (r: nat)
      requires IncreasingTo(changes, setId) || IncreasingTo(changes, setId + 1)
      requires setId < SIGN_BIT
      ensures IncreasingTo(changes, setId) ==> InSet(changes, setId, r, b)
      ensures IncreasingTo(changes, setId + 1) ==> InSet(changes, setId + 1, r, b)
    {
      var curr: nat := setId;
      ghost var top := if IncreasingTo(changes, setId + 1) then setId + 1 else setId;
      while true
        invariant IncreasingTo(changes, top) && curr <= top && curr < SIGN_BIT
        invariant curr + 1 < top ==> b <= changes[curr + 2]
        invariant curr == top ==> curr == setId
        decreases curr
      {
        if curr + 1 !in changes {
          if curr == 0 {
            return 0;
          }
          curr := curr - 1;
          continue;
        }
        var upper, lower := changes[curr + 1], changes[curr];
        if b <= upper && b > lower {
          return curr;
        }
        if b > upper {
          return curr + 1;
        }
        var next := Uint64Pred(curr);
        if next >= SIGN_BIT {
          return 0;
        }
        curr := next;
      }
    }

    /** The end of a rewind: the current set falls back and later changes are deleted. */
    method Truncate(height: nat)
      requires IncreasingTo(changes, setId) || IncreasingTo(changes, setId + 1)
      requires setId < SIGN_BIT
      modifies this`setId, this`changes
      ensures setId <= old(setId) + 1 && IncreasingTo(changes, setId)
      ensures IncreasingTo(old(changes), old(setId)) ==> InSet(old(changes), old(setId), setId, height)
      ensures IncreasingTo(old(changes), old(setId) + 1) ==> InSet(old(changes), old(setId) + 1, setId, height)
      ensures forall i: nat :: i <= setId ==> i in old(changes) && changes[i] == old(changes)[i]
    {
      var prev := setId;
      var newSetId := GetSetIDByBlockNumber(height);
      ghost var top := if IncreasingTo(changes, setId + 1) then setId + 1 else setId;
      assert IncreasingTo(changes, top) && InSet(changes, top, newSetId, height);
      setId := newSetId;
      changes := WithoutRows(changes, newSetId + 1, prev + 1);
    }
  }

  /** Deletes the rows from one set to another, one by one. */
  method WithoutRows(rows: map<nat, nat>, lo: nat, hi: nat) returns (r: map<nat, nat>)
    ensures forall k: nat {:trigger k in r} :: k in r <==> k in rows && !(lo <= k <= hi)
    ensures forall k: nat {:trigger r[k]} :: k in r ==> r[k] == rows[k]
  {
    r := rows;
    var i := lo;
    while i <= hi
      invariant lo <= i && (if lo <= hi then i <= hi + 1 else i == lo)
      invariant forall k: nat {:trigger k in r} :: k in r <==> k in rows && !(lo <= k < i)
      invariant forall k: nat {:trigger r[k]} :: k in r ==> r[k] == rows[k]
      decreases hi + 1 - i
    {
      r := r - {i};
      i := i + 1;
    }
  }

  // ---------------------------------------------------------------- sets by block number

  /** 2^63: an unsigned 64-bit value at or above it reads as negative once converted to a signed integer. */
  const SIGN_BIT: nat := 0x8000_0000_0000_0000

  /** `x - 1` on unsigned 64-bit integers. */
  function Uint64Pred(x: nat): nat {
    if x == 0 then 0xFFFF_FFFF_FFFF_FFFF else x - 1
  }

  /** Exactly the sets 0 to `top` have a change number, and the numbers strictly increase. */
  ghost predicate IncreasingTo(changes: map<nat, nat>, top: nat) {
    && (forall i: nat :: i in changes <==> i <= top)
    && (forall i: nat, j: nat :: i < j <= top ==> changes[i] < changes[j])
  }

  /** Block `b` is finalised by set `r`: after the block where the set began, up to the one where the next begins. */
  ghost predicate InSet(changes: map<nat, nat>, top: nat, r: nat, b: nat)
    requires IncreasingTo(changes, top)
  {
    && r <= top
    && (r > 0 ==> changes[r] < b)
    && (r < top ==> b <= changes[r + 1])
  }

  /** The intervals do not overlap, so a block is in one set only. */
  lemma {:induction false} InSetUnique(changes: map<nat, nat>, top: nat, r: nat, s: nat, b: nat)
    requires IncreasingTo(changes, top) && InSet(changes, top, r, b) && InSet(changes, top, s, b)
    ensures r == s
  {
  }

  /** Truncating at the set of `height` keeps the answer for every block up to `height`. */
  lemma {:induction false} TruncateKeepsAnswers(changes: map<nat, nat>, top: nat, kept: map<nat, nat>, cut: nat,
      height: nat, b: nat, r: nat)
    requires IncreasingTo(changes, top) && InSet(changes, top, cut, height) && b <= height
    requires IncreasingTo(kept, cut) && forall i: nat :: i <= cut ==> kept[i] == changes[i]
    ensures InSet(kept, cut, r, b) <==> InSet(changes, top, r, b)
  {
  }

  /** The roots are tried in order; the first that takes the change is replaced. */
  method ImportRoots(ns: seq<ChangeNode>, c: PendingChange, o: Oracle)
    returns (r: Result<Option<seq<ChangeNode>>, ChangeError>)
    ensures r == ImportSiblings(ns, c, o)
  {
    var i := 0;
    BehindNone(ns, ImportSiblings(ns, c, o));
    while i < |ns|
      invariant 0 <= i <= |ns| && DeclinedBefore(ns, i, c, o)
    {
      SiblingsAt(ns, i, c, o);
      match ImportNode(ns[i], c, o)
      case Err(e) => return Err(e);
      case Ok(Some(n)) => return Ok(Some(ns[i := n]));
      case Ok(None) => i := i + 1;
    }
    assert ns[i..] == [];
    return Ok(None);
  }

  /** The first `i` nodes have declined the change, so the rest decides. */
  ghost predicate DeclinedBefore(ns: seq<ChangeNode>, i: nat, c: PendingChange, o: Oracle)
    requires i <= |ns|
  {
    ImportSiblings(ns, c, o) == Behind(ns[..i], ImportSiblings(ns[i..], c, o))
  }

  lemma {:induction false} SiblingsAt(ns: seq<ChangeNode>, i: nat, c: PendingChange, o: Oracle)
    requires i < |ns| && DeclinedBefore(ns, i, c, o)
    ensures match ImportNode(ns[i], c, o)
      case Err(e) => ImportSiblings(ns, c, o) == Err(e)
      case Ok(Some(n)) => ImportSiblings(ns, c, o) == Ok(Some(ns[i := n]))
      case Ok(None) => DeclinedBefore(ns, i + 1, c, o)
  {
    assert ns[i..][0] == ns[i] && ns[i..][1..] == ns[i + 1..];
    match ImportNode(ns[i], c, o)
    case Err(e) =>
    case Ok(Some(n)) => assert ns[..i] + ([n] + ns[i + 1..]) == ns[i := n];
    case Ok(None) => BehindMore(ns, i, ImportSiblings(ns[i + 1..], c, o));
  }

  ghost function Behind(pre: seq<ChangeNode>, r: Result<Option<seq<ChangeNode>>, ChangeError>)
    : Result<Option<seq<ChangeNode>>, ChangeError>
  {
    if r.Ok? && r.value.Some? then Ok(Some(pre + r.value.value)) else r
  }

  lemma {:induction false} BehindNone(ns: seq<ChangeNode>, r: Result<Option<seq<ChangeNode>>, ChangeError>)
    ensures ns[0..] == ns && Behind(ns[..0], r) == r
  {
    if r.Ok? && r.value.Some? { assert ns[..0] + r.value.value == r.value.value; }
  }

  lemma {:induction false} BehindMore(ns: seq<ChangeNode>, i: nat, r: Result<Option<seq<ChangeNode>>, ChangeError>)
    requires i < |ns|
    ensures Behind(ns[..i], Behind([ns[i]], r)) == Behind(ns[..i + 1], r)
  {
    if r.Ok? && r.value.Some? {
      assert ns[..i] + ([ns[i]] + r.value.value) == ns[..i + 1] + r.value.value;
    }
  }
}
