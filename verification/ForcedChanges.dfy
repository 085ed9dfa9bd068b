/** The list of pending forced authority-set changes (`orderedPendingChanges`). */
module ForcedChanges {
  import opened Basics
  import opened Ancestry
  import opened ChangeTree

  // ---------------------------------------------------------------- operations

  /** Refuses a second announcement from one block, and a change below one already held. */
  function ImportCheck(l: seq<PendingChange>, c: PendingChange, o: Oracle): Result<(), ChangeError> {
    if l == [] then Ok(())
    else if l[0].hash == c.hash then Err(DuplicateHashes)
    else match o(l[0].hash, c.hash)
      case Err(_) => Err(AncestryCheckFailed)
      case Ok(true) => Err(AlreadyHasForcedChange)
      case Ok(false) => ImportCheck(l[1..], c, o)
  }

  /** The search predicate: `x` is at or after `c` in both components. */
  predicate AtOrAfter(x: PendingChange, c: PendingChange) {
    x.EffectiveNumber() >= c.EffectiveNumber() && x.number >= c.number
  }

  /** Where the binary search on positions `i..j` ends. */
  function SearchIndex(l: seq<PendingChange>, c: PendingChange, i: nat, j: nat): (k: nat)
    requires i <= j <= |l|
    requires (i > 0 ==> !AtOrAfter(l[i - 1], c)) && (j < |l| ==> AtOrAfter(l[j], c))
    ensures i <= k <= j
    ensures (k > 0 ==> !AtOrAfter(l[k - 1], c)) && (k < |l| ==> AtOrAfter(l[k], c))
    decreases j - i
  {
    if i == j then i
    else
      var h := (i + j) / 2;
      if AtOrAfter(l[h], c) then SearchIndex(l, c, i, h) else SearchIndex(l, c, h + 1, j)
  }

  /** The binary search as the source runs it. */
  method Search(l: seq<PendingChange>, c: PendingChange) returns (i: nat)
    ensures i == SearchIndex(l, c, 0, |l|)
  {
    i := 0;
    var j := |l|;
    while i < j
      invariant 0 <= i <= j <= |l|
      invariant i > 0 ==> !AtOrAfter(l[i - 1], c)
      invariant j < |l| ==> AtOrAfter(l[j], c)
      invariant SearchIndex(l, c, i, j) == SearchIndex(l, c, 0, |l|)
    {
      var h := (i + j) / 2;
      if AtOrAfter(l[h], c) { j := h; } else { i := h + 1; }
    }
  }

  function InsertAt(l: seq<PendingChange>, k: nat, c: PendingChange): (l': seq<PendingChange>)
    requires k <= |l|
    ensures |l'| == |l| + 1 && l'[k] == c
    ensures forall i :: 0 <= i < k ==> l'[i] == l[i]
    ensures forall i :: k < i <= |l| ==> l'[i] == l[i - 1]
  {
    l[..k] + [c] + l[k..]
  }

  function Insert(l: seq<PendingChange>, c: PendingChange): seq<PendingChange> {
    InsertAt(l, SearchIndex(l, c, 0, |l|), c)
  }

  function ImportForced(l: seq<PendingChange>, c: PendingChange, o: Oracle): Result<seq<PendingChange>, ChangeError> {
    match ImportCheck(l, c, o)
    case Err(e) => Err(e)
    case Ok(_) => Ok(Insert(l, c))
  }

  function PruneForced(l: seq<PendingChange>, hash: Hash, o: Oracle): Result<seq<PendingChange>, ChangeError> {
    if l == [] then Ok([])
    else match o(hash, l[0].hash)
      case Err(_) => Err(AncestryCheckFailed)
      case Ok(isDescendant) =>
        match PruneForced(l[1..], hash, o)
        case Err(e) => Err(e)
        case Ok(rest) => Ok(if isDescendant then [l[0]] + rest else rest)
  }

  /** The first change due at the imported block on its own chain. */
  function FindForced(l: seq<PendingChange>, hash: Hash, number: nat,
      o: Oracle): Result<Option<PendingChange>, ChangeError> {
    if l == [] then Ok(None)
    else if l[0].hash == hash && l[0].EffectiveNumber() == number then Ok(Some(l[0]))
    else match o(l[0].hash, hash)
      case Err(_) => Err(AncestryCheckFailed)
      case Ok(isDescendant) =>
        if isDescendant && l[0].EffectiveNumber() == number then Ok(Some(l[0]))
        else FindForced(l[1..], hash, number, o)
  }

  // ---------------------------------------------------------------- at most one change per fork

  /** Any two changes held are on different forks. */
  ghost predicate OnePerFork(bs: Blocks, l: seq<PendingChange>)
    requires WellFormed(bs)
  {
    forall i, j :: 0 <= i < j < |l| ==> Unrelated(bs, l[i].hash, l[j].hash)
  }

  ghost predicate NoForcedBelow(bs: Blocks, l: seq<PendingChange>, h: Hash)
    requires WellFormed(bs)
  {
    forall x :: x in l ==> !StrictAnc(bs, h, x.hash)
  }

  /** The first change held whose block is at or above `h`. */
  ghost predicate FirstAtOrAbove(bs: Blocks, l: seq<PendingChange>, i: nat, h: Hash)
    requires WellFormed(bs)
  {
    i < |l| && AncOrEq(bs, l[i].hash, h) && forall j :: 0 <= j < i ==> !AncOrEq(bs, l[j].hash, h)
  }

  /**
   A change is let in exactly when nothing held is at or above its block; otherwise the first such change
   decides between a duplicate and a second change on the fork. The only other refusal is a failed lookup.
   */
  lemma {:induction false} CheckMeaning(bs: Blocks, l: seq<PendingChange>, c: PendingChange, o: Oracle)
    requires WellFormed(bs) && Sound(bs, o)
    ensures match ImportCheck(l, c, o)
      case Ok(_) => forall x :: x in l ==> !AncOrEq(bs, x.hash, c.hash)
      case Err(DuplicateHashes) => exists i: nat :: FirstAtOrAbove(bs, l, i, c.hash) && l[i].hash == c.hash
      case Err(AlreadyHasForcedChange) => exists i: nat :: FirstAtOrAbove(bs, l, i, c.hash) && l[i].hash != c.hash
      case Err(e) => e == AncestryCheckFailed && exists x :: x in l && o(x.hash, c.hash).Err?
  {
    if l != [] {
      assert o(l[0].hash, c.hash).Ok? ==> (o(l[0].hash, c.hash).value <==> AncOrEq(bs, l[0].hash, c.hash));
      if AncOrEq(bs, l[0].hash, c.hash) {
        assert FirstAtOrAbove(bs, l, 0, c.hash);
      } else {
        CheckMeaning(bs, l[1..], c, o);
        assert forall i: nat :: FirstAtOrAbove(bs, l[1..], i, c.hash) ==> FirstAtOrAbove(bs, l, i + 1, c.hash);
      }
      assert l[0] in l;
    }
  }

  /** An import inserts one element and keeps the order of the rest; a refused one changes nothing. */
  lemma {:induction false} InsertKeepsOrder(l: seq<PendingChange>, c: PendingChange) returns (k: nat)
    ensures k <= |l| && Insert(l, c)[k] == c
    ensures Insert(l, c)[..k] + Insert(l, c)[k + 1..] == l
  {
    k := SearchIndex(l, c, 0, |l|);
    assert InsertAt(l, k, c)[..k] == l[..k];
    assert InsertAt(l, k, c)[k + 1..] == l[k..];
  }

  /**
   Exactly when a successful import leaves at most one change per fork: nothing held is below the
   new block. The source checks the other direction only.
   */
  lemma {:induction false} ImportForcedOnePerForkIff(bs: Blocks, l: seq<PendingChange>, c: PendingChange, o: Oracle)
    requires WellFormed(bs) && Sound(bs, o) && OnePerFork(bs, l)
    requires ImportForced(l, c, o).Ok?
    ensures OnePerFork(bs, ImportForced(l, c, o).value) <==> NoForcedBelow(bs, l, c.hash)
  {
    CheckMeaning(bs, l, c, o);
    var k := SearchIndex(l, c, 0, |l|);
    var l' := InsertAt(l, k, c);
    if NoForcedBelow(bs, l, c.hash) {
      forall i, j | 0 <= i < j < |l'| ensures Unrelated(bs, l'[i].hash, l'[j].hash) {
        InsertedPairUnrelated(bs, l, c, k, i, j);
      }
    } else {
      var x :| x in l && StrictAnc(bs, c.hash, x.hash);
      var i :| 0 <= i < |l| && l[i] == x;
      if i < k { assert l'[i] == x; } else { assert l'[i + 1] == x; }
    }
  }

  /** A fork gets two forced changes when the later block announces first. */
  lemma {:induction false} ForcedCanShareFork(o: Oracle)
    requires o(2, 1) == Ok(false)
    ensures exists l: seq<PendingChange>, c: PendingChange ::
      OnePerFork(ChainOf3(), l) && ImportForced(l, c, o).Ok? && !OnePerFork(ChainOf3(), ImportForced(l, c, o).value)
  {
    var bs, l, c := ChainOf3(), [PendingChange(2, 2, 0, 0, [])], PendingChange(1, 1, 0, 0, []);
    assert l[1..] == [];
    assert StrictAnc(bs, 1, 2);
    assert OnePerFork(bs, l) && ImportForced(l, c, o).Ok?;
    var l' := ImportForced(l, c, o).value;
    var k := InsertKeepsOrder(l, c);
    assert !Unrelated(bs, l'[0].hash, l'[1].hash);
  }

  lemma {:induction false} InsertedPairUnrelated(bs: Blocks, l: seq<PendingChange>, c: PendingChange, k: nat, i: nat,
      j: nat)
    requires WellFormed(bs) && OnePerFork(bs, l) && k <= |l| && i < j <= |l|
    requires forall x :: x in l ==> Unrelated(bs, c.hash, x.hash)
    ensures var l' := InsertAt(l, k, c); Unrelated(bs, l'[i].hash, l'[j].hash)
  {
    var l' := InsertAt(l, k, c);
    if i == k {
      assert l'[j] == l[j - 1];
    } else if j == k {
      assert l'[i] == l[i];
    } else {
      var i0, j0 := if i < k then i else i - 1, if j < k then j else j - 1;
      assert l'[i] == l[i0] && l'[j] == l[j0];
    }
  }

  /** The changes announced at or below a block, in the order of the list. */
  ghost function AtOrBelow(bs: Blocks, l: seq<PendingChange>, hash: Hash): seq<PendingChange>
    requires WellFormed(bs)
  {
    if l == [] then []
    else (if AncOrEq(bs, hash, l[0].hash) then [l[0]] else []) + AtOrBelow(bs, l[1..], hash)
  }

  /** Pruning keeps, in order, exactly the changes at or below the finalised block; only a failed lookup stops it. */
  lemma {:induction false} PruneForcedMeaning(bs: Blocks, l: seq<PendingChange>, hash: Hash, o: Oracle)
    requires WellFormed(bs) && Sound(bs, o)
    ensures match PruneForced(l, hash, o)
      case Ok(kept) =>
        && kept == AtOrBelow(bs, l, hash)
        && (forall x :: x in kept <==> x in l && AncOrEq(bs, hash, x.hash))
        && (OnePerFork(bs, l) ==> OnePerFork(bs, kept))
      case Err(e) => e == AncestryCheckFailed && exists x :: x in l && o(hash, x.hash).Err?
  {
    PruneForcedFilters(bs, l, hash, o);
    forall x ensures x in AtOrBelow(bs, l, hash) <==> x in l && AncOrEq(bs, hash, x.hash) {
      AtOrBelowMember(bs, l, hash, x);
    }
    if OnePerFork(bs, l) { AtOrBelowForks(bs, l, hash); }
  }

  lemma {:induction false} PruneForcedFilters(bs: Blocks, l: seq<PendingChange>, hash: Hash, o: Oracle)
    requires WellFormed(bs) && Sound(bs, o)
    ensures match PruneForced(l, hash, o)
      case Ok(kept) => kept == AtOrBelow(bs, l, hash)
      case Err(e) => e == AncestryCheckFailed && exists x :: x in l && o(hash, x.hash).Err?
  {
    if l != [] {
      PruneForcedFilters(bs, l[1..], hash, o);
      assert l[0] in l;
      assert o(hash, l[0].hash).Ok? ==> (o(hash, l[0].hash).value <==> AncOrEq(bs, hash, l[0].hash));
    }
  }

  lemma {:induction false} AtOrBelowMember(bs: Blocks, l: seq<PendingChange>, hash: Hash, x: PendingChange)
    requires WellFormed(bs)
    ensures x in AtOrBelow(bs, l, hash) <==> x in l && AncOrEq(bs, hash, x.hash)
  {
    if l != [] {
      AtOrBelowMember(bs, l[1..], hash, x);
      assert x in l <==> x == l[0] || x in l[1..];
    }
  }

  lemma {:induction false} AtOrBelowForks(bs: Blocks, l: seq<PendingChange>, hash: Hash)
    requires WellFormed(bs) && OnePerFork(bs, l)
    ensures OnePerFork(bs, AtOrBelow(bs, l, hash))
  {
    if l != [] {
      var tail := l[1..];
      assert OnePerFork(bs, tail);
      AtOrBelowForks(bs, tail, hash);
      var rest := AtOrBelow(bs, tail, hash);
      forall j | 0 <= j < |rest| ensures Unrelated(bs, l[0].hash, rest[j].hash) {
        AtOrBelowMember(bs, tail, hash, rest[j]);
        var m :| 0 <= m < |tail| && tail[m] == rest[j];
        assert l[m + 1] == rest[j];
      }
    }
  }

  /** The change is due at the block, on the block's chain. */
  ghost predicate Due(bs: Blocks, x: PendingChange, hash: Hash, number: nat)
    requires WellFormed(bs)
  {
    AncOrEq(bs, x.hash, hash) && x.number + x.delay == number
  }

  ghost predicate FirstDue(bs: Blocks, l: seq<PendingChange>, i: nat, hash: Hash, number: nat)
    requires WellFormed(bs)
  {
    i < |l| && Due(bs, l[i], hash, number) && forall j :: 0 <= j < i ==> !Due(bs, l[j], hash, number)
  }

  /** At most one change held is due at a block. */
  lemma {:induction false} AtMostOneDue(bs: Blocks, l: seq<PendingChange>, i: nat, j: nat, hash: Hash, number: nat)
    requires WellFormed(bs) && OnePerFork(bs, l) && i < |l| && j < |l|
    requires Due(bs, l[i], hash, number) && Due(bs, l[j], hash, number)
    ensures i == j
  {
    AncComparable(bs, l[i].hash, l[j].hash, hash);
  }

  /** The first change due is found; none is found exactly when none is due, and only a failed lookup is an error. */
  lemma {:induction false} FindForcedMeaning(bs: Blocks, l: seq<PendingChange>, hash: Hash, number: nat, o: Oracle)
    requires WellFormed(bs) && Sound(bs, o)
    ensures match FindForced(l, hash, number, o)
      case Ok(Some(x)) => exists i: nat :: FirstDue(bs, l, i, hash, number) && x == l[i]
      case Ok(None) => forall x :: x in l ==> !Due(bs, x, hash, number)
      case Err(e) => e == AncestryCheckFailed && exists x :: x in l && o(x.hash, hash).Err?
  {
    if l != [] {
      assert o(l[0].hash, hash).Ok? ==> (o(l[0].hash, hash).value <==> AncOrEq(bs, l[0].hash, hash));
      if Due(bs, l[0], hash, number) {
        assert FirstDue(bs, l, 0, hash, number);
      } else {
        FindForcedMeaning(bs, l[1..], hash, number, o);
        assert forall i: nat :: FirstDue(bs, l[1..], i, hash, number) ==> FirstDue(bs, l, i + 1, hash, number);
      }
      assert l[0] in l;
    }
  }

  /** The answer does not depend on the order of the list. */
  lemma {:induction false} FindForcedOrderFree(bs: Blocks, l: seq<PendingChange>, m: seq<PendingChange>, hash: Hash,
      number: nat, o: Oracle)
    requires WellFormed(bs) && Sound(bs, o) && OnePerFork(bs, l)
    requires forall x :: x in l <==> x in m
    requires FindForced(l, hash, number, o).Ok? && FindForced(m, hash, number, o).Ok?
    ensures FindForced(l, hash, number, o) == FindForced(m, hash, number, o)
  {
    FindForcedMeaning(bs, l, hash, number, o);
    FindForcedMeaning(bs, m, hash, number, o);
    var a, b := FindForced(l, hash, number, o).value, FindForced(m, hash, number, o).value;
    if a.Some? && b.Some? {
      var i :| 0 <= i < |l| && l[i] == a.value;
      var k: nat :| FirstDue(bs, m, k, hash, number) && m[k] == b.value;
      assert m[k] in m && m[k] in l;
      var j :| 0 <= j < |l| && l[j] == b.value;
      AtMostOneDue(bs, l, i, j, hash, number);
    }
  }

  // ---------------------------------------------------------------- order of the list

  /** Ordered by effective number and by announcing number. */
  ghost predicate Ordered(l: seq<PendingChange>) {
    forall i, j :: 0 <= i < j < |l| ==> AtOrAfter(l[j], l[i])
  }

  /**
   Exactly when the insertion keeps an ordered list ordered: the new change is comparable, in both
   components at once, with every change held.
   */
  lemma {:induction false} InsertOrderedIff(l: seq<PendingChange>, c: PendingChange)
    requires Ordered(l)
    ensures Ordered(Insert(l, c)) <==> forall x :: x in l ==> AtOrAfter(x, c) || AtOrAfter(c, x)
  {
    var k := SearchIndex(l, c, 0, |l|);
    if forall x :: x in l ==> AtOrAfter(x, c) || AtOrAfter(c, x) {
      forall i | 0 <= i < k ensures AtOrAfter(c, l[i]) {
        assert l[k - 1] in l;
        assert i < k - 1 ==> AtOrAfter(l[k - 1], l[i]);
      }
      forall j | k <= j < |l| ensures AtOrAfter(l[j], c) {
        assert k < j ==> AtOrAfter(l[j], l[k]);
      }
      InsertAtOrdered(l, k, c);
    } else {
      var x :| x in l && !AtOrAfter(x, c) && !AtOrAfter(c, x);
      var i :| 0 <= i < |l| && l[i] == x;
      InsertAtUnordered(l, k, c, i);
    }
  }

  /** In an ordered list the new change goes right before the first change that is not before it in either number. */
  lemma {:induction false} InsertPlace(l: seq<PendingChange>, c: PendingChange) returns (k: nat)
    requires Ordered(l)
    ensures k <= |l| && Insert(l, c) == l[..k] + [c] + l[k..]
    ensures forall i :: 0 <= i < k ==> l[i].number + l[i].delay < c.number + c.delay || l[i].number < c.number
    ensures forall i :: k <= i < |l| ==> c.number + c.delay <= l[i].number + l[i].delay && c.number <= l[i].number
  {
    k := SearchIndex(l, c, 0, |l|);
    forall i | 0 <= i < k ensures !AtOrAfter(l[i], c) {
      if i < k - 1 { assert AtOrAfter(l[k - 1], l[i]); }
    }
    forall i | k <= i < |l| ensures AtOrAfter(l[i], c) {
      if k < i { assert AtOrAfter(l[i], l[k]); }
    }
  }

  lemma {:induction false} InsertAtOrdered(l: seq<PendingChange>, k: nat, c: PendingChange)
    requires Ordered(l) && k <= |l|
    requires (forall i :: 0 <= i < k ==> AtOrAfter(c, l[i])) && (forall j :: k <= j < |l| ==> AtOrAfter(l[j], c))
    ensures Ordered(InsertAt(l, k, c))
  {
    var l' := InsertAt(l, k, c);
    forall i, j | 0 <= i < j < |l'| ensures AtOrAfter(l'[j], l'[i]) {
      if i != k && j != k {
        assert AtOrAfter(l[if j < k then j else j - 1], l[if i < k then i else i - 1]);
      }
    }
  }

  lemma {:induction false} InsertAtUnordered(l: seq<PendingChange>, k: nat, c: PendingChange, i: nat)
    requires k <= |l| && i < |l| && !AtOrAfter(l[i], c) && !AtOrAfter(c, l[i])
    ensures !Ordered(InsertAt(l, k, c))
  {
    var l' := InsertAt(l, k, c);
    var n := if i < k then i else i + 1;
    assert l'[n] == l[i] && l'[k] == c;
    assert !AtOrAfter(l'[n], l'[k]) && !AtOrAfter(l'[k], l'[n]);
  }

  /** The two components can disagree, and then the list loses its order. */
  lemma {:induction false} InsertCanUnorder()
    ensures exists l: seq<PendingChange>, c: PendingChange :: Ordered(l) && !Ordered(Insert(l, c))
  {
    var l := [PendingChange(1, 3, 2, 0, [])];
    var c := PendingChange(2, 4, 0, 0, []);
    assert l[0].EffectiveNumber() == 5 && c.EffectiveNumber() == 4;
    InsertOrderedIff(l, c);
    assert l[0] in l && !AtOrAfter(l[0], c) && !AtOrAfter(c, l[0]);
  }
}
