/**
 What holds over whole runs of the GRANDPA state: block digests announcing scheduled and forced
 changes, finalisations and block imports, in any order the environment allows.
 */
module GrandpaRuns {
  import opened Basics
  import opened Ancestry
  import opened ChangeTree
  import opened ChangeMeaning
  import opened ForcedChanges
  import opened GrandpaState

  /** One call into the state, with the ancestry answers available to it at that time. */
  datatype Event =
    | Scheduled(change: PendingChange, o: Oracle)
    | Forced(change: PendingChange, o: Oracle)
    | Finalised(hash: Hash, o: Oracle)
    | Imported(hash: Hash, o: Oracle)

  function Step(bs: Blocks, v: View, e: Event): View {
    match e
    case Scheduled(c, o) => AddScheduled(v, c, o).0
    case Forced(c, o) => AddForced(v, c, o).0
    case Finalised(h, o) => ApplyScheduled(v, h, Height(bs, h), o).0
    case Imported(h, o) => ApplyForced(v, h, Height(bs, h), o).0
  }

  function Run(bs: Blocks, v: View, es: seq<Event>): View {
    if es == [] then v else Step(bs, Run(bs, v, es[..|es| - 1]), es[|es| - 1])
  }

  /** Headers are real and the ancestry answers true; nothing is assumed about the order of events. */
  ghost predicate Genuine(bs: Blocks, e: Event)
    requires WellFormed(bs)
  {
    Sound(bs, e.o) &&
    match e
    case Scheduled(c, _) => Announced(bs, c)
    case Forced(c, _) => Announced(bs, c)
    case Finalised(h, _) => h in bs
    case Imported(h, _) => h in bs
  }

  // ---------------------------------------------------------------- the forest over runs

  /** A block's change is announced before the changes of its descendants, for each kind of change. */
  ghost predicate AncestorsFirst(bs: Blocks, es: seq<Event>)
    requires WellFormed(bs)
  {
    forall i, j :: 0 <= i < j < |es| ==>
      && (es[i].Scheduled? && es[j].Scheduled? ==> !StrictAnc(bs, es[j].change.hash, es[i].change.hash))
      && (es[i].Forced? && es[j].Forced? ==> !StrictAnc(bs, es[j].change.hash, es[i].change.hash))
  }

  /** Everything pending was announced by an event of the run. */
  ghost predicate FromRun(v: View, es: seq<Event>) {
    && (forall h :: h in Hashes(v.roots) ==> exists i :: 0 <= i < |es| && es[i].Scheduled? && es[i].change.hash == h)
    && (forall x :: x in v.forced ==> exists i :: 0 <= i < |es| && es[i].Forced? && es[i].change.hash == x.hash)
  }

  lemma {:induction false} ScheduledStep(bs: Blocks, v: View, c: PendingChange, o: Oracle)
    requires WellFormed(bs) && Shape(bs, v.roots) && Sound(bs, o) && Announced(bs, c) && NoneBelow(bs, v.roots, c.hash)
    ensures var v' := AddScheduled(v, c, o).0;
      Shape(bs, v'.roots) && v'.forced == v.forced && Hashes(v'.roots) <= Hashes(v.roots) + {c.hash}
  {
    if ImportInto(v.roots, c, o).Ok? {
      ImportKeepsShapeIff(bs, v.roots, c, o);
      ImportAddsOne(bs, v.roots, c, o);
    }
  }

  lemma {:induction false} ForcedStep(bs: Blocks, v: View, c: PendingChange, o: Oracle)
    requires WellFormed(bs) && OnePerFork(bs, v.forced) && Sound(bs, o) && NoForcedBelow(bs, v.forced, c.hash)
    ensures var v' := AddForced(v, c, o).0;
      OnePerFork(bs, v'.forced) && v'.roots == v.roots && (forall x :: x in v'.forced ==> x in v.forced || x == c)
  {
    if ImportForced(v.forced, c, o).Ok? { ImportForcedOnePerForkIff(bs, v.forced, c, o); }
  }

  lemma {:induction false} FinalisedStep(bs: Blocks, v: View, h: Hash, o: Oracle)
    requires WellFormed(bs) && Shape(bs, v.roots) && OnePerFork(bs, v.forced) && Sound(bs, o) && h in bs
    ensures var v' := ApplyScheduled(v, h, Height(bs, h), o).0;
      && Shape(bs, v'.roots) && Hashes(v'.roots) <= Hashes(v.roots)
      && OnePerFork(bs, v'.forced) && forall x :: x in v'.forced ==> x in v.forced
  {
    if PruneForced(v.forced, h, o).Ok? { PruneForcedMeaning(bs, v.forced, h, o); }
    var found := FindApplicableChange(v.roots, h, Height(bs, h), o);
    if found.Ok? && found.value.Some? {
      ShapeDescending(bs, v.roots);
      ApplicableMeaning(bs, v.roots, h, Height(bs, h), o);
    } else if found.Ok? && PruneChanges(v.roots, h, o).Ok? {
      PruneKeepsShape(bs, v.roots, h, o);
      PruneMeaning(bs, v.roots, h, o);
    }
  }

  lemma {:induction false} AncestorsFirstPrefix(bs: Blocks, es: seq<Event>)
    requires WellFormed(bs) && es != [] && AncestorsFirst(bs, es)
    ensures AncestorsFirst(bs, es[..|es| - 1])
  {
    var before := es[..|es| - 1];
    forall i, j | 0 <= i < j < |before| ensures
        && (before[i].Scheduled? && before[j].Scheduled? ==>
              !StrictAnc(bs, before[j].change.hash, before[i].change.hash))
        && (before[i].Forced? && before[j].Forced? ==> !StrictAnc(bs, before[j].change.hash, before[i].change.hash)) {
      assert before[i] == es[i] && before[j] == es[j];
    }
  }

  /** One event, when nothing pending is below what it announces. */
  lemma {:induction false} StepKeeps(bs: Blocks, v: View, e: Event)
    requires WellFormed(bs) && Genuine(bs, e) && Shape(bs, v.roots) && OnePerFork(bs, v.forced)
    requires e.Scheduled? ==> NoneBelow(bs, v.roots, e.change.hash)
    requires e.Forced? ==> NoForcedBelow(bs, v.forced, e.change.hash)
    ensures var v' := Step(bs, v, e);
      && Shape(bs, v'.roots) && OnePerFork(bs, v'.forced)
      && Hashes(v'.roots) <= Hashes(v.roots) + (if e.Scheduled? then {e.change.hash} else {})
      && forall x :: x in v'.forced ==> x in v.forced || (e.Forced? && x == e.change)
  {
    match e {
      case Scheduled(c, o) => ScheduledStep(bs, v, c, o);
      case Forced(c, o) => ForcedStep(bs, v, c, o);
      case Finalised(h, o) => FinalisedStep(bs, v, h, o);
      case Imported(h, o) =>
    }
  }

  lemma {:induction false} PendingStep(bs: Blocks, v: View, es: seq<Event>)
    requires WellFormed(bs) && es != [] && AncestorsFirst(bs, es) && Genuine(bs, es[|es| - 1])
    requires Shape(bs, v.roots) && OnePerFork(bs, v.forced) && FromRun(v, es[..|es| - 1])
    ensures var v' := Step(bs, v, es[|es| - 1]);
      Shape(bs, v'.roots) && OnePerFork(bs, v'.forced) && FromRun(v', es)
  {
    var e := es[|es| - 1];
    NothingBelow(bs, v, es);
    StepKeeps(bs, v, e);
    FromRunStep(v, Step(bs, v, e), es);
  }

  /**
   Over every run in which ancestors announce first, the scheduled forest has the shape of the
   ancestry and the forced list holds at most one change per fork.
   */
  lemma {:induction false} PendingShapeOverRuns(bs: Blocks, auth: seq<nat>, es: seq<Event>)
    requires WellFormed(bs) && AncestorsFirst(bs, es) && forall e :: e in es ==> Genuine(bs, e)
    ensures var v := Run(bs, Genesis(auth), es);
      Shape(bs, v.roots) && OnePerFork(bs, v.forced) && FromRun(v, es)
  {
    if es != [] {
      AncestorsFirstPrefix(bs, es);
      PendingShapeOverRuns(bs, auth, es[..|es| - 1]);
      PendingStep(bs, Run(bs, Genesis(auth), es[..|es| - 1]), es);
    }
  }

  /** The order of the run excludes an announcement above a pending change. */
  lemma {:induction false} NothingBelow(bs: Blocks, v: View, es: seq<Event>)
    requires WellFormed(bs) && es != [] && AncestorsFirst(bs, es) && FromRun(v, es[..|es| - 1])
    ensures var e := es[|es| - 1];
      && (e.Scheduled? ==> NoneBelow(bs, v.roots, e.change.hash))
      && (e.Forced? ==> NoForcedBelow(bs, v.forced, e.change.hash))
  {
    var k := |es| - 1;
    if es[k].Scheduled? {
      forall y | y in Hashes(v.roots) ensures !StrictAnc(bs, es[k].change.hash, y) {
        var i :| 0 <= i < k && es[..k][i].Scheduled? && es[..k][i].change.hash == y;
        assert es[i] == es[..k][i];
      }
    }
    if es[k].Forced? {
      forall x | x in v.forced ensures !StrictAnc(bs, es[k].change.hash, x.hash) {
        var i :| 0 <= i < k && es[..k][i].Forced? && es[..k][i].change.hash == x.hash;
        assert es[i] == es[..k][i];
      }
    }
  }

  lemma {:induction false} FromRunStep(v: View, v': View, es: seq<Event>)
    requires es != [] && FromRun(v, es[..|es| - 1])
    requires var e := es[|es| - 1]; Hashes(v'.roots) <= Hashes(v.roots) + (if e.Scheduled? then {e.change.hash} else {})
    requires var e := es[|es| - 1]; forall x :: x in v'.forced ==> x in v.forced || (e.Forced? && x == e.change)
    ensures FromRun(v', es)
  {
    var k := |es| - 1;
    forall h | h in Hashes(v'.roots) ensures exists i :: 0 <= i < |es| && es[i].Scheduled? && es[i].change.hash == h {
      if h in Hashes(v.roots) {
        var i :| 0 <= i < k && es[..k][i].Scheduled? && es[..k][i].change.hash == h;
        assert es[i] == es[..k][i];
      } else {
        assert es[k].Scheduled?;
      }
    }
    forall x | x in v'.forced ensures exists i :: 0 <= i < |es| && es[i].Forced? && es[i].change.hash == x.hash {
      if x in v.forced {
        var i :| 0 <= i < k && es[..k][i].Forced? && es[..k][i].change.hash == x.hash;
        assert es[i] == es[..k][i];
      } else {
        assert es[k].Forced?;
      }
    }
  }

  /**
   The reading of the forest after any such run: one pending change is above another exactly when
   its block is a strict ancestor, no block is held twice, a second announcement is refused, and a
   block is due for at most one forced change.
   */
  lemma {:induction false} ForestIsAncestryOverRuns(bs: Blocks, auth: seq<nat>, es: seq<Event>, x: Hash, y: Hash,
      c: PendingChange, o: Oracle)
    requires WellFormed(bs) && AncestorsFirst(bs, es) && forall e :: e in es ==> Genuine(bs, e)
    requires Sound(bs, o) && Announced(bs, c)
    ensures ForestIsAncestry(bs, Run(bs, Genesis(auth), es), x, y, c, o)
  {
    PendingShapeOverRuns(bs, auth, es);
    ShapeIsAncestry(bs, Run(bs, Genesis(auth), es), x, y, c, o);
  }

  /** A scheduled announcement is refused exactly when its block is held or a lookup fails; then nothing changes. */
  ghost predicate RefusedIffHeld(v: View, c: PendingChange, o: Oracle) {
    match AddScheduled(v, c, o).1
    case Ok(_) => c.hash !in Hashes(v.roots)
    case Err(DuplicateHashes) => c.hash in Hashes(v.roots) && AddScheduled(v, c, o).0 == v
    case Err(_) => ImportLookupFailed(v.roots, c, o) && AddScheduled(v, c, o).0 == v
  }

  ghost predicate ForestIsAncestry(bs: Blocks, v: View, x: Hash, y: Hash, c: PendingChange, o: Oracle)
    requires WellFormed(bs)
  {
    && (x in Hashes(v.roots) && y in Hashes(v.roots) ==> (Above(v.roots, x, y) <==> StrictAnc(bs, x, y)))
    && |Hashes(v.roots)| == Size(v.roots)
    && RefusedIffHeld(v, c, o)
    && OneDueAt(bs, v.forced, x)
  }

  lemma {:induction false} ShapeIsAncestry(bs: Blocks, v: View, x: Hash, y: Hash, c: PendingChange, o: Oracle)
    requires WellFormed(bs) && Shape(bs, v.roots) && OnePerFork(bs, v.forced) && Sound(bs, o) && Announced(bs, c)
    ensures ForestIsAncestry(bs, v, x, y, c, o)
  {
    if x in Hashes(v.roots) && y in Hashes(v.roots) { AboveIsAncestry(bs, v.roots, x, y); }
    HashesUnique(bs, v.roots);
    ShapeFirstFit(bs, v.roots);
    AddScheduledMeaning(bs, v, c, o);
    OneDue(bs, v.forced, x);
  }

  ghost predicate OneDueAt(bs: Blocks, l: seq<PendingChange>, h: Hash)
    requires WellFormed(bs)
  {
    forall i: nat, j: nat, n: nat :: i < |l| && j < |l| && Due(bs, l[i], h, n) && Due(bs, l[j], h, n) ==> i == j
  }

  lemma {:induction false} OneDue(bs: Blocks, l: seq<PendingChange>, h: Hash)
    requires WellFormed(bs) && OnePerFork(bs, l)
    ensures OneDueAt(bs, l, h)
  {
    forall i: nat, j: nat, n: nat | i < |l| && j < |l| && Due(bs, l[i], h, n) && Due(bs, l[j], h, n) ensures i == j {
      AtMostOneDue(bs, l, i, j, h, n);
    }
  }

  // ---------------------------------------------------------------- the forest over runs in any order

  /** Every change held is one announced by the run, with all its fields. */
  ghost predicate AsAnnounced(v: View, es: seq<Event>) {
    && (forall x :: x in Contents(v.roots) ==> AnnouncedBy(es, x))
    && (forall x :: x in v.forced ==> exists i :: 0 <= i < |es| && es[i].Forced? && es[i].change == x)
  }

  ghost predicate AnnouncedBy(es: seq<Event>, x: PendingChange) {
    exists i :: 0 <= i < |es| && es[i].Scheduled? && es[i].change == x
  }

  lemma {:induction false} FinalisedAnyOrder(bs: Blocks, v: View, h: Hash, o: Oracle)
    requires WellFormed(bs) && FirstFit(bs, v.roots) && Sound(bs, o) && h in bs
    ensures var v' := ApplyScheduled(v, h, Height(bs, h), o).0;
      && FirstFit(bs, v'.roots) && Contents(v'.roots) <= Contents(v.roots)
      && forall x :: x in v'.forced ==> x in v.forced
  {
    FirstFitDescending(bs, v.roots);
    ApplyScheduledMeaning(bs, v, h, Height(bs, h), o);
    PruneForcedMeaning(bs, v.forced, h, o);
    KeptFirstFit(bs, v.roots, h);
    KeptContents(bs, v.roots, h);
    var v' := ApplyScheduled(v, h, Height(bs, h), o).0;
    if v'.setId != v.setId {
      var i: nat :| FirstRipe(bs, v.roots, i, h, Height(bs, h)) && EnactedScheduled(v, v', v.roots[i]);
      InnerFirstFit(bs, v.roots, i);
    }
  }

  lemma {:induction false} AnyOrderStep(bs: Blocks, v: View, e: Event)
    requires WellFormed(bs) && FirstFit(bs, v.roots) && Genuine(bs, e)
    ensures var v' := Step(bs, v, e);
      && FirstFit(bs, v'.roots)
      && (forall x :: x in Contents(v'.roots) ==> x in Contents(v.roots) || (e.Scheduled? && x == e.change))
      && (forall x :: x in v'.forced ==> x in v.forced || (e.Forced? && x == e.change))
  {
    match e {
      case Scheduled(c, o) => AddScheduledMeaning(bs, v, c, o);
      case Forced(c, o) => AddForcedMeaning(bs, v, c, o);
      case Finalised(h, o) => FinalisedAnyOrder(bs, v, h, o);
      case Imported(h, o) => ApplyForcedMeaning(bs, v, h, Height(bs, h), o);
    }
  }

  lemma {:induction false} AsAnnouncedStep(v: View, v': View, es: seq<Event>)
    requires es != [] && AsAnnounced(v, es[..|es| - 1])
    requires var e := es[|es| - 1];
      forall x :: x in Contents(v'.roots) ==> x in Contents(v.roots) || (e.Scheduled? && x == e.change)
    requires var e := es[|es| - 1]; forall x :: x in v'.forced ==> x in v.forced || (e.Forced? && x == e.change)
    ensures AsAnnounced(v', es)
  {
    var k := |es| - 1;
    forall x | x in Contents(v'.roots) ensures AnnouncedBy(es, x) {
      if x in Contents(v.roots) {
        var i :| 0 <= i < k && es[..k][i].Scheduled? && es[..k][i].change == x;
        assert es[i] == es[..k][i];
      } else {
        assert es[k].change == x;
      }
    }
    forall x | x in v'.forced ensures exists i :: 0 <= i < |es| && es[i].Forced? && es[i].change == x {
      if x in v.forced {
        var i :| 0 <= i < k && es[..k][i].Forced? && es[..k][i].change == x;
        assert es[i] == es[..k][i];
      } else {
        assert es[k].change == x;
      }
    }
  }

  /**
   Over every run, with announcements in any order: what is pending was announced just so, and a further
   scheduled announcement is refused exactly when its block's change is pending.
   */
  lemma {:induction false} AnyOrderOverRuns(bs: Blocks, auth: seq<nat>, es: seq<Event>, c: PendingChange, o: Oracle)
    requires WellFormed(bs) && (forall e :: e in es ==> Genuine(bs, e)) && Sound(bs, o) && Announced(bs, c)
    ensures var v := Run(bs, Genesis(auth), es);
      FirstFit(bs, v.roots) && AsAnnounced(v, es) && RefusedIffHeld(v, c, o)
  {
    if es != [] {
      var before := es[..|es| - 1];
      AnyOrderOverRuns(bs, auth, before, c, o);
      AnyOrderStep(bs, Run(bs, Genesis(auth), before), es[|es| - 1]);
      AsAnnouncedStep(Run(bs, Genesis(auth), before), Run(bs, Genesis(auth), es), es);
    }
    AddScheduledMeaning(bs, Run(bs, Genesis(auth), es), c, o);
  }

  // ---------------------------------------------------------------- the set history over runs

  /** A change enacted while finalising block `at`. */
  datatype Enacted = Enacted(at: Hash, change: PendingChange)

  /** A run's state together with the last finalised block and the changes enacted so far. */
  datatype History = History(v: View, fin: Hash, enacted: seq<Enacted>)

  ghost function StepHistory(bs: Blocks, s: History, e: Event): History {
    var v' := Step(bs, s.v, e);
    match e
    case Finalised(h, o) =>
      var found := FindApplicableChange(s.v.roots, h, Height(bs, h), o);
      if v'.setId == s.v.setId || found.Err? || found.value.None? then History(v', h, s.enacted)
      else History(v', h, s.enacted + [Enacted(h, found.value.value.change)])
    case _ => s.(v := v')
  }

  ghost function RunHistory(bs: Blocks, auth: seq<nat>, genesis: Hash, es: seq<Event>): History {
    if es == [] then History(Genesis(auth), genesis, [])
    else StepHistory(bs, RunHistory(bs, auth, genesis, es[..|es| - 1]), es[|es| - 1])
  }

  /** Finalised blocks form a chain, no change is announced by a block already finalised, and none is forced. */
  ghost predicate Allowed(bs: Blocks, s: History, e: Event)
    requires WellFormed(bs)
  {
    match e
    case Scheduled(c, _) => !AncOrEq(bs, c.hash, s.fin)
    case Finalised(h, _) => AncOrEq(bs, s.fin, h)
    case Imported(_, _) => true
    case Forced(_, _) => false
  }

  ghost predicate AllowedRun(bs: Blocks, auth: seq<nat>, genesis: Hash, es: seq<Event>)
    requires WellFormed(bs)
  {
    && genesis in bs && bs[genesis].number == 0
    && forall i :: 0 <= i < |es| ==>
         Genuine(bs, es[i]) && Allowed(bs, RunHistory(bs, auth, genesis, es[..i]), es[i])
  }

  /** The last block at which a change was enacted, the genesis block before the first. */
  ghost function LastAt(genesis: Hash, enacted: seq<Enacted>): Hash {
    if enacted == [] then genesis else enacted[|enacted| - 1].at
  }

  /** Each enacted change takes effect above the block that enacted the last one, and not above its own. */
  ghost predicate Interleaved(bs: Blocks, enacted: seq<Enacted>) {
    && (forall i :: 0 <= i < |enacted| ==>
          enacted[i].change.number <= enacted[i].change.EffectiveNumber() <= Height(bs, enacted[i].at))
    && (enacted != [] ==> 0 < enacted[0].change.number)
    && (forall i :: 0 < i < |enacted| ==> Height(bs, enacted[i - 1].at) < enacted[i].change.number)
  }

  ghost predicate HistoryInv(bs: Blocks, genesis: Hash, s: History)
    requires WellFormed(bs)
  {
    && s.fin in bs && AncOrEq(bs, genesis, s.fin)
    && LastAt(genesis, s.enacted) in bs
    && AncOrEq(bs, LastAt(genesis, s.enacted), s.fin)
    && Descending(bs, s.v.roots)
    && (forall h :: h in Hashes(s.v.roots) ==> !AncOrEq(bs, h, LastAt(genesis, s.enacted)))
    && Recorded(s)
    && Interleaved(bs, s.enacted)
    && s.v.forced == []
  }

  /** The database rows are the enacted changes, in order, under contiguous set IDs. */
  ghost predicate Recorded(s: History) {
    && s.v.setId == |s.enacted|
    && (forall i: nat :: i in s.v.changes <==> i <= |s.enacted|)
    && s.v.changes[0] == 0
    && (forall i: nat :: 1 <= i <= |s.enacted| ==> s.v.changes[i] == s.enacted[i - 1].change.EffectiveNumber())
    && (forall i: nat :: 1 <= i <= |s.enacted| ==>
          i in s.v.authorities && s.v.authorities[i] == s.enacted[i - 1].change.authorities)
  }

  lemma {:induction false} ScheduledHistoryStep(bs: Blocks, genesis: Hash, s: History, e: Event)
    requires WellFormed(bs) && HistoryInv(bs, genesis, s) && Genuine(bs, e) && Allowed(bs, s, e) && e.Scheduled?
    ensures HistoryInv(bs, genesis, StepHistory(bs, s, e))
  {
    var c := e.change;
    if ImportInto(s.v.roots, c, e.o).Ok? {
      ImportKeepsDescending(bs, s.v.roots, c, e.o);
      var last := LastAt(genesis, s.enacted);
      if AncOrEq(bs, c.hash, last) { AncTransitive(bs, c.hash, last, s.fin); }
    }
  }

  lemma {:induction false} FinalisedHistoryStep(bs: Blocks, genesis: Hash, s: History, e: Event)
    requires WellFormed(bs) && HistoryInv(bs, genesis, s) && Genuine(bs, e) && Allowed(bs, s, e) && e.Finalised?
    ensures HistoryInv(bs, genesis, StepHistory(bs, s, e))
  {
    var h, o := e.hash, e.o;
    var s' := StepHistory(bs, s, e);
    var last := LastAt(genesis, s.enacted);
    AncTransitive(bs, genesis, s.fin, h);
    AncTransitive(bs, last, s.fin, h);
    var found := FindApplicableChange(s.v.roots, h, Height(bs, h), o);
    if s.v.roots != [] && found.Ok? {
      if found.value.Some? {
        EnactingHistoryStep(bs, genesis, s, h, o);
      } else if PruneChanges(s.v.roots, h, o).Ok? {
        PruneKeepsDescending(bs, s.v.roots, h, o);
      }
    }
  }

  /** A finalisation that enacts a change. */
  lemma {:induction false} EnactingHistoryStep(bs: Blocks, genesis: Hash, s: History, h: Hash, o: Oracle)
    requires WellFormed(bs) && HistoryInv(bs, genesis, s) && Sound(bs, o) && h in bs
    requires AncOrEq(bs, genesis, h) && AncOrEq(bs, LastAt(genesis, s.enacted), h)
    requires var found := FindApplicableChange(s.v.roots, h, Height(bs, h), o); found.Ok? && found.value.Some?
    ensures var n := FindApplicableChange(s.v.roots, h, Height(bs, h), o).value.value;
      HistoryInv(bs, genesis, History(Enact(s.v.(roots := n.nodes), n.change), h, s.enacted + [Enacted(h, n.change)]))
  {
    var last := LastAt(genesis, s.enacted);
    var n := FindApplicableChange(s.v.roots, h, Height(bs, h), o).value.value;
    ApplicableMeaning(bs, s.v.roots, h, Height(bs, h), o);
    EnactedAbove(bs, last, n.change, h);
    EnactedInterleaved(bs, s.enacted, Enacted(h, n.change));
    EnactedRecorded(s, n, h);
  }

  /** A change on the finalised chain that was not finalised when the last one was enacted lies above it. */
  lemma {:induction false} EnactedAbove(bs: Blocks, last: Hash, c: PendingChange, h: Hash)
    requires WellFormed(bs) && last in bs && Announced(bs, c)
    requires AncOrEq(bs, last, h) && AncOrEq(bs, c.hash, h) && !AncOrEq(bs, c.hash, last)
    ensures bs[last].number < c.number
  {
    AncComparable(bs, last, c.hash, h);
    AncHeight(bs, last, c.hash);
  }

  lemma {:induction false} EnactedInterleaved(bs: Blocks, enacted: seq<Enacted>, en: Enacted)
    requires Interleaved(bs, enacted)
    requires en.change.EffectiveNumber() <= Height(bs, en.at)
    requires (if enacted == [] then 0 else Height(bs, enacted[|enacted| - 1].at)) < en.change.number
    ensures Interleaved(bs, enacted + [en])
  {
    var all := enacted + [en];
    assert forall i :: 0 <= i < |enacted| ==> all[i] == enacted[i];
  }

  lemma {:induction false} EnactedRecorded(s: History, n: ChangeNode, h: Hash)
    requires Recorded(s)
    ensures Recorded(History(Enact(s.v.(roots := n.nodes), n.change), h, s.enacted + [Enacted(h, n.change)]))
  {
    var all := s.enacted + [Enacted(h, n.change)];
    assert forall i :: 0 <= i < |s.enacted| ==> all[i] == s.enacted[i];
  }

  lemma {:induction false} HistoryInvOverRuns(bs: Blocks, auth: seq<nat>, genesis: Hash, es: seq<Event>)
    requires WellFormed(bs) && AllowedRun(bs, auth, genesis, es)
    ensures HistoryInv(bs, genesis, RunHistory(bs, auth, genesis, es))
  {
    if es != [] {
      var k := |es| - 1;
      var before := es[..k];
      forall i | 0 <= i < |before| ensures
          Genuine(bs, before[i]) && Allowed(bs, RunHistory(bs, auth, genesis, before[..i]), before[i]) {
        assert before[..i] == es[..i] && before[i] == es[i];
      }
      HistoryInvOverRuns(bs, auth, genesis, before);
      var s := RunHistory(bs, auth, genesis, before);
      assert Genuine(bs, es[k]) && Allowed(bs, s, es[k]);
      if es[k].Scheduled? {
        ScheduledHistoryStep(bs, genesis, s, es[k]);
      } else if es[k].Finalised? {
        FinalisedHistoryStep(bs, genesis, s, es[k]);
      }
    }
  }

  lemma {:induction false} EffectiveIncreasing(bs: Blocks, enacted: seq<Enacted>, i: nat, j: nat)
    requires Interleaved(bs, enacted) && i < j < |enacted|
    ensures enacted[i].change.EffectiveNumber() < enacted[j].change.EffectiveNumber()
    ensures Height(bs, enacted[i].at) < Height(bs, enacted[j].at)
  {
    if i < j - 1 { EffectiveIncreasing(bs, enacted, i, j - 1); }
  }

  lemma {:induction false} RowsIncrease(bs: Blocks, s: History)
    requires Recorded(s) && Interleaved(bs, s.enacted)
    ensures IncreasingTo(s.v.changes, s.v.setId)
  {
    forall i: nat, j: nat | i < j <= s.v.setId ensures s.v.changes[i] < s.v.changes[j] {
      if i > 0 {
        EffectiveIncreasing(bs, s.enacted, i - 1, j - 1);
      } else if j > 1 {
        EffectiveIncreasing(bs, s.enacted, 0, j - 1);
      }
    }
  }

  /**
   Over every such run: set IDs are contiguous from 0, their change numbers strictly increase, every
   enacted change is one finalised block's and no finalised height enacts two.
   */
  lemma {:induction false} SetHistoryOverRuns(bs: Blocks, auth: seq<nat>, genesis: Hash, es: seq<Event>)
    requires WellFormed(bs) && AllowedRun(bs, auth, genesis, es)
    ensures var s := RunHistory(bs, auth, genesis, es);
      && s.v == Run(bs, Genesis(auth), es)
      && Recorded(s)
      && IncreasingTo(s.v.changes, s.v.setId)
      && (forall i, j :: 0 <= i < j < |s.enacted| ==> Height(bs, s.enacted[i].at) < Height(bs, s.enacted[j].at))
  {
    HistoryInvOverRuns(bs, auth, genesis, es);
    HistoryFollowsRun(bs, auth, genesis, es);
    var s := RunHistory(bs, auth, genesis, es);
    RowsIncrease(bs, s);
    forall i, j | 0 <= i < j < |s.enacted| ensures Height(bs, s.enacted[i].at) < Height(bs, s.enacted[j].at) {
      EffectiveIncreasing(bs, s.enacted, i, j);
    }
  }

  /**
   Nothing is enacted too early or too late: after every such run a finalisation whose lookups are answered
   enacts exactly the first root that is ripe, if none of that root's children is finalised, and nothing otherwise.
   */
  lemma {:induction false} EnactedIffRipeOverRuns(bs: Blocks, auth: seq<nat>, genesis: Hash, es: seq<Event>, h: Hash,
      o: Oracle)
    requires WellFormed(bs) && AllowedRun(bs, auth, genesis, es) && h in bs && Sound(bs, o)
    requires !FinalisedLookupFailed(RunHistory(bs, auth, genesis, es).v, h, o)
    ensures var s := RunHistory(bs, auth, genesis, es);
      var s' := RunHistory(bs, auth, genesis, es + [Finalised(h, o)]);
      && (NoneRipe(bs, s.v.roots, h, Height(bs, h)) ==> s'.enacted == s.enacted && s'.v.setId == s.v.setId)
      && (forall i: nat :: FirstRipe(bs, s.v.roots, i, h, Height(bs, h)) ==>
            if ChildPassed(bs, s.v.roots[i], h) then s'.enacted == s.enacted && s'.v.setId == s.v.setId
            else s'.enacted == s.enacted + [Enacted(h, s.v.roots[i].change)] && s'.v.setId == s.v.setId + 1)
  {
    var s := RunHistory(bs, auth, genesis, es);
    var all := es + [Finalised(h, o)];
    assert all[..|all| - 1] == es;
    HistoryInvOverRuns(bs, auth, genesis, es);
    FindApplicableIff(bs, s.v.roots, h, Height(bs, h), o);
    ApplyScheduledMeaning(bs, s.v, h, Height(bs, h), o);
  }

  lemma {:induction false} HistoryFollowsRun(bs: Blocks, auth: seq<nat>, genesis: Hash, es: seq<Event>)
    ensures RunHistory(bs, auth, genesis, es).v == Run(bs, Genesis(auth), es)
  {
    if es != [] { HistoryFollowsRun(bs, auth, genesis, es[..|es| - 1]); }
  }

  /** How many of the enacted changes took effect below block `b`. */
  ghost function EnactedBelow(enacted: seq<Enacted>, b: nat): nat {
    if enacted == [] then 0
    else
      EnactedBelow(enacted[..|enacted| - 1], b) +
      if enacted[|enacted| - 1].change.EffectiveNumber() < b then 1 else 0
  }

  /** End to end: after every such run the set of a block is the count of changes enacted below it. */
  lemma {:induction false} SetOfBlockOverRuns(bs: Blocks, auth: seq<nat>, genesis: Hash, es: seq<Event>, b: nat, r: nat)
    requires WellFormed(bs) && AllowedRun(bs, auth, genesis, es)
    ensures var s := RunHistory(bs, auth, genesis, es);
      && IncreasingTo(s.v.changes, s.v.setId)
      && (InSet(s.v.changes, s.v.setId, r, b) <==> r == EnactedBelow(s.enacted, b))
  {
    HistoryInvOverRuns(bs, auth, genesis, es);
    CountIsSet(bs, RunHistory(bs, auth, genesis, es), b, r);
  }

  lemma {:induction false} CountIsSet(bs: Blocks, s: History, b: nat, r: nat)
    requires Recorded(s) && Interleaved(bs, s.enacted)
    ensures IncreasingTo(s.v.changes, s.v.setId)
    ensures InSet(s.v.changes, s.v.setId, r, b) <==> r == EnactedBelow(s.enacted, b)
  {
    RowsIncrease(bs, s);
    CountIsBoundary(bs, s.enacted, b);
    var q := EnactedBelow(s.enacted, b);
    if q > 0 { assert s.v.changes[q] == s.enacted[q - 1].change.EffectiveNumber(); }
    if q < s.v.setId { assert s.v.changes[q + 1] == s.enacted[q].change.EffectiveNumber(); }
    if InSet(s.v.changes, s.v.setId, r, b) { InSetUnique(s.v.changes, s.v.setId, r, q, b); }
  }

  lemma {:induction false} InterleavedPrefix(bs: Blocks, enacted: seq<Enacted>)
    requires enacted != [] && Interleaved(bs, enacted)
    ensures Interleaved(bs, enacted[..|enacted| - 1])
  {
    var en := enacted[..|enacted| - 1];
    assert forall i :: 0 <= i < |en| ==> en[i] == enacted[i];
  }

  lemma {:induction false} CountIsBoundary(bs: Blocks, enacted: seq<Enacted>, b: nat)
    requires Interleaved(bs, enacted)
    ensures EnactedBelow(enacted, b) <= |enacted|
    ensures forall i ::
      0 <= i < |enacted| ==> (enacted[i].change.EffectiveNumber() < b <==> i < EnactedBelow(enacted, b))
  {
    if enacted != [] {
      var k := |enacted| - 1;
      InterleavedPrefix(bs, enacted);
      CountIsBoundary(bs, enacted[..k], b);
      forall i | 0 <= i < k
        ensures enacted[i].change.EffectiveNumber() < enacted[k].change.EffectiveNumber()
        ensures enacted[i].change.EffectiveNumber() < b <==> i < EnactedBelow(enacted[..k], b)
      {
        EffectiveIncreasing(bs, enacted, i, k);
        assert enacted[..k][i] == enacted[i];
      }
    }
  }

  // ---------------------------------------------------------------- forced changes and the history

  /** The finalised block a change names lies above the previous set's number, and its effective block above that. */
  predicate FitsHistory(v: View, c: PendingChange) {
    && (v.setId > 0 ==> v.setId - 1 in v.changes && v.changes[v.setId - 1] < c.bestFinalized)
    && c.bestFinalized < c.EffectiveNumber()
  }

  /**
   Enacting a forced change rewrites the current set's own number. Exactly when the history stays
   strictly increasing: nothing is enacted, or what is enacted fits. The source does not look.
   */
  lemma {:induction false} ForcedKeepsIncreasingIff(v: View, hash: Hash, number: nat, o: Oracle)
    requires IncreasingTo(v.changes, v.setId)
    ensures var (v', r) := ApplyForced(v, hash, number, o);
      var found := FindForced(v.forced, hash, number, o);
      IncreasingTo(v'.changes, v'.setId) <==> (r.Ok? && found.value.Some? ==> FitsHistory(v, found.value.value))
  {
    var found := FindForced(v.forced, hash, number, o);
    if ApplyForced(v, hash, number, o).1.Ok? && found.value.Some? {
      OverwriteIncreasing(v.changes, v.setId, found.value.value.bestFinalized, found.value.value.EffectiveNumber());
    }
  }

  /** A run that ends with the sets out of order: set 0 is said to begin at 5, set 1 at 2. */
  lemma {:induction false} ForcedCanUnorder(o: Oracle)
    requires o(1, 2) == Ok(true)
    ensures var v := Run(ChainOf3(), Genesis([]), [Forced(PendingChange(1, 1, 1, 5, []), o), Imported(2, o)]);
      v.setId == 1 && v.changes == map[0 := 5, 1 := 2] && !IncreasingTo(v.changes, v.setId)
  {
    var bs, c := ChainOf3(), PendingChange(1, 1, 1, 5, []);
    var es := [Forced(c, o), Imported(2, o)];
    assert es[..1] == [Forced(c, o)] && es[..1][..0] == [];
    var v0 := Genesis([]);
    assert Run(bs, v0, []) == v0;
    assert ForcedChanges.Insert([], c) == [c];
    var v1 := Run(bs, v0, es[..1]);
    assert v1 == v0.(forced := [c]);
    assert v1.forced[1..] == [];
    var v := Run(bs, v0, es);
    assert v == Step(bs, v1, es[1]);
    assert v.changes[0] == 5 && v.changes[1] == 2;
  }

  lemma {:induction false} OverwriteIncreasing(ch: map<nat, nat>, top: nat, own: nat, next: nat)
    requires IncreasingTo(ch, top)
    ensures IncreasingTo(ch[top := own][top + 1 := next], top + 1) <==>
      (top > 0 ==> ch[top - 1] < own) && own < next
  {
    var ch' := ch[top := own][top + 1 := next];
    if (top > 0 ==> ch[top - 1] < own) && own < next {
      forall i: nat, j: nat | i < j <= top + 1 ensures ch'[i] < ch'[j] {
        if i < top && j >= top {
          assert i == top - 1 || ch[i] < ch[top - 1];
        }
      }
    } else {
      assert ch'[top] >= ch'[top + 1] || (top > 0 && ch'[top - 1] >= ch'[top]);
    }
  }
}
