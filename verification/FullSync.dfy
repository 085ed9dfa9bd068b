/**
 The full-sync strategy: usable responses are joined with parked fragments, sorted, merged, and either
 handed to the importer, dropped, or parked with a request for the missing parent.
 */
module FullSync {
  import opened Basics
  import opened Fragments
  import opened SyncResults
  import opened SyncGather
  import opened SyncImport

  /** The request for the blocks before a parked fragment. */
  function AncestorRequest(f: Fragment): Request
    requires Chain(f)
  {
    Request(First(f).header.value.parent, true, true, true)
  }

  /** One request per parked fragment, in order: from the missing parent down, with headers and bodies. */
  function AncestorRequests(fs: seq<Fragment>): (qs: seq<Request>)
    requires forall i {:trigger fs[i]} :: 0 <= i < |fs| ==> Chain(fs[i])
    ensures |qs| == |fs| && forall i {:trigger fs[i]} :: 0 <= i < |fs| ==>
      Chain(fs[i]) && qs[i] == Request(fs[i][0].header.value.parent, true, true, true)
  {
    seq(|fs|, i requires 0 <= i < |fs| => AncestorRequest(fs[i]))
  }

  /** The fragments without a block at or below a height, in order. */
  ghost function Higher(fs: seq<Fragment>, fin: nat): seq<Fragment> {
    if fs == [] then []
    else
      var n := |fs| - 1;
      Higher(fs[..n], fin) + if HasLow(fs[n], fin) then [] else [fs[n]]
  }

  ghost function IfHigh(fin: nat): Fragment -> seq<Fragment> {
    (f: Fragment) => if HasLow(f, fin) then [] else [f]
  }

  lemma {:induction false} HigherCollects(fs: seq<Fragment>, fin: nat)
    ensures Higher(fs, fin) == Collected(fs, IfHigh(fin))
  {
    if fs != [] { HigherCollects(fs[..|fs| - 1], fin); }
  }

  lemma {:induction false} HigherExactly(fs: seq<Fragment>, fin: nat) returns (at: seq<nat>)
    ensures Positions(at, |fs|) && |Higher(fs, fin)| == |at|
    ensures forall k {:trigger at[k]} :: 0 <= k < |at| ==> Higher(fs, fin)[k] == fs[at[k]]
    ensures forall i: nat {:trigger i in at} :: i in at <==>
      i < |fs| && forall b :: b in fs[i] && b.header.Some? ==> fin < b.header.value.number
  {
    HigherCollects(fs, fin);
    at := CollectedAt(fs, IfHigh(fin));
  }

  /** The announced blocks above a height. */
  ghost predicate AwaitedAbove(m: map<Hash, Data>, fin: nat, m': map<Hash, Data>) {
    && (forall h {:trigger h in m'} :: h in m' <==> h in m && m[h].header.Some? && fin < m[h].header.value.number)
    && (forall h {:trigger m'[h]} :: h in m' ==> m'[h] == m[h])
  }

  /** Searches a fragment for a block at or below a number. */
  method LowerThanOrEq(f: Fragment, n: nat) returns (b: bool)
    requires Headed(f)
    ensures b == HasLow(f, n)
  {
    var i := 0;
    while i < |f|
      invariant 0 <= i <= |f| && forall k :: 0 <= k < i ==> Number(f[k]) > n
    {
      if Number(f[i]) <= n { return true; }
      i := i + 1;
    }
    return false;
  }

  ghost predicate HasLow(f: Fragment, n: nat) {
    exists b :: b in f && b.header.Some? && Number(b) <= n
  }

  lemma {:induction false} RequestsConcat(fs: seq<Fragment>, gs: seq<Fragment>)
    requires Chains(fs) && Chains(gs)
    ensures Chains(fs + gs) && AncestorRequests(fs + gs) == AncestorRequests(fs) + AncestorRequests(gs)
  {
  }

  // ---------------------------------------------------------------- the strategy

  class Strategy {
    var disjoint: seq<Fragment>
    var incomplete: map<Hash, Data>
    var queue: seq<Request>
    var synced: nat

    ghost predicate Valid()
      reads this
    {
      && Chains(disjoint)
      && Announced(incomplete)
    }

    constructor ()
      ensures Valid() && disjoint == [] && incomplete == map[] && queue == []
    {
      disjoint, incomplete, queue, synced := [], map[], [], 0;
    }

    /** An announced block whose body is still to be fetched. */
    method NewIncompleteBlock(hash: Hash, header: Header)
      requires Valid()
      modifies this`incomplete
      ensures Valid() && incomplete == old(incomplete)[hash := Data(hash, Some(header), None, None)]
    {
      incomplete := incomplete[hash := Data(hash, Some(header), None, None)];
    }

    /** Joins a chain with the first parked fragment it continues or is continued by. An empty one is fatal. */
    method UpdateDisjointFragments(chain: Fragment) returns (r: Result<Option<Fragment>, SyncError>)
      requires Valid() && Linked(chain)
      modifies this`disjoint
      ensures Valid()
      ensures (r.Err? <==> chain == [] && old(disjoint) != [])
      ensures (r.Err? ==> r.error.NilBlock? && disjoint == old(disjoint))
      ensures r.Ok? && r.value.None? ==> disjoint == old(disjoint) && FitsNone(disjoint, chain)
      ensures r.Ok? && r.value.Some? ==>
        Chain(r.value.value) && JoinedWithOne(old(disjoint), chain, r.value.value, disjoint)
    {
      var i := 0;
      while i < |disjoint|
        invariant 0 <= i <= |disjoint| && disjoint == old(disjoint) && (i > 0 ==> chain != [])
        invariant FitsNone(disjoint[..i], chain)
      {
        if chain == [] { return Err(NilBlock); }
        var d := disjoint[i];
        var joined: Option<Fragment> := None;
        if IsParent(Last(chain), First(d)) {
          ConcatChain(chain, d);
          joined := Some(chain + d);
        }
        if IsParent(Last(d), First(chain)) {
          ConcatChain(d, chain);
          joined := Some(d + chain);
        }
        if joined.Some? {
          disjoint := disjoint[..i] + disjoint[i + 1..];
          return Ok(joined);
        }
        assert disjoint[..i + 1] == disjoint[..i] + [d];
        i := i + 1;
      }
      assert disjoint[..i] == disjoint;
      return Ok(None);
    }

    /** Completes announced blocks with the parts that arrived; each becomes a fragment of its own. */
    method UpdateIncompleteBlocks(chain: Fragment) returns (completed: seq<Fragment>)
      requires Valid()
      modifies this`incomplete
      ensures Valid() && completed == Completed(old(incomplete), chain)
      ensures incomplete == old(incomplete) - Hashes(chain)
    {
      completed := [];
      var i := 0;
      while i < |chain|
        invariant 0 <= i <= |chain| && Valid()
        invariant incomplete == old(incomplete) - Hashes(chain[..i])
        invariant completed + Completed(incomplete, chain[i..]) == Completed(old(incomplete), chain)
      {
        var d := chain[i];
        assert chain[..i + 1] == chain[..i] + [d] && chain[i..][1..] == chain[i + 1..];
        assert Hashes(chain[..i + 1]) == Hashes(chain[..i]) + {d.hash};
        if d.hash in incomplete {
          var whole := incomplete[d.hash].(body := d.body, justification := d.justification);
          incomplete := incomplete - {d.hash};
          completed := completed + [[whole]];
        }
        i := i + 1;
      }
      assert chain[..i] == chain;
    }

    /** Adds what one response makes ready. */
    method CollectOne(resp: Response, ready: seq<Fragment>, fin: nat) returns (r: Result<seq<Fragment>, SyncError>)
      requires Valid() && Pieces(ready) && (resp.request.header ==> Linked(resp.data))
      modifies this`disjoint, this`incomplete
      ensures Valid()
      ensures r.Err? ==> r.error.NilBlock? && resp.request.header && resp.data == []
      ensures r.Ok? ==>
        Gathers(resp, fin, Stage(ready, old(disjoint), old(incomplete)), Stage(r.value, disjoint, incomplete))
    {
      if resp.request.header {
        var updated := UpdateDisjointFragments(resp.data);
        if updated.Err? { return Err(updated.error); }
        var joined := updated.value;
        if joined.Some? {
          var above := Filter(joined.value, fin);
          r := Ok(if |above| > 0 then ready + [above] else ready);
          assert r.value == ready + Lifted(joined.value, fin);
        } else {
          r := Ok(ready + [resp.data]);
        }
      } else {
        var completed := UpdateIncompleteBlocks(resp.data);
        r := Ok(ready + completed);
      }
    }

    method Collect(valid: seq<Response>, fin: nat)
      returns (r: Result<seq<Fragment>, SyncError>, ghost steps: seq<Stage>)
      requires Valid() && AllLinked(valid)
      modifies this`disjoint, this`incomplete
      ensures Valid()
      ensures r.Err? ==> r.error.NilBlock? && HasEmpty(valid)
      ensures r.Ok? ==> Gathering(steps, valid, fin, old(disjoint), old(incomplete))
      ensures r.Ok? ==> steps[|valid|] == Stage(r.value, disjoint, incomplete)
      ensures r.Ok? ==> GatheredFrom(old(disjoint), old(incomplete), valid, fin, r.value, disjoint, incomplete)
    {
      var ready: seq<Fragment> := [];
      var i := 0;
      steps := [Stage([], disjoint, incomplete)];
      GatheredNone(disjoint, incomplete, fin);
      assert valid[..0] == [];
      while i < |valid|
        invariant 0 <= i <= |valid| && Valid()
        invariant Gathering(steps, valid[..i], fin, old(disjoint), old(incomplete))
        invariant steps[i] == Stage(ready, disjoint, incomplete)
        invariant GatheredFrom(old(disjoint), old(incomplete), valid[..i], fin, ready, disjoint, incomplete)
      {
        ghost var had := steps[i];
        var more := CollectOne(valid[i], ready, fin);
        if more.Err? { return more, steps; }
        ready := more.value;
        ghost var now := Stage(ready, disjoint, incomplete);
        GatheringNext(steps, valid, i, fin, old(disjoint), old(incomplete), now);
        GatherNext(old(disjoint), old(incomplete), valid, i, fin, had, now);
        steps := steps + [now];
        i := i + 1;
      }
      assert valid[..i] == valid;
      r := Ok(ready);
    }

    /** The one pass over fragments whose parent was unknown: admit, drop, or park and ask for the parent. */
    method Triage(rest: seq<Fragment>, w: World) returns (next: seq<Data>, ghost parked: seq<Fragment>)
      requires Valid() && Chains(rest)
      modifies this`disjoint, this`queue
      ensures Valid() && next == Admitted(rest, w) && parked == ParkedOf(rest, w) && Chains(parked)
      ensures disjoint == old(disjoint) + parked && queue == old(queue) + AncestorRequests(parked)
      ensures Grounded(next, w.known)
      ensures forall f :: f in parked ==> Orphan(f, w) && !Hopeless(f, w)
      ensures forall b :: Holds(rest, b) ==> Settled(next, parked, rest, w, b)
      ensures forall b :: b in next ==> Holds(rest, b) && b.header.Some? && Number(b) > w.fin
    {
      next, parked := [], [];
      var i := 0;
      while i < |rest|
        invariant 0 <= i <= |rest| && Valid() && Chains(parked) && Chains(rest[..i])
        invariant next == Admitted(rest[..i], w) && parked == ParkedOf(rest[..i], w)
        invariant disjoint == old(disjoint) + parked && queue == old(queue) + AncestorRequests(parked)
      {
        assert rest[..i + 1][..i] == rest[..i];
        var more;
        ghost var park;
        more, park := TriageOne(rest[i], w);
        RequestsConcat(parked, park);
        next, parked := next + more, parked + park;
        i := i + 1;
      }
      assert rest[..i] == rest;
      TriageMeaning(rest, w);
    }

    method TriageOne(f: Fragment, w: World) returns (next: seq<Data>, ghost parked: seq<Fragment>)
      requires Valid() && Chain(f)
      modifies this`disjoint, this`queue
      ensures Valid() && next == Admitted1(f, w) && parked == Parked1(f, w) && Chains(parked)
      ensures disjoint == old(disjoint) + parked && queue == old(queue) + AncestorRequests(parked)
    {
      next, parked := [], [];
      var above := Filter(f, w.fin);
      AboveChain(f, w.fin);
      if |above| == 0 { return; }
      if First(above).header.value.parent in w.known {
        next := above;
      } else if Number(First(above)) - 1 > w.fin {
        disjoint := disjoint + [above];
        queue := queue + [AncestorRequest(above)];
        parked := [above];
        assert AncestorRequests([above]) == [AncestorRequest(above)];
      }
    }

    /** Forgets fragments and announced blocks that reach down to the finalised height. */
    method PruneUnready(fin: nat)
      requires Valid()
      modifies this`disjoint, this`incomplete
      ensures Valid() && disjoint == Higher(old(disjoint), fin) && AwaitedAbove(old(incomplete), fin, incomplete)
    {
      var kept: seq<Fragment> := [];
      var i := 0;
      while i < |disjoint|
        invariant 0 <= i <= |disjoint| && Chains(kept) && disjoint == old(disjoint) && incomplete == old(incomplete)
        invariant kept == Higher(disjoint[..i], fin)
      {
        assert disjoint[..i + 1][..i] == disjoint[..i];
        var low := LowerThanOrEq(disjoint[i], fin);
        if !low { kept := kept + [disjoint[i]]; }
        i := i + 1;
      }
      assert disjoint[..i] == disjoint;
      disjoint := kept;
      incomplete := map h | h in incomplete && Number(incomplete[h]) > fin :: incomplete[h];
    }

    /** The fragments made ready, sorted and merged, and what was parked before and stays so. */
    method Prepare(valid: seq<Response>, fin: nat)
      returns (r: Result<seq<Fragment>, SyncError>, ghost steps: seq<Stage>)
      requires Valid() && AllLinked(valid)
      modifies this`disjoint, this`incomplete
      ensures Valid()
      ensures r.Err? ==> r.error.NilBlock? && HasEmpty(valid)
      ensures r.Ok? ==> Gathering(steps, valid, fin, old(disjoint), old(incomplete))
      ensures r.Ok? ==> steps[|valid|].parked == disjoint && steps[|valid|].awaited == incomplete
      ensures r.Ok? ==>
        GatheredFrom(old(disjoint), old(incomplete), valid, fin, steps[|valid|].ready, disjoint, incomplete)
      ensures r.Ok? ==> Merges(steps[|valid|].ready, r.value) && ([] in r.value <==> HasEmpty(valid))
    {
      var collected;
      collected, steps := Collect(valid, fin);
      if collected.Err? { return collected, steps; }
      var sorted := SortFragments(collected.value);
      SameMembers(collected.value, sorted);
      r := MergeFragments(sorted);
    }

    /**
     One call. It fails on a block or header that is not there exactly if a bad block came without a header or
     some usable response with headers is empty; then nothing has been imported. Otherwise every block handed
     to the importer has its parent known or right before it; every ready block is imported, or at or below the
     finalised height, or in a fragment dropped because its unknown parent is that low, or parked with a
     request for its parent. Blame and bans are passed on only if the call succeeds.
     */
    method Process(results: seq<TaskResult>, bad: set<Hash>, w: World, importer: Importer)
      returns (r: Result<World, SyncError>, changes: seq<Change>, bans: seq<Peer>, imported: seq<Data>, ghost log: Log)
      requires Valid()
      modifies this
      ensures Valid()
      ensures (changes, bans) == if r.Ok? then (Blamed(results, bad), Banned(results, bad)) else ([], [])
      ensures r == Err(NilBlock) <==> Crashes(results, bad) || HasEmpty(Accepted(results, bad))
      ensures r == Err(NilBlock) ==> imported == [] && synced == old(synced) && queue == old(queue)
      ensures r != Err(NilBlock) ==> log.Prepared(Accepted(results, bad), w.fin, old(disjoint), old(incomplete))
      ensures r != Err(NilBlock) ==> log.Imported(w, old(synced), importer, r, synced, imported)
      ensures r.Ok? ==> forall b :: Holds(log.Gathered().ready, b) ==> log.Fate(w, b)
      ensures r.Ok? ==> forall b :: b in imported ==> Holds(log.Gathered().ready, b)
      ensures r != Err(NilBlock) ==> Chains(log.parked) && queue == old(queue) + AncestorRequests(log.parked)
      ensures r == Err(ImportFailed) ==>
        disjoint == log.Gathered().parked + log.parked && incomplete == log.Gathered().awaited
      ensures r.Ok? ==> disjoint == Higher(log.Gathered().parked + log.parked, r.value.fin)
      ensures r.Ok? ==> AwaitedAbove(log.Gathered().awaited, r.value.fin, incomplete)
    {
      imported, changes, bans := [], [], [];
      ghost var none := Pass([], 0, [w], synced);
      log := Log([Stage([], disjoint, incomplete)], [], none, none, []);
      var ok, changes', bans', valid := ValidateResults(results, bad);
      if !ok { r := Err(NilBlock); return; }
      AcceptedLinked(results, bad);
      var prepared, steps := Prepare(valid, w.fin);
      if prepared.Err? { r := Err(prepared.error); return; }
      var admitted := Admit(prepared.value, w.known);
      if admitted.Err? { r := Err(admitted.error); return; }
      PiecesAreChains(prepared.value);
      RootedMeaning(prepared.value, w.known);
      ghost var p1, p2, parked;
      r, imported, p1, p2, parked := ImportRounds(admitted.value.0, admitted.value.1, w, importer);
      log := Log(steps, prepared.value, p1, p2, parked);
      if r.Err? { return; }
      log.Accounted(w, old(synced), importer, r, synced, imported);
      PruneUnready(r.value.fin);
      changes, bans := changes', bans';
    }

    /** The loop of imports: a first round, the pass over fragments whose parent was unknown, a second round. */
    method ImportRounds(first: seq<Data>, orphans: seq<Fragment>, w: World, importer: Importer)
      returns (r: Result<World, SyncError>, imported: seq<Data>, ghost p1: Pass, ghost p2: Pass,
        ghost parked: seq<Fragment>)
      requires Valid() && Chains(orphans)
      modifies this`disjoint, this`queue, this`synced
      ensures Valid() && TwoRounds(first, orphans, w, old(synced), importer, p1, p2, parked, r, synced, imported)
      ensures Chains(parked) && disjoint == old(disjoint) + parked && queue == old(queue) + AncestorRequests(parked)
    {
      var next, rest := first, orphans;
      imported := [];
      p1, p2, parked := Pass(first, 0, [w], synced), Pass([], 0, [w], synced), [];
      var now, rounds := w, 0;
      while next != [] || rest != []
        invariant Valid() && Chains(rest) && Chains(parked) && rounds <= 2
        invariant disjoint == old(disjoint) + parked && queue == old(queue) + AncestorRequests(parked)
        invariant Rounds(rounds, first, orphans, w, old(synced), importer, p1, p2, parked, now, synced, next,
                         rest, imported)
        decreases 2 - rounds
      {
        var ok, n, now', count, ws := ImportAll(next, now, synced, importer);
        ghost var p := Pass(next, n, ws, count);
        if !ok {
          RoundFails(rounds, first, orphans, w, old(synced), importer, p1, p2, parked, now, synced, next, rest,
                     imported, p);
          if rounds == 0 { p1 := p; } else { p2 := p; }
          synced, imported, r := count, imported + next[..n], Err(ImportFailed);
          return;
        }
        assert next[..n] == next;
        RoundDone(rounds, first, orphans, w, old(synced), importer, p1, p2, parked, now, synced, next, rest,
                  imported, p);
        synced, imported, now := count, imported + next, now';
        ghost var park;
        next, park := Triage(rest, now);
        if rounds == 0 { p1, p2, parked := p, Pass(next, 0, [now], synced), park; } else { p2 := p; }
        rest := [];
        rounds := rounds + 1;
      }
      RoundsOver(rounds, first, orphans, w, old(synced), importer, p1, p2, parked, now, synced, imported);
      r := Ok(now);
    }
  }

  // ---------------------------------------------------------------- one call

  /** What happened in one call: the responses gathered one by one, the merged fragments, the two rounds of imports. */
  datatype Log = Log(steps: seq<Stage>, merged: seq<Fragment>, first: Pass, second: Pass, parked: seq<Fragment>)
  {
    ghost function Gathered(): Stage {
      if steps == [] then Stage([], [], map[]) else steps[|steps| - 1]
    }

    ghost predicate Prepared(valid: seq<Response>, fin: nat, ds: seq<Fragment>, inc: map<Hash, Data>) {
      && Gathering(steps, valid, fin, ds, inc) && Merges(Gathered().ready, merged) && Chains(merged)
      && GatheredFrom(ds, inc, valid, fin, Gathered().ready, Gathered().parked, Gathered().awaited)
    }

    ghost predicate Imported(w: World, from: nat, importer: Importer, r: Result<World, SyncError>, synced: nat,
        imported: seq<Data>) {
      var blocks, orphans := Flatten(Rooted(merged, w.known)), Unrooted(merged, w.known);
      && Grounded(blocks, w.known) && Chains(orphans)
      && TwoRounds(blocks, orphans, w, from, importer, first, second, parked, r, synced, imported)
    }

    /** Every ready block has met its fate, and only ready blocks were imported. */
    lemma {:induction false} Accounted(w: World, from: nat, importer: Importer, r: Result<World, SyncError>,
        synced: nat,
        imported: seq<Data>)
      requires Imported(w, from, importer, r, synced, imported) && Merges(Gathered().ready, merged) && Chains(merged)
      requires r.Ok?
      ensures forall b :: Holds(Gathered().ready, b) ==> Fate(w, b)
      ensures forall b :: b in imported ==> Holds(Gathered().ready, b)
    {
      MergedBlocks(Gathered().ready, merged);
      RootedMeaning(merged, w.known);
      TriageMeaning(Unrooted(merged, w.known), first.End());
    }

    /** Imported, or settled in the pass over fragments whose parent was unknown. */
    ghost predicate Fate(w: World, b: Data) {
      b in first.blocks ||
      (|first.worlds| > first.done && Settled(second.blocks, parked, Unrooted(merged, w.known), first.End(), b))
    }
  }
}
