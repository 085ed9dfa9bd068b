/**
 Handing blocks to the importer: one by one in order, first from the fragments whose parent is known, then
 from those whose parent became known by it; the others are parked or dropped.
 */
module SyncImport {
  import opened Basics
  import opened Fragments
  import opened SyncResults

  // ---------------------------------------------------------------- the node's chain, as the strategy sees it

  /** The headers known and the highest finalised number. */
  datatype World = World(known: set<Hash>, fin: nat)

  /** Processing a block changes what is known in ways the strategy does not control, or fails. */
  type Importer = (World, Data) -> Result<World, ()>

  /** A block that is already known is not processed again. */
  ghost predicate HandedOver(d: Data, importer: Importer, w: World, w': World) {
    if d.hash in w.known then w' == w else importer(w, d) == Ok(w')
  }

  /** The world before each block handed over, and the one after the last. */
  ghost predicate Trace(blocks: seq<Data>, importer: Importer, ws: seq<World>) {
    && |ws| == |blocks| + 1
    && forall i {:trigger blocks[i]} :: 0 <= i < |blocks| ==> HandedOver(blocks[i], importer, ws[i], ws[i + 1])
  }

  /** How many of the blocks were not known when their turn came. */
  ghost function News(blocks: seq<Data>, ws: seq<World>): nat
    requires |ws| > |blocks|
  {
    if blocks == [] then 0
    else
      var n := |blocks| - 1;
      News(blocks[..n], ws) + if blocks[n].hash in ws[n].known then 0 else 1
  }

  lemma {:induction false} NewsNext(blocks: seq<Data>, i: nat, ws: seq<World>, w: World)
    requires i < |blocks| && |ws| == i + 1
    ensures News(blocks[..i + 1], ws + [w]) == News(blocks[..i], ws) + if blocks[i].hash in ws[i].known then 0 else 1
  {
    assert blocks[..i + 1][..i] == blocks[..i];
    NewsPrefix(blocks[..i], ws, w);
  }

  lemma {:induction false} NewsPrefix(blocks: seq<Data>, ws: seq<World>, w: World)
    requires |ws| > |blocks|
    ensures News(blocks, ws + [w]) == News(blocks, ws)
  {
    if blocks != [] { NewsPrefix(blocks[..|blocks| - 1], ws, w); }
  }

  /**
   The blocks are handed over one by one, in order, until one fails; the new ones are counted. `n` blocks went
   through, and `ws` are the worlds they met.
   */
  method ImportAll(blocks: seq<Data>, w: World, synced: nat, importer: Importer)
    returns (ok: bool, n: nat, now: World, count: nat, ghost ws: seq<World>)
    ensures n <= |blocks| && (ok <==> n == |blocks|)
    ensures Trace(blocks[..n], importer, ws) && ws[0] == w && ws[n] == now
    ensures count == synced + News(blocks[..n], ws)
    ensures !ok ==> blocks[n].hash !in now.known && importer(now, blocks[n]).Err?
  {
    ok, n, now, count, ws := true, 0, w, synced, [w];
    while n < |blocks|
      invariant 0 <= n <= |blocks| && ok && Trace(blocks[..n], importer, ws) && ws[0] == w && ws[n] == now
      invariant count == synced + News(blocks[..n], ws)
    {
      var next := now;
      if blocks[n].hash !in now.known {
        var step := importer(now, blocks[n]);
        if step.Err? {
          ok := false;
          return;
        }
        next, count := step.value, count + 1;
      }
      NewsNext(blocks, n, ws, next);
      TraceNext(blocks, n, importer, ws, next);
      now, n, ws := next, n + 1, ws + [next];
    }
  }

  lemma {:induction false} TraceNext(blocks: seq<Data>, i: nat, importer: Importer, ws: seq<World>, w: World)
    requires i < |blocks| && Trace(blocks[..i], importer, ws) && HandedOver(blocks[i], importer, ws[i], w)
    ensures Trace(blocks[..i + 1], importer, ws + [w])
  {
    var pre, more := blocks[..i + 1], ws + [w];
    forall k {:trigger pre[k]} | 0 <= k < |pre| ensures HandedOver(pre[k], importer, more[k], more[k + 1]) {
      if k < i { assert blocks[..i][k] == pre[k]; }
    }
  }

  /** Processing a block makes it known, and only it. */
  ghost predicate Learns(importer: Importer) {
    forall w, d :: importer(w, d).Ok? ==> importer(w, d).value.known == w.known + {d.hash}
  }

  /** Then a pass that goes through makes every block known, and each one that was not is processed once. */
  lemma {:induction false} EachProcessedOnce(blocks: seq<Data>, importer: Importer, ws: seq<World>)
    requires Trace(blocks, importer, ws) && Learns(importer)
    ensures ws[|blocks|].known == ws[0].known + Hashes(blocks)
    ensures News(blocks, ws) == |Hashes(blocks) - ws[0].known|
  {
    if blocks != [] {
      var n := |blocks| - 1;
      TracePrefix(blocks, importer, ws);
      EachProcessedOnce(blocks[..n], importer, ws[..n + 1]);
      HashesNext(blocks);
      assert HandedOver(blocks[n], importer, ws[n], ws[n + 1]);
      OneMore(Hashes(blocks[..n]), ws[0].known, blocks[n].hash);
    }
  }

  lemma {:induction false} TracePrefix(blocks: seq<Data>, importer: Importer, ws: seq<World>)
    requires blocks != [] && Trace(blocks, importer, ws)
    ensures var n := |blocks| - 1;
      Trace(blocks[..n], importer, ws[..n + 1]) && News(blocks[..n], ws[..n + 1]) == News(blocks[..n], ws)
  {
    var n := |blocks| - 1;
    var pre, before := blocks[..n], ws[..n + 1];
    forall k {:trigger pre[k]} | 0 <= k < n ensures HandedOver(pre[k], importer, before[k], before[k + 1]) {
      assert pre[k] == blocks[k];
    }
    assert ws == before + [ws[n + 1]];
    NewsPrefix(pre, before, ws[n + 1]);
  }

  lemma {:induction false} OneMore(hs: set<Hash>, known: set<Hash>, h: Hash)
    ensures |hs + {h} - known| == |hs - known| + if h in known + hs then 0 else 1
  {
    if h in known || h in hs {
      assert hs + {h} - known == hs - known;
    } else {
      assert hs + {h} - known == (hs - known) + {h};
    }
  }

  // ---------------------------------------------------------------- fragments whose parent is known

  /** Each block's parent is known, or is the block right before it. */
  ghost predicate Grounded(trace: seq<Data>, known: set<Hash>) {
    forall i {:trigger trace[i]} :: 0 <= i < |trace| ==>
      && trace[i].header.Some?
      && (trace[i].header.value.parent in known ||
          (i > 0 && trace[i - 1].header.Some? && IsParent(trace[i - 1], trace[i])))
  }

  lemma {:induction false} GroundedAppend(trace: seq<Data>, f: Fragment, known: set<Hash>)
    requires Grounded(trace, known) && Chain(f) && First(f).header.value.parent in known
    ensures Grounded(trace + f, known)
  {
    var t := trace + f;
    forall i {:trigger t[i]} | 0 <= i < |t| ensures t[i].header.Some? &&
        (t[i].header.value.parent in known || (i > 0 && t[i - 1].header.Some? && IsParent(t[i - 1], t[i]))) {
      if i < |trace| {
        assert t[i] == trace[i] && (i > 0 ==> t[i - 1] == trace[i - 1]);
      } else {
        assert t[i] == f[i - |trace|];
        if i > |trace| { assert t[i - 1] == f[i - 1 - |trace|]; }
      }
    }
  }

  /** The parent of the fragment's first block is known. */
  predicate ParentKnown(f: Fragment, known: set<Hash>) {
    f != [] && f[0].header.Some? && f[0].header.value.parent in known
  }

  /** The fragments whose parent is known, in order. */
  ghost function Rooted(fs: seq<Fragment>, known: set<Hash>): seq<Fragment> {
    if fs == [] then []
    else
      var n := |fs| - 1;
      Rooted(fs[..n], known) + if ParentKnown(fs[n], known) then [fs[n]] else []
  }

  /** The others, in order. */
  ghost function Unrooted(fs: seq<Fragment>, known: set<Hash>): seq<Fragment> {
    if fs == [] then []
    else
      var n := |fs| - 1;
      Unrooted(fs[..n], known) + if ParentKnown(fs[n], known) then [] else [fs[n]]
  }

  ghost predicate AllOrphaned(fs: seq<Fragment>, known: set<Hash>) {
    forall i {:trigger fs[i]} :: 0 <= i < |fs| ==> Chain(fs[i]) && First(fs[i]).header.value.parent !in known
  }

  /** The fragments whose parent is known, joined; and the rest. An empty fragment is fatal. */
  method Admit(ordered: seq<Fragment>, known: set<Hash>) returns (r: Result<(seq<Data>, seq<Fragment>), SyncError>)
    requires Pieces(ordered)
    ensures (r.Err? <==> [] in ordered) && (r.Err? ==> r.error.NilBlock?)
    ensures r.Ok? ==> r.value == (Flatten(Rooted(ordered, known)), Unrooted(ordered, known))
  {
    var next: seq<Data>, rest: seq<Fragment> := [], [];
    var i := 0;
    while i < |ordered|
      invariant 0 <= i <= |ordered| && [] !in ordered[..i]
      invariant next == Flatten(Rooted(ordered[..i], known)) && rest == Unrooted(ordered[..i], known)
    {
      var f := ordered[i];
      if f == [] { return Err(NilBlock); }
      assert ordered[..i + 1] == ordered[..i] + [f] && ordered[..i + 1][..i] == ordered[..i];
      if First(f).header.value.parent in known {
        FlattenAppend(Rooted(ordered[..i], known), f);
        assert Unrooted(ordered[..i + 1], known) == Unrooted(ordered[..i], known);
        next := next + f;
      } else {
        assert Rooted(ordered[..i + 1], known) == Rooted(ordered[..i], known);
        rest := rest + [f];
      }
      i := i + 1;
    }
    assert ordered[..i] == ordered;
    return Ok((next, rest));
  }

  ghost function IfRooted(known: set<Hash>): Fragment -> seq<Fragment> {
    (f: Fragment) => if ParentKnown(f, known) then [f] else []
  }

  ghost function IfUnrooted(known: set<Hash>): Fragment -> seq<Fragment> {
    (f: Fragment) => if ParentKnown(f, known) then [] else [f]
  }

  lemma {:induction false} RootedCollects(fs: seq<Fragment>, known: set<Hash>)
    ensures Rooted(fs, known) == Collected(fs, IfRooted(known))
    ensures Unrooted(fs, known) == Collected(fs, IfUnrooted(known))
  {
    if fs != [] { RootedCollects(fs[..|fs| - 1], known); }
  }

  /** Both keep the order of the list. */
  lemma {:induction false} RootedExactly(fs: seq<Fragment>, known: set<Hash>) returns (at: seq<nat>, others: seq<nat>)
    ensures Positions(at, |fs|) && |Rooted(fs, known)| == |at|
    ensures forall k {:trigger at[k]} :: 0 <= k < |at| ==> Rooted(fs, known)[k] == fs[at[k]]
    ensures forall i: nat {:trigger i in at} :: i in at <==> i < |fs| && ParentKnown(fs[i], known)
    ensures Positions(others, |fs|) && |Unrooted(fs, known)| == |others|
    ensures forall k {:trigger others[k]} :: 0 <= k < |others| ==> Unrooted(fs, known)[k] == fs[others[k]]
    ensures forall i: nat {:trigger i in others} :: i in others <==> i < |fs| && !ParentKnown(fs[i], known)
  {
    RootedCollects(fs, known);
    at := CollectedAt(fs, IfRooted(known));
    others := CollectedAt(fs, IfUnrooted(known));
  }

  /** What is admitted has its parent known, the rest has not, and every block is in one or the other. */
  lemma {:induction false} RootedMeaning(fs: seq<Fragment>, known: set<Hash>)
    requires Chains(fs)
    ensures var next, rest := Flatten(Rooted(fs, known)), Unrooted(fs, known);
      && Grounded(next, known) && Chains(rest) && AllOrphaned(rest, known)
      && forall b :: Holds(fs, b) <==> b in next || Holds(rest, b)
  {
    if fs != [] {
      var n := |fs| - 1;
      var f := fs[n];
      RootedMeaning(fs[..n], known);
      assert fs == fs[..n] + [f];
      HoldsAppend(fs[..n], f);
      if ParentKnown(f, known) {
        FlattenAppend(Rooted(fs[..n], known), f);
        GroundedAppend(Flatten(Rooted(fs[..n], known)), f, known);
        assert Unrooted(fs, known) == Unrooted(fs[..n], known);
      } else {
        assert Rooted(fs, known) == Rooted(fs[..n], known);
        HoldsAppend(Unrooted(fs[..n], known), f);
      }
    }
  }

  // ---------------------------------------------------------------- fragments whose parent was unknown

  /** The parent is unknown, and too low to be fetched or high enough to be. */
  ghost predicate Orphan(f: Fragment, w: World) {
    Chain(f) && First(f).header.value.parent !in w.known && Number(First(f)) > w.fin
  }

  /** Dropped: an orphan whose missing parent is at or below the finalised height. */
  ghost predicate Hopeless(f: Fragment, w: World) {
    Orphan(f, w) && Number(First(f)) - 1 <= w.fin
  }

  /** What became of a block of a fragment whose parent was unknown. */
  ghost predicate Settled(next: seq<Data>, parked: seq<Fragment>, rest: seq<Fragment>, w: World, b: Data) {
    || b in next
    || Holds(parked, b)
    || (b.header.Some? && Number(b) <= w.fin)
    || (exists f :: f in rest && Chain(f) && b in Above(f, w.fin) && Hopeless(Above(f, w.fin), w))
  }

  /** What a fragment with an unknown parent gives to import: its blocks above the height, if their parent is known. */
  ghost function Admitted1(f: Fragment, w: World): seq<Data>
    requires Chain(f)
  {
    if ParentKnown(Above(f, w.fin), w.known) then Above(f, w.fin) else []
  }

  /** What it gives to park: those blocks, if their parent is unknown and above the height. */
  ghost function Parked1(f: Fragment, w: World): seq<Fragment>
    requires Chain(f)
  {
    var above := Above(f, w.fin);
    AboveChain(f, w.fin);
    if above == [] || ParentKnown(above, w.known) || Number(First(above)) - 1 <= w.fin then [] else [above]
  }

  ghost function Admitted(fs: seq<Fragment>, w: World): seq<Data>
    requires Chains(fs)
  {
    if fs == [] then [] else var n := |fs| - 1; Admitted(fs[..n], w) + Admitted1(fs[n], w)
  }

  ghost function ParkedOf(fs: seq<Fragment>, w: World): seq<Fragment>
    requires Chains(fs)
  {
    if fs == [] then [] else var n := |fs| - 1; ParkedOf(fs[..n], w) + Parked1(fs[n], w)
  }

  /** What is admitted has its parent known, what is parked is to be fetched, and every block is accounted for. */
  lemma {:induction false} TriageMeaning(fs: seq<Fragment>, w: World)
    requires Chains(fs)
    ensures Grounded(Admitted(fs, w), w.known) && Chains(ParkedOf(fs, w))
    ensures forall f :: f in ParkedOf(fs, w) ==> Orphan(f, w) && !Hopeless(f, w)
    ensures forall b :: Holds(fs, b) ==> Settled(Admitted(fs, w), ParkedOf(fs, w), fs, w, b)
    ensures forall b :: b in Admitted(fs, w) ==> Holds(fs, b) && b.header.Some? && Number(b) > w.fin
  {
    if fs != [] {
      var n := |fs| - 1;
      TriageMeaning(fs[..n], w);
      assert fs == fs[..n] + [fs[n]];
      HoldsAppend(fs[..n], fs[n]);
      TriageOneMeaning(fs[n], w);
      var next, parked := Admitted(fs[..n], w), ParkedOf(fs[..n], w);
      if Admitted1(fs[n], w) != [] { GroundedAppend(next, Admitted1(fs[n], w), w.known); }
      HoldsConcat(parked, Parked1(fs[n], w));
      forall b | Holds(fs, b) ensures Settled(Admitted(fs, w), ParkedOf(fs, w), fs, w, b) {
        if Holds(fs[..n], b) {
          SettledMore(fs, n, w, next, parked, b);
        }
      }
    }
  }

  ghost function Admitting(w: World): Fragment -> seq<Fragment> {
    (f: Fragment) => if Chain(f) && Admitted1(f, w) != [] then [Admitted1(f, w)] else []
  }

  ghost function Parking(w: World): Fragment -> seq<Fragment> {
    (f: Fragment) => if Chain(f) then Parked1(f, w) else []
  }

  lemma {:induction false} TriageCollects(fs: seq<Fragment>, w: World)
    requires Chains(fs)
    ensures Admitted(fs, w) == Flatten(Collected(fs, Admitting(w))) && ParkedOf(fs, w) == Collected(fs, Parking(w))
  {
    if fs != [] {
      var n := |fs| - 1;
      TriageCollects(fs[..n], w);
      if Admitted1(fs[n], w) != [] {
        FlattenAppend(Collected(fs[..n], Admitting(w)), Admitted1(fs[n], w));
      } else {
        assert Collected(fs, Admitting(w)) == Collected(fs[..n], Admitting(w));
      }
    }
  }

  /** Which fragments are admitted and which are parked, each without its low blocks and in the order of the list. */
  lemma {:induction false} TriageExactly(fs: seq<Fragment>, w: World)
    returns (given: seq<nat>, pieces: seq<Fragment>, held: seq<nat>)
    requires Chains(fs)
    ensures Positions(given, |fs|) && |pieces| == |given| && Admitted(fs, w) == Flatten(pieces)
    ensures forall k {:trigger given[k]} :: 0 <= k < |given| ==> pieces[k] == Above(fs[given[k]], w.fin)
    ensures forall i: nat {:trigger i in given} :: i in given <==>
      i < |fs| && Above(fs[i], w.fin) != [] && !Orphan(Above(fs[i], w.fin), w)
    ensures Positions(held, |fs|) && |ParkedOf(fs, w)| == |held|
    ensures forall k {:trigger held[k]} :: 0 <= k < |held| ==> ParkedOf(fs, w)[k] == Above(fs[held[k]], w.fin)
    ensures forall i: nat {:trigger i in held} :: i in held <==>
      i < |fs| && Orphan(Above(fs[i], w.fin), w) && !Hopeless(Above(fs[i], w.fin), w)
  {
    TriageCollects(fs, w);
    given := CollectedAt(fs, Admitting(w));
    pieces := Collected(fs, Admitting(w));
    held := CollectedAt(fs, Parking(w));
    forall i: nat {:trigger i in given} ensures i in given <==>
        i < |fs| && Above(fs[i], w.fin) != [] && !Orphan(Above(fs[i], w.fin), w) {
      if i < |fs| { TriageOneExactly(fs[i], w); }
    }
    forall i: nat {:trigger i in held} ensures i in held <==>
        i < |fs| && Orphan(Above(fs[i], w.fin), w) && !Hopeless(Above(fs[i], w.fin), w) {
      if i < |fs| { TriageOneExactly(fs[i], w); }
    }
  }

  lemma {:induction false} TriageOneExactly(f: Fragment, w: World)
    requires Chain(f)
    ensures var above := Above(f, w.fin);
      && Admitting(w)(f) == (if above != [] && !Orphan(above, w) then [above] else [])
      && Parking(w)(f) == if Orphan(above, w) && !Hopeless(above, w) then [above] else []
  {
    AboveChain(f, w.fin);
    var above := Above(f, w.fin);
    if above != [] { assert above[0] in above; }
  }

  lemma {:induction false} SettledMore(fs: seq<Fragment>, n: nat, w: World, next: seq<Data>, parked: seq<Fragment>,
      b: Data)
    requires n < |fs| && Settled(next, parked, fs[..n], w, b)
    ensures forall next', parked' :: Settled(next + next', parked + parked', fs, w, b)
  {
    forall next', parked' ensures Settled(next + next', parked + parked', fs, w, b) {
      HoldsConcat(parked, parked');
    }
  }

  lemma {:induction false} TriageOneMeaning(f: Fragment, w: World)
    requires Chain(f)
    ensures var next, parked := Admitted1(f, w), Parked1(f, w);
      && (next != [] ==> Chain(next) && First(next).header.value.parent in w.known)
      && Chains(parked) && (forall g :: g in parked ==> Orphan(g, w) && !Hopeless(g, w))
      && (forall b :: b in f ==> b in next || Holds(parked, b) || (b.header.Some? && Number(b) <= w.fin)
                                 || (b in Above(f, w.fin) && Hopeless(Above(f, w.fin), w)))
      && (forall b :: b in next ==> b in f && b.header.Some? && Number(b) > w.fin)
  {
    AboveChain(f, w.fin);
    var above := Above(f, w.fin);
    if above != [] { assert above[0] in above; }
    if Parked1(f, w) != [] { assert Parked1(f, w)[0] == above; }
  }

  // ---------------------------------------------------------------- two rounds of imports

  /** A pass over blocks to import: how many went through, the worlds they met, and the count of new ones after. */
  datatype Pass = Pass(blocks: seq<Data>, done: nat, worlds: seq<World>, count: nat)
  {
    ghost predicate Made(w: World, from: nat, importer: Importer) {
      && done <= |blocks| && Trace(blocks[..done], importer, worlds) && worlds[0] == w
      && count == from + News(blocks[..done], worlds)
      && (done < |blocks| ==> blocks[done].hash !in worlds[done].known && importer(worlds[done], blocks[done]).Err?)
    }

    /** The world it leaves. */
    ghost function End(): World
      requires |worlds| > done
    {
      worlds[done]
    }
  }

  /** What the two rounds of imports have done, as far as they have got. */
  ghost predicate Rounds(rounds: nat, first: seq<Data>, orphans: seq<Fragment>, w: World, from: nat,
      importer: Importer, p1: Pass, p2: Pass, parked: seq<Fragment>, now: World, synced: nat, next: seq<Data>,
      rest: seq<Fragment>, imported: seq<Data>)
    requires Chains(orphans)
  {
    if rounds == 0 then
      && now == w && synced == from && next == first && rest == orphans && imported == [] && parked == []
      && p1 == Pass(first, 0, [w], from) && p2 == Pass([], 0, [w], from)
    else
      && p1.blocks == first && p1.Made(w, from, importer) && p1.done == |first|
      && parked == ParkedOf(orphans, p1.End()) && p2.blocks == Admitted(orphans, p1.End()) && rest == []
      && if rounds == 1 then
           && now == p1.End() && synced == p1.count && next == p2.blocks && imported == first
           && p2 == Pass(next, 0, [now], synced)
         else
           && p2.Made(p1.End(), p1.count, importer) && p2.done == |p2.blocks|
           && now == p2.End() && synced == p2.count && next == [] && imported == first + p2.blocks
  }

  /** The blocks handed over in the two rounds, from the states given; a failure ends the call where it happens. */
  ghost predicate TwoRounds(first: seq<Data>, orphans: seq<Fragment>, w: World, from: nat, importer: Importer,
      p1: Pass, p2: Pass, parked: seq<Fragment>, r: Result<World, SyncError>, synced: nat, imported: seq<Data>)
    requires Chains(orphans)
  {
    && p1.blocks == first && p1.Made(w, from, importer)
    && if p1.done < |first| then
         r == Err(ImportFailed) && synced == p1.count && imported == first[..p1.done] && parked == []
       else
         && p2.blocks == Admitted(orphans, p1.End()) && parked == ParkedOf(orphans, p1.End())
         && p2.Made(p1.End(), p1.count, importer)
         && synced == p2.count && imported == first + p2.blocks[..p2.done]
         && r == if p2.done < |p2.blocks| then Err(ImportFailed) else Ok(p2.End())
  }

  /** A round that fails ends the call. */
  lemma {:induction false} RoundFails(rounds: nat, first: seq<Data>, orphans: seq<Fragment>, w: World, from: nat,
      importer: Importer, p1: Pass, p2: Pass, parked: seq<Fragment>, now: World, synced: nat, next: seq<Data>,
      rest: seq<Fragment>, imported: seq<Data>, p: Pass)
    requires Chains(orphans) && rounds < 2
    requires Rounds(rounds, first, orphans, w, from, importer, p1, p2, parked, now, synced, next, rest, imported)
    requires p.blocks == next && p.Made(now, synced, importer) && p.done < |next|
    ensures TwoRounds(first, orphans, w, from, importer, if rounds == 0 then p else p1, if rounds == 0 then p2 else p,
                      parked, Err(ImportFailed), p.count, imported + next[..p.done])
  {
  }

  /** A round that goes through is followed by the pass over the fragments whose parent was unknown. */
  lemma {:induction false} RoundDone(rounds: nat, first: seq<Data>, orphans: seq<Fragment>, w: World, from: nat,
      importer: Importer, p1: Pass, p2: Pass, parked: seq<Fragment>, now: World, synced: nat, next: seq<Data>,
      rest: seq<Fragment>, imported: seq<Data>, p: Pass)
    requires Chains(orphans) && rounds < 2
    requires Rounds(rounds, first, orphans, w, from, importer, p1, p2, parked, now, synced, next, rest, imported)
    requires p.blocks == next && p.Made(now, synced, importer) && p.done == |next|
    ensures var next' := if rounds == 0 then Admitted(orphans, p.End()) else [];
      Rounds(rounds + 1, first, orphans, w, from, importer, if rounds == 0 then p else p1,
             if rounds == 0 then Pass(next', 0, [p.End()], p.count) else p,
             if rounds == 0 then ParkedOf(orphans, p.End()) else parked,
             p.End(), p.count, next', [], imported + next)
  {
  }

  /** With nothing left to do, the rounds are over. */
  lemma {:induction false} RoundsOver(rounds: nat, first: seq<Data>, orphans: seq<Fragment>, w: World, from: nat,
      importer: Importer, p1: Pass, p2: Pass, parked: seq<Fragment>, now: World, synced: nat, imported: seq<Data>)
    requires Chains(orphans)
    requires Rounds(rounds, first, orphans, w, from, importer, p1, p2, parked, now, synced, [], [], imported)
    ensures TwoRounds(first, orphans, w, from, importer, p1, p2, parked, Ok(now), synced, imported)
  {
  }
}
