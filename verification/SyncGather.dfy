/**
 What usable responses amount to: fragments joined with parked ones, announced blocks completed, and all of it
 sorted and merged, with nothing lost on the way.
 */
module SyncGather {
  import opened Basics
  import opened Fragments
  import opened SyncResults

  // ---------------------------------------------------------------- announced blocks

  ghost predicate Announced(m: map<Hash, Data>) {
    forall h {:trigger m[h]} :: h in m ==> m[h].hash == h && m[h].header.Some?
  }

  /** The announced blocks that a response completes, each once. */
  function Completed(m: map<Hash, Data>, chain: Fragment): seq<Fragment>
    decreases chain
  {
    if chain == [] then []
    else if chain[0].hash in m then
      [[m[chain[0].hash].(body := chain[0].body, justification := chain[0].justification)]]
      + Completed(m - {chain[0].hash}, chain[1..])
    else Completed(m, chain[1..])
  }

  /** The announced blocks still incomplete after some responses: those without headers complete what they name. */
  function Remaining(m: map<Hash, Data>, valid: seq<Response>): map<Hash, Data> {
    if valid == [] then m
    else
      var n := |valid| - 1;
      Remaining(m, valid[..n]) - (if valid[n].request.header then {} else Hashes(valid[n].data))
  }

  /** The blocks completed by some responses, in order. */
  function AllCompleted(m: map<Hash, Data>, valid: seq<Response>): seq<Fragment> {
    if valid == [] then []
    else
      var n := |valid| - 1;
      AllCompleted(m, valid[..n]) +
        if valid[n].request.header then [] else Completed(Remaining(m, valid[..n]), valid[n].data)
  }

  /** Some response without headers names the block. */
  ghost predicate Named(valid: seq<Response>, h: Hash) {
    exists i {:trigger valid[i]} :: 0 <= i < |valid| && !valid[i].request.header && h in Hashes(valid[i].data)
  }

  lemma {:induction false} RemainingMeans(m: map<Hash, Data>, valid: seq<Response>, h: Hash)
    ensures h in Remaining(m, valid) <==> h in m && !Named(valid, h)
    ensures h in Remaining(m, valid) ==> Remaining(m, valid)[h] == m[h]
  {
    if valid != [] {
      var n := |valid| - 1;
      RemainingMeans(m, valid[..n], h);
      if Named(valid[..n], h) {
        var i :| 0 <= i < n && !valid[..n][i].request.header && h in Hashes(valid[..n][i].data);
        assert valid[i] == valid[..n][i];
      }
      if Named(valid, h) {
        var i :| 0 <= i < |valid| && !valid[i].request.header && h in Hashes(valid[i].data);
        if i < n { assert valid[..n][i] == valid[i]; }
      }
    }
  }

  /** A response completes each announced block it names: the announced header with the body that came first. */
  lemma {:induction false} CompletedMeans(m: map<Hash, Data>, chain: Fragment, h: Hash)
    requires Announced(m)
    ensures h in m && h in Hashes(chain) <==> exists b :: Holds(Completed(m, chain), b) && b.hash == h
    ensures forall b :: Holds(Completed(m, chain), b) && b.hash == h ==>
      h in m && b.header == m[h].header && exists d ::
        d in chain && d.hash == h && b.body == d.body && b.justification == d.justification
    decreases chain
  {
    if chain != [] {
      var d, rest := chain[0], chain[1..];
      assert chain == [d] + rest;
      assert Hashes(chain) == {d.hash} + Hashes(rest);
      if d.hash in m {
        var whole, m' := m[d.hash].(body := d.body, justification := d.justification), m - {d.hash};
        CompletedMeans(m', rest, h);
        HoldsConcat([[whole]], Completed(m', rest));
        HoldsSingle(whole);
      } else {
        CompletedMeans(m, rest, h);
      }
    }
  }

  /** The first part that arrived for the announced block. */
  ghost predicate FirstFor(m: map<Hash, Data>, chain: Fragment, i: nat) {
    i < |chain| && chain[i].hash in m && forall j :: 0 <= j < i ==> chain[j].hash != chain[i].hash
  }

  /** The completed blocks come, in order, from the first parts that arrived for each announced block. */
  lemma {:induction false} CompletedExactly(m: map<Hash, Data>, chain: Fragment) returns (at: seq<nat>)
    requires Announced(m)
    ensures Positions(at, |chain|) && |Completed(m, chain)| == |at|
    ensures forall k {:trigger at[k]} :: 0 <= k < |at| ==> Made(m, chain[at[k]], Completed(m, chain)[k])
    ensures forall i: nat {:trigger i in at} :: i in at <==> FirstFor(m, chain, i)
    decreases chain
  {
    if chain == [] {
      at := [];
    } else {
      var d, rest := chain[0], chain[1..];
      var m' := if d.hash in m then m - {d.hash} else m;
      var later := CompletedExactly(m', rest);
      at := OneOn(later, d.hash in m);
      CompletedHead(m, chain, later, at);
      forall i: nat {:trigger i in at} ensures i in at <==> FirstFor(m, chain, i) {
        FirstForLater(m, chain, i);
        OneOnMembers(later, d.hash in m, i);
      }
    }
  }

  /** Positions in the rest of a list, as positions in the whole, with the first one or without. */
  function OneOn(at: seq<nat>, first: bool): seq<nat> {
    (if first then [0] else []) + seq(|at|, k requires 0 <= k < |at| => at[k] + 1)
  }

  lemma {:induction false} OneOnMembers(at: seq<nat>, first: bool, i: nat)
    ensures i in OneOn(at, first) <==> if i == 0 then first else i - 1 in at
  {
    var all, n := OneOn(at, first), if first then 1 else 0;
    assert forall k :: 0 <= k < |at| ==> all[k + n] == at[k] + 1;
    if i > 0 && i - 1 in at {
      var k :| 0 <= k < |at| && at[k] == i - 1;
      assert all[k + n] == i;
    }
    if i in all {
      var k :| 0 <= k < |all| && all[k] == i;
      if k >= n { assert at[k - n] == i - 1; }
    }
    if first { assert all[0] == 0; }
  }

  lemma {:induction false} OneOnPositions(at: seq<nat>, n: nat, first: bool)
    requires Positions(at, n)
    ensures Positions(OneOn(at, first), n + 1)
  {
    var all, d := OneOn(at, first), if first then 1 else 0;
    assert forall k :: d <= k < |all| ==> all[k] == at[k - d] + 1;
  }

  /** What a completed block is made of. */
  ghost predicate Made(m: map<Hash, Data>, d: Data, f: Fragment) {
    d.hash in m && f == [Data(d.hash, m[d.hash].header, d.body, d.justification)]
  }

  lemma {:induction false} CompletedHead(m: map<Hash, Data>, chain: Fragment, later: seq<nat>, at: seq<nat>)
    requires Announced(m) && chain != [] && at == OneOn(later, chain[0].hash in m)
    requires var m' := if chain[0].hash in m then m - {chain[0].hash} else m;
      && Positions(later, |chain| - 1) && |Completed(m', chain[1..])| == |later|
      && forall k {:trigger later[k]} :: 0 <= k < |later| ==>
           Made(m', chain[1..][later[k]], Completed(m', chain[1..])[k])
    ensures Positions(at, |chain|) && |Completed(m, chain)| == |at|
    ensures forall k {:trigger at[k]} :: 0 <= k < |at| ==> Made(m, chain[at[k]], Completed(m, chain)[k])
  {
    OneOnPositions(later, |chain| - 1, chain[0].hash in m);
    var n := if chain[0].hash in m then 1 else 0;
    forall k {:trigger at[k]} | 0 <= k < |at| ensures Made(m, chain[at[k]], Completed(m, chain)[k]) {
      if k >= n { assert at[k] == later[k - n] + 1 && chain[at[k]] == chain[1..][later[k - n]]; }
    }
  }

  lemma {:induction false} FirstForLater(m: map<Hash, Data>, chain: Fragment, i: nat)
    requires chain != []
    ensures var m' := if chain[0].hash in m then m - {chain[0].hash} else m;
      FirstFor(m, chain, i) <==> if i == 0 then chain[0].hash in m else FirstFor(m', chain[1..], i - 1)
  {
    var rest := chain[1..];
    assert forall j :: 0 < j < |chain| ==> rest[j - 1] == chain[j];
    if i > 0 && i < |chain| && chain[i].hash in m {
      if FirstFor(m, chain, i) {
        forall j | 0 <= j < i - 1 ensures rest[j].hash != rest[i - 1].hash { assert chain[j + 1] == rest[j]; }
      }
    }
  }

  /** Over a run of responses: announced blocks that a response without headers names are completed, no others. */
  lemma {:induction false} AllCompletedMeans(m: map<Hash, Data>, valid: seq<Response>, h: Hash)
    requires Announced(m)
    ensures h in m && Named(valid, h) <==> exists b :: Holds(AllCompleted(m, valid), b) && b.hash == h
    ensures forall b :: Holds(AllCompleted(m, valid), b) && b.hash == h ==> h in m && b.header == m[h].header
  {
    if valid != [] {
      var n := |valid| - 1;
      var before := Remaining(m, valid[..n]);
      AllCompletedMeans(m, valid[..n], h);
      RemainingMeans(m, valid[..n], h);
      RemainingMeans(m, valid, h);
      RemainingAnnounced(m, valid[..n]);
      HoldsConcat(AllCompleted(m, valid[..n]), Completed(before, valid[n].data));
      CompletedMeans(before, valid[n].data, h);
    }
  }

  lemma {:induction false} RemainingAnnounced(m: map<Hash, Data>, valid: seq<Response>)
    requires Announced(m)
    ensures Announced(Remaining(m, valid))
  {
    forall h {:trigger Remaining(m, valid)[h]} | h in Remaining(m, valid)
      ensures h in m && Remaining(m, valid)[h] == m[h]
    {
      RemainingMeans(m, valid, h);
    }
  }

  lemma {:induction false} CompletedChains(m: map<Hash, Data>, chain: Fragment)
    requires Announced(m)
    ensures Chains(Completed(m, chain))
    decreases chain
  {
    if chain != [] {
      if chain[0].hash in m {
        CompletedChains(m - {chain[0].hash}, chain[1..]);
      } else {
        CompletedChains(m, chain[1..]);
      }
    }
  }

  // ---------------------------------------------------------------- joining with parked fragments

  ghost predicate FitsNone(fs: seq<Fragment>, chain: Fragment) {
    forall i {:trigger fs[i]} :: 0 <= i < |fs| ==> !Joins(chain, fs[i]) && !Joins(fs[i], chain)
  }

  /** The one continues the other. */
  ghost predicate JoinedOf(chain: Fragment, f: Fragment, joined: Fragment) {
    || (Joins(chain, f) && joined == chain + f)
    || (Joins(f, chain) && joined == f + chain)
  }

  lemma {:induction false} JoinedMembers(chain: Fragment, f: Fragment, joined: Fragment)
    requires JoinedOf(chain, f, joined)
    ensures forall b :: b in joined <==> b in chain || b in f
  {
  }

  /** The first fragment that fits has been taken out and joined to the chain, before it or behind it. */
  ghost predicate JoinedWithOne(fs: seq<Fragment>, chain: Fragment, joined: Fragment, rest: seq<Fragment>) {
    exists i {:trigger fs[i]} ::
      && 0 <= i < |fs| && FitsNone(fs[..i], chain)
      && rest == fs[..i] + fs[i + 1..] && JoinedOf(chain, fs[i], joined)
  }

  // ---------------------------------------------------------------- one response after the other

  /** What the responses have made ready so far, what is parked, and what is announced and incomplete. */
  datatype Stage = Stage(ready: seq<Fragment>, parked: seq<Fragment>, awaited: map<Hash, Data>)

  /** The fragment without its blocks at or below a height, unless nothing is left. */
  ghost function Lifted(f: Fragment, fin: nat): seq<Fragment>
    requires Chain(f)
  {
    if Above(f, fin) == [] then [] else [Above(f, fin)]
  }

  /**
   What one response does. With headers it is joined with the first parked fragment it fits and cut off at the
   finalised height, or taken as it is; without, it completes the announced blocks it names.
   */
  ghost predicate Gathers(resp: Response, fin: nat, a: Stage, b: Stage) {
    if !resp.request.header then
      && b.ready == a.ready + Completed(a.awaited, resp.data)
      && b.parked == a.parked && b.awaited == a.awaited - Hashes(resp.data)
    else
      && b.awaited == a.awaited
      && if FitsNone(a.parked, resp.data) then b.ready == a.ready + [resp.data] && b.parked == a.parked
         else exists joined ::
           && Chain(joined) && JoinedWithOne(a.parked, resp.data, joined, b.parked)
           && b.ready == a.ready + Lifted(joined, fin)
  }

  /** One stage per response, from nothing ready. */
  ghost predicate Gathering(steps: seq<Stage>, valid: seq<Response>, fin: nat, ds: seq<Fragment>,
      inc: map<Hash, Data>) {
    && |steps| == |valid| + 1 && steps[0] == Stage([], ds, inc)
    && forall i {:trigger valid[i]} :: 0 <= i < |valid| ==> Gathers(valid[i], fin, steps[i], steps[i + 1])
  }

  // ---------------------------------------------------------------- nothing is lost between responses

  /** A block is in some fragment, or so low that it no longer matters. */
  ghost predicate Kept(fs: seq<Fragment>, gs: seq<Fragment>, fin: nat, b: Data) {
    Holds(fs, b) || Holds(gs, b) || (b.header.Some? && Number(b) <= fin)
  }

  /** A response with headers holds the block. */
  ghost predicate Given(valid: seq<Response>, b: Data) {
    exists i {:trigger valid[i]} :: 0 <= i < |valid| && valid[i].request.header && b in valid[i].data
  }

  /** Where ready blocks come from: parked fragments, responses with headers, and announced blocks now complete. */
  ghost predicate Sourced(fs: seq<Fragment>, incomplete: map<Hash, Data>, valid: seq<Response>, b: Data) {
    Holds(fs, b) || Given(valid, b) || Holds(AllCompleted(incomplete, valid), b)
  }

  /**
   What a response keeps: parked fragments only go; nothing above the finalised height is lost; and nothing
   comes from elsewhere.
   */
  ghost predicate Conserves(resp: Response, fin: nat, a: Stage, b: Stage) {
    var header := resp.request.header;
    && Pieces(b.ready) && ([] in b.ready <==> [] in a.ready || (header && resp.data == []))
    && b.awaited == (if header then a.awaited else a.awaited - Hashes(resp.data))
    && (forall f :: f in b.parked ==> f in a.parked) && (forall x :: Holds(a.ready, x) ==> Holds(b.ready, x))
    && (forall x :: Holds(a.parked, x) || (header && x in resp.data) ==> Kept(b.ready, b.parked, fin, x))
    && (forall x :: !header && Holds(Completed(a.awaited, resp.data), x) ==> Holds(b.ready, x))
    && (forall x :: Holds(b.ready, x) ==> Holds(a.ready, x) || Comes(resp, a.parked, a.awaited, x))
  }

  lemma {:induction false} GathersConserves(resp: Response, fin: nat, a: Stage, b: Stage)
    requires Gathers(resp, fin, a, b) && Pieces(a.ready) && Announced(a.awaited)
    requires resp.request.header ==> Linked(resp.data)
    ensures Conserves(resp, fin, a, b)
  {
    if !resp.request.header {
      ConservesCompleted(resp, fin, a, b);
    } else if FitsNone(a.parked, resp.data) {
      HoldsAppend(a.ready, resp.data);
    } else {
      var joined :| Chain(joined) && JoinedWithOne(a.parked, resp.data, joined, b.parked)
        && b.ready == a.ready + Lifted(joined, fin);
      ConservesJoined(resp, fin, a, b, joined);
    }
  }

  lemma {:induction false} GatheringNext(steps: seq<Stage>, valid: seq<Response>, i: nat, fin: nat, ds: seq<Fragment>,
      inc: map<Hash, Data>, now: Stage)
    requires i < |valid| && Gathering(steps, valid[..i], fin, ds, inc) && Gathers(valid[i], fin, steps[i], now)
    ensures Gathering(steps + [now], valid[..i + 1], fin, ds, inc)
  {
    var more, all := valid[..i + 1], steps + [now];
    forall k {:trigger more[k]} | 0 <= k < |more| ensures Gathers(more[k], fin, all[k], all[k + 1]) {
      if k < i { assert valid[..i][k] == more[k]; }
    }
  }

  ghost predicate Comes(resp: Response, ds: seq<Fragment>, inc: map<Hash, Data>, b: Data) {
    if resp.request.header then Holds(ds, b) || b in resp.data else Holds(Completed(inc, resp.data), b)
  }

  lemma {:induction false} ConservesJoined(resp: Response, fin: nat, a: Stage, b: Stage, joined: Fragment)
    requires resp.request.header && Pieces(a.ready) && Chain(joined) && b.awaited == a.awaited
    requires JoinedWithOne(a.parked, resp.data, joined, b.parked) && b.ready == a.ready + Lifted(joined, fin)
    ensures Conserves(resp, fin, a, b)
  {
    var above := Above(joined, fin);
    AboveChain(joined, fin);
    HoldsConcat(a.ready, Lifted(joined, fin));
    assert Pieces(b.ready) && ([] in b.ready <==> [] in a.ready);
    JoinKeeps(a.ready, a.parked, resp.data, joined, b.parked, fin);
    JoinSource(a.ready, a.parked, resp.data, joined, b.parked, above);
    forall x | Holds(b.ready, x) ensures Holds(a.ready, x) || Comes(resp, a.parked, a.awaited, x) {
      if !Holds(a.ready, x) {
        assert x in above;
        assert above in a.ready + [above];
        assert Holds(a.ready + [above], x);
      }
    }
    forall x | Holds(a.parked, x) || x in resp.data ensures Kept(b.ready, b.parked, fin, x) {
      assert Kept(a.ready, a.parked, fin, x) || x in resp.data;
    }
  }

  lemma {:induction false} ConservesCompleted(resp: Response, fin: nat, a: Stage, b: Stage)
    requires !resp.request.header && Pieces(a.ready) && Announced(a.awaited) && Gathers(resp, fin, a, b)
    ensures Conserves(resp, fin, a, b)
  {
    var done := Completed(a.awaited, resp.data);
    CompletedChains(a.awaited, resp.data);
    HoldsConcat(a.ready, done);
    var all := a.ready + done;
    forall i {:trigger all[i]} | 0 <= i < |all| ensures Linked(all[i]) && (i >= |a.ready| ==> all[i] != []) {
      if i >= |a.ready| { assert all[i] == done[i - |a.ready|]; }
    }
    assert [] !in done;
    assert forall f :: f in all <==> f in a.ready || f in done;
  }

  /** What a run of responses has made ready. */
  ghost predicate GatheredFrom(ds0: seq<Fragment>, inc0: map<Hash, Data>, valid: seq<Response>, fin: nat,
                           ready: seq<Fragment>, ds: seq<Fragment>, inc: map<Hash, Data>)
  {
    && Pieces(ready) && ([] in ready <==> HasEmpty(valid)) && inc == Remaining(inc0, valid)
    && (forall f :: f in ds ==> f in ds0)
    && (forall b :: Holds(ds0, b) || Given(valid, b) ==> Kept(ready, ds, fin, b))
    && (forall b :: Holds(AllCompleted(inc0, valid), b) ==> Holds(ready, b))
    && (forall b :: Holds(ready, b) ==> Sourced(ds0, inc0, valid, b))
  }

  lemma {:induction false} GatheredNone(ds: seq<Fragment>, inc: map<Hash, Data>, fin: nat)
    ensures GatheredFrom(ds, inc, [], fin, [], ds, inc)
  {
  }

  lemma {:induction false} GatherNext(ds0: seq<Fragment>, inc0: map<Hash, Data>, valid: seq<Response>, i: nat, fin: nat,
      a: Stage, b: Stage)
    requires i < |valid| && GatheredFrom(ds0, inc0, valid[..i], fin, a.ready, a.parked, a.awaited)
    requires Gathers(valid[i], fin, a, b) && Announced(inc0) && (valid[i].request.header ==> Linked(valid[i].data))
    ensures GatheredFrom(ds0, inc0, valid[..i + 1], fin, b.ready, b.parked, b.awaited)
  {
    RemainingAnnounced(inc0, valid[..i]);
    GathersConserves(valid[i], fin, a, b);
    ConservedNext(ds0, inc0, valid, i, fin, a, b);
  }

  lemma {:induction false} ConservedNext(ds0: seq<Fragment>, inc0: map<Hash, Data>, valid: seq<Response>, i: nat,
      fin: nat, a: Stage, b: Stage)
    requires i < |valid| && GatheredFrom(ds0, inc0, valid[..i], fin, a.ready, a.parked, a.awaited)
    requires Conserves(valid[i], fin, a, b)
    ensures GatheredFrom(ds0, inc0, valid[..i + 1], fin, b.ready, b.parked, b.awaited)
  {
    var before, after, resp := valid[..i], valid[..i + 1], valid[i];
    assert after[..i] == before && after[i] == resp;
    NextResponse(valid, i);
    HoldsConcat(AllCompleted(inc0, before), Completed(a.awaited, resp.data));
    forall x | Holds(ds0, x) || Given(after, x) ensures Kept(b.ready, b.parked, fin, x) {
      if Holds(ds0, x) || Given(before, x) { assert Kept(a.ready, a.parked, fin, x); }
    }
    forall x | Holds(AllCompleted(inc0, after), x) ensures Holds(b.ready, x) {
      assert Holds(AllCompleted(inc0, before), x) ==> Holds(a.ready, x);
    }
    forall x | Holds(b.ready, x) ensures Sourced(ds0, inc0, after, x) {
      if Holds(a.ready, x) {
        assert Sourced(ds0, inc0, before, x);
      } else {
        assert Comes(resp, a.parked, a.awaited, x);
        assert Holds(a.parked, x) ==> Holds(ds0, x);
      }
    }
  }

  lemma {:induction false} NextResponse(valid: seq<Response>, i: nat)
    requires i < |valid|
    ensures HasEmpty(valid[..i + 1]) <==> HasEmpty(valid[..i]) || (valid[i].request.header && valid[i].data == [])
    ensures forall b ::
      Given(valid[..i + 1], b) <==> Given(valid[..i], b) || (valid[i].request.header && b in valid[i].data)
  {
    var before, after := valid[..i], valid[..i + 1];
    assert forall k :: 0 <= k < i ==> before[k] == after[k];
    assert after[i] == valid[i];
  }

  /** Joining a response with a parked fragment and filtering loses nothing above the finalised height. */
  lemma {:induction false} JoinKeeps(ready: seq<Fragment>, fs: seq<Fragment>, chain: Fragment, joined: Fragment,
      rest: seq<Fragment>, fin: nat)
    requires Chain(joined) && JoinedWithOne(fs, chain, joined, rest)
    ensures var above := Above(joined, fin);
      var ready' := if |above| > 0 then ready + [above] else ready;
      forall b :: Kept(ready, fs, fin, b) || b in chain ==> Kept(ready', rest, fin, b)
  {
    var above := Above(joined, fin);
    var ready' := if |above| > 0 then ready + [above] else ready;
    var i :| 0 <= i < |fs| && rest == fs[..i] + fs[i + 1..] && JoinedOf(chain, fs[i], joined);
    AboveChain(joined, fin);
    HoldsAppend(ready, above);
    HoldsWithout(fs, i);
    forall b | Kept(ready, fs, fin, b) || b in chain ensures Kept(ready', rest, fin, b) {
      assert b in joined || Holds(ready, b) || Holds(rest, b) || (b.header.Some? && Number(b) <= fin);
    }
  }

  lemma {:induction false} JoinSource(ready: seq<Fragment>, fs: seq<Fragment>, chain: Fragment, joined: Fragment,
      rest: seq<Fragment>, above: Fragment)
    requires JoinedWithOne(fs, chain, joined, rest) && forall b :: b in above ==> b in joined
    ensures forall b :: Holds(ready + [above], b) ==> Holds(ready, b) || Holds(fs, b) || b in chain
    ensures forall b :: Holds(rest, b) ==> Holds(fs, b)
  {
    var i :| 0 <= i < |fs| && rest == fs[..i] + fs[i + 1..] && JoinedOf(chain, fs[i], joined);
    HoldsAppend(ready, above);
    JoinedMembers(chain, fs[i], joined);
    forall b | b in joined ensures Holds(fs, b) || b in chain { assert b in chain || b in fs[i]; }
    forall b | Holds(rest, b) ensures Holds(fs, b) {
      var f :| f in rest && b in f;
      assert f in fs;
    }
  }

  // ---------------------------------------------------------------- sorting and merging

  /** Merged from some order by the first block's number: all the blocks, in that order, in pieces as long as can be. */
  ghost predicate Merges(ready: seq<Fragment>, merged: seq<Fragment>) {
    && Pieces(merged) && Maximal(merged)
    && exists sorted :: SortOf(ready, sorted) && Flatten(merged) == Flatten(sorted)
  }

  ghost predicate SortOf(ready: seq<Fragment>, sorted: seq<Fragment>) {
    multiset(sorted) == multiset(ready) && (Chains(ready) ==> SortedByFirst(sorted))
  }

  lemma {:induction false} SameMembers(ready: seq<Fragment>, sorted: seq<Fragment>)
    requires multiset(sorted) == multiset(ready)
    ensures forall f :: f in sorted <==> f in ready
  {
    assert forall f :: f in sorted <==> f in multiset(sorted);
    assert forall f :: f in ready <==> f in multiset(ready);
  }

  lemma {:induction false} MergedBlocks(ready: seq<Fragment>, merged: seq<Fragment>)
    requires Merges(ready, merged)
    ensures forall b :: Holds(merged, b) <==> Holds(ready, b)
  {
    var sorted :| SortOf(ready, sorted) && Flatten(merged) == Flatten(sorted);
    SameMembers(ready, sorted);
    forall b ensures Holds(merged, b) <==> Holds(ready, b) {
      HoldsIsFlatten(merged, b);
      HoldsIsFlatten(sorted, b);
    }
  }
}
