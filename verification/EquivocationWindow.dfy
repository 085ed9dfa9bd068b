/**
 The BABE equivocation check: headers are remembered per slot in a window that is pruned as time goes
 on. The window is proved to answer like a memory that never forgets.
 */
module EquivocationWindow {
  import opened Basics

  const MAX_SLOT_CAPACITY: nat := 1000
  const PRUNING_BOUND: nat := 2 * MAX_SLOT_CAPACITY

  type Signer = nat

  datatype Entry = Entry(header: Hash, signer: Signer)

  datatype Proof = Proof(slot: nat, offender: Signer, first: Hash, second: Hash)

  datatype Call = Call(slotNow: nat, slot: nat, header: Hash, signer: Signer)

  /** The stored entries of each slot, and the first slot not yet pruned. */
  datatype Window = Window(slots: map<nat, seq<Entry>>, start: Option<nat>)

  function SaturatingSub(a: nat, b: nat): nat {
    if a < b then 0 else a - b
  }

  function EntriesAt(win: Window, slot: nat): seq<Entry> {
    if slot in win.slots then win.slots[slot] else []
  }

  function FirstSaved(win: Window, slot: nat): nat {
    if win.start.Some? then win.start.value else slot
  }

  /** The header of the first entry of a signer. */
  function Lookup(es: seq<Entry>, signer: Signer): (r: Option<Hash>)
    ensures r.Some? ==> Entry(r.value, signer) in es
  {
    if es == [] then None
    else if es[0].signer == signer then Some(es[0].header)
    else Lookup(es[1..], signer)
  }

  /** Too old, or before anything has been saved: nothing is compared and nothing is stored. */
  predicate Ignored(win: Window, c: Call) {
    SaturatingSub(c.slotNow, c.slot) > MAX_SLOT_CAPACITY || c.slotNow < FirstSaved(win, c.slot)
  }

  function NewStart(win: Window, c: Call): (s: nat)
    requires !Ignored(win, c)
    ensures s <= c.slotNow && c.slotNow - s < PRUNING_BOUND
  {
    var first := FirstSaved(win, c.slot);
    if c.slotNow - first >= PRUNING_BOUND then c.slotNow - MAX_SLOT_CAPACITY else first
  }

  /** The window after a header is stored. */
  function Stored(win: Window, c: Call): Window
    requires !Ignored(win, c)
  {
    var first, next := FirstSaved(win, c.slot), NewStart(win, c);
    var slots := win.slots[c.slot := EntriesAt(win, c.slot) + [Entry(c.header, c.signer)]];
    Window(map s | s in slots && !(first <= s < next) :: slots[s], Some(next))
  }

  /** One check, as a value. */
  function Check(win: Window, c: Call): (Window, Option<Proof>) {
    if Ignored(win, c) then (win, None)
    else match Lookup(EntriesAt(win, c.slot), c.signer)
      case Some(h) => (win, if h != c.header then Some(Proof(c.slot, c.signer, h, c.header)) else None)
      case None => (Stored(win, c), None)
  }

  // ---------------------------------------------------------------- the check in place

  class SlotState {
    var slots: map<nat, seq<Entry>>
    var start: Option<nat>

    constructor ()
      ensures View() == Window(map[], None)
    {
      slots, start := map[], None;
    }

    ghost function View(): Window
      reads this
    {
      Window(slots, start)
    }

    /** Compares with the first entry of the signer, or stores the header and prunes what has become old. */
    method CheckEquivocation(slotNow: nat, slot: nat, header: Hash, signer: Signer) returns (proof: Option<Proof>)
      modifies this
      ensures (View(), proof) == Check(old(View()), Call(slotNow, slot, header, signer))
    {
      if SaturatingSub(slotNow, slot) > MAX_SLOT_CAPACITY { return None; }
      var entries := if slot in slots then slots[slot] else [];
      var first := slot;
      if start.Some? { first := start.value; }
      if slotNow < first { return None; }
      var i := 0;
      while i < |entries|
        invariant 0 <= i <= |entries| && Lookup(entries, signer) == Lookup(entries[i..], signer)
      {
        if entries[i].signer == signer {
          if entries[i].header != header {
            return Some(Proof(slot, signer, entries[i].header, header));
          } else {
            return None;
          }
        }
        assert entries[i..][1..] == entries[i + 1..];
        i := i + 1;
      }
      assert Lookup(entries, signer) == None;
      var toDelete: set<nat> := {};
      var next := first;
      if slotNow - first >= PRUNING_BOUND {
        next := SaturatingSub(slotNow, MAX_SLOT_CAPACITY);
        toDelete := Between(first, next);
      }
      slots := slots[slot := entries + [Entry(header, signer)]];
      start := Some(next);
      slots := slots - toDelete;
      assert slots == Stored(old(View()), Call(slotNow, slot, header, signer)).slots;
      return None;
    }
  }

  /** The slots to delete, collected one by one. */
  method Between(first: nat, next: nat) returns (r: set<nat>)
    ensures forall s :: s in r <==> first <= s < next
  {
    r := {};
    var s := first;
    while s < next
      invariant forall x :: x in r <==> first <= x < s && x < next
      invariant first <= next ==> s <= next
      decreases next - s
    {
      r := r + {s};
      s := s + 1;
    }
  }

  // ---------------------------------------------------------------- what one check does

  /** Pruning deletes only slots more than the capacity old. */
  lemma {:induction false} PrunesOnlyOld(win: Window, c: Call, s: nat)
    requires s in win.slots && s !in Check(win, c).0.slots
    ensures c.slotNow > s && c.slotNow - s > MAX_SLOT_CAPACITY
  {
  }

  /** A check that stores leaves the window shorter than the pruning bound, with the new header in it. */
  lemma {:induction false} StoringBound(win: Window, c: Call)
    requires !Ignored(win, c) && Lookup(EntriesAt(win, c.slot), c.signer).None?
    ensures var win' := Check(win, c).0;
      && win'.start.Some? && win'.start.value <= c.slotNow && c.slotNow - win'.start.value < PRUNING_BOUND
      && Lookup(EntriesAt(win', c.slot), c.signer) == Some(c.header)
  {
    LookupAppend(EntriesAt(win, c.slot), Entry(c.header, c.signer), c.signer);
  }

  lemma {:induction false} LookupAppend(es: seq<Entry>, e: Entry, signer: Signer)
    ensures Lookup(es + [e], signer) ==
      if Lookup(es, signer).Some? then Lookup(es, signer) else if e.signer == signer then Some(e.header) else None
    decreases es
  {
    if es == [] {
      assert es + [e] == [e];
    } else {
      assert (es + [e])[1..] == es[1..] + [e];
      LookupAppend(es[1..], e, signer);
    }
  }

  // ---------------------------------------------------------------- a memory that never forgets

  /** The first header accepted for each slot and signer. */
  type Memory = map<(nat, Signer), Hash>

  /** Too old, or from the future before anything was accepted. */
  predicate Dismissed(m: Memory, c: Call) {
    SaturatingSub(c.slotNow, c.slot) > MAX_SLOT_CAPACITY || (m == map[] && c.slot > c.slotNow)
  }

  function Recall(m: Memory, c: Call): (Memory, Option<Proof>) {
    var key := (c.slot, c.signer);
    if Dismissed(m, c) then (m, None)
    else if key in m then (m, if m[key] != c.header then Some(Proof(c.slot, c.signer, m[key], c.header)) else None)
    else (m[key := c.header], None)
  }

  /** The slots that have been pruned: from the first one ever saved, `origin`, up to the start of the window. */
  predicate Pruned(win: Window, origin: nat, s: nat) {
    win.start.Some? && origin <= s < win.start.value
  }

  ghost predicate SlotTracks(win: Window, m: Memory, origin: nat, s: nat, g: Signer) {
    Lookup(EntriesAt(win, s), g) == if (s, g) in m && !Pruned(win, origin, s) then Some(m[(s, g)]) else None
  }

  /** The window holds exactly what the memory holds, except for the pruned slots. */
  ghost predicate Tracks(win: Window, m: Memory, origin: nat) {
    && (win.start.None? <==> m == map[])
    && (win.start.Some? ==> origin <= win.start.value)
    && (forall s: nat, g: Signer {:trigger SlotTracks(win, m, origin, s, g)} :: SlotTracks(win, m, origin, s, g))
  }

  /** The first slot saved, once one is. */
  function NextOrigin(win: Window, origin: nat, c: Call): nat {
    if win.start.None? && !Ignored(win, c) then c.slot else origin
  }

  /** Out of capacity, or not before the start of the window and not for a pruned slot. */
  predicate Timely(win: Window, origin: nat, c: Call) {
    || SaturatingSub(c.slotNow, c.slot) > MAX_SLOT_CAPACITY
    || win.start.None?
    || (win.start.value <= c.slotNow && !Pruned(win, origin, c.slot))
  }

  /** Exactly when a check answers like the memory: there is nothing to find, or the call is timely. */
  lemma {:induction false} CheckAgreesIff(win: Window, m: Memory, origin: nat, c: Call)
    requires Tracks(win, m, origin)
    ensures Check(win, c).1 == Recall(m, c).1 <==> Recall(m, c).1.None? || Timely(win, origin, c)
  {
    assert SlotTracks(win, m, origin, c.slot, c.signer);
  }

  /** A timely check keeps the window and the memory in step, whatever the times of other checks. */
  lemma {:induction false} CheckRefines(win: Window, m: Memory, origin: nat, c: Call)
    requires Tracks(win, m, origin) && Timely(win, origin, c)
    ensures Check(win, c).1 == Recall(m, c).1 && Tracks(Check(win, c).0, Recall(m, c).0, NextOrigin(win, origin, c))
  {
    var win', m', origin' := Check(win, c).0, Recall(m, c).0, NextOrigin(win, origin, c);
    CheckAgreesIff(win, m, origin, c);
    assert SlotTracks(win, m, origin, c.slot, c.signer);
    forall s: nat, g: Signer {:trigger SlotTracks(win', m', origin', s, g)}
      ensures SlotTracks(win', m', origin', s, g)
    {
      assert SlotTracks(win, m, origin, s, g);
      if s == c.slot { LookupAppend(EntriesAt(win, s), Entry(c.header, c.signer), g); }
    }
  }

  // ---------------------------------------------------------------- whole runs

  function Answers(win: Window, cs: seq<Call>): (r: seq<Option<Proof>>)
    ensures |r| == |cs|
    decreases cs
  {
    if cs == [] then [] else [Check(win, cs[0]).1] + Answers(Check(win, cs[0]).0, cs[1..])
  }

  function Recollections(m: Memory, cs: seq<Call>): (r: seq<Option<Proof>>)
    ensures |r| == |cs|
    decreases cs
  {
    if cs == [] then [] else [Recall(m, cs[0]).1] + Recollections(Recall(m, cs[0]).0, cs[1..])
  }

  /** What the memory holds before call `k`. */
  function After(m: Memory, cs: seq<Call>, k: nat): Memory
    requires k <= |cs|
    decreases cs
  {
    if k == 0 then m else After(Recall(m, cs[0]).0, cs[1..], k - 1)
  }

  /** The window before call `k`. */
  function WindowAt(win: Window, cs: seq<Call>, k: nat): Window
    requires k <= |cs|
    decreases cs
  {
    if k == 0 then win else WindowAt(Check(win, cs[0]).0, cs[1..], k - 1)
  }

  lemma {:induction false} AnswerAt(win: Window, cs: seq<Call>, k: nat)
    requires k < |cs|
    ensures Answers(win, cs)[k] == Check(WindowAt(win, cs, k), cs[k]).1
    ensures WindowAt(win, cs, k + 1) == Check(WindowAt(win, cs, k), cs[k]).0
    decreases cs
  {
    if k > 0 {
      AnswerAt(Check(win, cs[0]).0, cs[1..], k - 1);
      assert cs[1..][k - 1] == cs[k];
    }
  }

  /** The first slot saved before call `k`. */
  function OriginAt(win: Window, origin: nat, cs: seq<Call>, k: nat): nat
    requires k <= |cs|
    decreases cs
  {
    if k == 0 then origin else OriginAt(Check(win, cs[0]).0, NextOrigin(win, origin, cs[0]), cs[1..], k - 1)
  }

  /** The first `k` calls are timely. */
  predicate TimelyUpTo(win: Window, origin: nat, cs: seq<Call>, k: nat)
    requires k <= |cs|
    decreases cs
  {
    k > 0 ==>
      Timely(win, origin, cs[0]) && TimelyUpTo(Check(win, cs[0]).0, NextOrigin(win, origin, cs[0]), cs[1..], k - 1)
  }

  ghost predicate TimeMovesOn(cs: seq<Call>, now: nat) {
    && (cs != [] ==> now <= cs[0].slotNow)
    && forall i {:trigger cs[i].slotNow} :: 0 < i < |cs| ==> cs[i - 1].slotNow <= cs[i].slotNow
  }

  /** After timely calls the window still tracks the memory. */
  lemma {:induction false} RunTracks(win: Window, m: Memory, origin: nat, cs: seq<Call>, k: nat)
    requires k <= |cs| && Tracks(win, m, origin) && TimelyUpTo(win, origin, cs, k)
    ensures Tracks(WindowAt(win, cs, k), After(m, cs, k), OriginAt(win, origin, cs, k))
    ensures Answers(win, cs)[..k] == Recollections(m, cs)[..k]
    decreases cs
  {
    if k > 0 {
      CheckRefines(win, m, origin, cs[0]);
      RunTracks(Check(win, cs[0]).0, Recall(m, cs[0]).0, NextOrigin(win, origin, cs[0]), cs[1..], k - 1);
      var a, b := Answers(win, cs), Recollections(m, cs);
      assert a[..k] == [a[0]] + Answers(Check(win, cs[0]).0, cs[1..])[..k - 1];
      assert b[..k] == [b[0]] + Recollections(Recall(m, cs[0]).0, cs[1..])[..k - 1];
    }
  }

  /** Over every run of timely calls, pruning changes no answer. */
  lemma {:induction false} TimelyLosesNothing(cs: seq<Call>)
    requires TimelyUpTo(Window(map[], None), 0, cs, |cs|)
    ensures Answers(Window(map[], None), cs) == Recollections(map[], cs)
  {
    RunTracks(Window(map[], None), map[], 0, cs, |cs|);
    var a, b := Answers(Window(map[], None), cs), Recollections(map[], cs);
    assert a[..|cs|] == a && b[..|cs|] == b;
  }

  /** The first call that is not timely is answered alike exactly if there is nothing to find. */
  lemma {:induction false} FirstUntimelyIff(cs: seq<Call>, k: nat)
    requires k < |cs| && TimelyUpTo(Window(map[], None), 0, cs, k)
    requires !Timely(WindowAt(Window(map[], None), cs, k), OriginAt(Window(map[], None), 0, cs, k), cs[k])
    ensures Answers(Window(map[], None), cs)[..k] == Recollections(map[], cs)[..k]
    ensures Answers(Window(map[], None), cs)[k] == Recollections(map[], cs)[k] <==> Recollections(map[], cs)[k].None?
  {
    var w0 := Window(map[], None);
    RunTracks(w0, map[], 0, cs, k);
    AnswerAt(w0, cs, k);
    RecollectionAt(map[], cs, k);
    CheckAgreesIff(WindowAt(w0, cs, k), After(map[], cs, k), OriginAt(w0, 0, cs, k), cs[k]);
  }

  /** At time `now` nothing within capacity has been pruned. */
  predicate InTime(win: Window, origin: nat, now: nat) {
    win.start.Some? ==>
      win.start.value <= now && (win.start.value == origin || win.start.value + MAX_SLOT_CAPACITY <= now)
  }

  /** If time does not go back, every call is timely. */
  lemma {:induction false} MovingOnIsTimely(win: Window, origin: nat, now: nat, cs: seq<Call>)
    requires InTime(win, origin, now) && TimeMovesOn(cs, now)
    ensures TimelyUpTo(win, origin, cs, |cs|)
    decreases cs
  {
    if cs != [] {
      assert |cs| > 1 ==> cs[1].slotNow >= cs[0].slotNow;
      assert TimeMovesOn(cs[1..], cs[0].slotNow) by {
        forall i {:trigger cs[1..][i].slotNow} | 0 < i < |cs[1..]|
          ensures cs[1..][i - 1].slotNow <= cs[1..][i].slotNow
        {
          assert cs[1..][i] == cs[i + 1] && cs[1..][i - 1] == cs[i];
        }
      }
      MovingOnIsTimely(Check(win, cs[0]).0, NextOrigin(win, origin, cs[0]), cs[0].slotNow, cs[1..]);
    }
  }

  /** Over every run in which time does not go back, pruning changes no answer. */
  lemma {:induction false} PruningLosesNothing(cs: seq<Call>)
    requires TimeMovesOn(cs, 0)
    ensures Answers(Window(map[], None), cs) == Recollections(map[], cs)
  {
    MovingOnIsTimely(Window(map[], None), 0, 0, cs);
    TimelyLosesNothing(cs);
  }

  lemma {:induction false} RecollectionAt(m: Memory, cs: seq<Call>, k: nat)
    requires k < |cs|
    ensures Recollections(m, cs)[k] == Recall(After(m, cs, k), cs[k]).1
    ensures After(m, cs, k + 1) == Recall(After(m, cs, k), cs[k]).0
    decreases cs
  {
    if k > 0 {
      RecollectionAt(Recall(m, cs[0]).0, cs[1..], k - 1);
      assert cs[1..][k - 1] == cs[k];
    }
  }

  lemma {:induction false} StaysRemembered(cs: seq<Call>, i: nat, k: nat, key: (nat, Signer))
    requires i <= k <= |cs| && key in After(map[], cs, i)
    ensures key in After(map[], cs, k) && After(map[], cs, k)[key] == After(map[], cs, i)[key]
    decreases k
  {
    if i < k {
      StaysRemembered(cs, i, k - 1, key);
      RecollectionAt(map[], cs, k - 1);
    }
  }

  /** Whatever the times of the calls, what is stored was the header of an earlier one. */
  lemma {:induction false} StoredFrom(cs: seq<Call>, k: nat, s: nat, e: Entry) returns (i: nat)
    requires k <= |cs| && e in EntriesAt(WindowAt(Window(map[], None), cs, k), s)
    ensures i < k && cs[i].slot == s && cs[i].signer == e.signer && cs[i].header == e.header
    decreases k
  {
    AnswerAt(Window(map[], None), cs, k - 1);
    if e in EntriesAt(WindowAt(Window(map[], None), cs, k - 1), s) {
      i := StoredFrom(cs, k - 1, s, e);
    } else {
      i := k - 1;
    }
  }

  /** In every run, a proof names two different headers, both seen for its slot and signer, the second in this call. */
  lemma {:induction false} ProofIsSound(cs: seq<Call>, k: nat)
    requires k < |cs| && Answers(Window(map[], None), cs)[k].Some?
    ensures var p := Answers(Window(map[], None), cs)[k].value;
      && p.slot == cs[k].slot && p.offender == cs[k].signer && p.second == cs[k].header && p.first != p.second
      && exists i {:trigger cs[i]} ::
        0 <= i < k && cs[i].slot == p.slot && cs[i].signer == p.offender && cs[i].header == p.first
  {
    AnswerAt(Window(map[], None), cs, k);
    var p := Answers(Window(map[], None), cs)[k].value;
    var i := StoredFrom(cs, k, p.slot, Entry(p.first, p.offender));
    assert cs[i].header == p.first;
  }

  /** Once a call is accepted, any later one within capacity with another header for its slot and signer is caught. */
  lemma {:induction false} EquivocationIsCaught(cs: seq<Call>, i: nat, k: nat)
    requires TimelyUpTo(Window(map[], None), 0, cs, |cs|) && i < k < |cs|
    requires cs[i].slot == cs[k].slot && cs[i].signer == cs[k].signer && cs[i].header != cs[k].header
    requires !Dismissed(After(map[], cs, i), cs[i]) && SaturatingSub(cs[k].slotNow, cs[k].slot) <= MAX_SLOT_CAPACITY
    ensures var a := Answers(Window(map[], None), cs); a[i].Some? || a[k].Some?
    ensures (cs[i].slot, cs[i].signer) !in After(map[], cs, i) ==>
      Answers(Window(map[], None), cs)[k] == Some(Proof(cs[i].slot, cs[i].signer, cs[i].header, cs[k].header))
  {
    TimelyLosesNothing(cs);
    RecollectionAt(map[], cs, i);
    RecollectionAt(map[], cs, k);
    StaysRemembered(cs, i + 1, k, (cs[i].slot, cs[i].signer));
  }

  /** If time may go back, pruning can lose evidence: the third call should have been caught. */
  lemma {:induction false} TimeBackLosesEvidence()
    ensures var cs := [Call(0, 0, 1, 7), Call(2000, 2000, 2, 7), Call(1000, 0, 3, 7)];
      && Recollections(map[], cs)[2] == Some(Proof(0, 7, 1, 3))
      && Answers(Window(map[], None), cs)[2] == None
  {
    var cs := [Call(0, 0, 1, 7), Call(2000, 2000, 2, 7), Call(1000, 0, 3, 7)];
    var w0 := Window(map[], None);
    var w1 := Check(w0, cs[0]).0;
    assert EntriesAt(w1, 2000) == [] && w1.start == Some(0);
    var w2 := Check(w1, cs[1]).0;
    assert EntriesAt(w2, 0) == [] && w2.start == Some(1000);
    assert Check(w2, cs[2]).1 == None;
    assert cs[1..] == [cs[1], cs[2]] && cs[1..][1..] == [cs[2]];
    assert Answers(w2, [cs[2]])[0] == None;
    assert Answers(w1, cs[1..]) == [Check(w1, cs[1]).1] + Answers(w2, [cs[2]]);
    RecollectionAt(map[], cs, 2);
    RecollectionAt(map[], cs, 1);
    RecollectionAt(map[], cs, 0);
  }
}
