/**
 The commit-message tracker: a map from block hash to list element beside a list of elements, newest
 first. It is proved to be a bounded queue of distinct hashes that forgets the oldest-added one.
 */
module CommitsTracker {
  import opened Basics

  datatype Message = Message(hash: Hash, body: int)

  // ---------------------------------------------------------------- the queue, as a value

  /** Tracked messages, newest first. */
  type Queue = seq<Message>

  /** Where a hash is tracked; past the end if it is not. */
  function Position(q: Queue, h: Hash): (i: nat)
    ensures i <= |q| && (i < |q| ==> q[i].hash == h) && forall k :: 0 <= k < i ==> q[k].hash != h
  {
    if q == [] || q[0].hash == h then 0 else 1 + Position(q[1..], h)
  }

  function Tracked(q: Queue, h: Hash): Option<Message> {
    if Position(q, h) < |q| then Some(q[Position(q, h)]) else None
  }

  /** A hash already tracked keeps its age; a new one goes to the front, and a full queue loses its last. */
  function Added(q: Queue, capacity: nat, m: Message): Queue
    requires capacity > 0
  {
    var i := Position(q, m.hash);
    if i < |q| then q[i := m]
    else [m] + if |q| < capacity then q else q[..|q| - 1]
  }

  function Deleted(q: Queue, h: Hash): Queue {
    var i := Position(q, h);
    if i < |q| then q[..i] + q[i + 1..] else q
  }

  // ---------------------------------------------------------------- the tracker

  /** A list element; its message can be overwritten in place. */
  class Element {
    var message: Message

    constructor (m: Message)
      ensures message == m
    {
      message := m;
    }
  }

  function Without(es: seq<Element>, i: nat): (r: seq<Element>)
    requires i < |es|
    ensures r == es[..i] + es[i + 1..]
    ensures forall k {:trigger r[k]} :: 0 <= k < |r| ==> r[k] == es[if k < i then k else k + 1]
  {
    es[..i] + es[i + 1..]
  }

  /** The places after the element at `i` is taken out. */
  ghost function Closed(place: map<Hash, nat>, gone: Hash, i: nat): (r: map<Hash, nat>)
    ensures r.Keys == place.Keys - {gone}
  {
    map h | h in place && h != gone :: if place[h] < i then place[h] else if place[h] == 0 then 0 else place[h] - 1
  }

  /** The places after a new first element. */
  ghost function Opened(place: map<Hash, nat>, h: Hash): (r: map<Hash, nat>)
    ensures r.Keys == place.Keys + {h}
  {
    (map x | x in place :: place[x] + 1)[h := 0]
  }

  /** The messages of a list of elements. */
  ghost function Messages(es: seq<Element>): (q: Queue)
    reads es
    ensures |q| == |es| && forall i {:trigger q[i]} {:trigger es[i]} :: 0 <= i < |q| ==> q[i] == es[i].message
  {
    seq(|es|, i requires 0 <= i < |es| reads es => es[i].message)
  }

  ghost predicate ListedAt(mapping: map<Hash, Element>, es: seq<Element>, place: map<Hash, nat>, i: nat)
    requires i < |es|
    reads es[i]
  {
    var h := es[i].message.hash;
    h in mapping && mapping[h] == es[i] && h in place && place[h] == i
  }

  /** The map and the list are in bijection: every element is found under its hash, at its place. */
  ghost predicate Fits(mapping: map<Hash, Element>, es: seq<Element>, place: map<Hash, nat>)
    reads es
  {
    && place.Keys == mapping.Keys
    && (forall i {:trigger ListedAt(mapping, es, place, i)} :: 0 <= i < |es| ==> ListedAt(mapping, es, place, i))
    && (forall h {:trigger place[h]} :: h in place ==> place[h] < |es| && es[place[h]].message.hash == h)
  }

  lemma {:induction false} FitsPosition(mapping: map<Hash, Element>, es: seq<Element>, place: map<Hash, nat>, h: Hash)
    requires Fits(mapping, es, place)
    ensures h in mapping <==> Position(Messages(es), h) < |es|
    ensures h in mapping ==> Position(Messages(es), h) == place[h] && es[place[h]] == mapping[h]
  {
    var i := Position(Messages(es), h);
    if i < |es| { assert ListedAt(mapping, es, place, i); }
    if h in mapping { assert ListedAt(mapping, es, place, place[h]); }
  }

  lemma {:induction false} PushFits(mapping: map<Hash, Element>, es: seq<Element>, place: map<Hash, nat>, e: Element)
    requires Fits(mapping, es, place) && e.message.hash !in mapping
    ensures Fits(mapping[e.message.hash := e], [e] + es, Opened(place, e.message.hash))
    ensures Messages([e] + es) == [e.message] + Messages(es)
  {
    var h, es' := e.message.hash, [e] + es;
    var mapping', place' := mapping[h := e], Opened(place, h);
    forall i {:trigger ListedAt(mapping', es', place', i)} | 0 <= i < |es'| ensures ListedAt(mapping', es', place', i) {
      if i > 0 { assert ListedAt(mapping, es, place, i - 1); }
    }
  }

  lemma {:induction false} RemoveFits(mapping: map<Hash, Element>, es: seq<Element>, place: map<Hash, nat>, i: nat)
    requires Fits(mapping, es, place) && i < |es|
    ensures var h := es[i].message.hash; Fits(mapping - {h}, Without(es, i), Closed(place, h, i))
    ensures Messages(Without(es, i)) == Messages(es)[..i] + Messages(es)[i + 1..]
  {
    var h, es' := es[i].message.hash, Without(es, i);
    var mapping', place' := mapping - {h}, Closed(place, h, i);
    assert ListedAt(mapping, es, place, i);
    forall k {:trigger ListedAt(mapping', es', place', k)} | 0 <= k < |es'| ensures ListedAt(mapping', es', place', k) {
      assert ListedAt(mapping, es, place, if k < i then k else k + 1);
    }
    forall x {:trigger place'[x]} | x in place' ensures place'[x] < |es'| && es'[place'[x]].message.hash == x {
      assert es[place[x]].message.hash == x;
    }
  }

  class Tracker {
    var mapping: map<Hash, Element>
    var linked: seq<Element>
    const capacity: int
    /** Where in the list each hash is. */
    ghost var place: map<Hash, nat>

    ghost predicate Valid()
      reads this, linked
    {
      (linked == [] || |linked| <= capacity) && Fits(mapping, linked, place)
    }

    ghost function View(): Queue
      reads this, linked
    {
      Messages(linked)
    }

    constructor (capacity: int)
      ensures Valid() && View() == [] && this.capacity == capacity && fresh(linked)
    {
      this.capacity, mapping, linked, place := capacity, map[], [], map[];
    }

    /**
     Overwrites the message of a tracked hash in place, or tracks a new one after making room. Without any
     capacity there is no oldest message to drop, which is fatal: the answer is false.
     */
    method Add(m: Message) returns (ok: bool)
      requires Valid()
      modifies this, linked
      ensures Valid() && ok == (capacity > 0)
      ensures View() == if ok then Added(old(View()), capacity, m) else old(View())
      ensures forall e :: e in linked && e !in old(linked) ==> fresh(e)
    {
      FitsPosition(mapping, linked, place, m.hash);
      if m.hash in mapping {
        Override(m);
        return true;
      }
      ok := Cleanup();
      if ok { Push(m); }
    }

    method Override(m: Message)
      requires Valid() && m.hash in mapping
      modifies linked
      ensures Valid() && capacity > 0 && View() == Added(old(View()), capacity, m)
    {
      FitsPosition(mapping, linked, place, m.hash);
      ghost var i := place[m.hash];
      forall k | 0 <= k < |linked| && k != i ensures linked[k] != linked[i] {
        assert ListedAt(mapping, linked, place, k) && ListedAt(mapping, linked, place, i);
      }
      mapping[m.hash].message := m;
      forall k {:trigger ListedAt(mapping, linked, place, k)} | 0 <= k < |linked|
        ensures ListedAt(mapping, linked, place, k)
      {
        assert old(ListedAt(mapping, linked, place, k)) && old(ListedAt(mapping, linked, place, i));
      }
      assert View() == old(View())[i := m];
    }

    method Push(m: Message)
      requires Valid() && |linked| < capacity && m.hash !in mapping
      modifies this
      ensures Valid() && View() == [m] + old(View()) && |linked| > 0 && fresh(linked[0]) && linked[1..] == old(linked)
    {
      var e := new Element(m);
      PushElement(e);
    }

    method PushElement(e: Element)
      requires Valid() && |linked| < capacity && e.message.hash !in mapping
      modifies this
      ensures Valid() && View() == [e.message] + old(View()) && linked == [e] + old(linked)
    {
      PushFits(mapping, linked, place, e);
      assert |[e] + linked| <= capacity;
      Store([e] + linked, mapping[e.message.hash := e], Opened(place, e.message.hash));
    }

    method Store(es: seq<Element>, m: map<Hash, Element>, ghost p: map<Hash, nat>)
      requires (es == [] || |es| <= capacity) && Fits(m, es, p)
      modifies this
      ensures Valid() && linked == es && mapping == m
    {
      linked, mapping, place := es, m, p;
    }

    /** Drops the oldest message if the tracker is full; an empty one has none. */
    method Cleanup() returns (ok: bool)
      requires Valid()
      modifies this
      ensures ok == (capacity > 0) && Valid() && mapping.Keys <= old(mapping.Keys) && linked <= old(linked)
      ensures ok ==> |linked| < capacity
      ensures View() == if old(|linked|) < capacity || !ok then old(View()) else old(View())[..old(|linked|) - 1]
    {
      if |linked| < capacity { return true; }
      if |linked| == 0 { return false; }
      RemoveAt(|linked| - 1);
      assert View() == old(View())[..old(|linked|) - 1];
      return true;
    }

    /** Takes one element out of the list and its hash out of the map. */
    method RemoveAt(i: nat)
      requires Valid() && i < |linked|
      modifies this
      ensures Valid() && linked == Without(old(linked), i) && mapping == old(mapping - {linked[i].message.hash})
      ensures View() == old(View())[..i] + old(View())[i + 1..]
    {
      RemoveFits(mapping, linked, place, i);
      var gone := linked[i].message.hash;
      Store(Without(linked, i), mapping - {gone}, Closed(place, gone, i));
    }

    /** Stops tracking a hash. */
    method Delete(h: Hash)
      requires Valid()
      modifies this
      ensures Valid() && View() == Deleted(old(View()), h) && forall e :: e in linked ==> e in old(linked)
    {
      FitsPosition(mapping, linked, place, h);
      if h !in mapping { return; }
      var i := IndexOf(mapping[h]);
      assert ListedAt(mapping, linked, place, i);
      RemoveAt(i);
    }

    /** The place of an element in the list. */
    method IndexOf(e: Element) returns (i: nat)
      requires e in linked
      ensures i < |linked| && linked[i] == e && e !in linked[..i]
    {
      i := 0;
      while linked[i] != e
        invariant i < |linked| && e !in linked[..i]
        decreases |linked| - i
      {
        i := i + 1;
      }
    }

    method Get(h: Hash) returns (r: Option<Message>)
      requires Valid()
      ensures r == Tracked(View(), h)
    {
      FitsPosition(mapping, linked, place, h);
      if h !in mapping { return None; }
      return Some(mapping[h].message);
    }
  }

  // ---------------------------------------------------------------- a reference with birthdays

  /** When each tracked hash was first added, and its latest message. */
  type Ages = map<Hash, (nat, Message)>

  ghost predicate Oldest(ages: Ages, h: Hash) {
    h in ages && forall x: Hash :: x in ages ==> ages[h].0 <= ages[x].0
  }

  /** Adding at time `now`: keep the birthday of a tracked hash; otherwise forget the oldest if full. */
  ghost predicate AddedAt(ages: Ages, capacity: nat, now: nat, m: Message, ages': Ages) {
    if m.hash in ages then ages' == ages[m.hash := (ages[m.hash].0, m)]
    else if |ages| < capacity then ages' == ages[m.hash := (now, m)]
    else exists x: Hash :: Oldest(ages, x) && ages' == (ages - {x})[m.hash := (now, m)]
  }

  /** The queue lists what the reference tracks, from the youngest to the oldest. */
  ghost predicate Lists(q: Queue, ages: Ages, now: nat) {
    if q == [] then ages == map[]
    else
      && q[0].hash in ages && ages[q[0].hash].1 == q[0] && ages[q[0].hash].0 < now
      && Lists(q[1..], ages - {q[0].hash}, ages[q[0].hash].0)
  }

  lemma {:induction false} ListsMeans(q: Queue, ages: Ages, now: nat, h: Hash)
    requires Lists(q, ages, now)
    ensures h in ages <==> Position(q, h) < |q|
    ensures h in ages ==> ages[h].1 == q[Position(q, h)] && ages[h].0 < now
    ensures |ages| == |q|
  {
    if q != [] {
      var rest := ages - {q[0].hash};
      ListsMeans(q[1..], rest, ages[q[0].hash].0, h);
      assert rest.Keys == ages.Keys - {q[0].hash};
    }
  }

  lemma {:induction false} OverrideLists(q: Queue, ages: Ages, now: nat, m: Message)
    requires Lists(q, ages, now) && m.hash in ages
    ensures var i := Position(q, m.hash); i < |q| && Lists(q[i := m], ages[m.hash := (ages[m.hash].0, m)], now)
  {
    ListsMeans(q, ages, now, m.hash);
    var i, head := Position(q, m.hash), q[0].hash;
    var q', ages' := q[i := m], ages[m.hash := (ages[m.hash].0, m)];
    if i == 0 {
      assert q'[1..] == q[1..] && ages' - {head} == ages - {head};
    } else {
      OverrideLists(q[1..], ages - {head}, ages[head].0, m);
      assert q'[1..] == q[1..][i - 1 := m];
      assert ages' - {head} == (ages - {head})[m.hash := (ages[m.hash].0, m)];
    }
  }

  lemma {:induction false} DropLists(q: Queue, ages: Ages, now: nat)
    requires Lists(q, ages, now) && q != []
    ensures var last := q[|q| - 1].hash; Oldest(ages, last) && Lists(q[..|q| - 1], ages - {last}, now)
  {
    var last: Hash, head: Hash, rest := q[|q| - 1].hash, q[0].hash, ages - {q[0].hash};
    if |q| == 1 {
      assert rest == map[];
      assert forall x :: x in ages ==> x == head || x in rest;
      assert ages - {last} == map[];
    } else {
      DropLists(q[1..], rest, ages[head].0);
      ListsMeans(q[1..], rest, ages[head].0, last);
      assert q[..|q| - 1][1..] == q[1..][..|q| - 2];
      assert (ages - {last}) - {head} == rest - {last};
      assert forall x :: x in ages ==> x == head || x in rest;
    }
  }

  lemma {:induction false} DeleteLists(q: Queue, ages: Ages, now: nat, h: Hash)
    requires Lists(q, ages, now)
    ensures Lists(Deleted(q, h), ages - {h}, now)
  {
    ListsMeans(q, ages, now, h);
    if h !in ages {
      assert ages - {h} == ages;
    } else {
      var i, head: Hash := Position(q, h), q[0].hash;
      if i == 0 {
        assert Deleted(q, h) == q[1..];
        Later(q[1..], ages - {h}, ages[h].0, now);
      } else {
        DeleteLists(q[1..], ages - {head}, ages[head].0, h);
        assert Deleted(q, h)[1..] == Deleted(q[1..], h);
        assert (ages - {h}) - {head} == (ages - {head}) - {h};
      }
    }
  }

  lemma {:induction false} Later(q: Queue, ages: Ages, t: nat, now: nat)
    requires Lists(q, ages, t) && t <= now
    ensures Lists(q, ages, now)
  {
  }

  /** The queue forgets exactly what the reference forgets: the oldest-added hash, and only when full. */
  lemma {:induction false} AddRefines(q: Queue, ages: Ages, capacity: nat, now: nat, m: Message) returns (ages': Ages)
    requires capacity > 0 && |q| <= capacity && Lists(q, ages, now)
    ensures AddedAt(ages, capacity, now, m, ages') && Lists(Added(q, capacity, m), ages', now + 1)
    ensures |Added(q, capacity, m)| <= capacity
  {
    ListsMeans(q, ages, now, m.hash);
    if m.hash in ages {
      ages' := ages[m.hash := (ages[m.hash].0, m)];
      OverrideLists(q, ages, now, m);
      Later(Added(q, capacity, m), ages', now, now + 1);
    } else if |q| < capacity {
      ages' := ages[m.hash := (now, m)];
      assert ages' - {m.hash} == ages && ([m] + q)[1..] == q;
    } else {
      DropLists(q, ages, now);
      var kept, kept' := q[..|q| - 1], ages - {q[|q| - 1].hash};
      ages' := kept'[m.hash := (now, m)];
      assert ages' - {m.hash} == kept' && ([m] + kept)[1..] == kept;
    }
  }

  /** Lookups agree with the reference. */
  lemma {:induction false} LookupRefines(q: Queue, ages: Ages, now: nat, h: Hash)
    requires Lists(q, ages, now)
    ensures Tracked(q, h) == if h in ages then Some(ages[h].1) else None
  {
    ListsMeans(q, ages, now, h);
  }

  // ---------------------------------------------------------------- whole runs

  datatype Op = Add(m: Message) | Delete(h: Hash)

  function Step(q: Queue, capacity: nat, op: Op): Queue
    requires capacity > 0
  {
    match op case Add(m) => Added(q, capacity, m) case Delete(h) => Deleted(q, h)
  }

  function Run(q: Queue, capacity: nat, ops: seq<Op>): Queue
    requires capacity > 0
    decreases ops
  {
    if ops == [] then q else Run(Step(q, capacity, ops[0]), capacity, ops[1..])
  }

  ghost predicate AgesStep(ages: Ages, capacity: nat, now: nat, op: Op, ages': Ages) {
    match op case Add(m) => AddedAt(ages, capacity, now, m, ages') case Delete(h) => ages' == ages - {h}
  }

  ghost predicate AgesRun(ages: Ages, capacity: nat, now: nat, ops: seq<Op>, ages': Ages)
    decreases ops
  {
    if ops == [] then ages' == ages
    else exists mid {:trigger AgesStep(ages, capacity, now, ops[0], mid)} ::
      AgesStep(ages, capacity, now, ops[0], mid) && AgesRun(mid, capacity, now + 1, ops[1..], ages')
  }

  lemma {:induction false} StepRefines(q: Queue, ages: Ages, capacity: nat, now: nat, op: Op) returns (ages': Ages)
    requires capacity > 0 && |q| <= capacity && Lists(q, ages, now)
    ensures AgesStep(ages, capacity, now, op, ages') && Lists(Step(q, capacity, op), ages', now + 1)
    ensures |Step(q, capacity, op)| <= capacity
  {
    match op
    case Add(m) => ages' := AddRefines(q, ages, capacity, now, m);
    case Delete(h) =>
      ages' := ages - {h};
      DeleteLists(q, ages, now, h);
      Later(Deleted(q, h), ages', now, now + 1);
  }

  /** Over every run the queue holds what the reference with birthdays holds, never more than the capacity. */
  lemma {:induction false} RunRefines(q: Queue, ages: Ages, capacity: nat, now: nat, ops: seq<Op>) returns (ages': Ages)
    requires capacity > 0 && |q| <= capacity && Lists(q, ages, now)
    ensures AgesRun(ages, capacity, now, ops, ages')
    ensures Lists(Run(q, capacity, ops), ages', now + |ops|) && |Run(q, capacity, ops)| <= capacity
    decreases ops
  {
    if ops == [] {
      ages' := ages;
    } else {
      var mid := StepRefines(q, ages, capacity, now, ops[0]);
      ages' := RunRefines(Step(q, capacity, ops[0]), mid, capacity, now + 1, ops[1..]);
    }
  }
}
