/** Peers, their reputations and the connection slots of each set. */
module PeersState {
  import opened Basics

  type Peer = nat

  // ---------------------------------------------------------------- reputation

  newtype Reputation = x: int | -0x8000_0000 <= x < 0x8000_0000

  const MIN_REPUTATION: Reputation := -0x8000_0000
  const MAX_REPUTATION: Reputation := 0x7FFF_FFFF

  /** Below this a peer is banned: 82 times the least reputation divided by 100, truncated. */
  const BANNED_THRESHOLD: Reputation := -1760936552

  function Clamp(x: int): (r: Reputation)
    ensures r as int == if x < -0x8000_0000 then -0x8000_0000 else if x > 0x7FFF_FFFF then 0x7FFF_FFFF else x
  {
    if x < -0x8000_0000 then MIN_REPUTATION else if x > 0x7FFF_FFFF then MAX_REPUTATION else x as Reputation
  }

  /** Saturating addition, computed without ever leaving 32 bits. */
  function Add(r: Reputation, num: Reputation): (s: Reputation)
    ensures s == Clamp(r as int + num as int)
  {
    if num > 0 then (if r > MAX_REPUTATION - num then MAX_REPUTATION else r + num)
    else if r < MIN_REPUTATION - num then MIN_REPUTATION
    else r + num
  }

  function Sub(r: Reputation, num: Reputation): (s: Reputation)
    ensures s == Clamp(r as int - num as int)
  {
    if num < 0 then (if r > MAX_REPUTATION + num then MAX_REPUTATION else r - num)
    else if r < MIN_REPUTATION + num then MIN_REPUTATION
    else r - num
  }

  /** Division by 50 rounding towards zero. */
  function Fiftieth(r: Reputation): Reputation {
    if r >= 0 then r / 50 else (-((-(r as int)) / 50)) as Reputation
  }

  /** One second of decay, strictly towards zero and never past it: a fiftieth, rounded down, but at least 1. */
  function Tick(r: Reputation): (s: Reputation)
    ensures r > 0 ==> 0 <= s < r
    ensures r < 0 ==> r < s <= 0
    ensures r == 0 ==> s == 0
    ensures (0 < r < 50 ==> s == r - 1) && (-50 < r < 0 ==> s == r + 1)
    ensures r >= 50 ==> var lost := r as int - s as int; 50 * lost <= r as int < 50 * (lost + 1)
    ensures r <= -50 ==> var gain := s as int - r as int; 50 * gain <= -(r as int) < 50 * (gain + 1)
  {
    var diff := Fiftieth(r);
    Sub(r, if diff == 0 && r < 0 then -1 else if diff == 0 && r > 0 then 1 else diff)
  }

  /** Some seconds of decay. */
  function Ticks(r: Reputation, seconds: nat): Reputation {
    if seconds == 0 then r else Tick(Ticks(r, seconds - 1))
  }

  function Abs(x: int): nat { if x < 0 then -x else x }

  /** Every reputation is gone after as many seconds as it has points, and does not change sign before. */
  lemma {:induction false} DecaysToZero(r: Reputation, seconds: nat)
    ensures r >= 0 ==> 0 <= Ticks(r, seconds) <= r
    ensures r <= 0 ==> r <= Ticks(r, seconds) <= 0
    ensures Ticks(r, seconds) == 0 || Abs(Ticks(r, seconds) as int) + seconds <= Abs(r as int)
  {
    if seconds > 0 { DecaysToZero(r, seconds - 1); }
  }

  // ---------------------------------------------------------------- the state, as a value

  datatype Membership = NotMember | Ingoing | Outgoing | NotConnected

  datatype Node = Node(states: seq<Membership>, reputation: Reputation)

  /** A set's slots. `unreserved` counts the connected outgoing peers that lost their reservation. */
  datatype Info = Info(numIn: nat, numOut: nat, maxIn: nat, maxOut: nat, noSlot: set<Peer>, unreserved: nat)

  datatype View = View(nodes: map<Peer, Node>, sets: seq<Info>)

  /** Unsigned 32-bit decrement: it wraps at 0. */
  function Dec(n: nat): nat {
    if n == 0 then 0xFFFF_FFFF else n - 1
  }

  predicate Shaped(v: View) {
    forall p {:trigger v.nodes[p]} :: p in v.nodes ==> |v.nodes[p].states| == |v.sets|
  }

  function StateOf(v: View, i: nat, p: Peer): Membership {
    if p in v.nodes && i < |v.nodes[p].states| then v.nodes[p].states[i] else NotMember
  }

  predicate Connected(v: View, i: nat, p: Peer) {
    StateOf(v, i, p).Ingoing? || StateOf(v, i, p).Outgoing?
  }

  predicate Occupies(v: View, i: nat, m: Membership, p: Peer)
    requires i < |v.sets|
  {
    p in v.nodes && StateOf(v, i, p) == m && p !in v.sets[i].noSlot
  }

  /** The peers in a given state that occupy a slot. */
  ghost function Occupying(v: View, i: nat, m: Membership): (r: set<Peer>)
    requires i < |v.sets|
    ensures forall p {:trigger p in r} {:trigger Occupies(v, i, m, p)} :: p in r <==> Occupies(v, i, m, p)
  {
    set p | p in v.nodes && Occupies(v, i, m, p)
  }

  function One(b: bool): nat { if b then 1 else 0 }

  /** If only one peer has changed, so has the count, by that peer. */
  lemma {:induction false} OneChanged(v: View, v': View, i: nat, m: Membership, p: Peer)
    requires i < |v.sets| && i < |v'.sets|
    requires forall q {:trigger Occupies(v', i, m, q)} :: q != p ==> (Occupies(v', i, m, q) <==> Occupies(v, i, m, q))
    ensures |Occupying(v', i, m)| + One(Occupies(v, i, m, p)) == |Occupying(v, i, m)| + One(Occupies(v', i, m, p))
  {
    var a, b := Occupying(v, i, m), Occupying(v', i, m);
    assert a - {p} == b - {p} by {
      forall q ensures q in a - {p} <==>
        q in b - {p} { assert q != p ==> (Occupies(v', i, m, q) <==> Occupies(v, i, m, q)); }
    }
    SizeWithout(a, p);
    SizeWithout(b, p);
  }

  lemma {:induction false} SizeWithout(a: set<Peer>, p: Peer)
    ensures |a| == |a - {p}| + One(p in a)
  {
    if p !in a { assert a - {p} == a; }
  }

  /** The counters of a set are right, and outgoing slots are exceeded only by peers that lost a reservation. */
  ghost predicate CountedAt(v: View, i: nat)
    requires i < |v.sets|
  {
    && v.sets[i].numIn == |Occupying(v, i, Ingoing)| && v.sets[i].numOut == |Occupying(v, i, Outgoing)|
    && v.sets[i].numOut <= v.sets[i].maxOut + v.sets[i].unreserved
  }

  ghost predicate Counted(v: View) {
    Shaped(v) && forall i {:trigger CountedAt(v, i)} :: 0 <= i < |v.sets| ==> CountedAt(v, i)
  }

  function WithState(v: View, i: nat, p: Peer, m: Membership): View
    requires Shaped(v) && p in v.nodes && i < |v.sets|
  {
    v.(nodes := v.nodes[p := v.nodes[p].(states := v.nodes[p].states[i := m])])
  }

  function WithInfo(v: View, i: nat, info: Info): View
    requires i < |v.sets|
  {
    v.(sets := v.sets[i := info])
  }

  lemma {:induction false} WithStateMeans(v: View, i: nat, p: Peer, m: Membership)
    requires Shaped(v) && p in v.nodes && i < |v.sets|
    ensures Shaped(WithState(v, i, p, m))
    ensures forall k, q {:trigger StateOf(WithState(v, i, p, m), k, q)} ::
      StateOf(WithState(v, i, p, m), k, q) == if k == i && q == p then m else StateOf(v, k, q)
  {
  }

  // ---------------------------------------------------------------- operations

  function Insert(v: View, i: nat, p: Peer): View
    requires i < |v.sets|
  {
    if p in v.nodes then v
    else v.(nodes := v.nodes[p := Node(seq(|v.sets|, _ => NotMember)[i := NotConnected], 0)])
  }

  /** A peer's reputation; an unknown peer has none yet. */
  function RepOf(v: View, p: Peer): Reputation {
    if p in v.nodes then v.nodes[p].reputation else 0
  }

  function WithReputation(v: View, p: Peer, r: Reputation): View
    requires p in v.nodes
  {
    v.(nodes := v.nodes[p := v.nodes[p].(reputation := r)])
  }

  function AddNoSlot(v: View, i: nat, p: Peer): View
    requires i < |v.sets|
  {
    var info := v.sets[i];
    if p in info.noSlot then v
    else WithInfo(v, i, info.(noSlot := info.noSlot + {p},
      numIn := if StateOf(v, i, p).Ingoing? then Dec(info.numIn) else info.numIn,
      numOut := if StateOf(v, i, p).Outgoing? then Dec(info.numOut) else info.numOut))
  }

  function RemoveNoSlot(v: View, i: nat, p: Peer): View
    requires i < |v.sets|
  {
    var info := v.sets[i];
    if p !in info.noSlot then v
    else WithInfo(v, i, info.(noSlot := info.noSlot - {p},
      numIn := if StateOf(v, i, p).Ingoing? then info.numIn + 1 else info.numIn,
      numOut := if StateOf(v, i, p).Outgoing? then info.numOut + 1 else info.numOut,
      unreserved := if StateOf(v, i, p).Outgoing? then info.unreserved + 1 else info.unreserved))
  }

  function Disconnected(v: View, i: nat, p: Peer): View
    requires Shaped(v) && i < |v.sets| && p in v.nodes
  {
    var info := v.sets[i];
    var slots := if p in info.noSlot then info else info.(
      numIn := if StateOf(v, i, p).Ingoing? then Dec(info.numIn) else info.numIn,
      numOut := if StateOf(v, i, p).Outgoing? then Dec(info.numOut) else info.numOut);
    WithInfo(WithState(v, i, p, NotConnected), i, slots)
  }

  predicate InNoSet(n: Node) {
    forall k :: 0 <= k < |n.states| ==> n.states[k].NotMember?
  }

  /** The peer leaves the set; one without reputation that is in no set is dropped altogether. */
  function Forgotten(v: View, i: nat, p: Peer): View
    requires Shaped(v) && i < |v.sets| && p in v.nodes
  {
    var left := WithState(v, i, p, NotMember);
    if left.nodes[p].reputation == 0 && InNoSet(left.nodes[p]) then left.(nodes := left.nodes - {p}) else left
  }

  predicate FreeOutgoing(v: View, i: nat)
    requires i < |v.sets|
  {
    v.sets[i].numOut < v.sets[i].maxOut
  }

  predicate FreeIncoming(v: View, i: nat)
    requires i < |v.sets|
  {
    v.sets[i].numIn < v.sets[i].maxIn
  }

  function Dialled(v: View, i: nat, p: Peer): View
    requires Shaped(v) && i < |v.sets| && p in v.nodes
  {
    var info := v.sets[i];
    WithInfo(WithState(v, i, p, Outgoing), i, if p in info.noSlot then info else info.(numOut := info.numOut + 1))
  }

  function Admitted(v: View, i: nat, p: Peer): View
    requires Shaped(v) && i < |v.sets| && p in v.nodes
  {
    var info := v.sets[i];
    WithInfo(WithState(v, i, p, Ingoing), i, if p in info.noSlot then info else info.(numIn := info.numIn + 1))
  }

  // ---------------------------------------------------------------- what the operations do to records and rules

  /** Nothing but connection states and the slot counters of set `i` may differ. */
  ghost predicate SameBut(v: View, v': View, i: nat) {
    && v'.nodes.Keys == v.nodes.Keys && |v'.sets| == |v.sets|
    && (forall q {:trigger v'.nodes[q]} :: q in v.nodes ==> v'.nodes[q].reputation == v.nodes[q].reputation)
    && (forall k {:trigger v'.sets[k]} :: 0 <= k < |v.sets| ==>
          if k == i then v'.sets[k] == v.sets[k].(numIn := v'.sets[k].numIn, numOut := v'.sets[k].numOut)
          else v'.sets[k] == v.sets[k])
  }

  /** Nothing but the record of peer `p` may differ. */
  ghost predicate SameOthers(v: View, v': View, p: Peer) {
    && v'.sets == v.sets
    && (forall q {:trigger q in v'.nodes} :: q != p ==> (q in v'.nodes <==> q in v.nodes))
    && (forall q {:trigger v'.nodes[q]} :: q != p && q in v.nodes && q in v'.nodes ==> v'.nodes[q] == v.nodes[q])
  }

  /** The record is gone exactly if the peer has no reputation and is in no other set. */
  lemma {:induction false} ForgottenMeaning(v: View, i: nat, p: Peer)
    requires Shaped(v) && i < |v.sets| && p in v.nodes
    ensures var v' := Forgotten(v, i, p);
      && SameOthers(v, v', p)
      && (p !in v'.nodes <==>
            v.nodes[p].reputation == 0 && forall k :: 0 <= k < |v.sets| && k != i ==> StateOf(v, k, p).NotMember?)
      && (p in v'.nodes ==> v'.nodes[p] == v.nodes[p].(states := v.nodes[p].states[i := NotMember]))
  {
    var left := WithState(v, i, p, NotMember).nodes[p];
    assert forall k :: 0 <= k < |v.sets| ==> left.states[k] == if k == i then NotMember else StateOf(v, k, p);
    if forall k :: 0 <= k < |v.sets| && k != i ==> StateOf(v, k, p).NotMember? {
      assert InNoSet(left);
    }
    if InNoSet(left) {
      forall k | 0 <= k < |v.sets| && k != i ensures StateOf(v, k, p).NotMember? { assert left.states[k].NotMember?; }
    }
  }

  // ---------------------------------------------------------------- every operation keeps the counts

  /** Only peer `p` of set `i` may have changed; elsewhere slots and connections are as before. */
  ghost predicate OnlyAt(v: View, v': View, i: nat, p: Peer) {
    && |v'.sets| == |v.sets|
    && (forall k {:trigger v'.sets[k]} :: 0 <= k < |v.sets| && k != i ==> v'.sets[k] == v.sets[k])
    && (forall k, q {:trigger StateOf(v', k, q)} :: k != i || q != p ==>
          StateOf(v', k, q) == StateOf(v, k, q) || (!Connected(v', k, q) && !Connected(v, k, q)))
    && (i < |v.sets| ==> v'.sets[i].noSlot - {p} == v.sets[i].noSlot - {p})
  }

  lemma {:induction false} OccupiesSame(v: View, v': View, i: nat, p: Peer, k: nat, m: Membership, q: Peer)
    requires OnlyAt(v, v', i, p) && k < |v.sets| && (k != i || q != p) && (m.Ingoing? || m.Outgoing?)
    ensures Occupies(v', k, m, q) <==> Occupies(v, k, m, q)
  {
    assert StateOf(v', k, q) == StateOf(v, k, q) || (!Connected(v', k, q) && !Connected(v, k, q));
    assert k == i ==> (q in v'.sets[i].noSlot - {p} <==> q in v.sets[i].noSlot - {p});
  }

  /** What one change does to the two counts of a set. */
  lemma {:induction false} CountsAt(v: View, v': View, i: nat, p: Peer, k: nat, m: Membership)
    requires OnlyAt(v, v', i, p) && k < |v.sets| && (m.Ingoing? || m.Outgoing?)
    ensures |Occupying(v', k, m)| + (if k == i then One(Occupies(v, k, m, p)) else 0)
      == |Occupying(v, k, m)| + (if k == i then One(Occupies(v', k, m, p)) else 0)
  {
    forall q {:trigger Occupies(v', k, m, q)} | q != p ensures Occupies(v', k, m, q) <==> Occupies(v, k, m, q) {
      OccupiesSame(v, v', i, p, k, m, q);
    }
    if k != i { OccupiesSame(v, v', i, p, k, m, p); }
    OneChanged(v, v', k, m, p);
  }

  /** The counters of set `i` follow the change of `p`. */
  ghost predicate Follows(v: View, v': View, i: nat, p: Peer)
    requires i < |v.sets| && i < |v'.sets|
  {
    var o, n := v.sets[i], v'.sets[i];
    && n.numIn + One(Occupies(v, i, Ingoing, p)) == o.numIn + One(Occupies(v', i, Ingoing, p))
    && n.numOut + One(Occupies(v, i, Outgoing, p)) == o.numOut + One(Occupies(v', i, Outgoing, p))
    && n.numOut <= n.maxOut + n.unreserved
  }

  /** After a change of `p` in set `i` everything is counted exactly if the counters followed it. */
  lemma {:induction false} ChangeCounted(v: View, v': View, i: nat, p: Peer)
    requires Counted(v) && Shaped(v') && OnlyAt(v, v', i, p) && i < |v.sets|
    ensures Counted(v') <==> Follows(v, v', i, p)
  {
    forall k: nat {:trigger CountedAt(v', k)} | k < |v'.sets|
      ensures CountedAt(v', k) <==> k != i || Follows(v, v', i, p)
    {
      assert CountedAt(v, k);
      CountsAt(v, v', i, p, k, Ingoing);
      CountsAt(v, v', i, p, k, Outgoing);
    }
    assert CountedAt(v', i) <==> Follows(v, v', i, p);
  }

  /** A peer that occupies a slot is counted, so a decrement for it cannot wrap. */
  lemma {:induction false} CountedPositive(v: View, i: nat, p: Peer)
    requires Counted(v) && i < |v.sets|
    ensures Occupies(v, i, Ingoing, p) ==> v.sets[i].numIn > 0
    ensures Occupies(v, i, Outgoing, p) ==> v.sets[i].numOut > 0
  {
    assert CountedAt(v, i);
    assert p in Occupying(v, i, Ingoing) ==> |Occupying(v, i, Ingoing)| > 0;
    assert p in Occupying(v, i, Outgoing) ==> |Occupying(v, i, Outgoing)| > 0;
  }

  /** A new peer is idle in the one set, in no other, and has no reputation; a known one stays as it is. */
  lemma {:induction false} InsertKeeps(v: View, i: nat, p: Peer)
    requires Counted(v) && i < |v.sets|
    ensures Counted(Insert(v, i, p))
    ensures var v' := Insert(v, i, p);
      && SameOthers(v, v', p) && p in v'.nodes && (p in v.nodes ==> v' == v)
      && (p !in v.nodes ==> v'.nodes[p].reputation == 0 && forall k {:trigger StateOf(v', k, p)} ::
            StateOf(v', k, p) == if k == i then NotConnected else NotMember)
    ensures forall k, q {:trigger Connected(Insert(v, i, p), k, q)} ::
      Connected(Insert(v, i, p), k, q) <==> Connected(v, k, q)
  {
    assert CountedAt(v, i);
    ChangeCounted(v, Insert(v, i, p), i, p);
  }

  lemma {:induction false} ReputationKeeps(v: View, p: Peer, r: Reputation)
    requires Counted(v) && p in v.nodes
    ensures Counted(WithReputation(v, p, r))
    ensures SameOthers(v, WithReputation(v, p, r), p) && RepOf(WithReputation(v, p, r), p) == r
    ensures forall k, q {:trigger StateOf(WithReputation(v, p, r), k, q)} ::
      StateOf(WithReputation(v, p, r), k, q) == StateOf(v, k, q)
  {
    var v' := WithReputation(v, p, r);
    if |v.sets| > 0 {
      assert CountedAt(v, 0);
      ChangeCounted(v, v', 0, p);
    }
  }

  lemma {:induction false} AddNoSlotKeeps(v: View, i: nat, p: Peer)
    requires Counted(v) && i < |v.sets|
    ensures Counted(AddNoSlot(v, i, p)) && AddNoSlot(v, i, p).nodes == v.nodes
    ensures AddNoSlot(v, i, p).sets[i].noSlot == v.sets[i].noSlot + {p}
    ensures SameBut(v, WithInfo(AddNoSlot(v, i, p), i, AddNoSlot(v, i, p).sets[i].(noSlot := v.sets[i].noSlot)), i)
  {
    assert CountedAt(v, i);
    CountedPositive(v, i, p);
    ChangeCounted(v, AddNoSlot(v, i, p), i, p);
  }

  lemma {:induction false} RemoveNoSlotKeeps(v: View, i: nat, p: Peer)
    requires Counted(v) && i < |v.sets|
    ensures Counted(RemoveNoSlot(v, i, p)) && RemoveNoSlot(v, i, p).nodes == v.nodes
    ensures var info := RemoveNoSlot(v, i, p).sets[i];
      && info.noSlot == v.sets[i].noSlot - {p}
      && info.unreserved == v.sets[i].unreserved + One(p in v.sets[i].noSlot && StateOf(v, i, p).Outgoing?)
      && SameBut(v, WithInfo(RemoveNoSlot(v, i, p), i,
                             info.(noSlot := v.sets[i].noSlot, unreserved := v.sets[i].unreserved)), i)
  {
    assert CountedAt(v, i);
    ChangeCounted(v, RemoveNoSlot(v, i, p), i, p);
  }

  lemma {:induction false} DisconnectKeeps(v: View, i: nat, p: Peer)
    requires Counted(v) && i < |v.sets| && p in v.nodes && (Connected(v, i, p) || p in v.sets[i].noSlot)
    ensures Counted(Disconnected(v, i, p)) && SameBut(v, Disconnected(v, i, p), i)
    ensures forall k, q {:trigger StateOf(Disconnected(v, i, p), k, q)} ::
      StateOf(Disconnected(v, i, p), k, q) == if k == i && q == p then NotConnected else StateOf(v, k, q)
  {
    assert CountedAt(v, i);
    WithStateMeans(v, i, p, NotConnected);
    CountedPositive(v, i, p);
    StateOfInfo(v, i, p, NotConnected, Disconnected(v, i, p));
    ChangeCounted(v, Disconnected(v, i, p), i, p);
  }

  lemma {:induction false} StateOfInfo(v: View, i: nat, p: Peer, m: Membership, v': View)
    requires Shaped(v) && p in v.nodes && i < |v.sets| && v'.nodes == WithState(v, i, p, m).nodes
    ensures forall k, q {:trigger StateOf(v', k, q)} ::
      StateOf(v', k, q) == if k == i && q == p then m else StateOf(v, k, q)
  {
    WithStateMeans(v, i, p, m);
    assert forall k, q :: StateOf(v', k, q) == StateOf(WithState(v, i, p, m), k, q);
  }

  /** A connected peer that takes up a slot. */
  predicate HoldsSlot(v: View, i: nat, p: Peer)
    requires i < |v.sets|
  {
    Connected(v, i, p) && p !in v.sets[i].noSlot
  }

  /** Forgetting a connected peer leaves its slot counted. */
  lemma {:induction false} ForgetKeeps(v: View, i: nat, p: Peer)
    requires Counted(v) && i < |v.sets| && p in v.nodes
    ensures Counted(Forgotten(v, i, p)) <==> !HoldsSlot(v, i, p)
    ensures forall k, q {:trigger StateOf(Forgotten(v, i, p), k, q)} ::
      StateOf(Forgotten(v, i, p), k, q) == if k == i && q == p then NotMember else StateOf(v, k, q)
  {
    var v', left := Forgotten(v, i, p), WithState(v, i, p, NotMember);
    WithStateMeans(v, i, p, NotMember);
    assert forall k, q :: StateOf(v', k, q) == StateOf(left, k, q);
    assert CountedAt(v, i);
    ChangeCounted(v, v', i, p);
  }

  /** Dialling a peer that already holds a slot counts it twice. */
  lemma {:induction false} DialKeeps(v: View, i: nat, p: Peer)
    requires Counted(v) && i < |v.sets| && p in v.nodes
    requires FreeOutgoing(v, i) || p in v.sets[i].noSlot
    ensures (Counted(Dialled(v, i, p)) <==> !HoldsSlot(v, i, p)) && SameBut(v, Dialled(v, i, p), i)
    ensures forall k, q {:trigger StateOf(Dialled(v, i, p), k, q)} ::
      StateOf(Dialled(v, i, p), k, q) == if k == i && q == p then Outgoing else StateOf(v, k, q)
  {
    assert CountedAt(v, i);
    WithStateMeans(v, i, p, Outgoing);
    StateOfInfo(v, i, p, Outgoing, Dialled(v, i, p));
    ChangeCounted(v, Dialled(v, i, p), i, p);
  }

  /** So does accepting one. */
  lemma {:induction false} AdmitKeeps(v: View, i: nat, p: Peer)
    requires Counted(v) && i < |v.sets| && p in v.nodes
    ensures (Counted(Admitted(v, i, p)) <==> !HoldsSlot(v, i, p)) && SameBut(v, Admitted(v, i, p), i)
    ensures forall k, q {:trigger StateOf(Admitted(v, i, p), k, q)} ::
      StateOf(Admitted(v, i, p), k, q) == if k == i && q == p then Ingoing else StateOf(v, k, q)
  {
    assert CountedAt(v, i);
    WithStateMeans(v, i, p, Ingoing);
    StateOfInfo(v, i, p, Ingoing, Admitted(v, i, p));
    ChangeCounted(v, Admitted(v, i, p), i, p);
  }

  // ---------------------------------------------------------------- the mutable state

  datatype PeerError =
    | NoSuchPeer | PeerDisconnected | NotConnectedPeer | ConfigSetIsEmpty
    | OutgoingSlotsUnavailable | IncomingSlotsUnavailable

  /** The known peers that are not connected in a set. */
  ghost function Idle(v: View, i: nat): (r: set<Peer>)
    ensures forall p {:trigger p in r} :: p in r <==> p in v.nodes && StateOf(v, i, p).NotConnected?
  {
    set p | p in v.nodes && StateOf(v, i, p).NotConnected?
  }

  class Peers {
    var nodes: map<Peer, Node>
    var sets: seq<Info>

    ghost function Now(): View
      reads this
    {
      View(nodes, sets)
    }

    constructor (limits: seq<(nat, nat)>)
      ensures Counted(Now()) && nodes == map[] && |sets| == |limits|
      ensures forall i :: 0 <= i < |limits| ==> sets[i] == Info(0, 0, limits[i].0, limits[i].1, {}, 0)
    {
      nodes := map[];
      sets := seq(|limits|, i requires 0 <= i < |limits| => Info(0, 0, limits[i].0, limits[i].1, {}, 0));
      new;
      forall i {:trigger CountedAt(Now(), i)} | 0 <= i < |sets| ensures CountedAt(Now(), i) {
        assert Occupying(Now(), i, Ingoing) == {} && Occupying(Now(), i, Outgoing) == {};
      }
    }

    method InsertPeer(i: nat, p: Peer)
      requires Counted(Now()) && i < |sets|
      modifies this`nodes
      ensures Now() == Insert(old(Now()), i, p) && Counted(Now()) && p in nodes
      ensures forall k, q {:trigger Connected(Now(), k, q)} :: Connected(Now(), k, q) <==> old(Connected(Now(), k, q))
    {
      InsertKeeps(Now(), i, p);
      if p !in nodes {
        nodes := nodes[p := Node(seq(|sets|, _ => NotMember)[i := NotConnected], 0)];
      }
    }

    /** The reservation is recorded first; only then is the peer looked up. */
    method AddNoSlotNode(i: nat, p: Peer) returns (r: Result<(), PeerError>)
      requires Counted(Now()) && i < |sets|
      modifies this`sets
      ensures Now() == AddNoSlot(old(Now()), i, p) && Counted(Now())
      ensures forall k, q {:trigger Connected(Now(), k, q)} :: Connected(Now(), k, q) <==> old(Connected(Now(), k, q))
      ensures r == if p in old(sets)[i].noSlot || p in nodes then Ok(()) else Err(NoSuchPeer)
    {
      AddNoSlotKeeps(Now(), i, p);
      var info := sets[i];
      if p in info.noSlot { return Ok(()); }
      info := info.(noSlot := info.noSlot + {p});
      sets := sets[i := info];
      if p !in nodes { return Err(NoSuchPeer); }
      match nodes[p].states[i] {
        case Ingoing => sets := sets[i := info.(numIn := Dec(info.numIn))];
        case Outgoing => sets := sets[i := info.(numOut := Dec(info.numOut))];
        case _ =>
      }
      return Ok(());
    }

    method RemoveNoSlotNode(i: nat, p: Peer) returns (r: Result<(), PeerError>)
      requires Counted(Now()) && i < |sets|
      modifies this`sets
      ensures Now() == RemoveNoSlot(old(Now()), i, p) && Counted(Now())
      ensures forall k, q {:trigger Connected(Now(), k, q)} :: Connected(Now(), k, q) <==> old(Connected(Now(), k, q))
      ensures r == if p !in old(sets)[i].noSlot || p in nodes then Ok(()) else Err(NoSuchPeer)
    {
      RemoveNoSlotKeeps(Now(), i, p);
      var info := sets[i];
      if p !in info.noSlot { return Ok(()); }
      info := info.(noSlot := info.noSlot - {p});
      sets := sets[i := info];
      if p !in nodes { return Err(NoSuchPeer); }
      match nodes[p].states[i] {
        case Ingoing => sets := sets[i := info.(numIn := info.numIn + 1)];
        case Outgoing => sets := sets[i := info.(numOut := info.numOut + 1, unreserved := info.unreserved + 1)];
        case _ =>
      }
      return Ok(());
    }

    /** A peer that needs no slot is not checked: connected or not, it ends up known and idle. */
    method Disconnect(i: nat, p: Peer) returns (r: Result<(), PeerError>)
      requires Counted(Now()) && i < |sets|
      modifies this
      ensures Counted(Now())
      ensures r == if p !in old(nodes) then Err(NoSuchPeer)
                   else if old(Connected(Now(), i, p)) || p in old(sets)[i].noSlot then Ok(())
                   else Err(PeerDisconnected)
      ensures Now() == if r.Ok? then Disconnected(old(Now()), i, p) else old(Now())
    {
      var info := sets[i];
      if p !in nodes { return Err(NoSuchPeer); }
      if Connected(View(nodes, sets), i, p) || p in info.noSlot { DisconnectKeeps(Now(), i, p); }
      if p !in info.noSlot {
        match nodes[p].states[i] {
          case Ingoing => info := info.(numIn := Dec(info.numIn));
          case Outgoing => info := info.(numOut := Dec(info.numOut));
          case _ => return Err(PeerDisconnected);
        }
      }
      nodes := nodes[p := nodes[p].(states := nodes[p].states[i := NotConnected])];
      sets := sets[i := info];
      return Ok(());
    }

    /** The counters stay as they are, which is right unless the peer held a slot. */
    method ForgetPeer(i: nat, p: Peer) returns (r: Result<(), PeerError>)
      requires Counted(Now()) && i < |sets|
      modifies this`nodes
      ensures r == if p in old(nodes) then Ok(()) else Err(NoSuchPeer)
      ensures Now() == if r.Ok? then Forgotten(old(Now()), i, p) else old(Now())
      ensures Counted(Now()) <==> !old(HoldsSlot(Now(), i, p))
      ensures forall k, q {:trigger Connected(Now(), k, q)} ::
        Connected(Now(), k, q) <==> (k != i || q != p) && old(Connected(Now(), k, q))
    {
      if p !in nodes { return Err(NoSuchPeer); }
      ForgetKeeps(Now(), i, p);
      nodes := nodes[p := nodes[p].(states := nodes[p].states[i := NotMember])];
      if nodes[p].reputation != 0 { return Ok(()); }
      if InNoSet(nodes[p]) { nodes := nodes - {p}; }
      return Ok(());
    }

    method TryOutgoing(i: nat, p: Peer) returns (r: Result<(), PeerError>)
      requires Counted(Now()) && i < |sets|
      modifies this
      ensures Counted(Now()) <==> r.Err? || !old(HoldsSlot(Now(), i, p))
      ensures r == if old(sets[i].numOut >= sets[i].maxOut && p !in sets[i].noSlot) then Err(OutgoingSlotsUnavailable)
                   else if p !in old(nodes) then Err(NoSuchPeer) else Ok(())
      ensures Now() == if r.Ok? then Dialled(old(Now()), i, p) else old(Now())
    {
      var reserved := p in sets[i].noSlot;
      if sets[i].numOut >= sets[i].maxOut && !reserved { return Err(OutgoingSlotsUnavailable); }
      if p !in nodes { return Err(NoSuchPeer); }
      DialKeeps(Now(), i, p);
      nodes := nodes[p := nodes[p].(states := nodes[p].states[i := Outgoing])];
      assert sets[i := sets[i]] == sets;
      if !reserved { sets := sets[i := sets[i].(numOut := sets[i].numOut + 1)]; }
      return Ok(());
    }

    method TryAcceptIncoming(i: nat, p: Peer) returns (r: Result<(), PeerError>)
      requires Counted(Now()) && i < |sets|
      modifies this
      ensures Counted(Now()) <==> r.Err? || !old(HoldsSlot(Now(), i, p))
      ensures r == if old(sets[i].numIn >= sets[i].maxIn && p !in sets[i].noSlot) then Err(IncomingSlotsUnavailable)
                   else if p !in old(nodes) then Err(NoSuchPeer) else Ok(())
      ensures Now() == if r.Ok? then Admitted(old(Now()), i, p) else old(Now())
    {
      var reserved := p in sets[i].noSlot;
      if sets[i].numIn >= sets[i].maxIn && !reserved { return Err(IncomingSlotsUnavailable); }
      if p !in nodes { return Err(NoSuchPeer); }
      AdmitKeeps(Now(), i, p);
      nodes := nodes[p := nodes[p].(states := nodes[p].states[i := Ingoing])];
      assert sets[i := sets[i]] == sets;
      if !reserved { sets := sets[i := sets[i].(numIn := sets[i].numIn + 1)]; }
      return Ok(());
    }

    /** Changes a reputation; an unknown peer is first inserted into set 0. */
    method AddReputation(p: Peer, change: Reputation) returns (rep: Reputation)
      requires Counted(Now()) && |sets| > 0
      modifies this`nodes
      ensures rep == Add(RepOf(old(Now()), p), change)
      ensures Counted(Now()) && Now() == WithReputation(Insert(old(Now()), 0, p), p, rep)
      ensures forall k, q {:trigger Connected(Now(), k, q)} :: Connected(Now(), k, q) <==> old(Connected(Now(), k, q))
    {
      if p !in nodes { InsertPeer(0, p); }
      rep := Add(nodes[p].reputation, change);
      ReputationKeeps(Now(), p, rep);
      nodes := nodes[p := nodes[p].(reputation := rep)];
    }

    method UpdateReputationByTick(p: Peer) returns (rep: Reputation)
      requires Counted(Now()) && p in nodes
      modifies this`nodes
      ensures Counted(Now()) && Now() == WithReputation(old(Now()), p, Tick(old(nodes)[p].reputation))
      ensures rep == nodes[p].reputation
      ensures forall k, q {:trigger Connected(Now(), k, q)} :: Connected(Now(), k, q) <==> old(Connected(Now(), k, q))
    {
      rep := Tick(nodes[p].reputation);
      ReputationKeeps(Now(), p, rep);
      nodes := nodes[p := nodes[p].(reputation := rep)];
    }

    /** The idle peer with the best reputation, in whatever order peers are met; none if no peer is idle. */
    method HighestNotConnectedPeer(i: nat) returns (r: Option<Peer>)
      requires Counted(Now()) && i < |sets|
      ensures r.None? <==> Idle(Now(), i) == {}
      ensures r.Some? ==> r.value in Idle(Now(), i) && forall q ::
        q in Idle(Now(), i) ==> nodes[q].reputation <= nodes[r.value].reputation
    {
      r := None;
      var max := MIN_REPUTATION;
      var rest := nodes.Keys;
      while rest != {}
        invariant rest <= nodes.Keys
        invariant r.None? ==> max == MIN_REPUTATION && forall q ::
          q in nodes && q !in rest ==> !StateOf(Now(), i, q).NotConnected?
        invariant r.Some? ==>
          r.value in nodes && StateOf(Now(), i, r.value).NotConnected? && nodes[r.value].reputation == max
        invariant forall q ::
          q in nodes && q !in rest && StateOf(Now(), i, q).NotConnected? ==> nodes[q].reputation <= max
        decreases |rest|
      {
        var p :| p in rest;
        rest := rest - {p};
        if nodes[p].states[i].NotConnected? && nodes[p].reputation >= max {
          max := nodes[p].reputation;
          r := Some(p);
        }
      }
      ghost var idle := Idle(Now(), i);
      assert r.Some? ==> r.value in idle;
      assert r.None? ==> forall q :: q !in idle;
    }
  }

  /** A peer state needs at least one set. */
  method NewPeerState(limits: seq<(nat, nat)>) returns (r: Result<Peers, PeerError>)
    ensures r.Err? <==> limits == []
    ensures r.Err? ==> r.error == ConfigSetIsEmpty
    ensures r.Ok? ==> fresh(r.value) && Counted(r.value.Now()) && r.value.nodes == map[] && |r.value.sets| == |limits|
    ensures r.Ok? ==> forall i :: 0 <= i < |limits| ==> r.value.sets[i] == Info(0, 0, limits[i].0, limits[i].1, {}, 0)
  {
    if limits == [] { return Err(ConfigSetIsEmpty); }
    var peers := new Peers(limits);
    return Ok(peers);
  }
}
