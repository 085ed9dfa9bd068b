/**
 What the peer set's messages mean, and what its steps keep, as facts about values: the replay of the
 message log, the history of the states in which messages were sent, the passing of time, the answers
 to incoming connections, and the walks along lists of reserved peers.
 */
module PeerSetSpec {
  import opened Basics
  import opened PeersState

  datatype Status = Connect | Drop | Accept | Reject

  datatype Message = Message(status: Status, set_: nat, peer: Peer)

  function PeersIn(ps: seq<Peer>): set<Peer> {
    set p | p in ps
  }

  // ---------------------------------------------------------------- the log

  /** Who is connected in a set, from the messages alone. */
  function Replay(ms: seq<Message>, i: nat): set<Peer> {
    if ms == [] then {}
    else
      var before, m := Replay(ms[..|ms| - 1], i), ms[|ms| - 1];
      if m.set_ != i then before
      else match m.status
        case Connect => before + {m.peer}
        case Accept => before + {m.peer}
        case Drop => before - {m.peer}
        case Reject => before
  }

  lemma {:induction false} ReplayNext(ms: seq<Message>, m: Message, i: nat)
    ensures Replay(ms + [m], i) ==
      if m.set_ != i || m.status.Reject? then Replay(ms, i)
      else if m.status.Drop? then Replay(ms, i) - {m.peer}
      else Replay(ms, i) + {m.peer}
  {
    assert (ms + [m])[..|ms|] == ms;
  }

  /** The log and the state agree on every set and peer. */
  ghost predicate LogAgrees(v: View, ms: seq<Message>) {
    forall i: nat, p: Peer {:trigger Connected(v, i, p)} :: Connected(v, i, p) <==> p in Replay(ms, i)
  }

  lemma {:induction false} LogStep(v: View, ms: seq<Message>, v': View, i: nat, p: Peer, m: Message)
    requires LogAgrees(v, ms) && m.set_ == i && m.peer == p
    requires forall k, q {:trigger Connected(v', k, q)} ::
      k != i || q != p ==> (Connected(v', k, q) <==> Connected(v, k, q))
    requires if m.status.Reject? then Connected(v', i, p) <==> Connected(v, i, p) else Connected(v', i, p) <==>
      !m.status.Drop?
    ensures LogAgrees(v', ms + [m])
  {
    forall k: nat, q: Peer {:trigger Connected(v', k, q)} ensures Connected(v', k, q) <==> q in Replay(ms + [m], k) {
      ReplayNext(ms, m, k);
      assert Connected(v, k, q) <==> q in Replay(ms, k);
    }
  }

  predicate Known(v: View, i: nat, p: Peer) {
    !StateOf(v, i, p).NotMember?
  }

  predicate Banned(v: View, p: Peer) {
    RepOf(v, p) < BANNED_THRESHOLD
  }

  /**
   A message that may be sent from a state: a connection is opened or accepted only with a known peer
   that is neither banned nor connected, and ended only with a connected one.
   */
  predicate Sayable(v: View, m: Message) {
    match m.status
    case Reject => true
    case Drop => Connected(v, m.set_, m.peer)
    case _ => m.peer in v.nodes && !Banned(v, m.peer) && !Connected(v, m.set_, m.peer)
  }

  /** The state in which a message was sent had right counters, connections as logged so far, and allowed it. */
  ghost predicate SentFrom(ms: seq<Message>, moments: seq<View>, k: nat)
    requires k < |ms| == |moments|
  {
    Counted(moments[k]) && LogAgrees(moments[k], ms[..k]) && Sayable(moments[k], ms[k])
  }

  ghost predicate History(ms: seq<Message>, moments: seq<View>) {
    |moments| == |ms| && forall k {:trigger SentFrom(ms, moments, k)} :: 0 <= k < |ms| ==> SentFrom(ms, moments, k)
  }

  lemma {:induction false} HistoryNext(ms: seq<Message>, moments: seq<View>, m: Message, v: View)
    requires History(ms, moments) && Counted(v) && LogAgrees(v, ms) && Sayable(v, m)
    ensures History(ms + [m], moments + [v])
  {
    forall k {:trigger SentFrom(ms + [m], moments + [v], k)} | 0 <= k < |ms| + 1
      ensures SentFrom(ms + [m], moments + [v], k)
    {
      if k < |ms| {
        assert SentFrom(ms, moments, k);
        assert (ms + [m])[..k] == ms[..k];
      } else {
        assert (ms + [m])[..k] == ms;
      }
    }
  }

  ghost predicate Dropped(before: seq<Message>, after: seq<Message>, i: nat, p: Peer) {
    exists k {:trigger after[k]} :: |before| <= k < |after| && after[k] == Message(Drop, i, p)
  }

  lemma {:induction false} DroppedStays(before: seq<Message>, mid: seq<Message>, after: seq<Message>, i: nat, p: Peer)
    requires Dropped(before, mid, i, p) && mid <= after
    ensures Dropped(before, after, i, p)
  {
    var k :| |before| <= k < |mid| && mid[k] == Message(Drop, i, p);
    assert after[k] == mid[k];
  }

  lemma {:induction false} DroppedSooner(before: seq<Message>, mid: seq<Message>, after: seq<Message>, i: nat, p: Peer)
    requires Dropped(mid, after, i, p) && before <= mid
    ensures Dropped(before, after, i, p)
  {
    var k :| |mid| <= k < |after| && after[k] == Message(Drop, i, p);
  }

  /** Nobody leaves without a message. */
  lemma {:induction false} LeavingIsLogged(before: seq<Message>, after: seq<Message>, i: nat, p: Peer)
    requires before <= after && p in Replay(before, i) && p !in Replay(after, i)
    ensures Dropped(before, after, i, p)
    decreases after
  {
    var n := |after| - 1;
    var mid := after[..n];
    assert after != before;
    assert after == mid + [after[n]];
    ReplayNext(mid, after[n], i);
    if p in Replay(mid, i) {
      assert after[n] == Message(Drop, i, p);
    } else {
      LeavingIsLogged(before, mid, i, p);
      DroppedStays(before, mid, after, i, p);
    }
  }

  /** The peer has been dropped from every set in which it was connected. */
  ghost predicate DroppedFrom(v: View, before: seq<Message>, after: seq<Message>, p: Peer) {
    forall i: nat {:trigger Dropped(before, after, i, p)} ::
      i < |v.sets| && Connected(v, i, p) ==> Dropped(before, after, i, p)
  }

  lemma {:induction false} DroppedFromStays(v: View, before: seq<Message>, mid: seq<Message>, after: seq<Message>,
      p: Peer)
    requires DroppedFrom(v, before, mid, p) && mid <= after
    ensures DroppedFrom(v, before, after, p)
  {
    forall i: nat {:trigger Dropped(before, after, i, p)} | i < |v.sets| && Connected(v, i, p)
      ensures Dropped(before, after, i, p)
    {
      assert Dropped(before, mid, i, p);
      DroppedStays(before, mid, after, i, p);
    }
  }

  /** Dropped from a later state, hence from an earlier one: who was no longer connected had been dropped before. */
  lemma {:induction false} DroppedFromEarlier(v: View, v1: View, before: seq<Message>, mid: seq<Message>,
      after: seq<Message>, p: Peer)
    requires LogAgrees(v, before) && LogAgrees(v1, mid) && before <= mid <= after && |v.sets| == |v1.sets|
    requires DroppedFrom(v1, mid, after, p)
    ensures DroppedFrom(v, before, after, p)
  {
    forall i: nat {:trigger Dropped(before, after, i, p)} | i < |v.sets| && Connected(v, i, p)
      ensures Dropped(before, after, i, p)
    {
      if Connected(v1, i, p) {
        assert Dropped(mid, after, i, p);
        DroppedSooner(before, mid, after, i, p);
      } else {
        LeavingIsLogged(before, mid, i, p);
        DroppedStays(before, mid, after, i, p);
      }
    }
  }

  /** New messages, if any, drop one of these peers or connect to somebody. */
  ghost predicate DropsOnly(before: seq<Message>, after: seq<Message>, ps: seq<Peer>) {
    && before <= after
    && forall k {:trigger after[k]} :: |before| <= k < |after| ==>
         after[k].status.Connect? || (after[k].status.Drop? && after[k].peer in ps)
  }

  /** New messages, if any, are requests to connect in the one set. */
  ghost predicate OnlyConnects(before: seq<Message>, after: seq<Message>, i: nat) {
    && before <= after
    && forall k {:trigger after[k]} :: |before| <= k < |after| ==> after[k].status.Connect? && after[k].set_ == i
  }

  /** New messages, if any, drop one of these peers in the one set. */
  ghost predicate OnlyDrops(before: seq<Message>, after: seq<Message>, i: nat, ps: seq<Peer>) {
    && before <= after
    && forall k {:trigger after[k]} :: |before| <= k < |after| ==>
         after[k].status.Drop? && after[k].set_ == i && after[k].peer in ps
  }

  // ---------------------------------------------------------------- what steps keep

  /** From `a` towards 0, not past it. */
  predicate Towards0(a: Reputation, b: Reputation) {
    (a >= 0 ==> 0 <= b <= a) && (a <= 0 ==> a <= b <= 0)
  }

  /** Sets keep their limits and the peers that need no slot. */
  ghost predicate SameRules(v: View, v': View) {
    && |v'.sets| == |v.sets|
    && forall k {:trigger v'.sets[k]} :: 0 <= k < |v.sets| ==>
         && v'.sets[k].noSlot == v.sets[k].noSlot
         && v'.sets[k].maxIn == v.sets[k].maxIn && v'.sets[k].maxOut == v.sets[k].maxOut
  }

  ghost predicate Faded(v: View, v': View, but: set<Peer>) {
    forall p {:trigger RepOf(v', p)} :: p !in but ==> Towards0(RepOf(v, p), RepOf(v', p))
  }

  ghost predicate StillConnected(v: View, v': View, but: set<Peer>) {
    forall k: nat, p: Peer {:trigger Connected(v', k, p)} :: p !in but && Connected(v, k, p) ==> Connected(v', k, p)
  }

  /** Apart from some peers, nobody is dropped and reputations only fade. */
  ghost predicate Quiet(v: View, v': View, but: set<Peer>) {
    SameRules(v, v') && Faded(v, v', but) && StillConnected(v, v', but)
  }

  lemma {:induction false} QuietTrans(v: View, v1: View, v2: View, a: set<Peer>, b: set<Peer>, c: set<Peer>)
    requires Quiet(v, v1, a) && Quiet(v1, v2, b) && a <= c && b <= c
    ensures Quiet(v, v2, c)
  {
    forall p {:trigger RepOf(v2, p)} | p !in c ensures Towards0(RepOf(v, p), RepOf(v2, p)) {
      assert Towards0(RepOf(v, p), RepOf(v1, p)) && Towards0(RepOf(v1, p), RepOf(v2, p));
    }
    forall k: nat, p: Peer {:trigger Connected(v2, k, p)} | p !in c && Connected(v, k, p) ensures Connected(v2, k, p) {
      assert Connected(v1, k, p);
    }
  }

  lemma {:induction false} HangupQuiet(v: View, i: nat, p: Peer)
    requires Counted(v) && i < |v.sets| && Connected(v, i, p)
    ensures Quiet(v, Disconnected(v, i, p), {p})
  {
    DisconnectKeeps(v, i, p);
    var v' := Disconnected(v, i, p);
    assert forall q {:trigger RepOf(v', q)} :: RepOf(v', q) == RepOf(v, q);
    forall k: nat, q: Peer {:trigger Connected(v', k, q)} | q !in {p} && Connected(v, k, q)
      ensures Connected(v', k, q)
    {
      assert StateOf(v', k, q) == StateOf(v, k, q);
    }
  }

  lemma {:induction false} ReputationQuiet(v: View, p: Peer, rep: Reputation)
    requires Counted(v) && |v.sets| > 0
    ensures Quiet(v, WithReputation(Insert(v, 0, p), p, rep), {p})
  {
    InsertKeeps(v, 0, p);
    var known := Insert(v, 0, p);
    ReputationKeeps(known, p, rep);
    var v' := WithReputation(known, p, rep);
    assert forall q {:trigger RepOf(v', q)} :: q != p ==> RepOf(v', q) == RepOf(v, q);
    forall k: nat, q: Peer {:trigger Connected(v', k, q)} | q !in {p} && Connected(v, k, q)
      ensures Connected(v', k, q)
    {
      assert Connected(known, k, q);
      assert StateOf(v', k, q) == StateOf(known, k, q);
    }
  }

  /** A report found a reputation that had only faded since `was`. */
  ghost predicate ReportedFrom(was: Reputation, change: Reputation, rep: Reputation) {
    exists then_: Reputation {:trigger Towards0(was, then_)} :: Towards0(was, then_) && rep == Add(then_, change)
  }

  /**
   The k-th report of a list: it found a faded reputation unless the peer had been reported before, and
   a peer it banned has been dropped everywhere.
   */
  ghost predicate ReportAt(v: View, ms: seq<Message>, ms': seq<Message>, ps: seq<Peer>, change: Reputation,
      reps: seq<Reputation>, k: nat)
    requires k < |ps| && k < |reps|
  {
    && (ps[k] !in ps[..k] ==> ReportedFrom(RepOf(v, ps[k]), change, reps[k]))
    && (reps[k] < BANNED_THRESHOLD ==> DroppedFrom(v, ms, ms', ps[k]))
  }

  ghost predicate Reports(v: View, ms: seq<Message>, ms': seq<Message>, ps: seq<Peer>, change: Reputation,
      reps: seq<Reputation>) {
    |reps| <= |ps| && forall k {:trigger ReportAt(v, ms, ms', ps, change, reps, k)} :: 0 <= k < |reps| ==>
      ReportAt(v, ms, ms', ps, change, reps, k)
  }

  lemma {:induction false} ReportsStay(v: View, ms: seq<Message>, mid: seq<Message>, ms': seq<Message>,
                                       ps: seq<Peer>, change: Reputation, reps: seq<Reputation>)
    requires Reports(v, ms, mid, ps, change, reps) && mid <= ms'
    ensures Reports(v, ms, ms', ps, change, reps)
  {
    forall k: nat {:trigger ReportAt(v, ms, ms', ps, change, reps, k)} | k < |reps|
      ensures ReportAt(v, ms, ms', ps, change, reps, k)
    {
      assert ReportAt(v, ms, mid, ps, change, reps, k);
      if reps[k] < BANNED_THRESHOLD { DroppedFromStays(v, ms, mid, ms', ps[k]); }
    }
  }

  lemma {:induction false} ReportsNext(v: View, v1: View, ms: seq<Message>, mid: seq<Message>, ms': seq<Message>,
                                       ps: seq<Peer>, change: Reputation, reps: seq<Reputation>)
    requires Reports(v, ms, mid, ps, change, reps) && |reps| < |ps| && ms <= mid <= ms'
    requires LogAgrees(v, ms) && LogAgrees(v1, mid) && Quiet(v, v1, PeersIn(ps[..|reps|]))
    requires var p := ps[|reps|]; Add(RepOf(v1, p), change) < BANNED_THRESHOLD ==> DroppedFrom(v1, mid, ms', p)
    ensures Reports(v, ms, ms', ps, change, reps + [Add(RepOf(v1, ps[|reps|]), change)])
  {
    var n, p := |reps|, ps[|reps|];
    var reps' := reps + [Add(RepOf(v1, p), change)];
    ReportsStay(v, ms, mid, ms', ps, change, reps);
    forall k: nat {:trigger ReportAt(v, ms, ms', ps, change, reps', k)} | k < n + 1
      ensures ReportAt(v, ms, ms', ps, change, reps', k)
    {
      if k < n {
        assert ReportAt(v, ms, ms', ps, change, reps, k);
      } else {
        assert p !in ps[..n] ==> Towards0(RepOf(v, p), RepOf(v1, p));
        if reps'[n] < BANNED_THRESHOLD { DroppedFromEarlier(v, v1, ms, mid, ms', p); }
      }
    }
  }

  /** Forgotten in a set since the log of such events had length `n`. */
  ghost predicate Since(log: seq<(nat, Peer)>, n: nat, i: nat, p: Peer) {
    exists j {:trigger log[j]} :: n <= j < |log| && log[j] == (i, p)
  }

  lemma {:induction false} SinceStays(log: seq<(nat, Peer)>, log': seq<(nat, Peer)>, n: nat, i: nat, p: Peer)
    requires Since(log, n, i, p) && log <= log'
    ensures Since(log', n, i, p)
  {
    var j :| n <= j < |log| && log[j] == (i, p);
    assert log'[j] == log[j];
  }

  /** A peer known in a set stays known there unless it has been forgotten since. */
  ghost predicate MembersKept(v: View, v': View, log: seq<(nat, Peer)>, n: nat) {
    forall k: nat, p: Peer {:trigger Known(v', k, p)} :: Known(v, k, p) ==> Known(v', k, p) || Since(log, n, k, p)
  }

  /** Whoever is new is known in the one set. */
  ghost predicate NewIn(v: View, v': View, i: nat) {
    forall p {:trigger p in v'.nodes} :: p in v'.nodes ==> p in v.nodes || Known(v', i, p)
  }

  lemma {:induction false} MembersTrans(v: View, v1: View, v2: View, log1: seq<(nat, Peer)>, log2: seq<(nat, Peer)>,
      n: nat)
    requires MembersKept(v, v1, log1, n) && MembersKept(v1, v2, log2, |log1|) && n <= |log1| && log1 <= log2
    ensures MembersKept(v, v2, log2, n)
  {
    forall k: nat, p: Peer {:trigger Known(v2, k, p)} | Known(v, k, p) ensures Known(v2, k, p) || Since(log2, n, k, p) {
      assert Known(v1, k, p) || Since(log1, n, k, p);
      if Since(log1, n, k, p) {
        SinceStays(log1, log2, n, k, p);
      } else if !Known(v2, k, p) {
        var j :| |log1| <= j < |log2| && log2[j] == (k, p);
        assert Since(log2, n, k, p);
      }
    }
  }

  // ---------------------------------------------------------------- time

  /** Nobody is new or changes connection, reputations fade, and who is missing has been forgotten. */
  ghost predicate TimePassed(v: View, v': View, log: seq<(nat, Peer)>, n: nat) {
    && v'.sets == v.sets && v'.nodes.Keys <= v.nodes.Keys
    && Faded(v, v', {}) && MembersKept(v, v', log, n) && Gone(v', log, n)
    && forall k, p {:trigger Connected(v', k, p)} :: Connected(v', k, p) <==> Connected(v, k, p)
  }

  /** Who has been forgotten has left the set, without any reputation. */
  ghost predicate Gone(v: View, log: seq<(nat, Peer)>, n: nat) {
    forall j {:trigger log[j]} :: n <= j < |log| ==> RepOf(v, log[j].1) == 0 && !Known(v, log[j].0, log[j].1)
  }

  /** Every reputation has decayed for the same number of seconds. */
  ghost predicate Aged(v: View, v': View, seconds: nat) {
    forall p {:trigger RepOf(v', p)} :: RepOf(v', p) == Ticks(RepOf(v, p), seconds)
  }

  /** In the middle of a second: the peers of `rest` are still to decay. */
  ghost predicate Aging(v: View, v': View, seconds: nat, rest: set<Peer>) {
    forall p {:trigger RepOf(v', p)} :: RepOf(v', p) == Ticks(RepOf(v, p), if p in rest then seconds else seconds + 1)
  }

  /** An unknown peer has no reputation to lose. */
  lemma {:induction false} AgingStarts(v: View, v': View, seconds: nat)
    requires Aged(v, v', seconds)
    ensures Aging(v, v', seconds, v'.nodes.Keys)
  {
    forall p {:trigger RepOf(v', p)}
      ensures RepOf(v', p) == Ticks(RepOf(v, p), if p in v'.nodes.Keys then seconds else seconds + 1)
    {
      assert RepOf(v', p) == Ticks(RepOf(v, p), seconds);
      if p !in v'.nodes { assert Ticks(RepOf(v, p), seconds + 1) == Tick(0); }
    }
  }

  lemma {:induction false} AgingNext(v: View, v1: View, v2: View, seconds: nat, rest: set<Peer>, p: Peer)
    requires Aging(v, v1, seconds, rest) && p in rest
    requires forall q {:trigger RepOf(v2, q)} :: RepOf(v2, q) == if q == p then Tick(RepOf(v1, p)) else RepOf(v1, q)
    ensures Aging(v, v2, seconds, rest - {p})
  {
    forall q {:trigger RepOf(v2, q)}
      ensures RepOf(v2, q) == Ticks(RepOf(v, q), if q in rest - {p} then seconds else seconds + 1)
    {
      assert RepOf(v1, q) == Ticks(RepOf(v, q), if q in rest then seconds else seconds + 1);
    }
  }

  lemma {:induction false} TimeIsQuiet(v: View, v': View, log: seq<(nat, Peer)>, n: nat)
    requires TimePassed(v, v', log, n)
    ensures Quiet(v, v', {})
  {
  }

  lemma {:induction false} TickPasses(v0: View, v: View, p: Peer, log: seq<(nat, Peer)>, n: nat)
    requires TimePassed(v0, v, log, n) && Counted(v) && p in v.nodes
    ensures TimePassed(v0, WithReputation(v, p, Tick(v.nodes[p].reputation)), log, n)
  {
    var v' := WithReputation(v, p, Tick(v.nodes[p].reputation));
    ReputationKeeps(v, p, Tick(v.nodes[p].reputation));
    forall q {:trigger RepOf(v', q)} ensures Towards0(RepOf(v0, q), RepOf(v', q)) {
      assert Towards0(RepOf(v0, q), RepOf(v, q));
    }
    forall k: nat, q: Peer {:trigger Known(v', k, q)} | Known(v0, k, q) ensures Known(v', k, q) || Since(log, n, k, q) {
      assert Known(v, k, q) || Since(log, n, k, q);
    }
    forall k, q {:trigger Connected(v', k, q)} ensures Connected(v', k, q) <==> Connected(v0, k, q) {
      assert StateOf(v', k, q) == StateOf(v, k, q);
      assert Connected(v, k, q) <==> Connected(v0, k, q);
    }
    forall j {:trigger log[j]} | n <= j < |log| ensures RepOf(v', log[j].1) == 0 && !Known(v', log[j].0, log[j].1) {
      assert RepOf(v, log[j].1) == 0 && !Known(v, log[j].0, log[j].1);
    }
  }

  lemma {:induction false} ForgetPasses(v0: View, v: View, i: nat, p: Peer, log: seq<(nat, Peer)>, n: nat)
    requires TimePassed(v0, v, log, n) && Counted(v) && i < |v.sets| && p in v.nodes && n <= |log|
    requires v.nodes[p].reputation == 0 && !Connected(v, i, p)
    ensures TimePassed(v0, Forgotten(v, i, p), log + [(i, p)], n)
    ensures forall q {:trigger RepOf(Forgotten(v, i, p), q)} :: RepOf(Forgotten(v, i, p), q) == RepOf(v, q)
  {
    var v', log' := Forgotten(v, i, p), log + [(i, p)];
    ForgetKeeps(v, i, p);
    forall q {:trigger RepOf(v', q)} ensures Towards0(RepOf(v0, q), RepOf(v', q)) {
      assert Towards0(RepOf(v0, q), RepOf(v, q));
    }
    forall k: nat, q: Peer {:trigger Known(v', k, q)} | Known(v0, k, q)
      ensures Known(v', k, q) || Since(log', n, k, q)
    {
      assert Known(v, k, q) || Since(log, n, k, q);
      if Since(log, n, k, q) {
        SinceStays(log, log', n, k, q);
      } else if (k, q) == (i, p) {
        assert log'[|log|] == (k, q);
      } else {
        assert StateOf(v', k, q) == StateOf(v, k, q);
      }
    }
    forall k, q {:trigger Connected(v', k, q)} ensures Connected(v', k, q) <==> Connected(v0, k, q) {
      assert StateOf(v', k, q) == if k == i && q == p then NotMember else StateOf(v, k, q);
      assert Connected(v, k, q) <==> Connected(v0, k, q);
    }
    forall j {:trigger log'[j]} | n <= j < |log'| ensures
        RepOf(v', log'[j].1) == 0 && !Known(v', log'[j].0, log'[j].1) {
      var (k, q) := log'[j];
      assert StateOf(v', k, q) == if k == i && q == p then NotMember else StateOf(v, k, q);
      if j < |log| { assert log'[j] == log[j]; }
    }
  }

  // ---------------------------------------------------------------- allocation

  /** An idle peer that no idle peer exceeds in reputation. */
  ghost predicate BestIdle(v: View, i: nat, p: Peer) {
    p in Idle(v, i) && forall q {:trigger q in Idle(v, i)} :: q in Idle(v, i) ==> RepOf(v, q) <= RepOf(v, p)
  }

  /** From message `n` on, each connection was asked of the best idle peer of its moment. */
  ghost predicate BestFirst(ms: seq<Message>, moments: seq<View>, n: nat, i: nat) {
    |moments| == |ms| && forall k {:trigger ms[k]} :: n <= k < |ms| ==> BestIdle(moments[k], i, ms[k].peer)
  }

  lemma {:induction false} BestFirstNext(ms: seq<Message>, ms': seq<Message>, moments: seq<View>, n: nat, i: nat)
    requires ms <= ms' && |ms'| == |moments| && BestFirst(ms, moments[..|ms|], n, i)
    requires |ms'| <= |ms| + 1 && (|ms'| > |ms| ==> BestIdle(moments[|ms|], i, ms'[|ms|].peer))
    ensures BestFirst(ms', moments, n, i)
  {
    forall k {:trigger ms'[k]} | n <= k < |ms'| ensures BestIdle(moments[k], i, ms'[k].peer) {
      if k < |ms| { assert ms[k] == ms'[k] && moments[..|ms|][k] == moments[k]; }
    }
  }

  ghost predicate AllFrom(ms: seq<Message>, n: nat, m: nat, from: set<Peer>) {
    m <= |ms| && forall k {:trigger ms[k]} :: n <= k < m ==> ms[k].peer in from
  }

  /** Since message `n`, connections were asked of reserved peers first, and then of the best idle ones. */
  ghost predicate InOrder(ms: seq<Message>, moments: seq<View>, n: nat, i: nat, reserved: set<Peer>) {
    exists m: nat {:trigger AllFrom(ms, n, m, reserved)} ::
      n <= m && AllFrom(ms, n, m, reserved) && BestFirst(ms, moments, m, i)
  }

  /** The peers asked to connect since the log had length `n` are known and not banned. */
  ghost predicate NoneBannedSince(v: View, ms: seq<Message>, n: nat) {
    forall k {:trigger ms[k]} :: n <= k < |ms| ==> ms[k].peer in v.nodes && !Banned(v, ms[k].peer)
  }

  /** What allocating slots in set `i` keeps: it only adds connections, and only with peers that are not banned. */
  ghost predicate Allocating(v: View, v': View, ms: seq<Message>, ms': seq<Message>, i: nat, log: seq<(nat, Peer)>,
      n: nat) {
    && OnlyConnects(ms, ms', i) && NoneBannedSince(v', ms', |ms|)
    && Quiet(v, v', {}) && MembersKept(v, v', log, n) && NewIn(v, v', i)
  }

  lemma {:induction false} AllocInsert(v0: View, v: View, ms0: seq<Message>, ms: seq<Message>, i: nat, p: Peer,
      log: seq<(nat, Peer)>, n: nat)
    requires Allocating(v0, v, ms0, ms, i, log, n) && Counted(v) && i < |v.sets|
    ensures Allocating(v0, Insert(v, i, p), ms0, ms, i, log, n)
  {
    var v' := Insert(v, i, p);
    InsertKeeps(v, i, p);
    forall q {:trigger RepOf(v', q)} ensures Towards0(RepOf(v0, q), RepOf(v', q)) {
      assert Towards0(RepOf(v0, q), RepOf(v, q));
    }
    forall k: nat, q: Peer {:trigger Known(v', k, q)} | Known(v0, k, q) ensures Known(v', k, q) || Since(log, n, k, q) {
      assert Known(v, k, q) || Since(log, n, k, q);
    }
    forall k: nat, q: Peer {:trigger Connected(v', k, q)} | Connected(v0, k, q) ensures Connected(v', k, q) {
      assert Connected(v, k, q);
    }
    forall q {:trigger q in v'.nodes} | q in v'.nodes ensures q in v0.nodes || Known(v', i, q) {
      assert q in v.nodes ==> q in v0.nodes || Known(v, i, q);
    }
  }

  lemma {:induction false} AllocDial(v0: View, v: View, ms0: seq<Message>, ms: seq<Message>, i: nat, p: Peer,
      log: seq<(nat, Peer)>, n: nat)
    requires Allocating(v0, v, ms0, ms, i, log, n) && Counted(v) && i < |v.sets|
    requires p in v.nodes && !Banned(v, p) && (FreeOutgoing(v, i) || p in v.sets[i].noSlot)
    ensures Allocating(v0, Dialled(v, i, p), ms0, ms + [Message(Connect, i, p)], i, log, n)
  {
    var v', ms' := Dialled(v, i, p), ms + [Message(Connect, i, p)];
    DialKeeps(v, i, p);
    forall q {:trigger RepOf(v', q)} ensures RepOf(v', q) == RepOf(v, q) && Towards0(RepOf(v0, q), RepOf(v', q)) {
      assert Towards0(RepOf(v0, q), RepOf(v, q));
    }
    forall k {:trigger ms'[k]} | |ms0| <= k < |ms'| ensures ms'[k].peer in v'.nodes && !Banned(v', ms'[k].peer) {
      if k < |ms| { assert ms'[k] == ms[k]; }
      assert RepOf(v', ms'[k].peer) == RepOf(v, ms'[k].peer);
    }
    forall k: nat, q: Peer {:trigger Known(v', k, q)} | Known(v0, k, q) ensures Known(v', k, q) || Since(log, n, k, q) {
      assert Known(v, k, q) || Since(log, n, k, q);
      assert StateOf(v', k, q) == if k == i && q == p then Outgoing else StateOf(v, k, q);
    }
    forall k: nat, q: Peer {:trigger Connected(v', k, q)} | Connected(v0, k, q) ensures Connected(v', k, q) {
      assert Connected(v, k, q);
      assert StateOf(v', k, q) == if k == i && q == p then Outgoing else StateOf(v, k, q);
    }
    forall q {:trigger q in v'.nodes} | q in v'.nodes ensures q in v0.nodes || Known(v', i, q) {
      assert q in v0.nodes || Known(v, i, q);
      assert StateOf(v', i, q) == if q == p then Outgoing else StateOf(v, i, q);
    }
  }

  /** Allocation after time has passed. */
  lemma {:induction false} AllocAfterTime(v: View, v1: View, v2: View, ms: seq<Message>, ms': seq<Message>, i: nat,
      log: seq<(nat, Peer)>, n: nat)
    requires TimePassed(v, v1, log, n) && n <= |log| && Allocating(v1, v2, ms, ms', i, log, |log|)
    ensures Allocating(v, v2, ms, ms', i, log, n)
  {
    TimeIsQuiet(v, v1, log, n);
    QuietTrans(v, v1, v2, {}, {}, {});
    MembersTrans(v, v1, v2, log, log, n);
  }

  /** Known in the set, or known before, or forgotten since. */
  ghost predicate Accounted(v: View, v': View, i: nat, log: seq<(nat, Peer)>, n: nat, p: Peer) {
    p in v.nodes || Known(v', i, p) || Since(log, n, i, p)
  }

  ghost predicate AllAccounted(v: View, v': View, i: nat, log: seq<(nat, Peer)>, n: nat) {
    forall p {:trigger p in v'.nodes} {:trigger Accounted(v, v', i, log, n, p)} ::
      p in v'.nodes ==> Accounted(v, v', i, log, n, p)
  }

  /** One addition: the peer becomes known in the set, and everybody stays accounted for. */
  lemma {:induction false} AccountedInsert(v: View, v1: View, i: nat, log: seq<(nat, Peer)>, n: nat, p: Peer, q: Peer)
    requires Counted(v1) && i < |v1.sets| && AllAccounted(v, v1, i, log, n)
    ensures q in Insert(v1, i, p).nodes || Accounted(v, v1, i, log, n, q) ==>
      Accounted(v, Insert(v1, i, p), i, log, n, q)
  {
    var v2 := Insert(v1, i, p);
    assert q in v1.nodes ==> Accounted(v, v1, i, log, n, q);
    assert q !in v1.nodes ==> StateOf(v1, i, q) == NotMember;
  }

  lemma {:induction false} AccountedAlloc(v: View, v1: View, v2: View, i: nat, log1: seq<(nat, Peer)>,
      log2: seq<(nat, Peer)>, n: nat, q: Peer)
    requires AllAccounted(v, v1, i, log1, n) && n <= |log1| && log1 <= log2
    requires MembersKept(v1, v2, log2, |log1|) && NewIn(v1, v2, i)
    ensures q in v2.nodes || Accounted(v, v1, i, log1, n, q) ==> Accounted(v, v2, i, log2, n, q)
  {
    assert q in v2.nodes ==> q in v1.nodes || Known(v2, i, q);
    assert q in v1.nodes ==> Accounted(v, v1, i, log1, n, q);
    if Since(log1, n, i, q) {
      SinceStays(log1, log2, n, i, q);
    } else if Known(v1, i, q) && !Known(v2, i, q) {
      var j :| |log1| <= j < |log2| && log2[j] == (i, q);
      assert Since(log2, n, i, q);
    }
  }

  /** Every reserved peer is connected, or one of them is banned. */
  ghost predicate Settled(v: View, i: nat, reserved: set<Peer>) {
    (forall p {:trigger Connected(v, i, p)} :: p in reserved ==> Connected(v, i, p)) || exists p ::
      p in reserved && Banned(v, p)
  }

  lemma {:induction false} SettledDial(v: View, i: nat, p: Peer, reserved: set<Peer>)
    requires Settled(v, i, reserved) && Counted(v) && i < |v.sets| && p in v.nodes
    requires FreeOutgoing(v, i) || p in v.sets[i].noSlot
    ensures Settled(Dialled(v, i, p), i, reserved)
  {
    var v' := Dialled(v, i, p);
    DialKeeps(v, i, p);
    if q :| q in reserved && Banned(v, q) {
      assert Banned(v', q);
    } else {
      forall q {:trigger Connected(v', i, q)} | q in reserved ensures Connected(v', i, q) {
        assert Connected(v, i, q);
        assert StateOf(v', i, q) == if q == p then Outgoing else StateOf(v, i, q);
      }
    }
  }

  /** Nothing more can be allocated: no free slot, or nobody idle, or everybody idle is banned. */
  ghost predicate Exhausted(v: View, i: nat)
    requires i < |v.sets|
  {
    !FreeOutgoing(v, i) || forall p :: p in Idle(v, i) ==> Banned(v, p)
  }

  /** Dialling an idle peer leaves fewer idle. */
  lemma {:induction false} DialledIdle(v: View, i: nat, p: Peer)
    requires Counted(v) && i < |v.sets| && p in Idle(v, i) && FreeOutgoing(v, i)
    ensures |Idle(Dialled(v, i, p), i)| < |Idle(v, i)|
  {
    DialKeeps(v, i, p);
    assert Idle(Dialled(v, i, p), i) == Idle(v, i) - {p};
  }

  // ---------------------------------------------------------------- lists of reserved peers

  function NoSlotOf(v: View, k: nat): set<Peer> {
    if k < |v.sets| then v.sets[k].noSlot else {}
  }

  /** In set `i` the peers of `more` no longer need a slot and those of `less` do; other sets keep theirs. */
  ghost predicate Reserving(v: View, v': View, i: nat, more: set<Peer>, less: set<Peer>) {
    && |v'.sets| == |v.sets|
    && forall k: nat {:trigger NoSlotOf(v', k)} ::
      NoSlotOf(v', k) == if k == i then NoSlotOf(v, k) + more - less else NoSlotOf(v, k)
  }

  lemma {:induction false} ReservingTrans(v: View, v1: View, v2: View, i: nat, a: set<Peer>, b: set<Peer>)
    requires Reserving(v, v1, i, a, {}) && Reserving(v1, v2, i, b, {})
    ensures Reserving(v, v2, i, a + b, {})
  {
    forall k: nat {:trigger NoSlotOf(v2, k)}
      ensures NoSlotOf(v2, k) == if k == i then NoSlotOf(v, k) + (a + b) else NoSlotOf(v, k)
    {
      assert NoSlotOf(v1, k) == if k == i then NoSlotOf(v, k) + a else NoSlotOf(v, k);
    }
  }

  lemma {:induction false} ReleasingTrans(v: View, v1: View, v2: View, i: nat, a: set<Peer>, b: set<Peer>)
    requires Reserving(v, v1, i, {}, a) && Reserving(v1, v2, i, {}, b)
    ensures Reserving(v, v2, i, {}, a + b)
  {
    forall k: nat {:trigger NoSlotOf(v2, k)}
      ensures NoSlotOf(v2, k) == if k == i then NoSlotOf(v, k) - (a + b) else NoSlotOf(v, k)
    {
      assert NoSlotOf(v1, k) == if k == i then NoSlotOf(v, k) - a else NoSlotOf(v, k);
    }
  }

  /** Nobody is new, reputations stay, and only the given peers may have changed in set `i`. */
  ghost predicate Untouched(v: View, v': View, i: nat, but: set<Peer>) {
    && v'.nodes.Keys == v.nodes.Keys && (forall q {:trigger RepOf(v', q)} :: RepOf(v', q) == RepOf(v, q))
    && forall k: nat, q: Peer {:trigger StateOf(v', k, q)} ::
      k != i || q !in but ==> StateOf(v', k, q) == StateOf(v, k, q)
  }

  lemma {:induction false} UntouchedTrans(v: View, v1: View, v2: View, i: nat, a: set<Peer>, b: set<Peer>)
    requires Untouched(v, v1, i, a) && Untouched(v1, v2, i, b)
    ensures Untouched(v, v2, i, a + b)
  {
    forall q {:trigger RepOf(v2, q)} ensures RepOf(v2, q) == RepOf(v, q) {
      assert RepOf(v1, q) == RepOf(v, q);
    }
    forall k: nat, q: Peer {:trigger StateOf(v2, k, q)} | k != i || q !in a + b
      ensures StateOf(v2, k, q) == StateOf(v, k, q)
    {
      assert StateOf(v1, k, q) == StateOf(v, k, q);
    }
  }

  lemma {:induction false} ReleaseOne(v: View, i: nat, p: Peer)
    requires Counted(v) && i < |v.sets|
    ensures var v' := RemoveNoSlot(v, i, p); Reserving(v, v', i, {}, {p}) && Untouched(v, v', i, {p})
  {
    var v' := RemoveNoSlot(v, i, p);
    RemoveNoSlotKeeps(v, i, p);
    assert forall q {:trigger RepOf(v', q)} :: RepOf(v', q) == RepOf(v, q);
    assert forall k: nat, q: Peer {:trigger StateOf(v', k, q)} :: StateOf(v', k, q) == StateOf(v, k, q);
  }

  lemma {:induction false} HangupUntouched(v: View, i: nat, p: Peer)
    requires Counted(v) && i < |v.sets| && Connected(v, i, p)
    ensures var v' := Disconnected(v, i, p);
      Reserving(v, v', i, {}, {}) && Untouched(v, v', i, {p}) && !Connected(v', i, p)
  {
    var v' := Disconnected(v, i, p);
    DisconnectKeeps(v, i, p);
    assert forall q {:trigger RepOf(v', q)} :: RepOf(v', q) == RepOf(v, q);
    assert StateOf(v', i, p) == NotConnected;
  }

  /** Reputations fade and nobody is dropped, whatever becomes of reservations. */
  ghost predicate Gentle(v: View, v': View) {
    Faded(v, v', {}) && StillConnected(v, v', {})
  }

  lemma {:induction false} GentleTrans(v: View, v1: View, v2: View)
    requires Gentle(v, v1) && Gentle(v1, v2)
    ensures Gentle(v, v2)
  {
    forall p {:trigger RepOf(v2, p)} ensures Towards0(RepOf(v, p), RepOf(v2, p)) {
      assert Towards0(RepOf(v, p), RepOf(v1, p)) && Towards0(RepOf(v1, p), RepOf(v2, p));
    }
    forall k: nat, p: Peer {:trigger Connected(v2, k, p)} | Connected(v, k, p) ensures Connected(v2, k, p) {
      assert Connected(v1, k, p);
    }
  }

  /** A newly reserved peer, before slots are allocated. */
  lemma {:induction false} ReserveOne(v: View, i: nat, p: Peer)
    requires Counted(v) && i < |v.sets|
    ensures var v' := AddNoSlot(Insert(v, i, p), i, p); Reserving(v, v', i, {p}, {}) && Gentle(v, v')
  {
    InsertKeeps(v, i, p);
    var known := Insert(v, i, p);
    var v' := AddNoSlot(known, i, p);
    AddNoSlotKeeps(known, i, p);
    forall q {:trigger RepOf(v', q)} ensures RepOf(v', q) == RepOf(v, q) {
      assert v'.nodes == known.nodes;
      assert RepOf(known, q) == RepOf(v, q);
    }
    forall k: nat, q: Peer {:trigger Connected(v', k, q)} | Connected(v, k, q) ensures Connected(v', k, q) {
      assert Connected(known, k, q);
      assert StateOf(v', k, q) == StateOf(known, k, q);
    }
  }

  /** How far a list is followed by an addition: up to the first peer that is already there, repeats included. */
  function Additions(ps: seq<Peer>, have: set<Peer>): (n: nat)
    ensures n <= |ps|
  {
    if ps == [] || ps[0] in have then 0 else 1 + Additions(ps[1..], have + {ps[0]})
  }

  /** How far a list is followed by a removal: up to the first peer that is not there any more. */
  function Removals(ps: seq<Peer>, have: set<Peer>): (n: nat)
    ensures n <= |ps|
  {
    if ps == [] || ps[0] !in have then 0 else 1 + Removals(ps[1..], have - {ps[0]})
  }

  lemma {:induction false} PrefixGrows(ps: seq<Peer>, n: nat)
    requires n < |ps|
    ensures PeersIn(ps[..n + 1]) == PeersIn(ps[..n]) + {ps[n]} && ps[n..][1..] == ps[n + 1..]
  {
    assert ps[..n + 1] == ps[..n] + [ps[n]];
  }

  lemma {:induction false} PrefixIn(ps: seq<Peer>, n: nat)
    requires n <= |ps|
    ensures PeersIn(ps[..n]) <= PeersIn(ps)
  {
  }

  /** What adding the first `k` peers of a list to the reserved ones has done. */
  ghost predicate ReservedUpTo(v: View, v': View, ms: seq<Message>, ms': seq<Message>, i: nat,
                               ps: seq<Peer>, k: nat, had: set<Peer>, has: set<Peer>)
  {
    && OnlyConnects(ms, ms', i) && Gentle(v, v') && k <= |ps| && has == had + PeersIn(ps[..k])
    && Reserving(v, v', i, PeersIn(ps[..k]), {}) && Additions(ps, had) == k + Additions(ps[k..], has)
  }

  lemma {:induction false} ReservedNone(v: View, ms: seq<Message>, i: nat, ps: seq<Peer>, had: set<Peer>)
    ensures ReservedUpTo(v, v, ms, ms, i, ps, 0, had, had)
  {
    assert ps[0..] == ps && PeersIn(ps[..0]) == {};
  }

  lemma {:induction false} ReservedNext(v: View, v1: View, v2: View, ms: seq<Message>, ms1: seq<Message>,
      ms2: seq<Message>,
                                        i: nat, ps: seq<Peer>, k: nat, had: set<Peer>, has: set<Peer>)
    requires ReservedUpTo(v, v1, ms, ms1, i, ps, k, had, has) && k < |ps| && ps[k] !in has
    requires OnlyConnects(ms1, ms2, i) && Gentle(v1, v2) && Reserving(v1, v2, i, {ps[k]}, {})
    ensures ReservedUpTo(v, v2, ms, ms2, i, ps, k + 1, had, has + {ps[k]})
  {
    PrefixGrows(ps, k);
    GentleTrans(v, v1, v2);
    ReservingTrans(v, v1, v2, i, PeersIn(ps[..k]), {ps[k]});
  }

  /** What releasing the first `k` peers of a list has done. */
  ghost predicate ReleasedUpTo(v: View, v': View, ms: seq<Message>, ms': seq<Message>, i: nat,
                               ps: seq<Peer>, k: nat, had: set<Peer>, has: set<Peer>)
  {
    && OnlyDrops(ms, ms', i, ps) && k <= |ps| && has == had - PeersIn(ps[..k])
    && Reserving(v, v', i, {}, PeersIn(ps[..k])) && Untouched(v, v', i, PeersIn(ps[..k]))
    && Removals(ps, had) == k + Removals(ps[k..], has)
  }

  lemma {:induction false} ReleasedNone(v: View, ms: seq<Message>, i: nat, ps: seq<Peer>, had: set<Peer>)
    ensures ReleasedUpTo(v, v, ms, ms, i, ps, 0, had, had)
  {
    assert ps[0..] == ps && PeersIn(ps[..0]) == {};
  }

  lemma {:induction false} ReleasedNext(v: View, v1: View, v2: View, ms: seq<Message>, ms1: seq<Message>,
      ms2: seq<Message>,
                                        i: nat, ps: seq<Peer>, k: nat, had: set<Peer>, has: set<Peer>)
    requires ReleasedUpTo(v, v1, ms, ms1, i, ps, k, had, has) && k < |ps| && ps[k] in has
    requires OnlyDrops(ms1, ms2, i, [ps[k]]) && Reserving(v1, v2, i, {}, {ps[k]}) && Untouched(v1, v2, i, {ps[k]})
    ensures ReleasedUpTo(v, v2, ms, ms2, i, ps, k + 1, had, has - {ps[k]})
  {
    PrefixGrows(ps, k);
    ReleasingTrans(v, v1, v2, i, PeersIn(ps[..k]), {ps[k]});
    UntouchedTrans(v, v1, v2, i, PeersIn(ps[..k]), {ps[k]});
  }

  ghost predicate NoneConnected(v: View, i: nat, ps: seq<Peer>) {
    forall p {:trigger Connected(v, i, p)} :: p in ps ==> !Connected(v, i, p)
  }

  lemma {:induction false} NoneConnectedNext(v: View, v': View, i: nat, ps: seq<Peer>, k: nat)
    requires k < |ps| && NoneConnected(v, i, ps[..k]) && Untouched(v, v', i, {ps[k]}) && !Connected(v', i, ps[k])
    ensures NoneConnected(v', i, ps[..k + 1])
  {
    forall p {:trigger Connected(v', i, p)} | p in ps[..k + 1] ensures !Connected(v', i, p) {
      if p != ps[k] {
        assert p in ps[..k] by { assert ps[..k + 1] == ps[..k] + [ps[k]]; }
        assert !Connected(v, i, p);
        assert StateOf(v', i, p) == StateOf(v, i, p);
      }
    }
  }

  /** An addition stops where the list ends or at the first peer that was there or has been added. */
  lemma {:induction false} AdditionsStop(ps: seq<Peer>, have: set<Peer>, k: nat)
    requires k < |ps| && k <= Additions(ps, have)
    ensures ps[k] in have + PeersIn(ps[..k]) <==> k == Additions(ps, have)
  {
    if k == 0 {
      assert PeersIn(ps[..0]) == {};
    } else {
      var rest, more := ps[1..], have + {ps[0]};
      AdditionsStop(rest, more, k - 1);
      assert ps[..k] == [ps[0]] + rest[..k - 1];
      assert PeersIn(ps[..k]) == {ps[0]} + PeersIn(rest[..k - 1]);
    }
  }

  predicate Distinct(ps: seq<Peer>) {
    forall k {:trigger ps[k]} :: 0 <= k < |ps| ==> ps[k] !in ps[..k]
  }

  lemma {:induction false} DistinctTail(ps: seq<Peer>)
    requires Distinct(ps) && ps != []
    ensures Distinct(ps[1..]) && ps[0] !in ps[1..]
  {
    var rest := ps[1..];
    forall k {:trigger rest[k]} | 0 <= k < |rest| ensures rest[k] !in rest[..k] && rest[k] != ps[0] {
      assert ps[k + 1] !in ps[..k + 1];
      assert ps[..k + 1] == [ps[0]] + rest[..k];
    }
  }

  lemma {:induction false} DistinctSize(ps: seq<Peer>)
    requires Distinct(ps)
    ensures |PeersIn(ps)| == |ps|
  {
    if ps != [] {
      DistinctTail(ps);
      DistinctSize(ps[1..]);
      assert PeersIn(ps) == PeersIn(ps[1..]) + {ps[0]};
    }
  }

  /** A list of different peers, all of them there, is removed to its end. */
  lemma {:induction false} RemovesAll(ps: seq<Peer>, have: set<Peer>)
    requires Distinct(ps) && PeersIn(ps) <= have
    ensures Removals(ps, have) == |ps|
  {
    if ps != [] {
      assert ps[0] in PeersIn(ps);
      DistinctTail(ps);
      assert PeersIn(ps[1..]) <= have - {ps[0]} by {
        forall p | p in PeersIn(ps[1..]) ensures p in have - {ps[0]} { assert p in PeersIn(ps); }
      }
      RemovesAll(ps[1..], have - {ps[0]});
    }
  }

  /** The peers of a list that are not there yet, in order. */
  function Fresh(ps: seq<Peer>, have: set<Peer>): (r: seq<Peer>)
    ensures PeersIn(r) == PeersIn(ps) - have
  {
    if ps == [] then []
    else
      var n := |ps| - 1;
      var before := Fresh(ps[..n], have);
      assert PeersIn(ps) == PeersIn(ps[..n]) + {ps[n]} by { PrefixGrows(ps, n); assert ps[..n + 1] == ps; }
      assert PeersIn(before + [ps[n]]) == PeersIn(before) + {ps[n]};
      if ps[n] in have then before else before + [ps[n]]
  }

  /** An addition of the fresh peers of a list reaches all of them. */
  predicate ReachesAll(ps: seq<Peer>, have: set<Peer>) {
    var fresh_ := Fresh(ps, have);
    PeersIn(fresh_) <= PeersIn(fresh_[..Additions(fresh_, have)])
  }

  /** A list without repetition is reached to its end. */
  lemma {:induction false} DistinctReachesAll(ps: seq<Peer>, have: set<Peer>)
    requires Distinct(Fresh(ps, have))
    ensures ReachesAll(ps, have)
  {
    var f := Fresh(ps, have);
    var n := Additions(f, have);
    if n < |f| { AdditionsStop(f, have, n); }
    assert forall k :: 0 <= k < |f| ==> f[k] in PeersIn(f) && f[k] !in f[..k];
    assert n == |f|;
    assert f[..n] == f;
  }

  /**
   The reservation of a list: `added` and `released` peers make the reserved set equal to the list
   exactly if every fresh peer is reached and at most as many others are left as were released.
   */
  lemma {:induction false} ReservationIff(reserved: set<Peer>, ps: seq<Peer>, gone: seq<Peer>, n: nat)
    requires Distinct(gone) && PeersIn(gone) == reserved - PeersIn(ps) && n <= |gone|
    ensures var f := Fresh(ps, reserved);
      var after := reserved + PeersIn(f[..Additions(f, reserved)]) - PeersIn(gone[..n]);
      after == PeersIn(ps) <==> ReachesAll(ps, reserved) && n == |gone|
  {
    var f := Fresh(ps, reserved);
    var added, released := PeersIn(f[..Additions(f, reserved)]), PeersIn(gone[..n]);
    var after := reserved + added - released;
    assert forall p :: p in added ==> p in PeersIn(f);
    assert forall p :: p in released ==> p in PeersIn(gone);
    if n == |gone| {
      assert gone[..n] == gone;
    } else {
      assert gone[n] in PeersIn(gone) && gone[n] !in gone[..n];
      assert gone[n] in after;
    }
  }

  // ---------------------------------------------------------------- removed peers and lost connections

  /** A peer leaves a set, whether it was connected there or idle. */
  ghost function Removed1(v: View, i: nat, p: Peer): (r: View)
    requires Counted(v) && i < |v.sets|
    ensures Counted(r) && |r.sets| == |v.sets|
  {
    if Connected(v, i, p) then
      DisconnectKeeps(v, i, p);
      ForgetKeeps(Disconnected(v, i, p), i, p);
      Forgotten(Disconnected(v, i, p), i, p)
    else if StateOf(v, i, p).NotConnected? then
      ForgetKeeps(v, i, p);
      Forgotten(v, i, p)
    else v
  }

  /** A peer that loses its connection loses 256 points; it stays idle, or leaves the set. */
  ghost function Lost1(v: View, i: nat, p: Peer, leaves: bool): (r: View)
    requires Counted(v) && i < |v.sets| && Connected(v, i, p)
    ensures Counted(r) && |r.sets| == |v.sets|
  {
    var rep := Add(RepOf(v, p), -256);
    ReputationKeeps(v, p, rep);
    DisconnectKeeps(WithReputation(v, p, rep), i, p);
    var idle := Disconnected(WithReputation(v, p, rep), i, p);
    if leaves then Removed1(idle, i, p) else idle
  }

  ghost predicate InOther(v: View, i: nat, p: Peer) {
    exists k: nat :: k < |v.sets| && k != i && Known(v, k, p)
  }

  lemma {:induction false} OtherSame(v: View, v': View, i: nat, p: Peer)
    requires |v'.sets| == |v.sets|
    requires forall k {:trigger StateOf(v', k, p)} :: k != i ==> StateOf(v', k, p) == StateOf(v, k, p)
    ensures InOther(v', i, p) <==> InOther(v, i, p)
  {
    if InOther(v', i, p) {
      var k: nat :| k < |v'.sets| && k != i && Known(v', k, p);
      assert Known(v, k, p);
    }
    if InOther(v, i, p) {
      var k: nat :| k < |v.sets| && k != i && Known(v, k, p);
      assert StateOf(v', k, p) == StateOf(v, k, p);
      assert Known(v', k, p);
    }
  }

  lemma {:induction false} RecordGoes(v: View, i: nat, p: Peer)
    requires Shaped(v) && i < |v.sets| && p in v.nodes
    ensures p in Forgotten(v, i, p).nodes <==> RepOf(v, p) != 0 || InOther(v, i, p)
    ensures forall q {:trigger RepOf(Forgotten(v, i, p), q)} :: RepOf(Forgotten(v, i, p), q) == RepOf(v, q)
  {
    ForgottenMeaning(v, i, p);
    if !InOther(v, i, p) {
      forall k | 0 <= k < |v.sets| && k != i ensures StateOf(v, k, p).NotMember? { assert !Known(v, k, p); }
    } else {
      var k: nat :| k < |v.sets| && k != i && Known(v, k, p);
      assert !StateOf(v, k, p).NotMember?;
    }
  }

  /** Its record goes with it, unless it has a reputation or is in another set. */
  lemma {:induction false} Removed1Means(v: View, i: nat, p: Peer)
    requires Counted(v) && i < |v.sets|
    ensures var v' := Removed1(v, i, p);
      && (forall q {:trigger RepOf(v', q)} :: RepOf(v', q) == RepOf(v, q))
      && (forall k, q {:trigger StateOf(v', k, q)} ::
            StateOf(v', k, q) == if k == i && q == p then NotMember else StateOf(v, k, q))
      && (p in v'.nodes <==> p in v.nodes && (RepOf(v, p) != 0 || !Known(v, i, p) || InOther(v, i, p)))
  {
    var v' := Removed1(v, i, p);
    if Connected(v, i, p) {
      var idle := Disconnected(v, i, p);
      DisconnectKeeps(v, i, p);
      ForgetKeeps(idle, i, p);
      RecordGoes(idle, i, p);
      OtherSame(v, idle, i, p);
      forall k, q {:trigger StateOf(v', k, q)}
        ensures StateOf(v', k, q) == if k == i && q == p then NotMember else StateOf(v, k, q)
      {
        assert StateOf(idle, k, q) == if k == i && q == p then NotConnected else StateOf(v, k, q);
      }
    } else if StateOf(v, i, p).NotConnected? {
      ForgetKeeps(v, i, p);
      RecordGoes(v, i, p);
    }
  }

  lemma {:induction false} Lost1Means(v: View, i: nat, p: Peer, leaves: bool)
    requires Counted(v) && i < |v.sets| && Connected(v, i, p)
    ensures var v' := Lost1(v, i, p, leaves);
      && (forall q {:trigger RepOf(v', q)} :: RepOf(v', q) == if q == p then Add(RepOf(v, p), -256) else RepOf(v, q))
      && (forall k, q {:trigger StateOf(v', k, q)} :: StateOf(v', k, q) ==
            if k == i && q == p then (if leaves then NotMember else NotConnected) else StateOf(v, k, q))
  {
    var rep := Add(RepOf(v, p), -256);
    var v1 := WithReputation(v, p, rep);
    ReputationKeeps(v, p, rep);
    var idle := Disconnected(v1, i, p);
    DisconnectKeeps(v1, i, p);
    Removed1Means(idle, i, p);
    var v' := Lost1(v, i, p, leaves);
    forall q {:trigger RepOf(v', q)} ensures RepOf(v', q) == if q == p then Add(RepOf(v, p), -256) else RepOf(v, q) {
      assert RepOf(idle, q) == RepOf(v1, q);
    }
    forall k, q {:trigger StateOf(v', k, q)} ensures StateOf(v', k, q) ==
        if k == i && q == p then (if leaves then NotMember else NotConnected) else StateOf(v, k, q) {
      assert StateOf(idle, k, q) == if k == i && q == p then NotConnected else StateOf(v1, k, q);
      assert StateOf(v1, k, q) == StateOf(v, k, q);
    }
  }

  /** What the first `n` peers of a list have lost: connection and points, and their place if they leave. */
  ghost predicate LostUpTo(v: View, v': View, i: nat, ps: seq<Peer>, n: nat, refused: bool, reserved: set<Peer>) {
    && n <= |ps| && Distinct(ps[..n]) && |v'.sets| == |v.sets|
    && (forall q {:trigger q in ps[..n]} :: q in ps[..n] ==> Connected(v, i, q))
    && (forall q {:trigger RepOf(v', q)} ::
          RepOf(v', q) == if q in ps[..n] then Add(RepOf(v, q), -256) else RepOf(v, q))
    && (forall k, q {:trigger StateOf(v', k, q)} :: StateOf(v', k, q) ==
          if k == i && q in ps[..n] then (if refused && q !in reserved then NotMember else NotConnected)
          else StateOf(v, k, q))
  }

  lemma {:induction false} LostNext(v: View, v1: View, i: nat, ps: seq<Peer>, n: nat, refused: bool,
      reserved: set<Peer>)
    requires n < |ps| && LostUpTo(v, v1, i, ps, n, refused, reserved) && Counted(v1) && i < |v1.sets|
    requires Connected(v1, i, ps[n])
    ensures LostUpTo(v, Lost1(v1, i, ps[n], refused && ps[n] !in reserved), i, ps, n + 1, refused, reserved)
  {
    var p := ps[n];
    Lost1Means(v1, i, p, refused && p !in reserved);
    var v' := Lost1(v1, i, p, refused && p !in reserved);
    assert ps[..n + 1] == ps[..n] + [p];
    assert StateOf(v1, i, p) == StateOf(v1, i, p) && p !in ps[..n];
    assert StateOf(v1, i, p) == StateOf(v, i, p);
    DistinctNext(ps, n);
    forall q {:trigger RepOf(v', q)} ensures
        RepOf(v', q) == if q in ps[..n + 1] then Add(RepOf(v, q), -256) else RepOf(v, q) {
      assert RepOf(v1, q) == if q in ps[..n] then Add(RepOf(v, q), -256) else RepOf(v, q);
    }
    forall k, q {:trigger StateOf(v', k, q)} ensures StateOf(v', k, q) ==
        if k == i && q in ps[..n + 1] then (if refused && q !in reserved then NotMember else NotConnected)
        else StateOf(v, k, q) {
      assert StateOf(v1, k, q) ==
        if k == i && q in ps[..n] then (if refused && q !in reserved then NotMember else NotConnected)
        else StateOf(v, k, q);
    }
  }

  lemma {:induction false} DistinctNext(ps: seq<Peer>, n: nat)
    requires n < |ps| && Distinct(ps[..n]) && ps[n] !in ps[..n]
    ensures Distinct(ps[..n + 1])
  {
    var more := ps[..n + 1];
    forall k {:trigger more[k]} | 0 <= k < |more| ensures more[k] !in more[..k] {
      assert more[..k] == ps[..k];
      if k < n { assert ps[..n][k] == more[k] && ps[..n][..k] == ps[..k]; }
    }
  }

  /** One drop message per peer, in order. */
  function Drops(i: nat, ps: seq<Peer>): seq<Message> {
    seq(|ps|, k requires 0 <= k < |ps| => Message(Drop, i, ps[k]))
  }

  // ---------------------------------------------------------------- incoming connections

  /** In reserved-only mode everybody else is turned away. */
  predicate Barred(reservedOnly: bool, reserved: set<Peer>, p: Peer) {
    reservedOnly && p !in reserved
  }

  /** One incoming connection: the state after it and the answer, if any. */
  ghost function AnswerOne(v: View, i: nat, p: Peer, barred: bool): (r: (View, seq<Message>))
    requires Counted(v) && i < |v.sets|
    ensures Counted(r.0) && |r.0.sets| == |v.sets|
  {
    if barred then (v, [Message(Reject, i, p)])
    else if Connected(v, i, p) then (v, [])
    else
      InsertKeeps(v, i, p);
      var known := Insert(v, i, p);
      if !Banned(known, p) && (FreeIncoming(known, i) || p in known.sets[i].noSlot) then
        AdmitKeeps(known, i, p);
        assert !Connected(known, i, p);
        (Admitted(known, i, p), [Message(Accept, i, p)])
      else (known, [Message(Reject, i, p)])
  }

  /** A list of incoming connections, in order. */
  ghost function AnswerAll(v: View, i: nat, ps: seq<Peer>, reservedOnly: bool,
      reserved: set<Peer>): (r: (View, seq<Message>))
    requires Counted(v) && i < |v.sets|
    ensures Counted(r.0) && |r.0.sets| == |v.sets|
  {
    if ps == [] then (v, [])
    else
      var n := |ps| - 1;
      var before := AnswerAll(v, i, ps[..n], reservedOnly, reserved);
      var next := AnswerOne(before.0, i, ps[n], Barred(reservedOnly, reserved, ps[n]));
      (next.0, before.1 + next.1)
  }

  /**
   The answer to each connection of a list, from the state left by those before it: turned away in reserved-only
   mode unless reserved; no answer if connected; otherwise accepted exactly if not banned and with a slot below
   the limit or no need of one.
   */
  lemma {:induction false} AnswerNext(v: View, i: nat, ps: seq<Peer>, k: nat, reservedOnly: bool, reserved: set<Peer>)
    requires Counted(v) && i < |v.sets| && k < |ps|
    ensures var (v1, ms) := AnswerAll(v, i, ps[..k], reservedOnly, reserved);
      AnswerAll(v, i, ps[..k + 1], reservedOnly, reserved).1 == ms +
      if reservedOnly && ps[k] !in reserved then [Message(Reject, i, ps[k])]
      else if StateOf(v1, i, ps[k]).Ingoing? || StateOf(v1, i, ps[k]).Outgoing? then []
      else if RepOf(v, ps[k]) >= BANNED_THRESHOLD && (v1.sets[i].numIn < v1.sets[i].maxIn || ps[k] in v1.sets[i].noSlot)
      then [Message(Accept, i, ps[k])] else [Message(Reject, i, ps[k])]
  {
    assert ps[..k + 1][..k] == ps[..k];
    AnswersMean(v, i, ps[..k], reservedOnly, reserved);
    var v1 := AnswerAll(v, i, ps[..k], reservedOnly, reserved).0;
    AnswerOneMeans(v1, i, ps[k], Barred(reservedOnly, reserved, ps[k]));
    assert RepOf(v1, ps[k]) == RepOf(v, ps[k]);
  }

  function Max(a: nat, b: nat): nat {
    if a < b then b else a
  }

  /**
   One connection: accepted exactly if not turned away, not banned and with a slot or no need of one;
   reputations stay, and only an accepted peer changes its connection.
   */
  lemma {:induction false} AnswerOneMeans(v: View, i: nat, p: Peer, barred: bool)
    requires Counted(v) && i < |v.sets|
    ensures var (v', ms) := AnswerOne(v, i, p, barred);
      && ms == (if barred then [Message(Reject, i, p)]
                else if Connected(v, i, p) then []
                else if !Banned(v, p) && (FreeIncoming(v, i) || p in v.sets[i].noSlot) then [Message(Accept, i, p)]
                else [Message(Reject, i, p)])
      && (forall q {:trigger RepOf(v', q)} :: RepOf(v', q) == RepOf(v, q))
      && (forall q {:trigger Connected(v', i, q)} ::
            Connected(v', i, q) <==> Connected(v, i, q) || (q == p && ms == [Message(Accept, i, p)]))
      && v'.sets[i].numIn <= Max(v.sets[i].numIn, v.sets[i].maxIn) && v'.sets[i].maxIn == v.sets[i].maxIn
  {
    InsertKeeps(v, i, p);
    var known := Insert(v, i, p);
    AdmitKeeps(known, i, p);
    var v' := AnswerOne(v, i, p, barred).0;
    forall q {:trigger Connected(v', i, q)} ensures
      Connected(v', i, q) <==> Connected(v, i, q) || (q == p && AnswerOne(v, i, p, barred).1 == [Message(Accept, i, p)])
    {
      assert Connected(known, i, q) <==> Connected(v, i, q);
      assert StateOf(Admitted(known, i, p), i, q) == if q == p then Ingoing else StateOf(known, i, q);
    }
  }

  ghost predicate Answered(ms: seq<Message>, p: Peer) {
    exists k {:trigger ms[k]} :: 0 <= k < |ms| && ms[k].peer == p
  }

  /**
   What the answers say: they are for listed peers; every listed peer that is turned away or not
   connected gets one; exactly the accepted ones become connected; nobody accepted is barred or banned;
   and the incoming slots are not exceeded.
   */
  lemma {:induction false} AnswersMean(v: View, i: nat, ps: seq<Peer>, reservedOnly: bool, reserved: set<Peer>)
    requires Counted(v) && i < |v.sets|
    ensures var (v', ms) := AnswerAll(v, i, ps, reservedOnly, reserved);
      && (forall k {:trigger ms[k]} :: 0 <= k < |ms| ==>
            && ms[k].set_ == i && ms[k].peer in ps && (ms[k].status.Accept? || ms[k].status.Reject?)
            && (ms[k].status.Accept? ==> !Barred(reservedOnly, reserved, ms[k].peer) && !Banned(v, ms[k].peer)))
      && (forall p {:trigger Answered(ms, p)} ::
            p in ps && (Barred(reservedOnly, reserved, p) || !Connected(v, i, p)) ==> Answered(ms, p))
      && (forall p {:trigger Connected(v', i, p)} ::
            Connected(v', i, p) <==> Connected(v, i, p) || Message(Accept, i, p) in ms)
      && (forall p {:trigger RepOf(v', p)} :: RepOf(v', p) == RepOf(v, p))
      && v'.sets[i].numIn <= Max(v.sets[i].numIn, v.sets[i].maxIn) && v'.sets[i].maxIn == v.sets[i].maxIn
  {
    if ps != [] {
      var n := |ps| - 1;
      var last, barred := ps[n], Barred(reservedOnly, reserved, ps[n]);
      AnswersMean(v, i, ps[..n], reservedOnly, reserved);
      var (v1, ms1) := AnswerAll(v, i, ps[..n], reservedOnly, reserved);
      AnswerOneMeans(v1, i, last, barred);
      var (v', m) := AnswerOne(v1, i, last, barred);
      var ms := ms1 + m;
      assert RepOf(v1, last) == RepOf(v, last);
      assert Insert(v1, i, last).nodes[last].reputation == RepOf(v1, last);
      forall p {:trigger Answered(ms, p)} | p in ps && (Barred(reservedOnly, reserved, p) || !Connected(v, i, p))
        ensures Answered(ms, p)
      {
        AnswerReaches(v, v1, i, ps, ms1, m, p, barred);
      }
      forall p {:trigger Connected(v', i, p)}
        ensures Connected(v', i, p) <==> Connected(v, i, p) || Message(Accept, i, p) in ms
      {
        assert Connected(v1, i, p) <==> Connected(v, i, p) || Message(Accept, i, p) in ms1;
      }
      forall p {:trigger RepOf(v', p)} ensures RepOf(v', p) == RepOf(v, p) {
        assert RepOf(v1, p) == RepOf(v, p);
      }
    }
  }

  lemma {:induction false} AnswerReaches(v: View, v1: View, i: nat, ps: seq<Peer>, ms1: seq<Message>, m: seq<Message>,
      p: Peer, barred: bool)
    requires Counted(v1) && i < |v1.sets| && ps != [] && p in ps
    requires ((barred && p == ps[|ps| - 1]) || !Connected(v, i, p) || Answered(ms1, p))
    requires m == AnswerOne(v1, i, ps[|ps| - 1], barred).1
    requires Connected(v1, i, p) <==> Connected(v, i, p) || Message(Accept, i, p) in ms1
    requires p in ps[..|ps| - 1] && !Connected(v, i, p) ==> Answered(ms1, p)
    ensures Answered(ms1 + m, p)
  {
    if Message(Accept, i, p) in ms1 {
      var k :| 0 <= k < |ms1| && ms1[k] == Message(Accept, i, p);
      assert ms1[k].peer == p;
    }
    if Answered(ms1, p) {
      var k :| 0 <= k < |ms1| && ms1[k].peer == p;
      assert (ms1 + m)[k].peer == p;
    } else {
      var n := |ps| - 1;
      assert ps == ps[..n] + [ps[n]];
      assert p == ps[n] && m != [];
      assert (ms1 + m)[|ms1|].peer == p;
    }
  }
}
