/**
 The peer set: actions on peers, the slot allocator, and the messages sent to the network. The message
 log always tells exactly who is connected.
 */
module PeerSets {
  import opened Basics
  import opened PeersState
  import opened PeerSetSpec

  class PeerSet {
    const peers: Peers
    const reservedOnly: bool
    var reserved: set<Peer>
    var messages: seq<Message>
    /** The state in which each message was sent. */
    ghost var moments: seq<View>
    /** The peers forgotten by the passing of time, each with its set. */
    ghost var forgotten: seq<(nat, Peer)>

    ghost predicate Valid()
      reads this, peers
    {
      Counted(peers.Now()) && LogAgrees(peers.Now(), messages) && History(messages, moments)
    }

    constructor (limits: seq<(nat, nat)>, reservedOnly: bool)
      ensures Valid() && fresh(peers) && |peers.sets| == |limits| && messages == [] && reserved == {}
      ensures this.reservedOnly == reservedOnly
    {
      peers := new Peers(limits);
      this.reservedOnly, reserved, messages, moments, forgotten := reservedOnly, {}, [], [], [];
    }

    /** Opens a connection to a peer that is not connected, if a slot is free or it needs none. */
    method Dial(i: nat, p: Peer) returns (r: Result<(), PeerError>)
      requires Valid() && i < |peers.sets| && p in peers.nodes && !Connected(peers.Now(), i, p)
      requires !Banned(peers.Now(), p)
      modifies this`messages, this`moments, peers
      ensures Valid()
      ensures r == if old(FreeOutgoing(peers.Now(), i)) || p in old(peers.sets)[i].noSlot then Ok(())
                   else Err(OutgoingSlotsUnavailable)
      ensures peers.Now() == if r.Ok? then Dialled(old(peers.Now()), i, p) else old(peers.Now())
      ensures messages == if r.Ok? then old(messages) + [Message(Connect, i, p)] else old(messages)
      ensures moments == if r.Ok? then old(moments) + [old(peers.Now())] else old(moments)
    {
      ghost var v := peers.Now();
      r := peers.TryOutgoing(i, p);
      if r.Err? { return; }
      DialKeeps(v, i, p);
      var m := Message(Connect, i, p);
      LogStep(v, messages, peers.Now(), i, p, m);
      HistoryNext(messages, moments, m, v);
      messages, moments := messages + [m], moments + [v];
    }

    /** Ends a connection and says so. */
    method Hangup(i: nat, p: Peer)
      requires Valid() && i < |peers.sets| && Connected(peers.Now(), i, p)
      modifies this`messages, this`moments, peers
      ensures Valid() && peers.Now() == Disconnected(old(peers.Now()), i, p)
      ensures messages == old(messages) + [Message(Drop, i, p)] && moments == old(moments) + [old(peers.Now())]
    {
      ghost var v := peers.Now();
      var _ := peers.Disconnect(i, p);
      DisconnectKeeps(v, i, p);
      var m := Message(Drop, i, p);
      LogStep(v, messages, peers.Now(), i, p, m);
      HistoryNext(messages, moments, m, v);
      messages, moments := messages + [m], moments + [v];
    }

    // -------------------------------------------------------------- time

    /**
     Decays reputations for the seconds that have passed, and forgets idle peers whose reputation has
     reached 0 and whose time is up; which ones is left open.
     */
    method UpdateTime() returns (ghost seconds: nat)
      requires Valid()
      modifies this`forgotten, peers`nodes
      ensures Valid() && old(forgotten) <= forgotten
      ensures TimePassed(old(peers.Now()), peers.Now(), forgotten, |old(forgotten)|)
      ensures Aged(old(peers.Now()), peers.Now(), seconds)
    {
      var secDiff: nat := *;
      var t := 0;
      while t < secDiff
        invariant 0 <= t && Valid() && old(forgotten) <= forgotten
        invariant TimePassed(old(peers.Now()), peers.Now(), forgotten, |old(forgotten)|)
        invariant Aged(old(peers.Now()), peers.Now(), t)
      {
        var rest := peers.nodes.Keys;
        AgingStarts(old(peers.Now()), peers.Now(), t);
        while rest != {}
          invariant Valid() && rest <= peers.nodes.Keys && old(forgotten) <= forgotten
          invariant TimePassed(old(peers.Now()), peers.Now(), forgotten, |old(forgotten)|)
          invariant Aging(old(peers.Now()), peers.Now(), t, rest)
          decreases |rest|
        {
          var p :| p in rest;
          TickOne(p, old(peers.Now()), |old(forgotten)|, t, rest);
          rest := rest - {p};
        }
        t := t + 1;
      }
      seconds := t;
    }

    /** One second for one peer. */
    method TickOne(p: Peer, ghost start: View, ghost n: nat, ghost seconds: nat, ghost rest: set<Peer>)
      requires Valid() && p in peers.nodes && p in rest
      requires n <= |forgotten| && TimePassed(start, peers.Now(), forgotten, n)
      requires Aging(start, peers.Now(), seconds, rest)
      modifies this`forgotten, peers`nodes
      ensures Valid() && old(peers.nodes.Keys) - {p} <= peers.nodes.Keys && old(forgotten) <= forgotten
      ensures TimePassed(start, peers.Now(), forgotten, n) && Aging(start, peers.Now(), seconds, rest - {p})
    {
      ghost var v := peers.Now();
      TickPasses(start, v, p, forgotten, n);
      ReputationKeeps(v, p, Tick(v.nodes[p].reputation));
      var after := peers.UpdateReputationByTick(p);
      AgingNext(start, v, peers.Now(), seconds, rest, p);
      if after == 0 { ForgetIdle(p, start, n); }
    }

    /** Forgets a peer in the sets where it is idle and its time is up. */
    method ForgetIdle(p: Peer, ghost start: View, ghost n: nat)
      requires Valid() && p in peers.nodes && peers.nodes[p].reputation == 0
      requires n <= |forgotten| && TimePassed(start, peers.Now(), forgotten, n)
      modifies this`forgotten, peers`nodes
      ensures Valid() && old(peers.nodes.Keys) - {p} <= peers.nodes.Keys && old(forgotten) <= forgotten
      ensures TimePassed(start, peers.Now(), forgotten, n)
      ensures forall q {:trigger RepOf(peers.Now(), q)} :: RepOf(peers.Now(), q) == old(RepOf(peers.Now(), q))
    {
      var i := 0;
      while i < |peers.sets|
        invariant 0 <= i <= |peers.sets| && Valid() && old(peers.nodes.Keys) - {p} <= peers.nodes.Keys
        invariant old(forgotten) <= forgotten && TimePassed(start, peers.Now(), forgotten, n)
        invariant p in peers.nodes ==> peers.nodes[p].reputation == 0
        invariant forall q {:trigger RepOf(peers.Now(), q)} :: RepOf(peers.Now(), q) == old(RepOf(peers.Now(), q))
      {
        var expired: bool := *;
        if p in peers.nodes && peers.nodes[p].states[i].NotConnected? && expired {
          ForgetPasses(start, peers.Now(), i, p, forgotten, n);
          var _ := peers.ForgetPeer(i, p);
          forgotten := forgotten + [(i, p)];
        }
        i := i + 1;
      }
    }

    // -------------------------------------------------------------- allocation

    /** Fills the free outgoing slots of a set: reserved peers first, then the best of the idle ones. */
    method AllocSlots(i: nat) returns (r: Result<(), PeerError>)
      requires Valid() && i < |peers.sets|
      modifies this`messages, this`moments, this`forgotten, peers
      ensures Valid() && old(moments) <= moments && old(forgotten) <= forgotten
      ensures Allocating(old(peers.Now()), peers.Now(), old(messages), messages, i, forgotten, |old(forgotten)|)
      ensures r.Ok? ==> Settled(peers.Now(), i, reserved)
      ensures r.Ok? && !reservedOnly ==> Exhausted(peers.Now(), i)
      ensures r.Err? ==> r.error == OutgoingSlotsUnavailable && exists p :: p in reserved && p !in peers.sets[i].noSlot
      ensures InOrder(messages, moments, |old(messages)|, i, reserved)
    {
      var _ := UpdateTime();
      ghost var start := peers.Now();
      r := AllocReserved(i);
      ghost var asked := messages;
      if r.Ok? && !reservedOnly { FillSlots(i, start, old(messages)); }
      assert AllFrom(messages, |old(messages)|, |asked|, reserved);
      AllocAfterTime(old(peers.Now()), start, peers.Now(), old(messages), messages, i, forgotten, |old(forgotten)|);
    }

    /** Dials the best of the idle peers while a slot is free and it is not banned. */
    method FillSlots(i: nat, ghost start: View, ghost sent: seq<Message>)
      requires Valid() && i < |peers.sets| && Settled(peers.Now(), i, reserved)
      requires Allocating(start, peers.Now(), sent, messages, i, forgotten, |forgotten|)
      modifies this`messages, this`moments, peers
      ensures Valid() && old(moments) <= moments && Settled(peers.Now(), i, reserved)
      ensures Allocating(start, peers.Now(), sent, messages, i, forgotten, |forgotten|)
      ensures Exhausted(peers.Now(), i) && old(messages) <= messages && BestFirst(messages, moments, |old(messages)|, i)
    {
      var more := true;
      while more
        invariant Valid() && i < |peers.sets| && old(moments) <= moments && Settled(peers.Now(), i, reserved)
        invariant Allocating(start, peers.Now(), sent, messages, i, forgotten, |forgotten|)
        invariant old(messages) <= messages && BestFirst(messages, moments, |old(messages)|, i)
        invariant !more ==> Exhausted(peers.Now(), i)
        decreases more, |Idle(peers.Now(), i)|
      {
        ghost var ms := messages;
        more := FillOne(i, start, sent);
        BestFirstNext(ms, messages, moments, |old(messages)|, i);
      }
    }

    /** Dials the best of the idle peers, if it can be dialled and is not banned. */
    method FillOne(i: nat, ghost start: View, ghost sent: seq<Message>) returns (more: bool)
      requires Valid() && i < |peers.sets| && Settled(peers.Now(), i, reserved)
      requires Allocating(start, peers.Now(), sent, messages, i, forgotten, |forgotten|)
      modifies this`messages, this`moments, peers
      ensures Valid() && i < |peers.sets| && Settled(peers.Now(), i, reserved)
      ensures Allocating(start, peers.Now(), sent, messages, i, forgotten, |forgotten|)
      ensures if more then |Idle(peers.Now(), i)| < old(|Idle(peers.Now(), i)|) else Exhausted(peers.Now(), i)
      ensures !more ==> messages == old(messages) && moments == old(moments)
      ensures more ==> |messages| == |old(messages)| + 1 && old(messages) <= messages
      ensures more ==> moments == old(moments) + [old(peers.Now())]
      ensures more ==> BestIdle(old(peers.Now()), i, messages[|old(messages)|].peer)
    {
      if !FreeOutgoing(View(peers.nodes, peers.sets), i) { return false; }
      var best := peers.HighestNotConnectedPeer(i);
      if best.None? { return false; }
      var p := best.value;
      if peers.nodes[p].reputation < BANNED_THRESHOLD { return false; }
      DialledIdle(peers.Now(), i, p);
      AllocDial(start, peers.Now(), sent, messages, i, p, forgotten, |forgotten|);
      SettledDial(peers.Now(), i, p, reserved);
      var _ := Dial(i, p);
      return true;
    }

    /** Reserved peers are dialled in any order; one that is banned ends the round, one without a slot fails it. */
    method AllocReserved(i: nat) returns (r: Result<(), PeerError>)
      requires Valid() && i < |peers.sets|
      modifies this`messages, this`moments, peers
      ensures Valid() && old(moments) <= moments
      ensures Allocating(old(peers.Now()), peers.Now(), old(messages), messages, i, forgotten, |forgotten|)
      ensures r.Ok? ==> Settled(peers.Now(), i, reserved)
      ensures r.Err? ==> r.error == OutgoingSlotsUnavailable && exists p :: p in reserved && p !in peers.sets[i].noSlot
      ensures AllFrom(messages, |old(messages)|, |messages|, reserved)
    {
      ghost var start := peers.Now();
      var rest, banned := reserved, false;
      r := Ok(());
      while rest != {} && r.Ok? && !banned
        invariant Valid() && i < |peers.sets| && old(moments) <= moments && rest <= reserved
        invariant Allocating(start, peers.Now(), old(messages), messages, i, forgotten, |forgotten|)
        invariant r.Ok? && !banned ==> forall p {:trigger Connected(peers.Now(), i, p)} ::
          p in reserved && p !in rest ==> Connected(peers.Now(), i, p)
        invariant r.Ok? && banned ==> Settled(peers.Now(), i, reserved)
        invariant r.Err? ==> r.error == OutgoingSlotsUnavailable && exists p ::
          p in reserved && p !in peers.sets[i].noSlot
        invariant AllFrom(messages, |old(messages)|, |messages|, reserved)
        decreases |rest|
      {
        var p :| p in rest;
        rest := rest - {p};
        if !Connected(View(peers.nodes, peers.sets), i, p) {
          r, banned := AllocOne(i, p, start, old(messages));
          assert p in reserved && (banned && r.Ok? ==> Banned(peers.Now(), p));
        }
      }
    }

    /** One reserved peer that is not connected: it is made known if need be, and dialled unless it is banned. */
    method AllocOne(i: nat, p: Peer, ghost start: View, ghost sent: seq<Message>)
      returns (r: Result<(), PeerError>, banned: bool)
      requires Valid() && i < |peers.sets| && !Connected(peers.Now(), i, p)
      requires Allocating(start, peers.Now(), sent, messages, i, forgotten, |forgotten|)
      modifies this`messages, this`moments, peers
      ensures Valid() && i < |peers.sets| && old(moments) <= moments
      ensures Allocating(start, peers.Now(), sent, messages, i, forgotten, |forgotten|)
      ensures StillConnected(old(peers.Now()), peers.Now(), {})
      ensures if r.Err? then r.error == OutgoingSlotsUnavailable && p !in peers.sets[i].noSlot
              else if banned then Banned(peers.Now(), p) else Connected(peers.Now(), i, p)
      ensures messages == old(messages) || messages == old(messages) + [Message(Connect, i, p)]
    {
      r, banned := Ok(()), false;
      AllocInsert(start, peers.Now(), sent, messages, i, p, forgotten, |forgotten|);
      if StateOf(View(peers.nodes, peers.sets), i, p).NotMember? { peers.InsertPeer(i, p); }
      if peers.nodes[p].reputation < BANNED_THRESHOLD { return Ok(()), true; }
      r := DialReserved(i, p, start, sent);
    }

    /** One reserved peer. */
    method DialReserved(i: nat, p: Peer, ghost start: View, ghost sent: seq<Message>) returns (r: Result<(), PeerError>)
      requires Valid() && i < |peers.sets| && p in peers.nodes && !Connected(peers.Now(), i, p)
      requires !Banned(peers.Now(), p) && Allocating(start, peers.Now(), sent, messages, i, forgotten, |forgotten|)
      modifies this`messages, this`moments, peers
      ensures Valid() && old(moments) <= moments
      ensures Allocating(start, peers.Now(), sent, messages, i, forgotten, |forgotten|)
      ensures if r.Ok? then Connected(peers.Now(), i, p)
              else r == Err(OutgoingSlotsUnavailable) && p !in peers.sets[i].noSlot
      ensures StillConnected(old(peers.Now()), peers.Now(), {})
      ensures messages == if r.Ok? then old(messages) + [Message(Connect, i, p)] else old(messages)
    {
      ghost var v := peers.Now();
      r := Dial(i, p);
      if r.Ok? {
        AllocDial(start, v, sent, old(messages), i, p, forgotten, |forgotten|);
        DialKeeps(v, i, p);
        assert forall k, q {:trigger Connected(peers.Now(), k, q)} ::
          StateOf(peers.Now(), k, q) == if k == i && q == p then Outgoing else StateOf(v, k, q);
      }
    }

    // -------------------------------------------------------------- actions

    /**
     Lowers or raises reputations. The first peer not banned ends the action; every one before it is
     banned and dropped wherever it was connected. `done` counts the reports made, and `reps` are the
     reputations they left.
     */
    method ReportPeer(change: Reputation, ps: seq<Peer>)
      returns (r: Result<(), PeerError>, ghost done: nat, ghost reps: seq<Reputation>)
      requires Valid() && |peers.sets| > 0
      modifies this`messages, this`moments, this`forgotten, peers
      ensures Valid() && old(moments) <= moments && old(forgotten) <= forgotten
      ensures DropsOnly(old(messages), messages, ps) && Quiet(old(peers.Now()), peers.Now(), PeersIn(ps))
      ensures |reps| == done <= |ps| && forall k :: 0 <= k < done - 1 ==> reps[k] < BANNED_THRESHOLD
      ensures r.Ok? ==> done == |ps| || (done > 0 && reps[done - 1] >= BANNED_THRESHOLD)
      ensures r.Err? ==> done > 0 && reps[done - 1] < BANNED_THRESHOLD && r.error == OutgoingSlotsUnavailable
      ensures Reports(old(peers.Now()), old(messages), messages, ps, change, if r.Ok? then reps else reps[..done - 1])
    {
      var _ := UpdateTime();
      TimeIsQuiet(old(peers.Now()), peers.Now(), forgotten, |old(forgotten)|);
      r, done, reps := Ok(()), 0, [];
      var n := 0;
      while n < |ps|
        invariant r.Ok? && 0 <= n == done == |reps| <= |ps| && Valid() && |peers.sets| > 0
        invariant old(moments) <= moments && old(forgotten) <= forgotten
        invariant DropsOnly(old(messages), messages, ps) && Quiet(old(peers.Now()), peers.Now(), PeersIn(ps[..n]))
        invariant forall k :: 0 <= k < n ==> reps[k] < BANNED_THRESHOLD
        invariant Reports(old(peers.Now()), old(messages), messages, ps, change, reps)
      {
        ghost var v, before, was := peers.Now(), messages, reps;
        var rep: Reputation;
        r, rep := ReportOne(change, ps[n]);
        PrefixGrows(ps, n);
        QuietTrans(old(peers.Now()), v, peers.Now(), PeersIn(ps[..n]), {ps[n]}, PeersIn(ps[..n + 1]));
        done, reps := done + 1, reps + [rep];
        if r.Err? {
          ReportsStay(old(peers.Now()), old(messages), before, messages, ps, change, was);
          assert reps[..done - 1] == was;
          return;
        }
        ReportsNext(old(peers.Now()), v, old(messages), before, messages, ps, change, was);
        if rep >= BANNED_THRESHOLD { return; }
        n := n + 1;
      }
    }

    /** One report: nobody is dropped unless the new reputation is below the threshold, and then from every set. */
    method ReportOne(change: Reputation, p: Peer) returns (r: Result<(), PeerError>, rep: Reputation)
      requires Valid() && |peers.sets| > 0
      modifies this`messages, this`moments, this`forgotten, peers
      ensures Valid() && old(moments) <= moments && old(forgotten) <= forgotten
      ensures DropsOnly(old(messages), messages, [p]) && Quiet(old(peers.Now()), peers.Now(), {p})
      ensures rep == Add(RepOf(old(peers.Now()), p), change)
      ensures rep >= BANNED_THRESHOLD ==>
        r.Ok? && messages == old(messages) && peers.Now() == WithReputation(Insert(old(peers.Now()), 0, p), p, rep)
      ensures r.Err? ==> r.error == OutgoingSlotsUnavailable
      ensures rep < BANNED_THRESHOLD && r.Ok? ==> DroppedFrom(old(peers.Now()), old(messages), messages, p)
    {
      rep := peers.AddReputation(p, change);
      ReputationQuiet(old(peers.Now()), p, rep);
      if rep >= BANNED_THRESHOLD { return Ok(()), rep; }
      var i := 0;
      while i < |peers.sets|
        invariant 0 <= i <= |peers.sets| == old(|peers.sets|) && Valid()
        invariant old(moments) <= moments && old(forgotten) <= forgotten
        invariant DropsOnly(old(messages), messages, [p]) && Quiet(old(peers.Now()), peers.Now(), {p})
        invariant forall k: nat {:trigger Dropped(old(messages), messages, k, p)} ::
          k < i && old(Connected(peers.Now(), k, p)) ==> Dropped(old(messages), messages, k, p)
        invariant forall k: nat {:trigger Connected(peers.Now(), k, p)} ::
          i <= k && old(Connected(peers.Now(), k, p)) ==> Connected(peers.Now(), k, p)
      {
        ghost var v, before := peers.Now(), messages;
        if Connected(View(peers.nodes, peers.sets), i, p) {
          r := DropAndRefill(i, p);
          QuietTrans(old(peers.Now()), v, peers.Now(), {p}, {p}, {p});
          if r.Err? { return; }
        }
        forall k: nat {:trigger Dropped(old(messages), messages, k, p)} | k < i && old(Connected(peers.Now(), k, p))
          ensures Dropped(old(messages), messages, k, p)
        {
          DroppedStays(old(messages), before, messages, k, p);
        }
        i := i + 1;
      }
      return Ok(()), rep;
    }

    /** Drops a connected peer in one set and refills its slots. */
    method DropAndRefill(i: nat, p: Peer) returns (r: Result<(), PeerError>)
      requires Valid() && i < |peers.sets| && Connected(peers.Now(), i, p)
      modifies this`messages, this`moments, this`forgotten, peers
      ensures Valid() && old(moments) <= moments && old(forgotten) <= forgotten
      ensures DropsOnly(old(messages), messages, [p]) && Quiet(old(peers.Now()), peers.Now(), {p})
      ensures |messages| > |old(messages)| && messages[|old(messages)|] == Message(Drop, i, p)
      ensures r.Err? ==> r.error == OutgoingSlotsUnavailable
      ensures forall k: nat {:trigger Connected(peers.Now(), k, p)} ::
        k != i && old(Connected(peers.Now(), k, p)) ==> Connected(peers.Now(), k, p)
    {
      ghost var v := peers.Now();
      Hangup(i, p);
      ghost var dropped := peers.Now();
      r := AllocSlots(i);
      HangupQuiet(v, i, p);
      QuietTrans(v, dropped, peers.Now(), {p}, {}, {p});
      DisconnectKeeps(v, i, p);
      forall k: nat {:trigger Connected(peers.Now(), k, p)} | k != i && Connected(v, k, p)
        ensures Connected(peers.Now(), k, p)
      {
        assert StateOf(dropped, k, p) == StateOf(v, k, p);
        assert Connected(dropped, k, p);
      }
    }

    /**
     Reserves the peers of a list and dials them. The first one already reserved, repeats included, ends the
     action; `n` counts the peers reserved.
     */
    method AddReservedPeers(i: nat, ps: seq<Peer>) returns (r: Result<(), PeerError>, ghost n: nat)
      requires Valid() && i < |peers.sets|
      modifies this`messages, this`moments, this`forgotten, this`reserved, peers
      ensures Valid() && old(moments) <= moments && old(forgotten) <= forgotten
      ensures OnlyConnects(old(messages), messages, i) && Gentle(old(peers.Now()), peers.Now())
      ensures n <= |ps| && reserved == old(reserved) + PeersIn(ps[..n])
      ensures Reserving(old(peers.Now()), peers.Now(), i, PeersIn(ps[..n]), {})
      ensures r.Ok? ==> n == Additions(ps, old(reserved))
      ensures r.Ok? && n > 0 ==> Settled(peers.Now(), i, reserved)
      ensures r.Err? ==> 0 < n <= Additions(ps, old(reserved)) && r.error == OutgoingSlotsUnavailable
    {
      r := Ok(());
      var k := 0;
      ghost var v0 := peers.Now();
      ReservedNone(v0, messages, i, ps, reserved);
      while k < |ps| && r.Ok? && ps[k] !in reserved
        invariant 0 <= k <= |ps| && Valid() && i < |peers.sets|
        invariant old(moments) <= moments && old(forgotten) <= forgotten
        invariant ReservedUpTo(v0, peers.Now(), old(messages), messages, i, ps, k, old(reserved), reserved)
        invariant k > 0 && r.Ok? ==> Settled(peers.Now(), i, reserved)
        invariant r.Err? ==> k > 0 && r.error == OutgoingSlotsUnavailable
      {
        ghost var v, ms, had := peers.Now(), messages, reserved;
        r := AddReservedOne(i, ps[k]);
        ReservedNext(v0, v, peers.Now(), old(messages), ms, messages, i, ps, k, old(reserved), had);
        k := k + 1;
      }
      n := k;
    }

    /** Reserves one peer; it becomes known first, so the reservation itself cannot fail. */
    method AddReservedOne(i: nat, p: Peer) returns (r: Result<(), PeerError>)
      requires Valid() && i < |peers.sets| && p !in reserved
      modifies this`messages, this`moments, this`forgotten, this`reserved, peers
      ensures Valid() && old(moments) <= moments && old(forgotten) <= forgotten
      ensures OnlyConnects(old(messages), messages, i) && Gentle(old(peers.Now()), peers.Now())
      ensures reserved == old(reserved) + {p} && Reserving(old(peers.Now()), peers.Now(), i, {p}, {})
      ensures if r.Ok? then Settled(peers.Now(), i, reserved) else r.error == OutgoingSlotsUnavailable
    {
      ghost var v := peers.Now();
      ReserveOne(v, i, p);
      peers.InsertPeer(i, p);
      reserved := reserved + {p};
      r := peers.AddNoSlotNode(i, p);
      if r.Err? { return; }
      ghost var v1 := peers.Now();
      r := AllocSlots(i);
      GentleTrans(v, v1, peers.Now());
      assert forall k: nat {:trigger NoSlotOf(peers.Now(), k)} :: NoSlotOf(peers.Now(), k) == NoSlotOf(v1, k);
    }

    /**
     Releases the peers of a list, up to the first one that is not reserved; `n` counts the peers released.
     Outside reserved-only mode only the first one, whatever the length of the list; in it, the released
     peers are dropped.
     */
    method RemoveReservedPeers(i: nat, ps: seq<Peer>) returns (r: Result<(), PeerError>, ghost n: nat)
      requires Valid() && i < |peers.sets|
      modifies this`messages, this`moments, this`reserved, peers
      ensures Valid() && old(moments) <= moments && OnlyDrops(old(messages), messages, i, ps)
      ensures n <= |ps| && reserved == old(reserved) - PeersIn(ps[..n])
      ensures Reserving(old(peers.Now()), peers.Now(), i, {}, PeersIn(ps[..n]))
      ensures Untouched(old(peers.Now()), peers.Now(), i, PeersIn(ps[..n]))
      ensures r.Ok? ==> n == if reservedOnly || Removals(ps, old(reserved)) == 0 then Removals(ps, old(reserved)) else 1
      ensures r.Err? ==> 0 < n <= Removals(ps, old(reserved)) && r.error == NoSuchPeer && ps[n - 1] !in peers.nodes
      ensures !reservedOnly ==> messages == old(messages)
      ensures reservedOnly && r.Ok? ==> NoneConnected(peers.Now(), i, ps[..n])
    {
      n := 0;
      r := Ok(());
      var k := 0;
      ghost var v0 := peers.Now();
      ReleasedNone(v0, messages, i, ps, reserved);
      while k < |ps|
        invariant 0 <= k == n <= |ps| && r.Ok? && Valid() && i < |peers.sets| && old(moments) <= moments
        invariant ReleasedUpTo(v0, peers.Now(), old(messages), messages, i, ps, k, old(reserved), reserved)
        invariant !reservedOnly ==> k == 0 && messages == old(messages)
        invariant NoneConnected(peers.Now(), i, ps[..k])
      {
        if ps[k] !in reserved { return; }
        ghost var v, ms, had := peers.Now(), messages, reserved;
        r := RemoveReservedOne(i, ps[k]);
        ReleasedNext(v0, v, peers.Now(), old(messages), ms, messages, i, ps, k, old(reserved), had);
        n := n + 1;
        if r.Err? || !reservedOnly { return; }
        NoneConnectedNext(v, peers.Now(), i, ps, k);
        k := k + 1;
      }
    }

    method RemoveReservedOne(i: nat, p: Peer) returns (r: Result<(), PeerError>)
      requires Valid() && i < |peers.sets| && p in reserved
      modifies this`messages, this`moments, this`reserved, peers
      ensures Valid() && old(moments) <= moments && OnlyDrops(old(messages), messages, i, [p])
      ensures reserved == old(reserved) - {p} && Reserving(old(peers.Now()), peers.Now(), i, {}, {p})
      ensures Untouched(old(peers.Now()), peers.Now(), i, {p})
      ensures r == if p in old(peers.sets)[i].noSlot && p !in peers.nodes then Err(NoSuchPeer) else Ok(())
      ensures !reservedOnly ==> messages == old(messages)
      ensures reservedOnly && r.Ok? ==> !Connected(peers.Now(), i, p)
    {
      ghost var v := peers.Now();
      ReleaseOne(v, i, p);
      reserved := reserved - {p};
      r := peers.RemoveNoSlotNode(i, p);
      if r.Err? || !reservedOnly { return; }
      ghost var v1 := peers.Now();
      if Connected(View(peers.nodes, peers.sets), i, p) {
        Hangup(i, p);
        HangupUntouched(v1, i, p);
        ReleasingTrans(v, v1, peers.Now(), i, {p}, {});
        UntouchedTrans(v, v1, peers.Now(), i, {p}, {p});
      }
    }

    /**
     Reserves the peers of the list and releases the others. It reaches its goal exactly if no fresh peer
     comes after a repeated one, and, outside reserved-only mode, at most one peer has to be released.
     */
    method SetReservedPeers(i: nat, ps: seq<Peer>) returns (r: Result<(), PeerError>)
      requires Valid() && i < |peers.sets|
      modifies this`messages, this`moments, this`forgotten, this`reserved, peers
      ensures Valid() && |peers.sets| == old(|peers.sets|) && old(messages) <= messages
      ensures old(moments) <= moments && old(forgotten) <= forgotten
      ensures old(reserved) * PeersIn(ps) <= reserved <= old(reserved) + PeersIn(ps)
      ensures r.Ok? ==> (reserved == PeersIn(ps) <==>
        ReachesAll(ps, old(reserved)) && (reservedOnly || |old(reserved) - PeersIn(ps)| <= 1))
    {
      var toInsert := [];
      var n := 0;
      while n < |ps|
        invariant 0 <= n <= |ps| && toInsert == Fresh(ps[..n], reserved)
      {
        assert ps[..n + 1][..n] == ps[..n];
        if ps[n] !in reserved { toInsert := toInsert + [ps[n]]; }
        n := n + 1;
      }
      assert ps[..n] == ps;
      var toRemove := NotListed(ps);
      ghost var added, released;
      r, added := AddReservedPeers(i, toInsert);
      PrefixIn(toInsert, added);
      if r.Err? { return; }
      RemovesAll(toRemove, reserved);
      DistinctSize(toRemove);
      r, released := RemoveReservedPeers(i, toRemove);
      PrefixIn(toRemove, released);
      ReservationIff(old(reserved), ps, toRemove, released);
    }

    /** The reserved peers that a list does not name, in any order. */
    method NotListed(ps: seq<Peer>) returns (r: seq<Peer>)
      ensures Distinct(r) && PeersIn(r) == reserved - PeersIn(ps)
    {
      r := [];
      var rest := reserved;
      while rest != {}
        invariant rest <= reserved && Distinct(r) && PeersIn(r) == reserved - rest - PeersIn(ps)
        decreases |rest|
      {
        var p :| p in rest;
        assert p !in PeersIn(r);
        rest := rest - {p};
        if p !in ps {
          assert PeersIn(r + [p]) == PeersIn(r) + {p};
          assert forall k :: 0 <= k <= |r| ==> (r + [p])[..k] == r[..k];
          r := r + [p];
        }
      }
    }

    /**
     Makes peers known in a set. The first one already known there ends the action; `n` counts those before
     it. Each of them is known afterwards, unless time has made it be forgotten again, or it was known to
     another set only: then nothing is added.
     */
    method AddPeer(i: nat, ps: seq<Peer>) returns (r: Result<(), PeerError>, ghost n: nat)
      requires Valid() && i < |peers.sets|
      modifies this`messages, this`moments, this`forgotten, peers
      ensures Valid() && |peers.sets| == old(|peers.sets|) && OnlyConnects(old(messages), messages, i)
      ensures old(moments) <= moments && old(forgotten) <= forgotten
      ensures n <= |ps| && (r.Ok? && n < |ps| ==> Known(peers.Now(), i, ps[n])) && (r.Err? ==> n > 0)
      ensures forall p :: p in ps[..n] ==> Accounted(old(peers.Now()), peers.Now(), i, forgotten, |old(forgotten)|, p)
      ensures r.Ok? && n > 0 && !reservedOnly ==> Exhausted(peers.Now(), i)
    {
      n := 0;
      r := Ok(());
      var k := 0;
      while k < |ps|
        invariant 0 <= k == n <= |ps| && r.Ok? && Valid() && |peers.sets| == old(|peers.sets|)
        invariant OnlyConnects(old(messages), messages, i) && old(moments) <= moments && old(forgotten) <= forgotten
        invariant AllAccounted(old(peers.Now()), peers.Now(), i, forgotten, |old(forgotten)|)
        invariant forall p ::
          p in ps[..k] ==> Accounted(old(peers.Now()), peers.Now(), i, forgotten, |old(forgotten)|, p)
        invariant n > 0 && !reservedOnly ==> Exhausted(peers.Now(), i)
      {
        if !StateOf(View(peers.nodes, peers.sets), i, ps[k]).NotMember? { return; }
        r := AddPeerOne(i, ps[k], old(peers.Now()), |old(forgotten)|, PeersIn(ps[..k]));
        assert ps[..k + 1] == ps[..k] + [ps[k]];
        n := n + 1;
        if r.Err? { return; }
        k := k + 1;
      }
    }

    method AddPeerOne(i: nat, p: Peer, ghost start: View, ghost n: nat, ghost done: set<Peer>)
      returns (r: Result<(), PeerError>)
      requires Valid() && i < |peers.sets| && n <= |forgotten| && AllAccounted(start, peers.Now(), i, forgotten, n)
      requires forall q :: q in done ==> Accounted(start, peers.Now(), i, forgotten, n, q)
      modifies this`messages, this`moments, this`forgotten, peers
      ensures Valid() && |peers.sets| == old(|peers.sets|) && OnlyConnects(old(messages), messages, i)
      ensures old(moments) <= moments && old(forgotten) <= forgotten
      ensures AllAccounted(start, peers.Now(), i, forgotten, n)
      ensures forall q :: q in done || q == p ==> Accounted(start, peers.Now(), i, forgotten, n, q)
      ensures r.Ok? && !reservedOnly ==> Exhausted(peers.Now(), i)
    {
      ghost var v, log := peers.Now(), forgotten;
      peers.InsertPeer(i, p);
      ghost var v1 := peers.Now();
      forall q ensures q in v1.nodes || Accounted(start, v, i, log, n, q) ==> Accounted(start, v1, i, log, n, q) {
        AccountedInsert(start, v, i, log, n, p, q);
      }
      r := AllocSlots(i);
      forall q
        ensures q in peers.nodes || Accounted(start, v1, i, log, n, q) ==>
          Accounted(start, peers.Now(), i, forgotten, n, q)
      {
        AccountedAlloc(start, v1, peers.Now(), i, log, forgotten, n, q);
      }
    }

    /** Drops and forgets peers. The first reserved peer ends the action; `n` counts the peers removed. */
    method RemovePeer(i: nat, ps: seq<Peer>) returns (r: Result<(), PeerError>, ghost n: nat)
      requires Valid() && i < |peers.sets|
      modifies this`messages, this`moments, peers
      ensures Valid() && |peers.sets| == old(|peers.sets|) && r.Ok? && old(moments) <= moments
      ensures n <= |ps| && (forall k :: 0 <= k < n ==> ps[k] !in reserved) && (n < |ps| ==> ps[n] in reserved)
      ensures forall k, q {:trigger StateOf(peers.Now(), k, q)} ::
        StateOf(peers.Now(), k, q) == if k == i && q in ps[..n] then NotMember else old(StateOf(peers.Now(), k, q))
      ensures forall q {:trigger RepOf(peers.Now(), q)} :: RepOf(peers.Now(), q) == old(RepOf(peers.Now(), q))
      ensures OnlyDrops(old(messages), messages, i, ps[..n])
    {
      var m := 0;
      while m < |ps| && ps[m] !in reserved
        invariant 0 <= m <= |ps| && Valid() && |peers.sets| == old(|peers.sets|) && old(moments) <= moments
        invariant forall k :: 0 <= k < m ==> ps[k] !in reserved
        invariant forall k, q {:trigger StateOf(peers.Now(), k, q)} ::
          StateOf(peers.Now(), k, q) == if k == i && q in ps[..m] then NotMember else old(StateOf(peers.Now(), k, q))
        invariant forall q {:trigger RepOf(peers.Now(), q)} :: RepOf(peers.Now(), q) == old(RepOf(peers.Now(), q))
        invariant OnlyDrops(old(messages), messages, i, ps[..m])
      {
        ghost var v := peers.Now();
        assert ps[..m + 1] == ps[..m] + [ps[m]];
        RemoveOne(i, ps[m]);
        Removed1Means(v, i, ps[m]);
        m := m + 1;
      }
      return Ok(()), m;
    }

    method RemoveOne(i: nat, p: Peer)
      requires Valid() && i < |peers.sets|
      modifies this`messages, this`moments, peers
      ensures Valid() && peers.Now() == Removed1(old(peers.Now()), i, p) && old(moments) <= moments
      ensures messages == old(messages) + if old(Connected(peers.Now(), i, p)) then [Message(Drop, i, p)] else []
    {
      ghost var v := peers.Now();
      if Connected(View(peers.nodes, peers.sets), i, p) {
        Hangup(i, p);
        DisconnectKeeps(v, i, p);
        ForgetKeeps(peers.Now(), i, p);
        var _ := peers.ForgetPeer(i, p);
      } else if StateOf(View(peers.nodes, peers.sets), i, p).NotConnected? {
        ForgetKeeps(peers.Now(), i, p);
        var _ := peers.ForgetPeer(i, p);
      }
    }

    /** Answers incoming connections, once time has passed; `start` is the state then. */
    method Incoming(i: nat, ps: seq<Peer>) returns (ghost start: View)
      requires Valid() && i < |peers.sets|
      modifies this`messages, this`moments, this`forgotten, peers
      ensures Valid() && Counted(start) && |start.sets| == |peers.sets| == old(|peers.sets|)
      ensures old(moments) <= moments && old(forgotten) <= forgotten
      ensures TimePassed(old(peers.Now()), start, forgotten, |old(forgotten)|)
      ensures (peers.Now(), messages[|old(messages)|..]) == AnswerAll(start, i, ps, reservedOnly, reserved)
      ensures old(messages) <= messages
    {
      var _ := UpdateTime();
      start := peers.Now();
      AnswerList(i, ps);
    }

    method AnswerList(i: nat, ps: seq<Peer>)
      requires Valid() && i < |peers.sets|
      modifies this`messages, this`moments, peers
      ensures Valid() && |peers.sets| == old(|peers.sets|) && old(moments) <= moments && old(messages) <= messages
      ensures (peers.Now(), messages[|old(messages)|..]) == AnswerAll(old(peers.Now()), i, ps, reservedOnly, reserved)
    {
      var n := 0;
      assert messages[|messages|..] == [];
      while n < |ps|
        invariant 0 <= n <= |ps| && Valid() && |peers.sets| == old(|peers.sets|)
        invariant old(moments) <= moments && old(messages) <= messages
        invariant (peers.Now(), messages[|old(messages)|..]) ==
          AnswerAll(old(peers.Now()), i, ps[..n], reservedOnly, reserved)
      {
        ghost var before := messages;
        IncomingOne(i, ps[n]);
        assert ps[..n + 1][..n] == ps[..n];
        assert messages[|old(messages)|..] == before[|old(messages)|..] + messages[|before|..];
        n := n + 1;
      }
      assert ps[..n] == ps;
    }

    /** One incoming connection: no answer if already connected, otherwise exactly one. */
    method IncomingOne(i: nat, p: Peer)
      requires Valid() && i < |peers.sets|
      modifies this`messages, this`moments, peers
      ensures Valid() && |peers.sets| == old(|peers.sets|) && old(messages) <= messages && old(moments) <= moments
      ensures (peers.Now(), messages[|old(messages)|..]) ==
        AnswerOne(old(peers.Now()), i, p, Barred(reservedOnly, reserved, p))
    {
      assert messages[|messages|..] == [];
      if reservedOnly && p !in reserved {
        var m := Message(Reject, i, p);
        LogStep(peers.Now(), messages, peers.Now(), i, p, m);
        HistoryNext(messages, moments, m, peers.Now());
        messages, moments := messages + [m], moments + [peers.Now()];
        return;
      }
      if Connected(View(peers.nodes, peers.sets), i, p) { return; }
      if StateOf(View(peers.nodes, peers.sets), i, p).NotMember? { peers.InsertPeer(i, p); }
      Answer(i, p);
    }

    method Answer(i: nat, p: Peer)
      requires Valid() && i < |peers.sets| && p in peers.nodes && !Connected(peers.Now(), i, p)
      modifies this`messages, this`moments, peers
      ensures Valid() && |peers.sets| == old(|peers.sets|) && moments == old(moments) + [old(peers.Now())]
      ensures var fits := old(FreeIncoming(peers.Now(), i)) || p in old(peers.sets)[i].noSlot;
        var accepts := !old(Banned(peers.Now(), p)) && fits;
        && messages == old(messages) + [Message(if accepts then Accept else Reject, i, p)]
        && peers.Now() == if accepts then Admitted(old(peers.Now()), i, p) else old(peers.Now())
    {
      ghost var v := peers.Now();
      var status := Reject;
      if peers.nodes[p].reputation >= BANNED_THRESHOLD {
        var tried := peers.TryAcceptIncoming(i, p);
        if tried.Ok? {
          AdmitKeeps(v, i, p);
          status := Accept;
        }
      }
      var m := Message(status, i, p);
      LogStep(v, messages, peers.Now(), i, p, m);
      HistoryNext(messages, moments, m, v);
      messages, moments := messages + [m], moments + [v];
    }

    /**
     Connections that ended on their own. The first peer that is not connected fails the action; `n` counts
     those before it. `start` is the state once time has passed, with `log` forgotten by then, and `mid` that
     after the losses.
     */
    method Disconnect(i: nat, refused: bool, ps: seq<Peer>)
      returns (r: Result<(), PeerError>, ghost n: nat, ghost start: View, ghost log: seq<(nat, Peer)>, ghost mid: View)
      requires Valid() && i < |peers.sets|
      modifies this`messages, this`moments, this`forgotten, peers
      ensures Valid() && |peers.sets| == old(|peers.sets|) && old(moments) <= moments && old(forgotten) <= forgotten
      ensures old(forgotten) <= log <= forgotten && TimePassed(old(peers.Now()), start, log, |old(forgotten)|)
      ensures LostUpTo(start, mid, i, ps, n, refused, reserved) && old(messages) + Drops(i, ps[..n]) <= messages
      ensures n < |ps| ==> r == Err(NotConnectedPeer) && !Connected(mid, i, ps[n]) && peers.Now() == mid
      ensures n < |ps| ==> messages == old(messages) + Drops(i, ps[..n])
      ensures n == |ps| ==> Quiet(mid, peers.Now(), {}) && OnlyConnects(old(messages) + Drops(i, ps), messages, i)
      ensures n == |ps| ==> InOrder(messages, moments, |old(messages)| + |ps|, i, reserved)
      ensures r.Ok? ==> n == |ps| && (!reservedOnly ==> Exhausted(peers.Now(), i))
    {
      var _ := UpdateTime();
      start, log := peers.Now(), forgotten;
      var m := LoseAll(i, refused, ps);
      n, mid := m, peers.Now();
      r := Err(NotConnectedPeer);
      if m < |ps| { return; }
      assert ps[..m] == ps;
      r := AllocSlots(i);
    }

    method LoseAll(i: nat, refused: bool, ps: seq<Peer>) returns (n: nat)
      requires Valid() && i < |peers.sets|
      modifies this`messages, this`moments, peers
      ensures Valid() && |peers.sets| == old(|peers.sets|) && old(moments) <= moments
      ensures LostUpTo(old(peers.Now()), peers.Now(), i, ps, n, refused, reserved)
      ensures messages == old(messages) + Drops(i, ps[..n])
      ensures n < |ps| ==> !Connected(peers.Now(), i, ps[n])
    {
      n := 0;
      assert Drops(i, ps[..0]) == [];
      while n < |ps| && Connected(View(peers.nodes, peers.sets), i, ps[n])
        invariant 0 <= n <= |ps| && Valid() && |peers.sets| == old(|peers.sets|) && old(moments) <= moments
        invariant LostUpTo(old(peers.Now()), peers.Now(), i, ps, n, refused, reserved)
        invariant messages == old(messages) + Drops(i, ps[..n])
      {
        LostNext(old(peers.Now()), peers.Now(), i, ps, n, refused, reserved);
        DisconnectOne(i, refused, ps[n]);
        assert Drops(i, ps[..n + 1]) == Drops(i, ps[..n]) + [Message(Drop, i, ps[n])];
        n := n + 1;
      }
    }

    /** The peer loses reputation; it stays known and idle unless the connection was refused and it is not reserved. */
    method DisconnectOne(i: nat, refused: bool, p: Peer)
      requires Valid() && i < |peers.sets| && Connected(peers.Now(), i, p)
      modifies this`messages, this`moments, peers
      ensures Valid() && old(moments) <= moments && messages == old(messages) + [Message(Drop, i, p)]
      ensures peers.Now() == Lost1(old(peers.Now()), i, p, refused && p !in reserved)
    {
      var _ := peers.AddReputation(p, -256);
      ghost var v := peers.Now();
      Hangup(i, p);
      DisconnectKeeps(v, i, p);
      if refused && p !in reserved { RemoveOne(i, p); }
    }
  }

  /** A peer set needs at least one set; whether it is reserved-only is read off the first. */
  method NewPeerSet(configs: seq<(nat, nat, bool)>) returns (r: Result<PeerSet, PeerError>)
    ensures r.Err? <==> configs == []
    ensures r.Err? ==> r.error == ConfigSetIsEmpty
    ensures r.Ok? ==>
      fresh(r.value) && fresh(r.value.peers) && r.value.Valid() && r.value.messages == [] && r.value.reserved == {}
    ensures r.Ok? ==> |r.value.peers.sets| == |configs| && r.value.reservedOnly == configs[0].2
  {
    if configs == [] { return Err(ConfigSetIsEmpty); }
    var s := new PeerSet(seq(|configs|, k requires 0 <= k < |configs| => (configs[k].0, configs[k].1)), configs[0].2);
    return Ok(s);
  }

  // ---------------------------------------------------------------- runs

  datatype Action =
    | AddReserved(i: nat, ps: seq<Peer>) | RemoveReserved(i: nat, ps: seq<Peer>) | SetReserved(i: nat, ps: seq<Peer>)
    | Report(change: Reputation, ps: seq<Peer>) | AddPeers(i: nat, ps: seq<Peer>) | RemovePeers(i: nat, ps: seq<Peer>)
    | IncomingPeers(i: nat, ps: seq<Peer>) | Lost(i: nat, refused: bool, ps: seq<Peer>) | Periodic(i: nat)

  predicate InRange(a: Action, sets: nat) {
    if a.Report? then sets > 0 else a.i < sets
  }

  /**
   After any actions, failed ones included, the counters are right, the log tells who is connected, and
   every message was sent from a state that allowed it; the log and its history only grow.
   */
  method Run(s: PeerSet, actions: seq<Action>)
    requires s.Valid() && forall k :: 0 <= k < |actions| ==> InRange(actions[k], |s.peers.sets|)
    modifies s`messages, s`moments, s`forgotten, s`reserved, s.peers
    ensures s.Valid() && old(s.messages) <= s.messages && old(s.moments) <= s.moments
  {
    var n := 0;
    while n < |actions|
      invariant 0 <= n <= |actions| && s.Valid() && |s.peers.sets| == old(|s.peers.sets|)
      invariant old(s.messages) <= s.messages && old(s.moments) <= s.moments
    {
      Act(s, actions[n]);
      n := n + 1;
    }
  }

  method Act(s: PeerSet, a: Action)
    requires s.Valid() && InRange(a, |s.peers.sets|)
    modifies s`messages, s`moments, s`forgotten, s`reserved, s.peers
    ensures s.Valid() && |s.peers.sets| == old(|s.peers.sets|)
    ensures old(s.messages) <= s.messages && old(s.moments) <= s.moments
  {
    match a {
      case AddReserved(i, ps) => var _, _ := s.AddReservedPeers(i, ps);
      case RemoveReserved(i, ps) => var _, _ := s.RemoveReservedPeers(i, ps);
      case SetReserved(i, ps) => var _ := s.SetReservedPeers(i, ps);
      case Report(change, ps) => var _, _, _ := s.ReportPeer(change, ps);
      case AddPeers(i, ps) => var _, _ := s.AddPeer(i, ps);
      case RemovePeers(i, ps) => var _, _ := s.RemovePeer(i, ps);
      case IncomingPeers(i, ps) => var _ := s.Incoming(i, ps);
      case Lost(i, refused, ps) => var _, _, _, _, _ := s.Disconnect(i, refused, ps);
      case Periodic(i) => var _ := s.AllocSlots(i);
    }
  }
}
