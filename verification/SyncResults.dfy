/**
 The results of sync tasks: which of them can be used, who is to blame for the others, and who is to be
 banned.
 */
module SyncResults {
  import opened Basics
  import opened Fragments

  type Peer = nat

  /** The parts of a request that matter here: where it starts, what it asks for and its direction. */
  datatype Request = Request(from: Hash, header: bool, body: bool, descending: bool)

  datatype TaskResult = TaskResult(completed: bool, who: Peer, request: Request, response: seq<Data>)

  datatype Response = Response(request: Request, data: seq<Data>)

  datatype Fault = IncompleteHeader | BadBlock

  datatype Change = Change(who: Peer, fault: Fault)

  // ---------------------------------------------------------------- requested parts

  datatype FieldError = NilHeader | NilBody

  ghost predicate LacksHeader(req: Request, d: Data) { req.header && d.header.None? }

  ghost predicate LacksBody(req: Request, d: Data) { req.body && d.body.None? }

  /** Every block has the parts asked for. */
  ghost predicate Complete(req: Request, data: seq<Data>) {
    forall i {:trigger data[i]} :: 0 <= i < |data| ==> !LacksHeader(req, data[i]) && !LacksBody(req, data[i])
  }

  /** The first block that lacks a part. */
  ghost predicate FirstLack(req: Request, data: seq<Data>, i: nat) {
    && i < |data| && (LacksHeader(req, data[i]) || LacksBody(req, data[i]))
    && forall j {:trigger data[j]} :: 0 <= j < i ==> !LacksHeader(req, data[j]) && !LacksBody(req, data[j])
  }

  function FieldsError(req: Request, data: seq<Data>): Option<FieldError> {
    if data == [] then None
    else if req.header && data[0].header.None? then Some(NilHeader)
    else if req.body && data[0].body.None? then Some(NilBody)
    else FieldsError(req, data[1..])
  }

  /** The first block that lacks a part decides, and its header before its body. */
  lemma {:induction false} FieldsErrorMeaning(req: Request, data: seq<Data>)
    ensures match FieldsError(req, data)
      case None => Complete(req, data)
      case Some(NilHeader) => exists i: nat :: FirstLack(req, data, i) && LacksHeader(req, data[i])
      case Some(NilBody) => exists i: nat :: FirstLack(req, data, i) && !LacksHeader(req, data[i])
  {
    if data != [] {
      if LacksHeader(req, data[0]) || LacksBody(req, data[0]) {
        assert FirstLack(req, data, 0);
      } else {
        FieldsErrorMeaning(req, data[1..]);
        assert forall i :: 0 < i < |data| ==> data[1..][i - 1] == data[i];
        assert forall i: nat :: FirstLack(req, data[1..], i) ==> FirstLack(req, data, i + 1);
      }
    }
  }

  lemma {:induction false} OneFirstLack(req: Request, data: seq<Data>, i: nat)
    requires FirstLack(req, data, i)
    ensures forall k: nat :: FirstLack(req, data, k) ==> k == i
    ensures !Complete(req, data)
  {
    forall k: nat | FirstLack(req, data, k) ensures k == i {
      assert LacksHeader(req, data[k]) || LacksBody(req, data[k]);
      assert LacksHeader(req, data[i]) || LacksBody(req, data[i]);
    }
  }

  method ValidateFields(req: Request, data: seq<Data>) returns (e: Option<FieldError>)
    ensures e == FieldsError(req, data)
  {
    var i := 0;
    while i < |data|
      invariant 0 <= i <= |data| && FieldsError(req, data) == FieldsError(req, data[i..])
    {
      assert data[i..][1..] == data[i + 1..];
      if req.header && data[i].header.None? { return Some(NilHeader); }
      if req.body && data[i].body.None? { return Some(NilBody); }
      i := i + 1;
    }
    return None;
  }

  method IsResponseAChain(data: seq<Data>) returns (b: bool)
    requires Headed(data)
    ensures b == Linked(data)
  {
    if |data| < 2 { return true; }
    var previous := data[0];
    var i := 1;
    while i < |data|
      invariant 1 <= i <= |data| && previous == data[i - 1]
      invariant forall k {:trigger data[k]} :: 0 < k < i ==> IsParent(data[k - 1], data[k])
    {
      if !IsParent(previous, data[i]) { return false; }
      previous := data[i];
      i := i + 1;
    }
    return true;
  }

  // ---------------------------------------------------------------- one result

  function Reversed(data: seq<Data>): (r: seq<Data>)
    ensures |r| == |data| && forall i :: 0 <= i < |data| ==> r[i] == data[|data| - 1 - i]
  {
    seq(|data|, i requires 0 <= i < |data| => data[|data| - 1 - i])
  }

  /** The blocks in ascending order, whatever the direction they were asked for in. */
  function Ascending(r: TaskResult): seq<Data> {
    if r.request.descending then Reversed(r.response) else r.response
  }

  predicate HasBad(data: seq<Data>, bad: set<Hash>) {
    exists i :: 0 <= i < |data| && data[i].hash in bad
  }

  ghost predicate FirstBadAt(data: seq<Data>, bad: set<Hash>, i: nat) {
    i < |data| && data[i].hash in bad && forall j {:trigger data[j]} :: 0 <= j < i ==> data[j].hash !in bad
  }

  /** The first bad block. */
  function FirstBad(data: seq<Data>, bad: set<Hash>): (r: Option<Data>)
    ensures r.Some? <==> HasBad(data, bad)
    ensures r.Some? ==> exists i: nat :: FirstBadAt(data, bad, i) && r.value == data[i]
  {
    if data == [] then None
    else if data[0].hash in bad then assert FirstBadAt(data, bad, 0); Some(data[0])
    else
      BadLater(data, bad);
      FirstBad(data[1..], bad)
  }

  lemma {:induction false} BadLater(data: seq<Data>, bad: set<Hash>)
    requires data != [] && data[0].hash !in bad
    ensures HasBad(data, bad) <==> HasBad(data[1..], bad)
    ensures forall i: nat :: FirstBadAt(data[1..], bad, i) ==> FirstBadAt(data, bad, i + 1)
  {
    assert forall i :: 0 < i < |data| ==> data[1..][i - 1] == data[i];
  }

  /** A bad block is reported with its number, so one that came without a header crashes the call. */
  datatype Verdict = Skip | Blame(fault: Fault) | Ban | Accept | Crash

  /** What becomes of one result. */
  function Judge(r: TaskResult, bad: set<Hash>): Verdict {
    var data := Ascending(r);
    if !r.completed then Skip
    else match FieldsError(r.request, data)
      case Some(NilHeader) => Blame(IncompleteHeader)
      case Some(NilBody) => Skip
      case None =>
        if r.request.header && !Linked(data) then Blame(IncompleteHeader)
        else match FirstBad(data, bad)
          case Some(d) => if d.header.Some? then Ban else Crash
          case None => Accept
  }

  method JudgeResult(r: TaskResult, bad: set<Hash>) returns (v: Verdict)
    ensures v == Judge(r, bad)
  {
    if !r.completed { return Skip; }
    var data := Ascending(r);
    var e := ValidateFields(r.request, data);
    FieldsErrorMeaning(r.request, data);
    if e.Some? {
      return if e.value.NilHeader? then Blame(IncompleteHeader) else Skip;
    }
    if r.request.header {
      var chain := IsResponseAChain(data);
      if !chain { return Blame(IncompleteHeader); }
    }
    var i := 0;
    while i < |data|
      invariant 0 <= i <= |data| && FirstBad(data, bad) == FirstBad(data[i..], bad)
    {
      assert data[i..][1..] == data[i + 1..];
      if data[i].hash in bad { return if data[i].header.Some? then Ban else Crash; }
      i := i + 1;
    }
    return Accept;
  }

  // ---------------------------------------------------------------- what the verdicts mean

  /** The blocks of the response, the oldest first. */
  ghost predicate InOrder(r: TaskResult, data: seq<Data>) {
    && |data| == |r.response|
    && forall i {:trigger data[i]} :: 0 <= i < |data| ==>
         data[i] == r.response[if r.request.descending then |data| - 1 - i else i]
  }

  /** The result passes every check but the one for bad blocks. */
  ghost predicate Sound(r: TaskResult, data: seq<Data>) {
    r.completed && Complete(r.request, data) && (r.request.header ==> Linked(data))
  }

  ghost predicate NoneBad(data: seq<Data>, bad: set<Hash>) {
    forall i {:trigger data[i]} :: 0 <= i < |data| ==> data[i].hash !in bad
  }

  /** The peer sent an incomplete header, or blocks that do not follow each other. */
  ghost predicate Faulty(r: TaskResult, data: seq<Data>) {
    r.completed &&
    ( (exists i: nat :: FirstLack(r.request, data, i) && LacksHeader(r.request, data[i]))
      || (Complete(r.request, data) && r.request.header && !Linked(data)))
  }

  ghost predicate SentBad(r: TaskResult, data: seq<Data>, bad: set<Hash>) {
    Sound(r, data) && exists i: nat :: FirstBadAt(data, bad, i) && data[i].header.Some?
  }

  ghost predicate SentBadBare(r: TaskResult, data: seq<Data>, bad: set<Hash>) {
    Sound(r, data) && exists i: nat :: FirstBadAt(data, bad, i) && data[i].header.None?
  }

  lemma {:induction false} AscendingInOrder(r: TaskResult, data: seq<Data>)
    ensures InOrder(r, data) <==> data == Ascending(r)
  {
    if InOrder(r, data) {
      forall i | 0 <= i < |data| ensures data[i] == Ascending(r)[i] { }
    }
  }

  /** Each verdict is given exactly to the results that deserve it. */
  lemma {:induction false} JudgeMeaning(r: TaskResult, bad: set<Hash>, data: seq<Data>)
    requires InOrder(r, data)
    ensures Judge(r, bad).Accept? <==> Sound(r, data) && NoneBad(data, bad)
    ensures Judge(r, bad) == Blame(IncompleteHeader) <==> Faulty(r, data)
    ensures Judge(r, bad).Blame? <==> Faulty(r, data)
    ensures Judge(r, bad).Ban? <==> SentBad(r, data, bad)
    ensures Judge(r, bad).Crash? <==> SentBadBare(r, data, bad)
  {
    AscendingInOrder(r, data);
    FieldsErrorMeaning(r.request, data);
    var e := FieldsError(r.request, data);
    if e.Some? {
      var i: nat :| FirstLack(r.request, data, i) && (e == Some(NilHeader) <==> LacksHeader(r.request, data[i]));
      OneFirstLack(r.request, data, i);
    }
    if r.completed && e.None? && (r.request.header ==> Linked(data)) {
      var b := FirstBad(data, bad);
      if b.Some? {
        var i: nat :| FirstBadAt(data, bad, i) && b.value == data[i];
        OneFirstBad(data, bad, i);
      }
    }
  }

  lemma {:induction false} OneFirstBad(data: seq<Data>, bad: set<Hash>, i: nat)
    requires FirstBadAt(data, bad, i)
    ensures forall k: nat :: FirstBadAt(data, bad, k) ==> k == i
    ensures !NoneBad(data, bad)
  {
    forall k: nat | FirstBadAt(data, bad, k) ensures k == i {
      assert data[i].hash in bad && data[k].hash in bad;
    }
  }

  // ---------------------------------------------------------------- all results

  /** What each element contributes, in order. */
  function Collected<R, T>(rs: seq<R>, pick: R -> seq<T>): seq<T> {
    if rs == [] then [] else Collected(rs[..|rs| - 1], pick) + pick(rs[|rs| - 1])
  }

  /** The response to use from one result, if it is accepted. */
  function Use1(r: TaskResult, v: Verdict): seq<Response> {
    if v.Accept? then [Response(r.request, Ascending(r))] else []
  }

  /** The blame for one result. */
  function Blame1(r: TaskResult, v: Verdict): seq<Change> {
    match v
    case Blame(f) => [Change(r.who, f)]
    case Ban => [Change(r.who, BadBlock)]
    case _ => []
  }

  function Ban1(r: TaskResult, v: Verdict): seq<Peer> {
    if v.Ban? then [r.who] else []
  }

  function Uses(bad: set<Hash>): TaskResult -> seq<Response> { (r: TaskResult) => Use1(r, Judge(r, bad)) }

  function Blames(bad: set<Hash>): TaskResult -> seq<Change> { (r: TaskResult) => Blame1(r, Judge(r, bad)) }

  function Bans(bad: set<Hash>): TaskResult -> seq<Peer> { (r: TaskResult) => Ban1(r, Judge(r, bad)) }

  function Accepted(rs: seq<TaskResult>, bad: set<Hash>): seq<Response> { Collected(rs, Uses(bad)) }

  function Blamed(rs: seq<TaskResult>, bad: set<Hash>): seq<Change> { Collected(rs, Blames(bad)) }

  function Banned(rs: seq<TaskResult>, bad: set<Hash>): seq<Peer> { Collected(rs, Bans(bad)) }

  lemma {:induction false} CollectedNext<R, T>(rs: seq<R>, i: nat, pick: R -> seq<T>)
    requires i < |rs|
    ensures Collected(rs[..i + 1], pick) == Collected(rs[..i], pick) + pick(rs[i])
  {
    assert rs[..i + 1][..i] == rs[..i];
  }

  predicate CrashesAt(r: TaskResult, bad: set<Hash>) { Judge(r, bad).Crash? }

  ghost predicate Crashes(rs: seq<TaskResult>, bad: set<Hash>) {
    exists i {:trigger rs[i]} :: 0 <= i < |rs| && CrashesAt(rs[i], bad)
  }

  lemma {:induction false} CrashesNext(rs: seq<TaskResult>, i: nat, bad: set<Hash>)
    requires i < |rs|
    ensures Crashes(rs[..i + 1], bad) <==> Crashes(rs[..i], bad) || CrashesAt(rs[i], bad)
    ensures CrashesAt(rs[i], bad) ==> Crashes(rs, bad)
  {
    assert rs[..i + 1][i] == rs[i];
    assert forall k :: 0 <= k < i ==> rs[..i + 1][k] == rs[..i][k];
  }

  /** Sorts results into blame, bans and responses to use; fails exactly for a bad block without a header. */
  method ValidateResults(rs: seq<TaskResult>, bad: set<Hash>)
    returns (ok: bool, changes: seq<Change>, bans: seq<Peer>, valid: seq<Response>)
    ensures ok <==> !Crashes(rs, bad)
    ensures ok ==> changes == Blamed(rs, bad) && bans == Banned(rs, bad) && valid == Accepted(rs, bad)
  {
    ok, changes, bans, valid := true, [], [], [];
    var i := 0;
    while i < |rs|
      invariant 0 <= i <= |rs| && ok && !Crashes(rs[..i], bad)
      invariant changes == Collected(rs[..i], Blames(bad)) && bans == Collected(rs[..i], Bans(bad))
      invariant valid == Collected(rs[..i], Uses(bad))
    {
      CollectedNext(rs, i, Uses(bad));
      CollectedNext(rs, i, Blames(bad));
      CollectedNext(rs, i, Bans(bad));
      CrashesNext(rs, i, bad);
      ok, changes, bans, valid := Take(rs[i], bad, changes, bans, valid);
      if !ok { return; }
      i := i + 1;
    }
    assert rs[..i] == rs;
  }

  /** One result; a crash leaves what there was. */
  method Take(r: TaskResult, bad: set<Hash>, changes: seq<Change>, bans: seq<Peer>, valid: seq<Response>)
    returns (ok: bool, changes': seq<Change>, bans': seq<Peer>, valid': seq<Response>)
    ensures ok <==> !CrashesAt(r, bad)
    ensures changes' == changes + Blames(bad)(r) && bans' == bans + Bans(bad)(r) && valid' == valid + Uses(bad)(r)
  {
    ok, changes', bans', valid' := true, changes, bans, valid;
    var v := JudgeResult(r, bad);
    match v {
      case Skip =>
      case Crash => ok := false;
      case Blame(f) => changes' := changes + [Change(r.who, f)];
      case Ban => bans', changes' := bans + [r.who], changes + [Change(r.who, BadBlock)];
      case Accept => valid' := valid + [Response(r.request, Ascending(r))];
    }
  }

  // ---------------------------------------------------------------- which results end up where

  /** Positions in a list of `n`, in order. */
  ghost predicate Positions(at: seq<nat>, n: nat) {
    && (forall k {:trigger at[k]} :: 0 <= k < |at| ==> at[k] < n)
    && (forall k, m {:trigger at[k], at[m]} :: 0 <= k < m < |at| ==> at[k] < at[m])
  }

  /** If each element contributes at most one thing, the whole comes in order from those that contribute. */
  lemma {:induction false} CollectedAt<R, T>(rs: seq<R>, pick: R -> seq<T>) returns (at: seq<nat>)
    requires forall r :: |pick(r)| <= 1
    ensures Positions(at, |rs|) && |Collected(rs, pick)| == |at|
    ensures forall k {:trigger at[k]} :: 0 <= k < |at| ==> pick(rs[at[k]]) == [Collected(rs, pick)[k]]
    ensures forall i: nat {:trigger i in at} :: i in at <==> i < |rs| && pick(rs[i]) != []
  {
    if rs == [] {
      at := [];
    } else {
      var n := |rs| - 1;
      at := CollectedAt(rs[..n], pick);
      if pick(rs[n]) != [] { at := at + [n]; }
    }
  }

  /** The blocks of a result, the oldest first, can be used. */
  ghost predicate Usable(r: TaskResult, bad: set<Hash>) {
    exists data :: InOrder(r, data) && Sound(r, data) && NoneBad(data, bad)
  }

  /** The responses to use come, in order, from exactly the sound results without a bad block. */
  lemma {:induction false} AcceptedExactly(rs: seq<TaskResult>, bad: set<Hash>) returns (at: seq<nat>)
    ensures Positions(at, |rs|) && |Accepted(rs, bad)| == |at|
    ensures forall k {:trigger at[k]} :: 0 <= k < |at| ==>
      Accepted(rs, bad)[k].request == rs[at[k]].request && InOrder(rs[at[k]], Accepted(rs, bad)[k].data)
    ensures forall i: nat {:trigger i in at} :: i in at <==> i < |rs| && Usable(rs[i], bad)
  {
    at := CollectedAt(rs, Uses(bad));
    forall k {:trigger at[k]} | 0 <= k < |at| ensures
        Accepted(rs, bad)[k].request == rs[at[k]].request && InOrder(rs[at[k]], Accepted(rs, bad)[k].data) {
      JudgeInOrder(rs[at[k]], bad);
    }
    forall i: nat {:trigger i in at} ensures i in at <==> i < |rs| && Usable(rs[i], bad) {
      if i < |rs| { JudgeInOrder(rs[i], bad); }
    }
  }

  /** The verdict on a result, for whoever reads its blocks in order. */
  lemma {:induction false} JudgeInOrder(r: TaskResult, bad: set<Hash>)
    ensures InOrder(r, Ascending(r))
    ensures Judge(r, bad).Accept? <==> Usable(r, bad)
    ensures Judge(r, bad).Blame? <==> exists data :: InOrder(r, data) && Faulty(r, data)
    ensures Judge(r, bad).Blame? ==> Judge(r, bad) == Blame(IncompleteHeader)
    ensures Judge(r, bad).Ban? <==> exists data :: InOrder(r, data) && SentBad(r, data, bad)
    ensures Judge(r, bad).Crash? <==> exists data :: InOrder(r, data) && SentBadBare(r, data, bad)
  {
    AscendingInOrder(r, Ascending(r));
    JudgeMeaning(r, bad, Ascending(r));
    forall data | InOrder(r, data) ensures data == Ascending(r) { AscendingInOrder(r, data); }
  }

  /** The peer behind a result is blamed, and for what. */
  ghost predicate BlamedFor(r: TaskResult, bad: set<Hash>, fault: Fault) {
    exists data :: InOrder(r, data) && if fault.IncompleteHeader? then Faulty(r, data) else SentBad(r, data, bad)
  }

  ghost predicate BlamedAtAll(r: TaskResult, bad: set<Hash>) {
    BlamedFor(r, bad, IncompleteHeader) || BlamedFor(r, bad, BadBlock)
  }

  lemma {:induction false} BlameMeaning(r: TaskResult, bad: set<Hash>)
    ensures var b := Blame1(r, Judge(r, bad));
      if BlamedAtAll(r, bad) then |b| == 1 && b[0].who == r.who && BlamedFor(r, bad, b[0].fault) else b == []
  {
    JudgeInOrder(r, bad);
  }

  /** The blame falls, in order, on the peers behind exactly the faulty results and those with a bad block. */
  lemma {:induction false} BlamedExactly(rs: seq<TaskResult>, bad: set<Hash>) returns (at: seq<nat>)
    ensures Positions(at, |rs|) && |Blamed(rs, bad)| == |at|
    ensures forall k {:trigger at[k]} :: 0 <= k < |at| ==>
      Blamed(rs, bad)[k].who == rs[at[k]].who && BlamedFor(rs[at[k]], bad, Blamed(rs, bad)[k].fault)
    ensures forall i: nat {:trigger i in at} :: i in at <==> i < |rs| && BlamedAtAll(rs[i], bad)
  {
    at := CollectedAt(rs, Blames(bad));
    forall k {:trigger at[k]} | 0 <= k < |at| ensures
        Blamed(rs, bad)[k].who == rs[at[k]].who && BlamedFor(rs[at[k]], bad, Blamed(rs, bad)[k].fault) {
      BlameMeaning(rs[at[k]], bad);
    }
    forall i: nat {:trigger i in at} ensures i in at <==> i < |rs| && BlamedAtAll(rs[i], bad) {
      if i < |rs| { BlameMeaning(rs[i], bad); }
    }
  }

  /** Banned, in order, are the peers behind exactly the results with a bad block. */
  lemma {:induction false} BannedExactly(rs: seq<TaskResult>, bad: set<Hash>) returns (at: seq<nat>)
    ensures Positions(at, |rs|) && |Banned(rs, bad)| == |at|
    ensures forall k {:trigger at[k]} :: 0 <= k < |at| ==> Banned(rs, bad)[k] == rs[at[k]].who
    ensures forall i: nat {:trigger i in at} :: i in at <==> i < |rs| && BlamedFor(rs[i], bad, BadBlock)
  {
    at := CollectedAt(rs, Bans(bad));
    forall k {:trigger at[k]} | 0 <= k < |at| ensures Banned(rs, bad)[k] == rs[at[k]].who { }
    forall i: nat {:trigger i in at} ensures i in at <==> i < |rs| && BlamedFor(rs[i], bad, BadBlock) {
      if i < |rs| { JudgeInOrder(rs[i], bad); }
    }
  }

  /** The call crashes exactly on a bad block that came without a header, in a result sound otherwise. */
  lemma {:induction false} CrashesExactly(rs: seq<TaskResult>, bad: set<Hash>)
    ensures Crashes(rs, bad) <==>
      exists i, data :: 0 <= i < |rs| && InOrder(rs[i], data) && SentBadBare(rs[i], data, bad)
  {
    if Crashes(rs, bad) {
      var i :| 0 <= i < |rs| && CrashesAt(rs[i], bad);
      JudgeInOrder(rs[i], bad);
    }
    if exists i, data :: 0 <= i < |rs| && InOrder(rs[i], data) && SentBadBare(rs[i], data, bad) {
      var i, data :| 0 <= i < |rs| && InOrder(rs[i], data) && SentBadBare(rs[i], data, bad);
      JudgeInOrder(rs[i], bad);
    }
  }

  // ---------------------------------------------------------------- what a usable response is good for

  /** Some response with headers is empty. */
  ghost predicate HasEmpty(valid: seq<Response>) {
    exists i {:trigger valid[i]} :: 0 <= i < |valid| && valid[i].request.header && valid[i].data == []
  }

  /** Responses with headers are linked, though perhaps empty. */
  ghost predicate AllLinked(valid: seq<Response>) {
    forall i {:trigger valid[i]} :: 0 <= i < |valid| && valid[i].request.header ==> Linked(valid[i].data)
  }

  lemma {:induction false} AcceptedLinked(rs: seq<TaskResult>, bad: set<Hash>)
    ensures AllLinked(Accepted(rs, bad))
  {
    var valid := Accepted(rs, bad);
    var at := AcceptedExactly(rs, bad);
    forall i {:trigger valid[i]} | 0 <= i < |valid| && valid[i].request.header ensures Linked(valid[i].data) {
      assert at[i] in at;
      AscendingInOrder(rs[at[i]], valid[i].data);
      JudgeMeaning(rs[at[i]], bad, valid[i].data);
      JudgeInOrder(rs[at[i]], bad);
    }
  }

  /** An empty response passes every check, so the checks alone do not make fragments non-empty. */
  lemma {:induction false} EmptyResponsePasses(r: TaskResult, bad: set<Hash>)
    requires r.completed && r.response == []
    ensures Accepted([r], bad) == [Response(r.request, [])]
  {
    assert [r][..0] == [] && Collected([], Uses(bad)) == [];
    assert Ascending(r) == [];
    JudgeMeaning(r, bad, []);
  }
}
