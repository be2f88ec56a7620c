/** The client's pending-call bookkeeping over whole runs: records, calls in flight, and cancelled calls. */
module PendingCalls {
  import opened Values
  import opened Paths
  import opened PropertyMap
  import opened CacheTables
  import opened Protocol
  import opened Convergence

  /** The call's request or its reply is on the bus. */
  ghost predicate InFlight(s: State, c: Call) {
    Waits(s.toDaemon, c) || Replied(s.toClient, c)
  }

  predicate Waits(d: seq<Request>, c: Call) {
    exists i :: 0 <= i < |d| && d[i].call == c
  }

  /** Requests stand in the order of their calls, and each was begun for its property. */
  ghost predicate RequestsFit(s: State) {
    && (forall i, j :: 0 <= i < j < |s.toDaemon| ==> s.toDaemon[i].call < s.toDaemon[j].call)
    && (forall i :: 0 <= i < |s.toDaemon| ==>
          s.toDaemon[i].call in s.begun && s.begun[s.toDaemon[i].call] == s.toDaemon[i].key)
  }

  /** Each reply is queued once, for a call whose request has been served. */
  ghost predicate RepliesFit(s: State) {
    && (forall i, j :: 0 <= i < j < |s.toClient| && s.toClient[i].Reply? && s.toClient[j].Reply? ==>
          s.toClient[i].call != s.toClient[j].call)
    && (forall c: Call, ok :: Reply(c, ok) in s.toClient ==> c < s.next && forall i :: 0 <= i < |s.toDaemon| ==>
        c < s.toDaemon[i].call)
  }

  /** The records are exactly those of the calls in flight that have not been cancelled, each under its property. */
  ghost predicate RecordsFit(s: State) {
    && (forall c: Call :: c in s.cancelled ==> c < s.next)
    && (forall c: Call {:trigger c in s.cache.pending} ::
          c in s.cache.pending <==> c !in s.cancelled && InFlight(s, c))
    && (forall c: Call :: c in s.cache.pending ==> c in s.begun && s.begun[c] == s.cache.pending[c])
  }

  ghost predicate CallsInv(s: State) {
    Paired(s.cache) && (forall c: Call :: c in s.begun <==> c < s.next) && RequestsFit(s) && RepliesFit(s)
      && RecordsFit(s)
  }

  lemma InitialCalls(s: State)
    requires Initial(s)
    ensures CallsInv(s)
  {
  }

  /** A step that leaves records, calls and bus alone. */
  lemma SameCalls(s: State, t: State)
    requires CallsInv(s) && t.cache.undo == s.cache.undo && t.cache.pending == s.cache.pending
    requires t.next == s.next && t.begun == s.begun && t.cancelled == s.cancelled
    requires t.toDaemon == s.toDaemon && t.toClient == s.toClient
    ensures CallsInv(t)
  {
    forall c: Call ensures InFlight(t, c) <==> InFlight(s, c) { }
  }

  lemma WaitsAppend(d: seq<Request>, r: Request, c: Call)
    ensures Waits(d + [r], c) <==> Waits(d, c) || r.call == c
  {
    if Waits(d, c) {
      var i :| 0 <= i < |d| && d[i].call == c;
      assert (d + [r])[i].call == c;
    }
    if r.call == c { assert (d + [r])[|d|].call == c; }
  }

  lemma WaitsTail(d: seq<Request>, c: Call)
    requires d != []
    ensures Waits(d, c) <==> d[0].call == c || Waits(d[1..], c)
  {
    if Waits(d, c) && d[0].call != c {
      var i :| 0 <= i < |d| && d[i].call == c;
      assert d[1..][i - 1].call == c;
    }
    if Waits(d[1..], c) {
      var i :| 0 <= i < |d[1..]| && d[1..][i].call == c;
      assert d[i + 1].call == c;
    }
  }

  /** The state once a set has been sent. */
  function Sent(s: State, k: Path, v: Value, remote: Remote): State
    requires Paired(s.cache)
  {
    s.(cache := OnSet(s.cache, k, v, remote, s.next), next := s.next + 1,
       begun := s.begun[s.next := k], cancelled := Cancelling(s.cancelled, s.cache, k),
       toDaemon := s.toDaemon + [SetProperty(s.next, k, v)])
  }

  lemma SendBus(s: State, k: Path, v: Value, remote: Remote)
    requires CallsInv(s)
    ensures RequestsFit(Sent(s, k, v, remote)) && RepliesFit(Sent(s, k, v, remote)) && !InFlight(s, s.next)
    ensures forall c: Call :: InFlight(Sent(s, k, v, remote), c) <==> InFlight(s, c) || c == s.next
  {
    forall c: Call ensures InFlight(Sent(s, k, v, remote), c) <==> InFlight(s, c) || c == s.next {
      WaitsAppend(s.toDaemon, SetProperty(s.next, k, v), c);
    }
  }

  /** A set begins one call and cancels the one it supersedes. */
  lemma SendCalls(s: State, k: Path, v: Value, remote: Remote)
    requires CallsInv(s) && Sends(s.cache, k, v, remote)
    ensures CallsInv(Sent(s, k, v, remote))
  {
    SendBus(s, k, v, remote);
    HandlersKeepPaired(s.cache, k, v, remote, s.next, true, true);
    SendRecords(s, k, v, remote);
  }

  lemma SendRecords(s: State, k: Path, v: Value, remote: Remote)
    requires Paired(s.cache) && RecordsFit(s) && Sends(s.cache, k, v, remote) && !InFlight(s, s.next)
    requires forall c: Call :: c in s.begun <==> c < s.next
    requires forall c: Call :: InFlight(Sent(s, k, v, remote), c) <==> InFlight(s, c) || c == s.next
    ensures RecordsFit(Sent(s, k, v, remote))
  {
    var t := Sent(s, k, v, remote);
    assert t.cache.pending ==
           (if k in s.cache.undo then s.cache.pending - {s.cache.undo[k].call} else s.cache.pending)[s.next := k];
    forall c: Call ensures c in t.cache.pending <==> c !in t.cancelled && InFlight(t, c) {
      assert c in s.cache.pending <==> c !in s.cancelled && InFlight(s, c);
    }
  }

  lemma EmitCalls(s: State)
    requires CallsInv(s) && s.idles != []
    ensures CallsInv(Do(s, Emit))
  {
    var t, m := Do(s, Emit), Signal(s.tree, s.idles[0]);
    forall c: Call ensures InFlight(t, c) <==> InFlight(s, c) { }
    assert forall x :: x in t.toClient <==> x in s.toClient || x == m;
  }

  /** The daemon answers the first request: its call goes over from the requests to the replies. */
  lemma ServeCalls(s: State, t: State, ok: bool)
    requires CallsInv(s) && s.toDaemon != [] && t == Answered(s, ok)
    ensures CallsInv(t)
  {
    var c0 := s.toDaemon[0].call;
    assert forall x :: x in t.toClient <==> x in s.toClient || x == Reply(c0, ok);
    assert forall i :: 0 <= i < |t.toDaemon| ==> t.toDaemon[i] == s.toDaemon[i + 1];
    forall c: Call ensures InFlight(t, c) <==> InFlight(s, c) { WaitsTail(s.toDaemon, c); }
    forall i | 0 <= i < |s.toClient| && s.toClient[i].Reply? ensures s.toClient[i].call != c0 {
      assert Reply(s.toClient[i].call, s.toClient[i].ok) in s.toClient;
    }
  }

  /** A delivered reply takes its record with it; the reply to a cancelled call has none. */
  lemma DeliverCalls(s: State)
    requires CallsInv(s) && s.toClient != []
    ensures CallsInv(Do(s, Deliver))
  {
    MessageKeepsPaired(s.cache, s.toClient[0]);
    DeliverBus(s);
    DeliverRecords(s);
  }

  lemma DeliverRecords(s: State)
    requires Paired(s.cache) && RecordsFit(s) && s.toClient != []
    requires forall c: Call :: InFlight(Do(s, Deliver), c) <==>
                               InFlight(s, c) && !(s.toClient[0].Reply? && s.toClient[0].call == c)
    ensures RecordsFit(Do(s, Deliver))
  {
    var t, m := Do(s, Deliver), s.toClient[0];
    assert t.cache.pending == if m.Reply? && m.call !in s.cancelled then s.cache.pending - {m.call}
           else s.cache.pending;
    forall c: Call ensures c in t.cache.pending <==> c !in t.cancelled && InFlight(t, c) {
      assert c in s.cache.pending <==> c !in s.cancelled && InFlight(s, c);
    }
  }

  /** The only call that leaves the bus is the one replied to, and it leaves for good. */
  lemma DeliverBus(s: State)
    requires CallsInv(s) && s.toClient != []
    ensures RequestsFit(Do(s, Deliver)) && RepliesFit(Do(s, Deliver))
    ensures forall c: Call :: InFlight(Do(s, Deliver), c) <==>
                              InFlight(s, c) && !(s.toClient[0].Reply? && s.toClient[0].call == c)
  {
    var t, m := Do(s, Deliver), s.toClient[0];
    assert s.toClient == [m] + t.toClient;
    assert forall x :: x in s.toClient <==> x == m || x in t.toClient;
    if m.Reply? {
      assert Reply(m.call, m.ok) in s.toClient;
      assert !InFlight(t, m.call);
    }
  }

  lemma StepCalls(s: State, a: Step)
    requires CallsInv(s) && Enabled(s, a)
    ensures CallsInv(Do(s, a))
  {
    match a {
      case Set(k, v) =>
        var remote := Answer(s.tree, k);
        if Sends(s.cache, k, v, remote) { SendCalls(s, k, v, remote); } else { SameCalls(s, Do(s, a)); }
      case Serve => ServeCalls(s, Answered(s, !Locked(s.tree, s.toDaemon[0].key)), !Locked(s.tree, s.toDaemon[0].key));
                    SameCalls(Answered(s, !Locked(s.tree, s.toDaemon[0].key)), Do(s, a));
      case Deliver => DeliverCalls(s);
      case Emit => EmitCalls(s);
      case _ => SameCalls(s, Do(s, a));
    }
  }

  lemma {:induction false} ReachesCalls(s0: State, trace: seq<Step>, s: State)
    requires CallsInv(s0) && Reaches(s0, trace, s)
    ensures CallsInv(s)
    decreases |trace|
  {
    if trace != [] {
      StepCalls(s0, trace[0]);
      ReachesCalls(Do(s0, trace[0]), trace[1..], s);
    }
  }

  /**
   In every reachable state the records by property and those by call are the same, and there is one exactly for each
   call in flight that has not been cancelled, under the property the call was begun for.
   */
  lemma RecordsAreCallsInFlight(s0: State, trace: seq<Step>, s: State, c: Call)
    requires Initial(s0) && Reaches(s0, trace, s)
    ensures Paired(s.cache)
    ensures c in s.cache.pending <==> c !in s.cancelled && InFlight(s, c)
    ensures c in s.cache.pending ==> c in s.begun && s.begun[c] == s.cache.pending[c]
  {
    InitialCalls(s0);
    ReachesCalls(s0, trace, s);
  }

  /** A pending set of `k` has its request for `k`, or its reply, on the bus. */
  lemma PendingIsInFlight(s0: State, trace: seq<Step>, s: State, k: Path)
    requires Initial(s0) && Reaches(s0, trace, s) && k in s.cache.undo
    ensures Replied(s.toClient, s.cache.undo[k].call) ||
            exists v :: SetProperty(s.cache.undo[k].call, k, v) in s.toDaemon
  {
    InitialCalls(s0);
    ReachesCalls(s0, trace, s);
    var c := s.cache.undo[k].call;
    assert c in s.cache.pending && s.cache.pending[c] == k && InFlight(s, c);
    if !Replied(s.toClient, c) {
      var i :| 0 <= i < |s.toDaemon| && s.toDaemon[i].call == c;
      assert SetProperty(c, k, s.toDaemon[i].value) == s.toDaemon[i];
    }
  }

  /** With nothing in flight nothing is pending. */
  lemma QuietNothingPending(s0: State, trace: seq<Step>, s: State)
    requires Initial(s0) && Reaches(s0, trace, s) && Quiescent(s)
    ensures s.cache.undo == map[] && s.cache.pending == map[]
  {
    forall k ensures k !in s.cache.undo { if k in s.cache.undo { PendingIsInFlight(s0, trace, s, k); } }
    NothingUndone(s.cache) by { InitialCalls(s0); ReachesCalls(s0, trace, s); }
  }

  /** At most one set of a property is in flight that has not been cancelled. */
  lemma OneSetInFlight(s0: State, trace: seq<Step>, s: State, c: Call, d: Call)
    requires Initial(s0) && Reaches(s0, trace, s)
    requires InFlight(s, c) && c !in s.cancelled && InFlight(s, d) && d !in s.cancelled
    ensures c in s.begun && d in s.begun && (s.begun[c] == s.begun[d] ==> c == d)
  {
    RecordsAreCallsInFlight(s0, trace, s, c);
    RecordsAreCallsInFlight(s0, trace, s, d);
  }

  /**
   A reply that reaches its handler finds its record, in both tables and under its property, so the handler's branch for
   a missing record is never taken; afterwards both records are gone and no second reply to the call can come.
   */
  lemma DeliveredReplyFindsItsRecord(s0: State, trace: seq<Step>, s: State)
    requires Initial(s0) && Reaches(s0, trace, s)
    requires s.toClient != [] && s.toClient[0].Reply? && s.toClient[0].call !in s.cancelled
    ensures Paired(s.cache)
    ensures var c, t := s.toClient[0].call, Do(s, Deliver);
            && c in s.begun && c in s.cache.pending && s.cache.pending[c] == s.begun[c]
            && s.begun[c] in s.cache.undo && s.cache.undo[s.begun[c]].call == c
            && c !in t.cache.pending && s.begun[c] !in t.cache.undo && !InFlight(t, c)
  {
    InitialCalls(s0);
    ReachesCalls(s0, trace, s);
    ReplyFindsRecord(s);
    DeliverBus(s);
  }

  lemma ReplyFindsRecord(s: State)
    requires CallsInv(s) && s.toClient != [] && s.toClient[0].Reply? && s.toClient[0].call !in s.cancelled
    ensures var c, t := s.toClient[0].call, Do(s, Deliver);
            && c in s.begun && c in s.cache.pending && s.cache.pending[c] == s.begun[c]
            && s.begun[c] in s.cache.undo && s.cache.undo[s.begun[c]].call == c
            && c !in t.cache.pending && s.begun[c] !in t.cache.undo
  {
    var c, m := s.toClient[0].call, s.toClient[0];
    assert m in s.toClient && (m == Reply(c, true) || m == Reply(c, false));
    assert InFlight(s, c);
  }
}
