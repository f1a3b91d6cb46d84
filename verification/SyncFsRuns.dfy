/**
 What a syncfs caller may conclude from its result, over every run.  The executor
 stores a failed send into remote_ret without a lock, so a callback that has tested
 remote_ret and not yet stored can wipe that failure out; the result of a round is
 characterised exactly, lost failures included.
 */
module SyncFsRuns {
  import opened Bytes
  import opened SyncFs

  // ----- the life of a caller -----

  /** How far a caller has come; no step leads back. */
  function Rank(p: Phase): nat {
    match p
    case Waiting => 0
    case Starting => 1
    case Sending(_) => 2
    case Counting => 2
    case Awaiting(_) => 2
    case Draining(_) => 3
    case Aborted => 4
    case Returned(_) => 4
  }

  /** The phase its own step takes the executor to */
  function OwnPhase(s: State, e: Event): Phase
    requires Enabled(s, e) && Acts(e)
  {
    match e
    case Begin(_) => Sending(0)
    case SendOk(_) => Counting
    case SendFail(_, code) => Sending(code)
    case Count(_) => Sending(0)
    case EndSends(c) => Awaiting(s.callers[c].phase.err)
    case Wake(c) => Draining(Result(s, s.callers[c].phase.err, false))
    case Interrupt(c) => Draining(Result(s, s.callers[c].phase.err, true))
    case AbortOne(c) => s.callers[c].phase
    case HandOver(c) => Returned(s.callers[c].phase.err)
  }

  lemma OwnStep(s: State, e: Event)
    requires Queues(s) && Enabled(s, e) && Acts(e)
    ensures e.c in s.callers && e.c in Step(s, e).callers && Step(s, e).callers[e.c].phase == OwnPhase(s, e)
  {
    EnabledActs(s, e);
    if e.AbortOne? {
      AbortQueues(s, e.c);
    } else if e.HandOver? {
      HandOverQueues(s, e.c);
    }
  }

  /** What another's step may do to a waiting caller: release it or make it the next executor. */
  predicate Roused(s: State, e: Event, c: Caller, i: Info) {
    || (e.AbortOne? && s.pendingList != [] && s.pendingList[0] == c && i.phase.Aborted?
         && i.covered == |s.books.rounds|)
    || (e.HandOver? && i.phase.Starting?)
  }

  /** A step moves no one but the caller it belongs to, except for waiting callers it wakes. */
  lemma Bystander(s: State, e: Event, c: Caller)
    requires Queues(s) && Enabled(s, e) && c in Step(s, e).callers && e != Arrive(c) && !(Acts(e) && e.c == c)
    ensures c in s.callers
    ensures var i := Step(s, e).callers[c];
            i.phase == s.callers[c].phase || (s.callers[c].phase.Waiting? && Roused(s, e, c, i))
  {
    if e.AbortOne? {
      AbortQueues(s, e.c);
    } else if e.HandOver? {
      HandOverQueues(s, e.c);
    }
  }

  lemma RankStep(s: State, e: Event, c: Caller)
    requires Queues(s) && Enabled(s, e) && c in s.callers
    ensures c in Step(s, e).callers && Rank(s.callers[c].phase) <= Rank(Step(s, e).callers[c].phase)
  {
    ArrivedKept(s, e, c);
    if Acts(e) && e.c == c {
      OwnStep(s, e);
    } else {
      Bystander(s, e, c);
    }
  }

  lemma {:induction false} RankTrace(states: seq<State>, events: seq<Event>, i: nat, j: nat, c: Caller)
    requires Execution(states, events) && i <= j < |states| && c in states[i].callers
    ensures c in states[j].callers && Rank(states[i].callers[c].phase) <= Rank(states[j].callers[c].phase)
    decreases j
  {
    if i < j {
      RankTrace(states, events, i, j - 1, c);
      assert StepAt(states, events, j - 1);
      ExecutionInv(states, events, j - 1);
      RankStep(states[j - 1], events[j - 1], c);
    }
  }

  /** Caller `c` begins its sync at step `b` and stops waiting at step `w`. */
  predicate RoundOf(events: seq<Event>, b: nat, w: nat, c: Caller) {
    b < w < |events| && events[b] == Begin(c) && EndsRound(events[w], c)
  }

  /** In between it is the executor, in the middle of its round. */
  lemma InTheRound(states: seq<State>, events: seq<Event>, b: nat, w: nat, c: Caller, k: nat)
    requires Execution(states, events) && RoundOf(events, b, w, c) && b < k <= w
    ensures c in states[k].callers && Rank(states[k].callers[c].phase) == 2
    ensures states[k].executor == Some(c) && Inv(states[k])
  {
    assert StepAt(states, events, b) && StepAt(states, events, w);
    RankTrace(states, events, b + 1, k, c);
    RankTrace(states, events, k, w, c);
    ExecutionInv(states, events, k);
    assert CallerOk(states[k], c, states[k].callers[c]);
  }

  // ----- the two places an error can be kept in -----

  /** The local variable err of the executor */
  function Err(p: Phase): int {
    match p
    case Sending(err) => err
    case Awaiting(err) => err
    case _ => 0
  }

  /** The outcome of the last send between the steps `b` and `k`, 0 when there was none. */
  function LastSend(events: seq<Event>, b: nat, k: nat): int
    requires k <= |events|
  {
    if k <= b + 1 then 0
    else match events[k - 1]
      case SendFail(_, code) => code
      case SendOk(_) => 0
      case _ => LastSend(events, b, k - 1)
  }

  lemma ErrStep(s: State, e: Event, c: Caller)
    requires Queues(s) && Enabled(s, e) && s.executor == Some(c) && c in s.callers
    requires c in Step(s, e).callers && Rank(s.callers[c].phase) == 2 && Rank(Step(s, e).callers[c].phase) == 2
    ensures Err(Step(s, e).callers[c].phase) ==
            match e case SendFail(_, code) => code case SendOk(_) => 0 case _ => Err(s.callers[c].phase)
    ensures !e.Begin?
  {
    StepPhase(s, e);
  }

  lemma {:induction false} ErrTrace(states: seq<State>, events: seq<Event>, b: nat, w: nat, c: Caller, k: nat)
    requires Execution(states, events) && RoundOf(events, b, w, c) && b < k <= w
    ensures c in states[k].callers && Err(states[k].callers[c].phase) == LastSend(events, b, k)
    decreases k
  {
    InTheRound(states, events, b, w, c, k);
    if k > b + 1 {
      ErrTrace(states, events, b, w, c, k - 1);
      ErrStepAt(states, events, b, w, c, k - 1);
    } else {
      assert StepAt(states, events, b);
    }
  }

  lemma ErrStepAt(states: seq<State>, events: seq<Event>, b: nat, w: nat, c: Caller, k: nat)
    requires Execution(states, events) && RoundOf(events, b, w, c) && b < k < w
    ensures c in states[k].callers && c in states[k + 1].callers && !events[k].Begin?
    ensures Err(states[k + 1].callers[c].phase) ==
            match events[k] case SendFail(_, code) => code case SendOk(_) => 0 case _ => Err(states[k].callers[c].phase)
  {
    InTheRound(states, events, b, w, c, k);
    InTheRound(states, events, b, w, c, k + 1);
    assert StepAt(states, events, k);
    ErrStep(states[k], events[k], c);
  }

  /** An answer that reports a failure */
  predicate FailedAnswer(s: State, e: Event) {
    e.Store? && s.books.check.Some? && s.books.check.value.code != 0
  }

  /** A failed send stored while a callback stands between its test and its store */
  predicate SendInWindow(s: State, e: Event) {
    e.SendFail? && s.books.check.Some?
  }

  /** A failure that remote_ret keeps: of an answer, or of a send outside any window */
  predicate Decisive(s: State, e: Event) {
    FailedAnswer(s, e) || (e.SendFail? && s.books.check.None?)
  }

  predicate Decided(states: seq<State>, events: seq<Event>, b: nat, k: nat)
    requires k <= |events| && k < |states|
  {
    k > b + 1 && (Decisive(states[k - 1], events[k - 1]) || Decided(states, events, b, k - 1))
  }

  /** remote_ret is 0 exactly while nothing decisive has happened, up to the callback about to store. */
  predicate RetOk(b: Books, decided: bool) {
    if b.check.None? then b.remoteRet == 0 <==> !decided
    else (b.check.value.sawZero <==> !decided) && (decided ==> b.remoteRet != 0)
  }

  lemma RetStep(s: State, e: Event, decided: bool)
    requires Enabled(s, e) && !e.Begin? && RetOk(s.books, decided)
    ensures RetOk(BooksAfter(s, e), decided || Decisive(s, e))
  {
  }

  lemma {:induction false} RetTrace(states: seq<State>, events: seq<Event>, b: nat, w: nat, c: Caller, k: nat)
    requires Execution(states, events) && RoundOf(events, b, w, c) && b < k <= w
    ensures RetOk(states[k].books, Decided(states, events, b, k))
    decreases k
  {
    assert StepAt(states, events, k - 1);
    if k > b + 1 {
      RetTrace(states, events, b, w, c, k - 1);
      ErrStepAt(states, events, b, w, c, k - 1);
      RetStep(states[k - 1], events[k - 1], Decided(states, events, b, k - 1));
    }
  }

  // ----- the result of a round -----

  predicate AnswersFine(states: seq<State>, events: seq<Event>, b: nat, w: nat)
    requires w <= |events| && w < |states|
  {
    forall j :: b < j < w ==> !FailedAnswer(states[j], events[j])
  }

  /** Every failed send was stored while some callback was between its test and its store. */
  predicate SendsFineOrLost(states: seq<State>, events: seq<Event>, b: nat, w: nat)
    requires w <= |events| && w < |states|
  {
    forall j :: b < j < w && events[j].SendFail? ==> SendInWindow(states[j], events[j])
  }

  predicate SendsFine(events: seq<Event>, b: nat, w: nat)
    requires w <= |events|
  {
    forall j :: b < j < w ==> !events[j].SendFail?
  }

  lemma {:induction false} DecidedIff(states: seq<State>, events: seq<Event>, b: nat, k: nat)
    requires k <= |events| && k < |states|
    ensures Decided(states, events, b, k) <==>
            !(AnswersFine(states, events, b, k) && SendsFineOrLost(states, events, b, k))
    decreases k
  {
    if k > b + 1 {
      DecidedIff(states, events, b, k - 1);
      var s, e := states[k - 1], events[k - 1];
      assert Decisive(s, e) <==> FailedAnswer(s, e) || (e.SendFail? && !SendInWindow(s, e));
    }
  }

  /**
   The executor's result is 0 if and only if its wait was not interrupted, its last send
   succeeded, every answer was a success, and every failed send fell into the window of a callback.
   */
  predicate Clean(states: seq<State>, events: seq<Event>, b: nat, w: nat)
    requires w < |events| && w < |states|
  {
    && events[w].Wake? && LastSend(events, b, w) == 0
    && AnswersFine(states, events, b, w) && SendsFineOrLost(states, events, b, w)
  }

  lemma ResultOfRound(states: seq<State>, events: seq<Event>, b: nat, w: nat, c: Caller)
    requires Execution(states, events) && RoundOf(events, b, w, c)
    ensures c in states[w + 1].callers && states[w + 1].callers[c].phase.Draining?
    ensures states[w + 1].callers[c].phase.err == 0 <==> Clean(states, events, b, w)
  {
    assert StepAt(states, events, w);
    InTheRound(states, events, b, w, c, w);
    ErrTrace(states, events, b, w, c, w);
    RetTrace(states, events, b, w, c, w);
    DecidedIff(states, events, b, w);
    StepPhase(states[w], events[w]);
    if events[w].Wake? {
      assert states[w].books.check.None?;
    }
  }

  /** Everything in the round succeeded. */
  predicate AllSucceeded(states: seq<State>, events: seq<Event>, b: nat, w: nat)
    requires w < |events| && w < |states|
  {
    events[w].Wake? && AnswersFine(states, events, b, w) && SendsFine(events, b, w)
  }

  lemma {:induction false} LastSendFine(events: seq<Event>, b: nat, k: nat)
    requires k <= |events| && SendsFine(events, b, k)
    ensures LastSend(events, b, k) == 0
  {
    if k > b + 1 {
      assert !events[k - 1].SendFail?;
      LastSendFine(events, b, k - 1);
    }
  }

  /** The round really succeeded if and only if it reports 0 and lost no failed send. */
  lemma SuccessIff(states: seq<State>, events: seq<Event>, b: nat, w: nat)
    requires w < |events| && w < |states|
    ensures AllSucceeded(states, events, b, w) <==> Clean(states, events, b, w) && SendsFine(events, b, w)
  {
    if SendsFine(events, b, w) {
      LastSendFine(events, b, w);
    }
  }

  // ----- the code of a failure -----

  /** The code that a step reports: of a failed send, or of an answer as it is stored */
  function Reported(s: State, e: Event): int {
    match e
    case SendFail(_, code) => code
    case Store => if s.books.check.Some? then s.books.check.value.code else 0
    case _ => 0
  }

  lemma {:induction false} RetReported(states: seq<State>, events: seq<Event>, b: nat, w: nat, c: Caller, k: nat)
    requires Execution(states, events) && RoundOf(events, b, w, c) && b < k <= w && states[k].books.remoteRet != 0
    ensures exists j :: b < j < k && Reported(states[j], events[j]) == states[k].books.remoteRet
    decreases k
  {
    assert StepAt(states, events, k - 1);
    assert k > b + 1;
    ErrStepAt(states, events, b, w, c, k - 1);
    if states[k].books.remoteRet == states[k - 1].books.remoteRet {
      RetReported(states, events, b, w, c, k - 1);
      var j :| b < j < k - 1 && Reported(states[j], events[j]) == states[k - 1].books.remoteRet;
      assert b < j < k;
    } else {
      assert Reported(states[k - 1], events[k - 1]) == states[k].books.remoteRet;
    }
  }

  /**
   A result other than 0 is -EINTR for an interrupted wait, else the code of the last send if that
   failed, else a code that some failed send or some answer of the round reported.
   */
  lemma ResultCode(states: seq<State>, events: seq<Event>, b: nat, w: nat, c: Caller)
    requires Execution(states, events) && RoundOf(events, b, w, c)
    ensures c in states[w + 1].callers && states[w + 1].callers[c].phase.Draining?
    ensures var err := states[w + 1].callers[c].phase.err;
            && (events[w].Interrupt? ==> err == EINTR)
            && (events[w].Wake? && LastSend(events, b, w) != 0 ==> err == LastSend(events, b, w))
            && (events[w].Wake? && LastSend(events, b, w) == 0 && err != 0 ==>
                  exists j :: b < j < w && Reported(states[j], events[j]) == err)
  {
    ResultOfRound(states, events, b, w, c);
    assert StepAt(states, events, w);
    InTheRound(states, events, b, w, c, w);
    ErrTrace(states, events, b, w, c, w);
    StepPhase(states[w], events[w]);
    if states[w].books.remoteRet != 0 {
      RetReported(states, events, b, w, c, w);
    }
  }

  // ----- who is next -----

  /** wait_list is in the order of arrival. */
  predicate InOrder(s: State) {
    && (forall i :: 0 <= i < |s.waitList| ==> s.waitList[i] in s.callers)
    && (forall i, j :: 0 <= i < j < |s.waitList| ==>
          s.callers[s.waitList[i]].arrived < s.callers[s.waitList[j]].arrived)
  }

  lemma InOrderStep(s: State, e: Event)
    requires Queues(s) && Enabled(s, e) && InOrder(s)
    ensures InOrder(Step(s, e))
  {
    var t := Step(s, e);
    forall i | 0 <= i < |s.waitList|
      ensures s.waitList[i] in t.callers && t.callers[s.waitList[i]].arrived == s.callers[s.waitList[i]].arrived
      ensures s.callers[s.waitList[i]].arrived < s.now
    {
      ArrivedKept(s, e, s.waitList[i]);
      assert CallerOk(s, s.waitList[i], s.callers[s.waitList[i]]);
    }
  }

  lemma {:induction false} AlwaysInOrder(states: seq<State>, events: seq<Event>, k: nat)
    requires Execution(states, events) && k < |states|
    ensures InOrder(states[k])
  {
    if k > 0 {
      AlwaysInOrder(states, events, k - 1);
      ExecutionInv(states, events, k - 1);
      assert StepAt(states, events, k - 1);
      InOrderStep(states[k - 1], events[k - 1]);
    }
  }

  /**
   The caller that an executor hands over to is the one that arrived last of all on wait_list; the
   others become pending.
   */
  lemma LastArrivalExecutes(states: seq<State>, events: seq<Event>, k: nat)
    requires Execution(states, events) && k < |events| && events[k].HandOver? && states[k].waitList != []
    ensures states[k + 1].executor.Some?
    ensures var s, next := states[k], states[k + 1].executor.value;
            && next in s.waitList && next in s.callers
            && (forall i :: 0 <= i < |s.waitList| ==>
                  s.waitList[i] in s.callers && s.callers[s.waitList[i]].arrived <= s.callers[next].arrived)
            && (forall i :: 0 <= i < |s.waitList| ==>
                  s.waitList[i] == next || s.waitList[i] in states[k + 1].pendingList)
  {
    AlwaysInOrder(states, events, k);
    assert StepAt(states, events, k);
  }

  // ----- callers -----

  /** The life of a caller, one step back from its information `after` */
  predicate Precedes(s: State, e: Event, c: Caller, after: Info) {
    var p := after.phase;
    && (p.Draining? || p.Returned? ==>
          && c in s.callers
          && (|| s.callers[c].phase == Draining(p.err) || s.callers[c].phase == Returned(p.err)
              || (EndsRound(e, c) && p.Draining? && s.callers[c].phase.Awaiting?)))
    && (Rank(p) == 2 ==> c in s.callers && (Rank(s.callers[c].phase) == 2 || e == Begin(c)))
    && (p.Aborted? ==> c in s.callers && (s.callers[c].phase.Aborted? || Roused(s, e, c, after)))
  }

  lemma PhaseBefore(s: State, e: Event, c: Caller)
    requires Queues(s) && Enabled(s, e) && c in Step(s, e).callers
    ensures Precedes(s, e, c, Step(s, e).callers[c])
  {
    if Acts(e) && e.c == c {
      OwnStep(s, e);
      OwnPrecedes(s, e, Step(s, e).callers[c]);
    } else if e != Arrive(c) {
      Bystander(s, e, c);
      StillPrecedes(s, e, c, Step(s, e).callers[c]);
    }
  }

  lemma OwnPrecedes(s: State, e: Event, after: Info)
    requires Enabled(s, e) && Acts(e) && after.phase == OwnPhase(s, e)
    ensures Precedes(s, e, e.c, after)
  {
  }

  lemma StillPrecedes(s: State, e: Event, c: Caller, after: Info)
    requires c in s.callers && (after.phase == s.callers[c].phase || Roused(s, e, c, after))
    ensures Precedes(s, e, c, after)
  {
  }

  lemma Before(states: seq<State>, events: seq<Event>, k: nat, c: Caller)
    requires Execution(states, events) && k < |states| && c in states[k].callers
    ensures k > 0 && Precedes(states[k - 1], events[k - 1], c, states[k].callers[c])
  {
    if k > 0 {
      assert StepAt(states, events, k - 1);
      ExecutionInv(states, events, k - 1);
      PhaseBefore(states[k - 1], events[k - 1], c);
    }
  }

  lemma {:induction false} DrainedSince(states: seq<State>, events: seq<Event>, k: nat, c: Caller) returns (w: nat)
    requires Execution(states, events) && k < |states| && c in states[k].callers
    requires states[k].callers[c].phase.Draining? || states[k].callers[c].phase.Returned?
    ensures w < k && EndsRound(events[w], c) && c in states[w + 1].callers
    ensures states[w + 1].callers[c].phase == Draining(states[k].callers[c].phase.err)
    decreases k
  {
    Before(states, events, k, c);
    var last := EndsRound(events[k - 1], c) && states[k].callers[c].phase.Draining?;
    if last {
      w := k - 1;
    } else {
      w := DrainedSince(states, events, k - 1, c);
    }
  }

  lemma {:induction false} BegunSince(states: seq<State>, events: seq<Event>, k: nat, c: Caller) returns (b: nat)
    requires Execution(states, events) && k < |states| && c in states[k].callers
             && Rank(states[k].callers[c].phase) == 2
    ensures b < k && events[b] == Begin(c)
    decreases k
  {
    Before(states, events, k, c);
    if events[k - 1] == Begin(c) {
      b := k - 1;
    } else {
      b := BegunSince(states, events, k - 1, c);
    }
  }

  /**
   Every caller that executed and returned had one round, and returned 0 if and only if
   that round was clean; then every answer succeeded and every request was answered.
   */
  lemma ReturnedResult(states: seq<State>, events: seq<Event>, k: nat, c: Caller) returns (b: nat, w: nat)
    requires Execution(states, events) && k < |states| && c in states[k].callers && states[k].callers[c].phase.Returned?
    ensures w < k && RoundOf(events, b, w, c)
    ensures states[k].callers[c].phase.err == 0 <==> Clean(states, events, b, w)
    ensures states[k].callers[c].phase.err == 0 ==> Settled(states[k].books.rounds, states[k].callers[c])
    ensures AllSucceeded(states, events, b, w) <==> states[k].callers[c].phase.err == 0 && SendsFine(events, b, w)
  {
    w := DrainedSince(states, events, k, c);
    assert StepAt(states, events, w);
    b := BegunSince(states, events, w, c);
    ResultOfRound(states, events, b, w, c);
    SuccessIff(states, events, b, w);
    ExecutionInv(states, events, k);
    assert OutcomeOk(states[k].books.rounds, states[k].callers[c]);
  }

  lemma {:induction false} ReleaseStep(states: seq<State>, events: seq<Event>, k: nat, p: Caller) returns (a: nat)
    requires Execution(states, events) && k < |states| && p in states[k].callers && states[k].callers[p].phase.Aborted?
    ensures a < k && events[a].AbortOne? && states[a].pendingList != [] && states[a].pendingList[0] == p
    ensures p in states[a + 1].callers && states[a + 1].callers[p].phase.Aborted?
    ensures states[a + 1].callers[p].covered == |states[a].books.rounds|
    decreases k
  {
    Before(states, events, k, p);
    if states[k - 1].callers[p].phase.Aborted? {
      a := ReleaseStep(states, events, k - 1, p);
    } else {
      a := k - 1;
    }
  }

  /** From the end of its round on, an executor keeps its result. */
  lemma {:induction false} ResultKept(states: seq<State>, events: seq<Event>, i: nat, j: nat, c: Caller)
    requires Execution(states, events) && i <= j < |states| && c in states[i].callers && c in states[j].callers
    requires states[i].callers[c].phase.Draining? && states[j].callers[c].phase.Draining?
    ensures states[i].callers[c].phase == states[j].callers[c].phase
    decreases j
  {
    if i < j {
      RankTrace(states, events, i, j - 1, c);
      RankTrace(states, events, j - 1, j, c);
      Before(states, events, j, c);
      ResultKept(states, events, i, j - 1, c);
    }
  }

  /**
   Every caller released without a sync of its own, which returns 0, is released by an executor
   whose sync began after the caller arrived; that sync is clean if and only if the executor is
   draining with result 0, and really succeeded if and only if, besides, it lost no failed send.
   */
  lemma ReleasedResult(states: seq<State>, events: seq<Event>, k: nat, p: Caller)
    returns (i: nat, b: nat, w: nat, a: nat, c: Caller)
    requires Execution(states, events) && k < |states| && p in states[k].callers && states[k].callers[p].phase.Aborted?
    ensures a < k && CoveredInTrace(events, a, p, i, b, w) && RoundOf(events, b, w, c)
    ensures events[a] == AbortOne(c) && states[a].pendingList != [] && states[a].pendingList[0] == p
    ensures c in states[a].callers && states[a].callers[c].phase.Draining?
    ensures states[a].callers[c].phase.err == 0 <==> Clean(states, events, b, w)
    ensures AllSucceeded(states, events, b, w) <==> states[a].callers[c].phase.err == 0 && SendsFine(events, b, w)
  {
    a := ReleaseStep(states, events, k, p);
    assert StepAt(states, events, a);
    i, b, w := AbortedIsCovered(states, events, a + 1, p);
    c := events[a].c;
    ExecutionInv(states, events, a);
    StepPhase(states[a], events[a]);
    assert Current(states[a].books).owner == c;
    ResultOfRound(states, events, b, w, c);
    SuccessIff(states, events, b, w);
    ResultKept(states, events, w + 1, a, c);
  }

  // ----- how a failed send is lost -----

  predicate CheckBetween(states: seq<State>, i: nat, j: nat, x: Option<Check>)
    requires j < |states|
  {
    forall k :: i <= k <= j ==> states[k].books.check == x
  }

  /** A callback between test and store made its test earlier in this round. */
  lemma {:induction false} WindowOpened(states: seq<State>, events: seq<Event>, b: nat, w: nat, c: Caller, k: nat)
    returns (t: nat)
    requires Execution(states, events) && RoundOf(events, b, w, c) && b < k <= w && states[k].books.check.Some?
    ensures b < t < k && events[t].Test? && CheckBetween(states, t + 1, k, states[k].books.check)
    ensures states[k].books.check == Some(Check(events[t].code, states[t].books.remoteRet == 0))
    decreases k
  {
    assert StepAt(states, events, k - 1);
    if states[k - 1].books.check.None? {
      t := k - 1;
    } else {
      assert k > b + 1;
      ErrStepAt(states, events, b, w, c, k - 1);
      t := WindowOpened(states, events, b, w, c, k - 1);
    }
  }

  /** If the window is closed at `w`, its store lies in between. */
  lemma {:induction false} WindowCloses(states: seq<State>, events: seq<Event>, k: nat, w: nat) returns (u: nat)
    requires Execution(states, events) && k <= w < |states| && states[k].books.check.Some?
             && states[w].books.check.None?
    ensures k <= u < w && events[u].Store? && CheckBetween(states, k, u, states[k].books.check)
    decreases w - k
  {
    assert StepAt(states, events, k);
    if events[k].Store? {
      u := k;
    } else {
      u := WindowCloses(states, events, k + 1, w);
    }
  }

  /**
   A failed send of a round that reports 0 was stored after one successful answer had tested
   remote_ret and found 0, and before that answer was stored over it.
   */
  lemma LostInWindow(states: seq<State>, events: seq<Event>, b: nat, w: nat, c: Caller, f: nat) returns (t: nat, u: nat)
    requires Execution(states, events) && RoundOf(events, b, w, c) && Clean(states, events, b, w)
    requires b < f < w && events[f].SendFail?
    ensures b < t < f < u < w && events[t].Test? && events[t].code == 0 && states[t].books.remoteRet == 0
    ensures events[u].Store? && CheckBetween(states, t + 1, u, Some(Check(0, true)))
  {
    assert SendInWindow(states[f], events[f]);
    t := WindowOpened(states, events, b, w, c, f);
    InTheRound(states, events, b, w, c, w);
    assert StepAt(states, events, w);
    assert states[w].books.check.None?;
    u := WindowCloses(states, events, f, w);
    assert !FailedAnswer(states[u], events[u]);
    LostMeansSawZero(states, events, b, w, c, f);
  }

  lemma LostMeansSawZero(states: seq<State>, events: seq<Event>, b: nat, w: nat, c: Caller, f: nat)
    requires Execution(states, events) && RoundOf(events, b, w, c) && Clean(states, events, b, w)
    requires b < f < w && states[f].books.check.Some?
    ensures states[f].books.check.value.sawZero
  {
    RetTrace(states, events, b, w, c, f);
    DecidedIff(states, events, b, f);
    assert AnswersFine(states, events, b, f) && SendsFineOrLost(states, events, b, f);
  }

  lemma Extend(states: seq<State>, events: seq<Event>, e: Event)
    requires Execution(states, events) && Enabled(states[|states| - 1], e)
    ensures Execution(states + [Step(states[|states| - 1], e)], events + [e])
  {
    var states', events' := states + [Step(states[|states| - 1], e)], events + [e];
    forall k | 0 <= k < |events'| ensures StepAt(states', events', k) {
      if k < |events| {
        assert StepAt(states, events, k);
      }
    }
  }

  /** Caller `c` is between two sends, no failure shows and `waitCount` answers are awaited. */
  predicate Unspoilt(s: State, c: Caller, waitCount: int) {
    && c in s.callers && s.callers[c].phase.Sending?
    && s.books.check.None? && s.books.remoteRet == 0 && s.books.waitCount == waitCount
  }

  /** A send that succeeds, and its answer of the same version still to come. */
  lemma OneMoreSend(s: State, c: Caller)
    requires Unspoilt(s, c, 0)
    ensures Enabled(s, SendOk(c)) && Enabled(Step(s, SendOk(c)), Count(c))
    ensures var t := Step(Step(s, SendOk(c)), Count(c));
            && Unspoilt(t, c, 1) && t.callers[c].phase == Sending(0)
            && s.books.nextRequest in t.books.inflight && t.books.inflight[s.books.nextRequest] == t.books.version
  {
  }

  lemma AnswerOk(s: State, c: Caller, r: Request)
    requires Unspoilt(s, c, 1) && r in s.books.inflight && s.books.inflight[r] == s.books.version
    ensures Enabled(s, Test(r, 0)) && Enabled(Step(s, Test(r, 0)), Store)
    ensures var t := Step(Step(s, Test(r, 0)), Store); Unspoilt(t, c, 0) && t.callers[c].phase == s.callers[c].phase
  {
  }

  /** The send that fails after the test and before the store leaves no trace but the local variable. */
  lemma AnswerWipes(s: State, c: Caller, r: Request, code: int)
    requires Unspoilt(s, c, 1) && r in s.books.inflight && s.books.inflight[r] == s.books.version && code != 0
    ensures Enabled(s, Test(r, 0)) && Enabled(Step(s, Test(r, 0)), SendFail(c, code))
    ensures Enabled(Step(Step(s, Test(r, 0)), SendFail(c, code)), Store)
    ensures Unspoilt(Step(Step(Step(s, Test(r, 0)), SendFail(c, code)), Store), c, 0)
  {
  }

  lemma EndOk(s: State, c: Caller)
    requires Unspoilt(s, c, 0) && s.callers[c].phase == Sending(0)
    ensures Enabled(s, EndSends(c)) && Enabled(Step(s, EndSends(c)), Wake(c))
    ensures var t := Step(Step(s, EndSends(c)), Wake(c)); c in t.callers && t.callers[c].phase == Draining(0)
  {
  }

  lemma SendsOne(states: seq<State>, events: seq<Event>, c: Caller)
    returns (states': seq<State>, events': seq<Event>, r: Request)
    requires Execution(states, events) && Unspoilt(states[|states| - 1], c, 0)
    ensures Execution(states', events') && events < events'
    ensures var t := states'[|states'| - 1];
            && Unspoilt(t, c, 1) && t.callers[c].phase == Sending(0)
            && r in t.books.inflight && t.books.inflight[r] == t.books.version
  {
    var s := states[|states| - 1];
    OneMoreSend(s, c);
    Extend(states, events, SendOk(c));
    states', events', r := states + [Step(s, SendOk(c))], events + [SendOk(c)], s.books.nextRequest;
    Extend(states', events', Count(c));
    states', events' := states' + [Step(Step(s, SendOk(c)), Count(c))], events' + [Count(c)];
  }

  lemma FailsOnce(states: seq<State>, events: seq<Event>, c: Caller, r: Request, code: int)
    returns (states': seq<State>, events': seq<Event>)
    requires Execution(states, events) && Unspoilt(states[|states| - 1], c, 1) && code != 0
    requires var s := states[|states| - 1]; r in s.books.inflight && s.books.inflight[r] == s.books.version
    ensures Execution(states', events') && events < events' && |events'| == |events| + 3
    ensures events'[|events| + 1] == SendFail(c, code) && Unspoilt(states'[|states'| - 1], c, 0)
  {
    var s := states[|states| - 1];
    AnswerWipes(s, c, r, code);
    var s1 := Step(s, Test(r, 0));
    var s2 := Step(s1, SendFail(c, code));
    Extend(states, events, Test(r, 0));
    Extend(states + [s1], events + [Test(r, 0)], SendFail(c, code));
    Extend(states + [s1] + [s2], events + [Test(r, 0)] + [SendFail(c, code)], Store);
    states', events' := states + [s1] + [s2] + [Step(s2, Store)], events + [Test(r, 0)] + [SendFail(c, code)] + [Store];
  }

  lemma Finishes(states: seq<State>, events: seq<Event>, c: Caller, r: Request)
    returns (states': seq<State>, events': seq<Event>)
    requires Execution(states, events) && Unspoilt(states[|states| - 1], c, 1)
             && states[|states| - 1].callers[c].phase == Sending(0)
    requires var s := states[|states| - 1]; r in s.books.inflight && s.books.inflight[r] == s.books.version
    ensures Execution(states', events') && events < events' && events'[|events'| - 1] == Wake(c)
    ensures var t := states'[|states'| - 1]; c in t.callers && t.callers[c].phase == Draining(0)
  {
    var s := states[|states| - 1];
    AnswerOk(s, c, r);
    var s1 := Step(s, Test(r, 0));
    var s2 := Step(s1, Store);
    EndOk(s2, c);
    var s3 := Step(s2, EndSends(c));
    Extend(states, events, Test(r, 0));
    Extend(states + [s1], events + [Test(r, 0)], Store);
    Extend(states + [s1] + [s2], events + [Test(r, 0)] + [Store], EndSends(c));
    Extend(states + [s1] + [s2] + [s3], events + [Test(r, 0)] + [Store] + [EndSends(c)], Wake(c));
    states' := states + [s1] + [s2] + [s3] + [Step(s3, Wake(c))];
    events' := events + [Test(r, 0)] + [Store] + [EndSends(c)] + [Wake(c)];
  }

  /**
   It happens from everywhere: every run in which a caller is about to begin can go on so that one
   of the caller's sends fails, with any code, and its result is 0 all the same.
   */
  lemma LostFailure(states: seq<State>, events: seq<Event>, c: Caller, code: int)
    returns (states': seq<State>, events': seq<Event>, b: nat, f: nat, w: nat)
    requires Execution(states, events) && Enabled(states[|states| - 1], Begin(c)) && code != 0
    ensures Execution(states', events') && events <= events' && RoundOf(events', b, w, c)
    ensures b < f < w && events'[f] == SendFail(c, code)
    ensures c in states'[w + 1].callers && states'[w + 1].callers[c].phase == Draining(0)
  {
    b := |events|;
    Extend(states, events, Begin(c));
    var begun, es := states + [Step(states[|states| - 1], Begin(c))], events + [Begin(c)];
    var r, r';
    states', events', r := SendsOne(begun, es, c);
    f := |events'| + 1;
    states', events' := FailsOnce(states', events', c, r, code);
    states', events', r' := SendsOne(states', events', c);
    states', events' := Finishes(states', events', c, r');
    w := |events'| - 1;
  }

  // ----- progress -----

  /** A wait that is not over has an answer still to come: one about to be stored, or one still to be tested. */
  lemma AwaitedAnswer(s: State) returns (e: Event)
    requires Inv(s) && ExecutorPhase(s).Awaiting? && s.books.waitCount != 0
    ensures Enabled(s, e) && (e.Store? || (e.Test? && s.books.inflight[e.r] == s.books.version))
  {
    if s.books.check.Some? {
      e := Store;
    } else {
      assert Outstanding(s.books) != {};
      var r :| r in Outstanding(s.books);
      e := Test(r, 0);
    }
  }

  /** How far a phase is from handing over */
  function Ahead(p: Phase): nat {
    match p
    case Starting => 5
    case Counting => 4
    case Sending(_) => 3
    case Awaiting(_) => 2
    case Draining(_) => 1
    case _ => 0
  }

  /** Who has still to be served, and the answers on their way */
  function Unserved(s: State): nat {
    |s.waitList| + |s.pendingList| + One(s.isExecuting)
  }

  function Unanswered(b: Books): nat {
    2 * |b.inflight| + One(b.check.Some?)
  }

  predicate Nearer(s: State, u: State) {
    || Unserved(u) < Unserved(s)
    || (Unserved(u) == Unserved(s) && Ahead(ExecutorPhase(u)) < Ahead(ExecutorPhase(s)))
    || (Unserved(u) == Unserved(s) && Ahead(ExecutorPhase(u)) == Ahead(ExecutorPhase(s))
         && Unanswered(u.books) < Unanswered(s.books))
  }

  /**
   The protocol cannot get stuck, signals aside: while someone executes, a step of it or an answer
   brings the end nearer.
   */
  lemma NoDeadlock(s: State) returns (e: Event)
    requires Inv(s) && s.isExecuting
    ensures Enabled(s, e) && !e.Arrive? && !e.Interrupt? && Nearer(s, Step(s, e))
  {
    var c := s.executor.value;
    assert CallerOk(s, c, s.callers[c]);
    match s.callers[c].phase {
      case Starting => e := if s.books.check.Some? then Store else Begin(c);
      case Sending(_) => e := EndSends(c);
      case Counting => e := Count(c);
      case Awaiting(_) =>
        if s.books.waitCount == 0 {
          e := Wake(c);
        } else {
          e := AwaitedAnswer(s);
        }
      case Draining(_) =>
        e := if s.pendingList == [] then HandOver(c) else AbortOne(c);
    }
    if e.HandOver? || e.AbortOne? {
      ServesNearer(s, e);
    } else if Acts(e) {
      MovesNearer(s, e);
    } else {
      AnswersNearer(s, e);
    }
  }

  lemma ServesNearer(s: State, e: Event)
    requires Queues(s) && Enabled(s, e) && (e.HandOver? || e.AbortOne?)
    ensures Nearer(s, Step(s, e))
  {
    EnabledActs(s, e);
  }

  lemma MovesNearer(s: State, e: Event)
    requires Queues(s) && Enabled(s, e) && (e.Begin? || e.Count? || e.EndSends? || e.Wake?)
    ensures Nearer(s, Step(s, e))
  {
    StepPhase(s, e);
  }

  lemma AnswersNearer(s: State, e: Event)
    requires Queues(s) && Enabled(s, e) && (e.Test? || e.Store?)
    ensures Nearer(s, Step(s, e))
  {
    StepPhase(s, e);
    if e.Test? {
      assert |s.books.inflight - {e.r}| == |s.books.inflight| - 1;
    }
  }

  /** No event from `k` on is an arrival or a signal. */
  predicate Calm(events: seq<Event>, k: nat) {
    forall j :: k <= j < |events| ==> !events[j].Arrive? && !events[j].Interrupt?
  }

  /** Every caller has its result. */
  predicate AllServed(s: State) {
    forall c :: c in s.callers ==> s.callers[c].phase.Aborted? || s.callers[c].phase.Returned?
  }

  lemma IdleIsServed(s: State)
    requires Queues(s) && !s.isExecuting
    ensures AllServed(s)
  {
    forall c | c in s.callers ensures s.callers[c].phase.Aborted? || s.callers[c].phase.Returned? {
      assert CallerOk(s, c, s.callers[c]);
    }
  }

  lemma OneNearer(states: seq<State>, events: seq<Event>) returns (u: State, e: Event)
    requires Execution(states, events) && states[|states| - 1].isExecuting
    ensures Execution(states + [u], events + [e]) && !e.Arrive? && !e.Interrupt? && Nearer(states[|states| - 1], u)
  {
    var s := states[|states| - 1];
    ExecutionInv(states, events, |states| - 1);
    e := NoDeadlock(s);
    u := Step(s, e);
    Extend(states, events, e);
  }

  /**
   From every state of every run, without further arrivals and without any signal, the run can go on
   until every caller has its result.
   */
  lemma {:induction false} CanComplete(states: seq<State>, events: seq<Event>)
    returns (states': seq<State>, events': seq<Event>)
    requires Execution(states, events)
    ensures Execution(states', events') && events <= events' && Calm(events', |events|)
            && AllServed(states'[|states'| - 1])
    decreases Unserved(states[|states| - 1]), Ahead(ExecutorPhase(states[|states| - 1])),
              Unanswered(states[|states| - 1].books)
  {
    var s := states[|states| - 1];
    ExecutionInv(states, events, |states| - 1);
    if s.isExecuting {
      var u, e := OneNearer(states, events);
      states', events' := CanComplete(states + [u], events + [e]);
      assert events'[|events|] == e;
    } else {
      IdleIsServed(s);
      states', events' := states, events;
    }
  }
}
