/**
 hmdfs_sync_fs as a protocol between its callers: one executes at a time, the
 others queue; the executor hands over to the last one queued and, when that one
 has finished, the rest are released without a sync of their own.  Each step is
 one region of the code between two points where others may interleave.
 */
module SyncFs {
  import opened Bytes

  type Caller = nat
  type Request = nat

  const EINTR: int := -4

  /** Where a caller stands; the executing ones carry the local variable err. */
  datatype Phase =
    | Waiting                // its item is on wait_list or pending_list
    | Starting               // executor, round not begun
    | Sending(err: int)      // executor, in the loop over the connections
    | Counting               // executor, request sent but wait_count not yet raised
    | Awaiting(err: int)     // executor, in wait_event_interruptible
    | Draining(err: int)     // executor, releasing pending_list
    | Aborted                // woken with need_abort set: returns 0
    | Returned(err: int)     // executor that has handed over

  predicate Executes(p: Phase) {
    !p.Waiting? && !p.Aborted? && !p.Returned?
  }

  /** A caller with its history: arrival, completions of its item, own round, covering round. */
  datatype Info = Info(phase: Phase, arrived: nat, queued: bool, wakeups: nat, ran: nat, covered: nat)

  /** What happened in one round, that is, under one value of the version counter. */
  datatype Round = Round(owner: Caller, start: nat, end: Option<nat>, sends: nat, answers: nat, interrupted: bool)

  /**
   A callback that holds v_lock and has tested remote_ret but not stored into it: the answer, and
   whether it saw 0.
   */
  datatype Check = Check(code: int, sawZero: bool)

  /**
   The counters of a round, the requests on their way with their version, the callback under v_lock,
   and the rounds so far.
   */
  datatype Books = Books(version: nat, waitCount: int, remoteRet: int,
                         inflight: map<Request, nat>, nextRequest: Request, check: Option<Check>, rounds: seq<Round>)

  /** `now` counts steps; `executor` names the caller that holds is_executing. */
  datatype State = State(
    isExecuting: bool, waitList: seq<Caller>, pendingList: seq<Caller>,
    books: Books, callers: map<Caller, Info>,
    now: nat, executor: Option<Caller>)

  predicate Init(s: State) {
    && !s.isExecuting && s.waitList == [] && s.pendingList == [] && s.executor.None?
    && s.callers == map[] && s.books.inflight == map[] && s.books.check.None? && s.books.rounds == []
    && s.books.version == 0 && s.books.waitCount == 0 && s.now == 0
  }

  datatype Event =
    | Arrive(c: Caller)
    | Begin(c: Caller)
    | SendOk(c: Caller)
    | SendFail(c: Caller, code: int)
    | Count(c: Caller)
    | EndSends(c: Caller)
    | Test(r: Request, code: int)
    | Store
    | Wake(c: Caller)
    | Interrupt(c: Caller)
    | AbortOne(c: Caller)
    | HandOver(c: Caller)

  predicate Enabled(s: State, e: Event) {
    match e
    case Arrive(c) => c !in s.callers
    case Begin(c) => c in s.callers && s.callers[c].phase.Starting? && s.books.check.None?
    case SendOk(c) => c in s.callers && s.callers[c].phase.Sending?
    case SendFail(c, code) => c in s.callers && s.callers[c].phase.Sending? && code != 0
    case Count(c) => c in s.callers && s.callers[c].phase.Counting?
    case EndSends(c) => c in s.callers && s.callers[c].phase.Sending?
    case Test(r, _) => r in s.books.inflight && s.books.check.None?
    case Store => s.books.check.Some?
    case Wake(c) => c in s.callers && s.callers[c].phase.Awaiting? && s.books.waitCount == 0
    case Interrupt(c) => c in s.callers && s.callers[c].phase.Awaiting? && s.books.waitCount != 0
    case AbortOne(c) => c in s.callers && s.callers[c].phase.Draining? && s.pendingList != []
    case HandOver(c) => c in s.callers && s.callers[c].phase.Draining? && s.pendingList == []
  }

  function Current(b: Books): Round {
    if b.rounds == [] then Round(0, 0, None, 0, 0, false) else b.rounds[|b.rounds| - 1]
  }

  function WithCurrent(b: Books, r: Round): seq<Round> {
    if b.rounds == [] then [] else b.rounds[|b.rounds| - 1 := r]
  }

  function BeginRound(b: Books, c: Caller, now: nat): Books {
    b.(version := b.version + 1, remoteRet := 0, waitCount := 0,
       rounds := b.rounds + [Round(c, now, None, 0, 0, false)])
  }

  function Send(b: Books): Books {
    b.(inflight := b.inflight[b.nextRequest := b.version], nextRequest := b.nextRequest + 1,
       rounds := WithCurrent(b, Current(b).(sends := Current(b).sends + 1)))
  }

  /** The executor's store takes no lock. */
  function FailSend(b: Books, code: int): Books {
    b.(remoteRet := code)
  }

  function Raise(b: Books): Books {
    b.(waitCount := b.waitCount + 1)
  }

  /** hmdfs_recv_syncfs_cb up to the test of remote_ret: an answer to an older version changes nothing. */
  function TestAnswer(b: Books, r: Request, code: int): Books
    requires r in b.inflight
  {
    b.(inflight := b.inflight - {r},
       check := if b.inflight[r] != b.version then b.check else Some(Check(code, b.remoteRet == 0)))
  }

  /** The rest of it: the store, if the test saw 0, and wait_count. */
  function StoreAnswer(b: Books): Books
    requires b.check.Some?
  {
    b.(remoteRet := if b.check.value.sawZero then b.check.value.code else b.remoteRet,
       waitCount := b.waitCount - 1, check := None,
       rounds := WithCurrent(b, Current(b).(answers := Current(b).answers + 1)))
  }

  function CloseRound(b: Books, now: nat, interrupted: bool): Books {
    b.(rounds := WithCurrent(b, Current(b).(end := Some(now), interrupted := interrupted)))
  }

  function Moved(s: State, c: Caller, p: Phase): map<Caller, Info> {
    if c in s.callers then s.callers[c := s.callers[c].(phase := p)] else s.callers
  }

  /** complete(): the item's owner runs on in phase `p`. */
  function Woken(s: State, c: Caller, p: Phase): map<Caller, Info> {
    if c !in s.callers then s.callers
    else
      var i := s.callers[c];
      s.callers[c := i.(phase := p, wakeups := i.wakeups + 1, covered := |s.books.rounds|)]
  }

  /** The value of err after the wait: a local error is kept, else the remote one is taken. */
  function Result(s: State, err: int, interrupted: bool): int {
    if interrupted then EINTR else if err == 0 then s.books.remoteRet else err
  }

  function BooksAfter(s: State, e: Event): Books
    requires Enabled(s, e)
  {
    match e
    case Begin(c) => BeginRound(s.books, c, s.now)
    case SendOk(_) => Send(s.books)
    case SendFail(_, code) => FailSend(s.books, code)
    case Count(_) => Raise(s.books)
    case Test(r, code) => TestAnswer(s.books, r, code)
    case Store => StoreAnswer(s.books)
    case Wake(_) => CloseRound(s.books, s.now, false)
    case Interrupt(_) => CloseRound(s.books, s.now, true)
    case _ => s.books
  }

  /** What a step does to the callers and their queues. */
  function Apply(s: State, e: Event): State
    requires Enabled(s, e)
  {
    match e
    case Arrive(c) =>
      if !s.isExecuting then
        s.(isExecuting := true, executor := Some(c), callers := s.callers[c := Info(Starting, s.now, false, 0, 0, 0)])
      else
        s.(waitList := s.waitList + [c], callers := s.callers[c := Info(Waiting, s.now, true, 0, 0, 0)])
    case Begin(c) =>
      s.(callers := s.callers[c := s.callers[c].(phase := Sending(0), ran := |s.books.rounds| + 1)])
    case SendOk(c) => s.(callers := Moved(s, c, Counting))
    case SendFail(c, code) => s.(callers := Moved(s, c, Sending(code)))
    case Count(c) => s.(callers := Moved(s, c, Sending(0)))
    case EndSends(c) => s.(callers := Moved(s, c, Awaiting(s.callers[c].phase.err)))
    case Test(_, _) => s
    case Store => s
    case Wake(c) => s.(callers := Moved(s, c, Draining(Result(s, s.callers[c].phase.err, false))))
    case Interrupt(c) => s.(callers := Moved(s, c, Draining(Result(s, s.callers[c].phase.err, true))))
    case AbortOne(c) =>
      s.(pendingList := s.pendingList[1..], callers := Woken(s, s.pendingList[0], Aborted))
    case HandOver(c) =>
      var t := s.(callers := Moved(s, c, Returned(s.callers[c].phase.err)));
      if s.waitList == [] then t.(isExecuting := false, executor := None)
      else
        var n := |s.waitList| - 1;
        t.(waitList := [], pendingList := s.waitList[..n], executor := Some(s.waitList[n]),
           callers := Woken(t, s.waitList[n], Starting))
  }

  /** Every step takes time, so that "before" and "after" are about steps. */
  function Step(s: State, e: Event): State
    requires Enabled(s, e)
  {
    Apply(s, e).(now := s.now + 1, books := BooksAfter(s, e))
  }

  // ----- the invariant -----

  /** How often a caller occurs on the two lists. */
  function OnLists(s: State, c: Caller): nat {
    multiset(s.waitList)[c] + multiset(s.pendingList)[c]
  }

  /** The caller is the one executor, or queued in one place, and was woken as often as it should. */
  predicate CallerOk(s: State, c: Caller, i: Info) {
    && (Executes(i.phase) <==> s.executor == Some(c))
    && OnLists(s, c) == (if i.phase.Waiting? then 1 else 0)
    && i.arrived < s.now
    && i.wakeups == (if i.queued && !i.phase.Waiting? then 1 else 0)
    && (i.phase.Waiting? || i.phase.Aborted? ==> i.queued)
  }

  ghost predicate Queues(s: State) {
    && (s.isExecuting <==> s.executor.Some?)
    && (s.executor.Some? ==> s.executor.value in s.callers)
    && (s.executor.None? ==> s.waitList == [] && s.pendingList == [])
    && (forall c :: c in s.callers ==> CallerOk(s, c, s.callers[c]))
    && (forall c :: c !in s.callers ==> OnLists(s, c) == 0)
  }

  /** The phase of the executor; Waiting stands for none. */
  function ExecutorPhase(s: State): Phase {
    if s.executor.Some? && s.executor.value in s.callers then s.callers[s.executor.value].phase else Waiting
  }

  /** The executor is between Begin and the end of its wait. */
  predicate Open(s: State) {
    var p := ExecutorPhase(s);
    p.Sending? || p.Counting? || p.Awaiting?
  }

  /** The outstanding requests of the current version. */
  function Outstanding(b: Books): set<Request> {
    set r | r in b.inflight && b.inflight[r] == b.version
  }

  /**
   wait_count is requests minus answers of this version, short of one in the gap before
   atomic_inc; a callback between test and store is not yet counted as an answer.
   */
  ghost predicate Balanced(b: Books, gap: bool) {
    && b.version == |b.rounds|
    && (forall r :: r in b.inflight ==> r < b.nextRequest && b.inflight[r] <= b.version)
    && (b.version == 0 ==> b.inflight == map[])
    && (b.version == 0 ==> b.check.None?)
    && Current(b).sends - Current(b).answers == |Outstanding(b)| + One(b.check.Some?)
    && b.waitCount + One(gap) == |Outstanding(b)| + One(b.check.Some?)
  }

  /** Rounds lie in the past; only the last one may be open. */
  ghost predicate RoundsOk(rounds: seq<Round>, now: nat, open: bool) {
    && (open ==> rounds != [])
    && forall k :: 0 <= k < |rounds| ==>
         && rounds[k].start < now
         && (rounds[k].end.Some? ==> rounds[k].start < rounds[k].end.value < now)
         && (rounds[k].end.None? <==> k == |rounds| - 1 && open)
  }

  ghost predicate Accounting(s: State) {
    && Balanced(s.books, ExecutorPhase(s).Counting?)
    && RoundsOk(s.books.rounds, s.now, Open(s))
  }

  /** The executor has begun a round and not yet handed over. */
  predicate InRound(p: Phase) {
    p.Sending? || p.Counting? || p.Awaiting? || p.Draining?
  }

  /** The executor owns the last round ... */
  predicate OwnsRound(s: State) {
    && s.executor.Some? && s.executor.value in s.callers
    && s.callers[s.executor.value].ran == |s.books.rounds| > 0
    && Current(s.books).owner == s.executor.value
  }

  /** ... and everyone on pending_list arrived before it began. */
  ghost predicate Pending(s: State) {
    InRound(ExecutorPhase(s)) ==>
      && OwnsRound(s)
      && forall c :: c in s.callers && c in multiset(s.pendingList) ==> s.callers[c].arrived < Current(s.books).start
  }

  /** The caller has a round that began after it arrived and has ended. */
  predicate Covered(rounds: seq<Round>, i: Info) {
    && 0 < i.covered <= |rounds|
    && var r := rounds[i.covered - 1];
       i.arrived < r.start && r.end.Some?
  }

  /** The caller's own round ended uninterrupted with every request answered. */
  predicate Settled(rounds: seq<Round>, i: Info) {
    && 0 < i.ran <= |rounds|
    && var r := rounds[i.ran - 1];
       r.end.Some? && !r.interrupted && r.answers == r.sends
  }

  predicate OutcomeOk(rounds: seq<Round>, i: Info) {
    && (i.phase.Aborted? ==> Covered(rounds, i))
    && (i.phase == Returned(0) || i.phase == Draining(0) ==> Settled(rounds, i))
  }

  ghost predicate Outcomes(s: State) {
    forall c :: c in s.callers ==> OutcomeOk(s.books.rounds, s.callers[c])
  }

  ghost predicate Inv(s: State) {
    Queues(s) && Accounting(s) && Pending(s) && Outcomes(s)
  }

  lemma InitInv(s: State)
    requires Init(s)
    ensures Inv(s)
  {
    assert Outstanding(s.books) == {};
  }

  // ----- every step keeps it -----

  /** The steps of the executor. */
  predicate Acts(e: Event) {
    !e.Arrive? && !e.Test? && !e.Store?
  }

  lemma EnabledActs(s: State, e: Event)
    requires Queues(s) && Enabled(s, e) && Acts(e)
    ensures s.executor == Some(e.c) && ExecutorPhase(s) == s.callers[e.c].phase
  {
    assert CallerOk(s, e.c, s.callers[e.c]);
  }

  lemma PopFirst(q: seq<Caller>, c: Caller)
    requires q != []
    ensures multiset(q)[c] == multiset(q[1..])[c] + if c == q[0] then 1 else 0
  {
    assert q == [q[0]] + q[1..];
  }

  lemma PopLast(q: seq<Caller>, c: Caller)
    requires q != []
    ensures multiset(q)[c] == multiset(q[..|q| - 1])[c] + if c == q[|q| - 1] then 1 else 0
  {
    assert q == q[..|q| - 1] + [q[|q| - 1]];
  }

  /** A step that moves the executor from one executing phase to another, or no one. */
  predicate Quiet(s: State, t: State) {
    && t.waitList == s.waitList && t.pendingList == s.pendingList
    && t.isExecuting == s.isExecuting && t.executor == s.executor && t.now == s.now + 1
    && t.callers.Keys == s.callers.Keys
    && forall c :: c in s.callers ==>
         && t.callers[c] == s.callers[c].(phase := t.callers[c].phase, ran := t.callers[c].ran)
         && (if s.executor == Some(c) then Executes(t.callers[c].phase) else t.callers[c] == s.callers[c])
  }

  lemma QuietQueues(s: State, t: State)
    requires Queues(s) && Quiet(s, t)
    ensures Queues(t)
  {
    forall c | c in t.callers ensures CallerOk(t, c, t.callers[c]) {
      assert CallerOk(s, c, s.callers[c]);
    }
    forall c | c !in t.callers ensures OnLists(t, c) == 0 {
      assert OnLists(s, c) == 0;
    }
  }

  lemma ArriveQueues(s: State, c: Caller)
    requires Queues(s) && c !in s.callers
    ensures Queues(Step(s, Arrive(c)))
  {
    var t := Step(s, Arrive(c));
    forall d ensures OnLists(t, d) == OnLists(s, d) + if s.isExecuting && d == c then 1 else 0 {
    }
    assert OnLists(s, c) == 0;
    forall d | d in t.callers ensures CallerOk(t, d, t.callers[d]) {
      if d != c {
        assert CallerOk(s, d, s.callers[d]);
      }
    }
  }

  lemma AbortQueues(s: State, c: Caller)
    requires Queues(s) && Enabled(s, AbortOne(c))
    ensures Queues(Step(s, AbortOne(c)))
    ensures s.pendingList[0] in s.callers && s.callers[s.pendingList[0]].phase.Waiting?
  {
    var t, p := Step(s, AbortOne(c)), s.pendingList[0];
    EnabledActs(s, AbortOne(c));
    forall d ensures OnLists(t, d) == OnLists(s, d) - if d == p then 1 else 0 {
      PopFirst(s.pendingList, d);
    }
    assert OnLists(s, p) > 0;
    assert CallerOk(s, p, s.callers[p]);
    forall d | d in t.callers ensures CallerOk(t, d, t.callers[d]) {
      assert CallerOk(s, d, s.callers[d]);
    }
  }

  lemma HandOverQueues(s: State, c: Caller)
    requires Queues(s) && Enabled(s, HandOver(c))
    ensures Queues(Step(s, HandOver(c)))
    ensures s.waitList != [] ==>
              var next := s.waitList[|s.waitList| - 1]; next in s.callers && s.callers[next].phase.Waiting?
  {
    var t := Step(s, HandOver(c));
    EnabledActs(s, HandOver(c));
    if s.waitList == [] {
      forall d | d in t.callers ensures CallerOk(t, d, t.callers[d]) {
        assert CallerOk(s, d, s.callers[d]);
      }
    } else {
      var next := s.waitList[|s.waitList| - 1];
      forall d ensures OnLists(t, d) == OnLists(s, d) - if d == next then 1 else 0 {
        PopLast(s.waitList, d);
      }
      assert next in multiset(s.waitList);
      assert OnLists(s, next) > 0;
      assert CallerOk(s, next, s.callers[next]);
      assert CallerOk(s, c, s.callers[c]);
      forall d | d in t.callers ensures CallerOk(t, d, t.callers[d]) {
        assert CallerOk(s, d, s.callers[d]);
      }
    }
  }

  lemma QuietStep(s: State, e: Event)
    requires Queues(s) && Enabled(s, e) && !e.Arrive? && !e.AbortOne? && !e.HandOver?
    ensures Quiet(s, Step(s, e))
  {
    if Acts(e) {
      EnabledActs(s, e);
    }
  }

  lemma StepQueues(s: State, e: Event)
    requires Queues(s) && Enabled(s, e)
    ensures Queues(Step(s, e))
  {
    if e.Arrive? {
      ArriveQueues(s, e.c);
    } else if e.AbortOne? {
      AbortQueues(s, e.c);
    } else if e.HandOver? {
      HandOverQueues(s, e.c);
    } else {
      QuietStep(s, e);
      QuietQueues(s, Step(s, e));
    }
  }

  /** The executor's phase after a step. */
  function NextPhase(s: State, e: Event): Phase
    requires Enabled(s, e)
  {
    match e
    case Arrive(_) => if s.isExecuting then ExecutorPhase(s) else Starting
    case Begin(_) => Sending(0)
    case SendOk(_) => Counting
    case SendFail(_, code) => Sending(code)
    case Count(_) => Sending(0)
    case EndSends(c) => Awaiting(s.callers[c].phase.err)
    case Test(_, _) => ExecutorPhase(s)
    case Store => ExecutorPhase(s)
    case Wake(c) => Draining(Result(s, s.callers[c].phase.err, false))
    case Interrupt(c) => Draining(Result(s, s.callers[c].phase.err, true))
    case AbortOne(_) => ExecutorPhase(s)
    case HandOver(_) => if s.waitList == [] then Waiting else Starting
  }

  lemma StepPhase(s: State, e: Event)
    requires Queues(s) && Enabled(s, e)
    ensures ExecutorPhase(Step(s, e)) == NextPhase(s, e)
    ensures Acts(e) ==> s.executor == Some(e.c) && ExecutorPhase(s) == s.callers[e.c].phase
  {
    if e.AbortOne? {
      AbortQueues(s, e.c);
    } else if e.HandOver? {
      HandOverQueues(s, e.c);
    }
    if Acts(e) {
      EnabledActs(s, e);
    }
  }

  lemma BeginBalanced(b: Books, c: Caller, now: nat)
    requires Balanced(b, false) && b.check.None?
    ensures Balanced(BeginRound(b, c, now), false)
  {
    assert Outstanding(BeginRound(b, c, now)) == {};
  }

  lemma SendBalanced(b: Books)
    requires Balanced(b, false) && b.rounds != []
    ensures Balanced(Send(b), true)
  {
    assert Outstanding(Send(b)) == Outstanding(b) + {b.nextRequest};
  }

  /** An answer of the current version is outstanding until it is stored; a stale one changes nothing else. */
  lemma TestBalanced(b: Books, r: Request, code: int, gap: bool)
    requires Balanced(b, gap) && r in b.inflight && b.check.None?
    ensures Balanced(TestAnswer(b, r, code), gap)
    ensures b.inflight[r] != b.version ==> TestAnswer(b, r, code) == b.(inflight := b.inflight - {r})
  {
    assert Outstanding(TestAnswer(b, r, code)) == Outstanding(b) - {r};
  }

  lemma StoreBalanced(b: Books, gap: bool)
    requires Balanced(b, gap) && b.check.Some?
    ensures Balanced(StoreAnswer(b), gap)
  {
    SameOutstanding(b, StoreAnswer(b));
  }

  lemma SameOutstanding(b: Books, b': Books)
    requires b'.inflight == b.inflight && b'.version == b.version
    ensures Outstanding(b') == Outstanding(b)
  {
  }

  lemma StepBalanced(s: State, e: Event)
    requires Queues(s) && Accounting(s) && Enabled(s, e)
    ensures Balanced(BooksAfter(s, e), NextPhase(s, e).Counting?)
  {
    StepPhase(s, e);
    var b := s.books;
    match e {
      case Begin(c) => BeginBalanced(b, c, s.now);
      case SendOk(_) => SendBalanced(b);
      case Test(r, code) => TestBalanced(b, r, code, ExecutorPhase(s).Counting?);
      case Store => StoreBalanced(b, ExecutorPhase(s).Counting?);
      case _ => SameOutstanding(b, BooksAfter(s, e));
    }
  }

  lemma StepRounds(s: State, e: Event)
    requires Queues(s) && Accounting(s) && Enabled(s, e)
    ensures var p := NextPhase(s, e);
            RoundsOk(BooksAfter(s, e).rounds, s.now + 1, p.Sending? || p.Counting? || p.Awaiting?)
  {
    StepPhase(s, e);
  }

  lemma StepAccounting(s: State, e: Event)
    requires Queues(s) && Accounting(s) && Enabled(s, e)
    ensures Accounting(Step(s, e))
  {
    StepPhase(s, e);
    StepBalanced(s, e);
    StepRounds(s, e);
  }

  lemma StepPending(s: State, e: Event)
    requires Queues(s) && Accounting(s) && Pending(s) && Enabled(s, e)
    ensures Pending(Step(s, e))
  {
    var t := Step(s, e);
    StepPhase(s, e);
    if InRound(NextPhase(s, e)) {
      StepOwnsRound(s, e);
      forall c | c in t.callers && c in multiset(t.pendingList)
        ensures t.callers[c].arrived < Current(t.books).start
      {
        PendingFrame(s, e, c);
      }
    }
  }

  lemma StepOwnsRound(s: State, e: Event)
    requires Queues(s) && Enabled(s, e) && InRound(NextPhase(s, e))
    requires InRound(ExecutorPhase(s)) ==> OwnsRound(s)
    ensures OwnsRound(Step(s, e))
  {
    StepPhase(s, e);
    if e.AbortOne? {
      AbortQueues(s, e.c);
    }
  }

  lemma PendingFrame(s: State, e: Event, c: Caller)
    requires Queues(s) && Accounting(s) && Pending(s) && Enabled(s, e)
    requires var t := Step(s, e); c in t.callers && c in multiset(t.pendingList)
    requires InRound(NextPhase(s, e))
    ensures Step(s, e).callers[c].arrived < Current(BooksAfter(s, e)).start
  {
    StepPhase(s, e);
    assert c in multiset(s.pendingList) by {
      if e.AbortOne? {
        PopFirst(s.pendingList, c);
      }
    }
    assert OnLists(s, c) > 0;
    assert CallerOk(s, c, s.callers[c]);
    ArrivedKept(s, e, c);
    StartKept(s, e);
  }

  lemma ArrivedKept(s: State, e: Event, c: Caller)
    requires Enabled(s, e) && c in s.callers
    ensures c in Step(s, e).callers && Step(s, e).callers[c].arrived == s.callers[c].arrived
  {
  }

  lemma StartKept(s: State, e: Event)
    requires Enabled(s, e)
    ensures Current(BooksAfter(s, e)).start == if e.Begin? then s.now else Current(s.books).start
  {
  }

  /** Rounds that have ended keep their times, and settled ones do not change at all. */
  ghost predicate Keeps(b: Books, b': Books) {
    && |b.rounds| <= |b'.rounds|
    && forall k :: 0 <= k < |b.rounds| && b.rounds[k].end.Some? ==>
         && b'.rounds[k].start == b.rounds[k].start && b'.rounds[k].end == b.rounds[k].end
         && (!b.rounds[k].interrupted && b.rounds[k].answers == b.rounds[k].sends ==> b'.rounds[k] == b.rounds[k])
  }

  lemma StepKeeps(s: State, e: Event)
    requires Queues(s) && Accounting(s) && Enabled(s, e)
    ensures Keeps(s.books, BooksAfter(s, e))
  {
    StepPhase(s, e);
  }

  lemma KeepsOutcome(b: Books, b': Books, i: Info)
    requires Keeps(b, b') && OutcomeOk(b.rounds, i)
    ensures OutcomeOk(b'.rounds, i)
  {
  }

  /** The wait ends without interruption only when all requests are answered. */
  lemma WakeSettled(s: State, c: Caller)
    requires Queues(s) && Accounting(s) && Pending(s) && Enabled(s, Wake(c))
    ensures var t := Step(s, Wake(c)); OutcomeOk(t.books.rounds, t.callers[c])
  {
    StepPhase(s, Wake(c));
    assert Outstanding(s.books) == {};
  }

  /** Releasing pending_list happens after a round that began when its callers were already there. */
  lemma AbortCovered(s: State, c: Caller)
    requires Queues(s) && Accounting(s) && Pending(s) && Enabled(s, AbortOne(c))
    ensures var t := Step(s, AbortOne(c));
            s.pendingList[0] in t.callers && OutcomeOk(t.books.rounds, t.callers[s.pendingList[0]])
  {
    StepPhase(s, AbortOne(c));
    AbortQueues(s, c);
    assert s.pendingList[0] in multiset(s.pendingList);
  }

  lemma StepOutcomes(s: State, e: Event)
    requires Inv(s) && Enabled(s, e)
    ensures Outcomes(Step(s, e))
  {
    var t := Step(s, e);
    StepKeeps(s, e);
    StepPhase(s, e);
    forall c | c in t.callers ensures OutcomeOk(t.books.rounds, t.callers[c]) {
      if e == Wake(c) {
        WakeSettled(s, c);
      } else if e.AbortOne? && c == s.pendingList[0] {
        AbortCovered(s, e.c);
      } else {
        OutcomeFrame(s, e, c);
      }
    }
  }

  /** Other callers keep their outcome: they stand still, or take a phase with nothing to answer for. */
  lemma OutcomeFrame(s: State, e: Event, c: Caller)
    requires Enabled(s, e) && c in Step(s, e).callers
    requires c in s.callers ==> OutcomeOk(s.books.rounds, s.callers[c])
    requires Keeps(s.books, BooksAfter(s, e))
    requires e != Wake(c) && (e.AbortOne? ==> c != s.pendingList[0])
    ensures OutcomeOk(Step(s, e).books.rounds, Step(s, e).callers[c])
  {
    if c in s.callers {
      KeepsOutcome(s.books, BooksAfter(s, e), s.callers[c]);
    }
  }

  lemma StepInv(s: State, e: Event)
    requires Inv(s) && Enabled(s, e)
    ensures Inv(Step(s, e))
  {
    StepQueues(s, e);
    StepAccounting(s, e);
    StepPending(s, e);
    StepOutcomes(s, e);
  }

  // ----- whole runs -----

  /** Any interleaving of the callers' steps and the callbacks, from a mounted file system with no sync under way. */
  ghost predicate Execution(states: seq<State>, events: seq<Event>) {
    && |states| == |events| + 1
    && Init(states[0])
    && forall k :: 0 <= k < |events| ==> StepAt(states, events, k)
  }

  predicate StepAt(states: seq<State>, events: seq<Event>, k: int) {
    && 0 <= k < |events| && k + 1 < |states|
    && Enabled(states[k], events[k]) && states[k + 1] == Step(states[k], events[k])
  }

  lemma {:induction false} ExecutionInv(states: seq<State>, events: seq<Event>, k: nat)
    requires Execution(states, events) && k < |states|
    ensures Inv(states[k]) && states[k].now == k
  {
    if k == 0 {
      InitInv(states[0]);
    } else {
      ExecutionInv(states, events, k - 1);
      assert StepAt(states, events, k - 1);
      StepInv(states[k - 1], events[k - 1]);
    }
  }

  /**
   In every interleaving at most one caller executes; callers wait only while
   one does; a waiting caller is queued exactly once and has not been woken, and
   one that has stopped waiting was woken exactly once.
   */
  lemma Serialised(states: seq<State>, events: seq<Event>, k: nat)
    requires Execution(states, events) && k < |states|
    ensures var s := states[k];
            && (forall c, d :: c in s.callers && d in s.callers ==>
                  Executes(s.callers[c].phase) && Executes(s.callers[d].phase) ==> c == d)
            && (forall c :: c in s.callers && s.callers[c].phase.Waiting? ==>
                 s.isExecuting && OnLists(s, c) == 1 && s.callers[c].wakeups == 0)
            && (forall c :: c in s.callers && !s.callers[c].phase.Waiting? && s.callers[c].queued ==>
                 OnLists(s, c) == 0 && s.callers[c].wakeups == 1)
            && (s.isExecuting <==> exists c :: c in s.callers && Executes(s.callers[c].phase))
  {
    ExecutionInv(states, events, k);
    var s := states[k];
    forall c | c in s.callers ensures CallerOk(s, c, s.callers[c]) {
    }
    if s.isExecuting {
      assert CallerOk(s, s.executor.value, s.callers[s.executor.value]);
    }
  }

  predicate EndsRound(e: Event, c: Caller) {
    e == Wake(c) || e == Interrupt(c)
  }

  /** The recorded times are those of the events. */
  ghost predicate ArrivalsOk(callers: map<Caller, Info>, events: seq<Event>) {
    forall c :: c in callers ==> callers[c].arrived < |events| && events[callers[c].arrived] == Arrive(c)
  }

  predicate RoundInTrace(r: Round, events: seq<Event>) {
    && r.start < |events| && events[r.start] == Begin(r.owner)
    && (r.end.Some? ==> r.end.value < |events| && EndsRound(events[r.end.value], r.owner))
  }

  ghost predicate RoundsInTrace(rounds: seq<Round>, events: seq<Event>) {
    forall k :: 0 <= k < |rounds| ==> RoundInTrace(rounds[k], events)
  }

  lemma StepArrivals(s: State, events: seq<Event>, e: Event)
    requires Enabled(s, e) && s.now == |events| && ArrivalsOk(s.callers, events)
    ensures ArrivalsOk(Step(s, e).callers, events + [e])
  {
    var t := Step(s, e);
    forall c | c in t.callers
      ensures t.callers[c].arrived <= |events| && (events + [e])[t.callers[c].arrived] == Arrive(c)
    {
      assert c in s.callers ==> t.callers[c].arrived == s.callers[c].arrived;
    }
  }

  lemma StepRoundsInTrace(s: State, events: seq<Event>, e: Event)
    requires Queues(s) && Pending(s) && Enabled(s, e) && s.now == |events| && RoundsInTrace(s.books.rounds, events)
    ensures RoundsInTrace(BooksAfter(s, e).rounds, events + [e])
  {
    StepPhase(s, e);
    forall k | 0 <= k < |s.books.rounds| ensures RoundInTrace(s.books.rounds[k], events + [e]) {
    }
  }

  lemma {:induction false} ExecutionHistory(states: seq<State>, events: seq<Event>, k: nat)
    requires Execution(states, events) && k < |states|
    ensures ArrivalsOk(states[k].callers, events[..k]) && RoundsInTrace(states[k].books.rounds, events[..k])
  {
    if k > 0 {
      ExecutionHistory(states, events, k - 1);
      ExecutionInv(states, events, k - 1);
      assert StepAt(states, events, k - 1);
      HistoryStep(states[k - 1], events[..k - 1], events[k - 1], states[k], events[..k]);
    }
  }

  lemma HistoryStep(s: State, before: seq<Event>, e: Event, t: State, after: seq<Event>)
    requires Queues(s) && Pending(s) && Enabled(s, e) && t == Step(s, e) && s.now == |before| && after == before + [e]
    requires ArrivalsOk(s.callers, before) && RoundsInTrace(s.books.rounds, before)
    ensures ArrivalsOk(t.callers, after) && RoundsInTrace(t.books.rounds, after)
  {
    StepArrivals(s, before, e);
    StepRoundsInTrace(s, before, e);
  }

  /** Caller `c` arrives, then a sync by someone begins, then that sync ends, all before step `k`. */
  predicate CoveredInTrace(events: seq<Event>, k: nat, c: Caller, i: nat, b: nat, w: nat) {
    && i < b < w < k <= |events|
    && events[i] == Arrive(c) && events[b].Begin? && EndsRound(events[w], events[b].c)
  }

  /** A caller released without a sync of its own is covered by one that began after it arrived. */
  lemma AbortedIsCovered(states: seq<State>, events: seq<Event>, k: nat, c: Caller) returns (i: nat, b: nat, w: nat)
    requires Execution(states, events) && k < |states|
    requires c in states[k].callers && states[k].callers[c].phase.Aborted?
    ensures CoveredInTrace(events, k, c, i, b, w)
    ensures var n := states[k].callers[c].covered;
            0 < n <= |states[k].books.rounds| && events[b].c == states[k].books.rounds[n - 1].owner
  {
    ExecutionInv(states, events, k);
    ExecutionHistory(states, events, k);
    var info := states[k].callers[c];
    assert OutcomeOk(states[k].books.rounds, info);
    var round := states[k].books.rounds[info.covered - 1];
    i, b, w := info.arrived, round.start, round.end.value;
  }

}
