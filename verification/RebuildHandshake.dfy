/**
 The handshake between inodes that rebuild their stash status when they are
 looked up and the online callback that must not restore until all have: the
 inode side counts itself, checks the flag again and uncounts itself; the online
 side clears the flag and waits for the count to reach zero.
 */
module RebuildHandshake {
  import opened Bytes

  type Thread = nat

  datatype Pc =
    | Checked      // saw the flag, has not counted itself
    | Counted      // has counted itself, has not checked again
    | Rebuilding   // saw the flag again, will add to stashed_inode_list
    | Leaving      // has still to uncount itself
    | Gone

  datatype Online = Before | Cleared | Passed

  datatype State = State(flag: bool, nr: int, threads: map<Thread, Pc>, online: Online, listed: nat)

  datatype Event =
    | FirstCheck(t: Thread)
    | Increment(t: Thread)
    | Recheck(t: Thread)
    | AddToList(t: Thread)
    | SkipList(t: Thread)
    | Decrement(t: Thread)
    | ClearFlag
    | WaitReturns

  predicate At(s: State, t: Thread, pc: Pc) {
    t in s.threads && s.threads[t] == pc
  }

  predicate Enabled(s: State, e: Event) {
    match e
    case FirstCheck(t) => t !in s.threads
    case Increment(t) => At(s, t, Checked)
    case Recheck(t) => At(s, t, Counted)
    case AddToList(t) => At(s, t, Rebuilding)
    case SkipList(t) => At(s, t, Rebuilding)
    case Decrement(t) => At(s, t, Leaving)
    case ClearFlag => s.online.Before?
    case WaitReturns => s.online.Cleared? && s.nr == 0
  }

  function Step(s: State, e: Event): State
    requires Enabled(s, e)
  {
    match e
    case FirstCheck(t) => s.(threads := s.threads[t := if s.flag then Checked else Gone])
    case Increment(t) => s.(threads := s.threads[t := Counted], nr := s.nr + 1)
    case Recheck(t) => s.(threads := s.threads[t := if s.flag then Rebuilding else Leaving])
    case AddToList(t) => s.(threads := s.threads[t := Leaving], listed := s.listed + 1)
    case SkipList(t) => s.(threads := s.threads[t := Leaving])
    case Decrement(t) => s.(threads := s.threads[t := Gone], nr := s.nr - 1)
    case ClearFlag => s.(flag := false, online := Cleared)
    case WaitReturns => s.(online := Passed)
  }

  predicate Inside(pc: Pc) {
    pc.Counted? || pc.Rebuilding? || pc.Leaving?
  }

  function InsideSet(threads: map<Thread, Pc>): set<Thread> {
    set t | t in threads && Inside(threads[t])
  }

  ghost predicate Inv(s: State) {
    && s.nr == |InsideSet(s.threads)|
    && (!s.online.Before? ==> !s.flag)
    && (s.online.Passed? ==> forall t :: t in s.threads ==> !s.threads[t].Rebuilding?)
  }

  lemma InsideUpdate(threads: map<Thread, Pc>, t: Thread, pc: Pc)
    ensures |InsideSet(threads[t := pc])| ==
            |InsideSet(threads)| + One(Inside(pc)) - One(t in threads && Inside(threads[t]))
  {
    var others := InsideSet(threads) - {t};
    assert InsideSet(threads) == if t in threads && Inside(threads[t]) then others + {t} else others;
    assert InsideSet(threads[t := pc]) == if Inside(pc) then others + {t} else others;
  }

  lemma StepInv(s: State, e: Event)
    requires Inv(s) && Enabled(s, e)
    ensures Inv(Step(s, e))
  {
    if !e.ClearFlag? && !e.WaitReturns? {
      var u := Step(s, e);
      InsideUpdate(s.threads, e.t, u.threads[e.t]);
      assert u.threads == s.threads[e.t := u.threads[e.t]];
    } else if e.WaitReturns? {
      assert InsideSet(s.threads) == {};
      forall t | t in s.threads ensures !s.threads[t].Rebuilding? {
        assert t !in InsideSet(s.threads);
      }
    }
  }

  ghost predicate Init(s: State) {
    s.nr == 0 && s.threads == map[] && s.online.Before?
  }

  predicate StepAt(states: seq<State>, events: seq<Event>, k: int) {
    && 0 <= k < |events| && k + 1 < |states|
    && Enabled(states[k], events[k]) && states[k + 1] == Step(states[k], events[k])
  }

  /** Every sequentially consistent interleaving, for any number of inodes. */
  ghost predicate Execution(states: seq<State>, events: seq<Event>) {
    && |states| == |events| + 1 && Init(states[0])
    && forall k :: 0 <= k < |events| ==> StepAt(states, events, k)
  }

  lemma {:induction false} ExecutionInv(states: seq<State>, events: seq<Event>, k: nat)
    requires Execution(states, events) && k < |states|
    ensures Inv(states[k])
  {
    if k == 0 {
      assert InsideSet(states[0].threads) == {};
    } else {
      ExecutionInv(states, events, k - 1);
      assert StepAt(states, events, k - 1);
      StepInv(states[k - 1], events[k - 1]);
    }
  }

  /** Once the wait has returned the list is final: nothing is ever added again. */
  lemma {:induction false} ListIsFinal(states: seq<State>, events: seq<Event>, j: nat, k: nat)
    requires Execution(states, events) && j <= k < |states| && states[j].online.Passed?
    ensures states[k].online.Passed? && states[k].listed == states[j].listed
    ensures k < |events| ==> !events[k].AddToList?
  {
    if j < k {
      ListIsFinal(states, events, j, k - 1);
      assert StepAt(states, events, k - 1);
    }
    ExecutionInv(states, events, k);
    if k < |events| {
      assert StepAt(states, events, k);
    }
  }

  // ----- what gets done -----

  predicate NotCleared(events: seq<Event>, k: nat) {
    k <= |events| && forall j :: 0 <= j < k ==> !events[j].ClearFlag?
  }

  lemma {:induction false} FlagIs(states: seq<State>, events: seq<Event>, k: nat)
    requires Execution(states, events) && k < |states|
    ensures states[k].flag <==> states[0].flag && NotCleared(events, k)
  {
    if k > 0 {
      FlagIs(states, events, k - 1);
      assert StepAt(states, events, k - 1);
    }
  }

  /**
   An inode goes to rebuild its status if and only if the flag is set and not yet cleared, when it looks
   the first time and again when it has counted itself.
   */
  lemma RebuildsIff(states: seq<State>, events: seq<Event>, k: nat)
    requires Execution(states, events) && k < |events|
    ensures events[k].FirstCheck? ==>
              (At(states[k + 1], events[k].t, Checked) <==> states[0].flag && NotCleared(events, k))
    ensures events[k].Recheck? ==>
              (At(states[k + 1], events[k].t, Rebuilding) <==> states[0].flag && NotCleared(events, k))
    ensures events[k].AddToList? <==> states[k + 1].listed == states[k].listed + 1
  {
    FlagIs(states, events, k);
    assert StepAt(states, events, k);
  }

  /** The steps an inode that has counted itself has still to take */
  function Left(pc: Pc): nat {
    match pc
    case Counted => 3
    case Rebuilding => 2
    case Leaving => 1
    case _ => 0
  }

  function AtLeast(threads: map<Thread, Pc>, n: nat): set<Thread> {
    set t | t in threads && Left(threads[t]) >= n
  }

  function StepsLeft(s: State): nat {
    |AtLeast(s.threads, 1)| + |AtLeast(s.threads, 2)| + |AtLeast(s.threads, 3)|
  }

  lemma AtLeastUpdate(threads: map<Thread, Pc>, t: Thread, pc: Pc, n: nat)
    requires t in threads
    ensures |AtLeast(threads[t := pc], n)| == |AtLeast(threads, n)| + One(Left(pc) >= n) - One(Left(threads[t]) >= n)
  {
    var others := AtLeast(threads, n) - {t};
    assert AtLeast(threads, n) == if Left(threads[t]) >= n then others + {t} else others;
    assert AtLeast(threads[t := pc], n) == if Left(pc) >= n then others + {t} else others;
  }

  lemma OneStepLess(s: State, e: Event)
    requires Enabled(s, e) && (e.Recheck? || e.AddToList? || e.Decrement?)
    ensures StepsLeft(Step(s, e)) < StepsLeft(s)
  {
    var pc := Step(s, e).threads[e.t];
    AtLeastUpdate(s.threads, e.t, pc, 1);
    AtLeastUpdate(s.threads, e.t, pc, 2);
    AtLeastUpdate(s.threads, e.t, pc, 3);
  }

  lemma NextStep(s: State) returns (e: Event)
    requires Inv(s) && s.nr != 0
    ensures Enabled(s, e) && (e.Recheck? || e.AddToList? || e.Decrement?)
  {
    assert InsideSet(s.threads) != {};
    var t :| t in InsideSet(s.threads);
    e := if s.threads[t].Counted? then Recheck(t) else if s.threads[t].Rebuilding? then AddToList(t) else Decrement(t);
  }

  lemma Extend(states: seq<State>, events: seq<Event>, e: Event)
    requires Execution(states, events) && Enabled(states[|states| - 1], e)
    ensures Execution(states + [Step(states[|states| - 1], e)], events + [e])
  {
    var states', events' := states + [Step(states[|states| - 1], e)], events + [e];
    forall k | 0 <= k < |events'| ensures StepAt(states', events', k) {
      if k < |events| {
        assert StepAt(states, events, k);
      }
    }
  }

  /**
   The wait is never in vain: from every state in which the flag is cleared, the inodes inside can
   finish and the wait return.
   */
  lemma {:induction false} WaitCanReturn(states: seq<State>, events: seq<Event>)
    returns (states': seq<State>, events': seq<Event>)
    requires Execution(states, events) && states[|states| - 1].online.Cleared?
    ensures Execution(states', events') && events <= events' && states'[|states'| - 1].online.Passed?
    decreases StepsLeft(states[|states| - 1])
  {
    var s := states[|states| - 1];
    ExecutionInv(states, events, |states| - 1);
    if s.nr == 0 {
      Extend(states, events, WaitReturns);
      states', events' := states + [Step(s, WaitReturns)], events + [WaitReturns];
    } else {
      var e := NextStep(s);
      OneStepLess(s, e);
      Extend(states, events, e);
      states', events' := WaitCanReturn(states + [Step(s, e)], events + [e]);
    }
  }
}
