/**
 What the offline and online work gets done, over every run: which inodes are prepared,
 stashed and reset, what their writable opens count, and how long a stash file has its inode.
 */
module StashRuns {
  import opened Bytes
  import opened StashProtocol

  // ----- preparing and stashing -----

  /** What a step makes of an inode in memory */
  function Becomes(e: Event, i: Ino, x: Inode): Inode {
    if Single(e) then (if e.i == i then InodeAfter(e, x) else x)
    else if e.BeginPrepare? || e.BeginStash? then Fetched(x)
    else if e.Collect? then CollectedInode(x)
    else if e.DelCleanup? then CleanedInode(x)
    else x
  }

  lemma StepInode(s: State, e: Event, i: Ino)
    requires Enabled(s, e) && i in s.inodes && e != Evict(i)
    ensures i in Step(s, e).inodes && Step(s, e).inodes[i] == Becomes(e, i, s.inodes[i])
    ensures Single(e) && e.i == i ==> InodeEnabled(e, s.lock, s.worker, s.inodes[i])
  {
    if Single(e) {
      SingleShape(s, e);
    }
  }

  /** Fetched and on the way to STASHING, or there already */
  predicate Waiting(x: Inode) {
    (x.stage.Preparing? && x.status.Normal?) || (x.stage.Resting? && x.status.Stashing?)
  }

  /** An inode that the offline work must take up */
  predicate Eligible(s: State, i: Ino) {
    i in s.inodes && s.inodes[i].onWrList && (s.inodes[i].status.Normal? || s.inodes[i].status.Stashing?)
  }

  predicate WaitingAt(s: State, i: Ino) {
    i in s.inodes && Waiting(s.inodes[i])
  }

  lemma BeginTakesUp(s: State, e: Event, i: Ino)
    requires Inv(s) && Enabled(s, e) && (e.BeginPrepare? || e.BeginStash?) && Eligible(s, i)
    ensures WaitingAt(Step(s, e), i)
    ensures Step(s, e).lock == if e.BeginPrepare? then Prepare else Stash(false)
  {
    assert InodeOk(s.inodes[i]) && StageOk(s.lock, s.worker, s.inodes[i]);
  }

  /** While the offline work holds its lock, a held inode is changed by its own steps and by collecting only. */
  lemma HeldStep(s: State, e: Event, i: Ino)
    requires Enabled(s, e) && !s.lock.Free? && i in s.inodes && s.inodes[i].holds > 0
    ensures i in Step(s, e).inodes
    ensures Step(s, e).inodes[i] == if Single(e) && e.i == i then InodeAfter(e, s.inodes[i])
                                    else if e.Collect? then CollectedInode(s.inodes[i])
                                    else s.inodes[i]
    ensures Single(e) && e.i == i ==> InodeEnabled(e, s.lock, s.worker, s.inodes[i])
  {
    StepInode(s, e, i);
  }

  lemma WaitingAfter(e: Event, lock: Lock, worker: Worker, x: Inode)
    requires Waiting(x) && InodeOk(x) && Single(e) && InodeEnabled(e, lock, worker, x) && lock != Stash(true)
    ensures Waiting(InodeAfter(e, x))
  {
  }

  /** Until it is collected, an inode that was taken up stays so, whatever else happens. */
  lemma StaysWaiting(s: State, e: Event, i: Ino)
    requires Inv(s) && Enabled(s, e) && WaitingAt(s, i) && (s.lock.Prepare? || s.lock == Stash(false)) && !e.Collect?
    ensures WaitingAt(Step(s, e), i)
    ensures Step(s, e).lock == if e.EndPrepare? then Free else s.lock
  {
    assert InodeOk(s.inodes[i]) && StageOk(s.lock, s.worker, s.inodes[i]);
    HeldStep(s, e, i);
    if Single(e) && e.i == i {
      WaitingAfter(e, s.lock, s.worker, s.inodes[i]);
    }
    WaitingLock(s, e);
  }

  lemma WaitingLock(s: State, e: Event)
    requires Enabled(s, e) && (s.lock.Prepare? || s.lock == Stash(false)) && !e.Collect?
    ensures Step(s, e).lock == if e.EndPrepare? then Free else s.lock
  {
  }

  predicate NoneBetween(events: seq<Event>, k: nat, j: nat) {
    j <= |events| && forall n :: k < n < j ==> !events[n].EndPrepare? && !events[n].EndStash?
  }

  lemma {:induction false} WaitsSince(states: seq<State>, events: seq<Event>, k: nat, n: nat, i: Ino)
    requires Execution(states, events) && k < n < |states| && NoneBetween(events, k, n) && Eligible(states[k], i)
    requires events[k].BeginPrepare? || events[k].BeginStash?
    requires forall m :: k < m < n ==> !events[m].Collect?
    ensures WaitingAt(states[n], i) && states[n].lock == if events[k].BeginPrepare? then Prepare else Stash(false)
    decreases n
  {
    ExecutionInv(states, events, n - 1);
    assert StepAt(states, events, n - 1);
    if n == k + 1 {
      BeginTakesUp(states[k], events[k], i);
    } else {
      WaitsSince(states, events, k, n - 1, i);
      StaysWaiting(states[n - 1], events[n - 1], i);
    }
  }

  /** Collecting needs the lock of do_stash. */
  lemma {:induction false} NoCollect(states: seq<State>, events: seq<Event>, k: nat, n: nat)
    requires Execution(states, events) && k < n < |events| && NoneBetween(events, k, n) && events[k].BeginPrepare?
    ensures states[n].lock.Prepare? && !events[n].Collect?
    decreases n
  {
    assert StepAt(states, events, n - 1) && StepAt(states, events, n);
    if n > k + 1 {
      NoCollect(states, events, k, n - 1);
    }
  }

  /**
   When offline_prepare ends, every inode that was opened for writing and NONE (or STASHING
   already) when it began is STASHING.
   */
  lemma PrepareTakesAll(states: seq<State>, events: seq<Event>, k: nat, j: nat, i: Ino)
    requires Execution(states, events) && k < j < |events| && NoneBetween(events, k, j)
    requires events[k].BeginPrepare? && events[j].EndPrepare? && Eligible(states[k], i)
    ensures i in states[j + 1].inodes && states[j + 1].inodes[i].status.Stashing?
  {
    forall m | k < m < j ensures !events[m].Collect? {
      NoCollect(states, events, k, m);
    }
    WaitsSince(states, events, k, j, i);
    assert StepAt(states, events, j);
  }

  /** Where an inode is once its attempt was made, with the given success */
  predicate AfterAttempt(s: State, i: Ino, ok: bool) {
    i in s.inodes && AttemptedInode(s.inodes[i], ok)
  }

  predicate Freed(s: State, i: Ino) {
    i in s.inodes && s.inodes[i].status.Normal? && !s.inodes[i].tracked && s.inodes[i].stage.Resting?
  }

  /** The attempt on `i` was made at step `m`, and by step `n` it has come this far. */
  predicate Attempted(states: seq<State>, events: seq<Event>, i: Ino, m: nat, n: nat) {
    && m < n < |states| && n <= |events| && events[m].StashInode? && events[m].i == i
    && (|| AfterAttempt(states[n], i, events[m].ok)
        || (!events[m].ok && exists r :: m < r < n && events[r] == Release(i) && Freed(states[r + 1], i)))
  }

  lemma AttemptStep(s: State, e: Event, i: Ino, ok: bool)
    requires Inv(s) && Enabled(s, e) && s.lock == Stash(true) && AfterAttempt(s, i, ok)
    ensures AfterAttempt(Step(s, e), i, ok) || (!ok && e == Release(i) && Freed(Step(s, e), i))
  {
    assert InodeOk(s.inodes[i]) && StageOk(s.lock, s.worker, s.inodes[i]);
    HeldStep(s, e, i);
    if Single(e) && e.i == i {
      AttemptAfter(e, s.worker, s.inodes[i], ok);
    }
  }

  predicate AttemptedInode(x: Inode, ok: bool) {
    if ok then x.status.Restoring?
      && (x.stage.StashedOk? || (x.tracked && (x.stage.TrackedPinned? || x.stage.Resting?)))
    else x.stage.StashedBad? && x.status.Normal?
  }

  lemma AttemptAfter(e: Event, worker: Worker, x: Inode, ok: bool)
    requires AttemptedInode(x, ok) && InodeOk(x) && Single(e) && InodeEnabled(e, Stash(true), worker, x)
    requires worker.InStash?
    ensures || AttemptedInode(InodeAfter(e, x), ok)
            || (!ok && e.Release? && InodeAfter(e, x).status.Normal? && !InodeAfter(e, x).tracked
                && InodeAfter(e, x).stage.Resting?)
  {
  }

  lemma CollectedAfter(e: Event, worker: Worker, x: Inode)
    requires x.stage.Collected? && InodeOk(x) && Single(e) && InodeEnabled(e, Stash(true), worker, x)
    ensures InodeAfter(e, x).stage.Collected? || (e.StashInode? && AttemptedInode(InodeAfter(e, x), e.ok))
  {
  }

  lemma CollectedStep(s: State, e: Event, i: Ino)
    requires Inv(s) && Enabled(s, e) && s.lock == Stash(true) && AtStage(s, i, Collected)
    ensures AtStage(Step(s, e), i, Collected) || (e.StashInode? && e.i == i && AfterAttempt(Step(s, e), i, e.ok))
    ensures !e.EndStash? ==> Step(s, e).lock == Stash(true)
  {
    assert InodeOk(s.inodes[i]);
    HeldStep(s, e, i);
    if Single(e) && e.i == i {
      CollectedAfter(e, s.worker, s.inodes[i]);
    }
    if !e.EndStash? {
      LockKept(s, e);
    }
  }

  lemma CollectTakes(s: State, i: Ino)
    requires Inv(s) && Enabled(s, Collect) && WaitingAt(s, i)
    ensures AtStage(Step(s, Collect), i, Collected) && Step(s, Collect).lock == Stash(true)
  {
    assert InodeOk(s.inodes[i]);
  }

  lemma LockKept(s: State, e: Event)
    requires Inv(s) && Enabled(s, e) && s.lock == Stash(true) && !e.EndStash?
    ensures Step(s, e).lock == Stash(true)
  {
  }

  /** The state of affairs for an eligible inode at step `n` of do_stash */
  ghost predicate InProgress(states: seq<State>, events: seq<Event>, k: nat, n: nat, i: Ino)
    requires n < |states|
  {
    || (states[n].lock == Stash(false) && WaitingAt(states[n], i))
    || (states[n].lock == Stash(true) && AtStage(states[n], i, Collected))
    || (states[n].lock == Stash(true) && exists m :: k < m && Attempted(states, events, i, m, n))
  }

  lemma ProgressStep(states: seq<State>, events: seq<Event>, k: nat, n: nat, i: Ino)
    requires Execution(states, events) && k < n < |events| && InProgress(states, events, k, n, i)
             && !events[n].EndStash?
    ensures InProgress(states, events, k, n + 1, i)
  {
    ExecutionInv(states, events, n);
    assert StepAt(states, events, n);
    var s, e := states[n], events[n];
    if s.lock == Stash(false) {
      if e.Collect? {
        CollectTakes(s, i);
      } else {
        StaysWaiting(s, e, i);
      }
    } else if AtStage(s, i, Collected) {
      CollectedStep(s, e, i);
      if !AtStage(states[n + 1], i, Collected) {
        assert Attempted(states, events, i, n, n + 1);
      }
    } else {
      LockKept(s, e);
      var m :| k < m && Attempted(states, events, i, m, n);
      AttemptGoesOn(states, events, i, m, n);
    }
  }

  lemma AttemptGoesOn(states: seq<State>, events: seq<Event>, i: Ino, m: nat, n: nat)
    requires Execution(states, events) && n < |events| && Attempted(states, events, i, m, n)
             && states[n].lock == Stash(true)
    ensures Attempted(states, events, i, m, n + 1)
  {
    ExecutionInv(states, events, n);
    assert StepAt(states, events, n);
    if AfterAttempt(states[n], i, events[m].ok) {
      AttemptStep(states[n], events[n], i, events[m].ok);
    } else {
      var r :| m < r < n && events[r] == Release(i) && Freed(states[r + 1], i);
      assert m < r < n + 1;
    }
  }

  lemma {:induction false} ProgressSince(states: seq<State>, events: seq<Event>, k: nat, n: nat, i: Ino)
    requires Execution(states, events) && k < n < |states| && NoneBetween(events, k, n)
    requires events[k].BeginStash? && Eligible(states[k], i)
    ensures InProgress(states, events, k, n, i)
    decreases n
  {
    if n == k + 1 {
      WaitsSince(states, events, k, n, i);
    } else {
      ProgressSince(states, events, k, n - 1, i);
      ProgressStep(states, events, k, n - 1, i);
    }
  }

  /**
   Between the beginning and the end of do_stash, an attempt to stash is made on every inode that was opened
   for writing and NONE or STASHING at the beginning.  If it succeeds the inode ends tracked, RESTORING and
   with a stash file; if not, it is released as NONE.
   */
  lemma StashTakesAll(states: seq<State>, events: seq<Event>, k: nat, j: nat, i: Ino) returns (m: nat)
    requires Execution(states, events) && k < j < |events| && NoneBetween(events, k, j)
    requires events[k].BeginStash? && events[j].EndStash? && Eligible(states[k], i)
    ensures k < m < j && events[m].StashInode? && events[m].i == i
    ensures events[m].ok ==>
              && Tracked(states[j + 1], i) && states[j + 1].inodes[i].status.Restoring?
              && i in states[j + 1].files
    ensures !events[m].ok ==> exists r :: m < r < j && events[r] == Release(i) && Freed(states[r + 1], i)
  {
    ProgressSince(states, events, k, j, i);
    ExecutionInv(states, events, j);
    assert StepAt(states, events, j);
    assert states[j].lock == Stash(true);
    m :| k < m && Attempted(states, events, i, m, j);
  }

  // ----- restoring -----

  lemma TrackedAfter(e: Event, lock: Lock, worker: Worker, x: Inode)
    requires x.tracked && InodeOk(x) && Single(e) && InodeEnabled(e, lock, worker, x) && !e.Reset?
    ensures InodeAfter(e, x).tracked
  {
  }

  lemma TrackedStep(s: State, e: Event, i: Ino)
    requires Inv(s) && Enabled(s, e) && Tracked(s, i) && e != Reset(i) && !e.DelCleanup?
    ensures Tracked(Step(s, e), i)
  {
    assert InodeOk(s.inodes[i]);
    StepInode(s, e, i);
    if Single(e) && e.i == i {
      TrackedAfter(e, s.lock, s.worker, s.inodes[i]);
    }
  }

  /** The inode of a stash file is tracked from its stashing, or from its lookup after a restart, */
  lemma TrackingBegins(s: State, e: Event)
    requires Inv(s) && Enabled(s, e) && (e.Track? || e.RebuildInode?)
    ensures Tracked(Step(s, e), e.i)
  {
  }

  /**
   until it is reset or the peer is deleted: in all states in between it is held, RESTORING and has its
   stash file.
   */
  lemma {:induction false} TrackedUntilReset(states: seq<State>, events: seq<Event>, k: nat, n: nat)
    requires Execution(states, events) && k < n < |states| && (events[k].Track? || events[k].RebuildInode?)
    requires forall m :: k < m < n ==> events[m] != Reset(events[k].i) && !events[m].DelCleanup?
    ensures var i := events[k].i;
            && Tracked(states[n], i) && states[n].inodes[i].status.Restoring? && states[n].inodes[i].holds > 0
            && i in states[n].files
    decreases n
  {
    var i := events[k].i;
    ExecutionInv(states, events, n - 1);
    assert StepAt(states, events, n - 1);
    if n == k + 1 {
      TrackingBegins(states[k], events[k]);
    } else {
      TrackedUntilReset(states, events, k, n - 1);
      TrackedStep(states[n - 1], events[n - 1], i);
    }
    ExecutionInv(states, events, n);
    assert InodeOk(states[n].inodes[i]);
  }

  lemma ResettingAfter(e: Event, lock: Lock, worker: Worker, x: Inode)
    requires x.stage.Resetting? && InodeOk(x) && Single(e) && InodeEnabled(e, lock, worker, x)
    ensures var y := InodeAfter(e, x);
            y.stage.Resetting? || (e.ResetDone? && y.status.Normal? && !y.tracked && y.stage.Resting?)
  {
  }

  lemma ResettingStep(s: State, e: Event, i: Ino)
    requires Inv(s) && Enabled(s, e) && AtStage(s, i, Resetting)
    ensures AtStage(Step(s, e), i, Resetting) || (e == ResetDone(i) && Freed(Step(s, e), i))
  {
    assert InodeOk(s.inodes[i]) && StageOk(s.lock, s.worker, s.inodes[i]);
    StepInode(s, e, i);
    if Single(e) && e.i == i {
      ResettingAfter(e, s.lock, s.worker, s.inodes[i]);
    }
  }

  lemma {:induction false} ResetSince(states: seq<State>, events: seq<Event>, k: nat, n: nat)
    requires Execution(states, events) && k < n < |states| && events[k].Reset?
    ensures || AtStage(states[n], events[k].i, Resetting)
            || exists m :: k < m < n && events[m] == ResetDone(events[k].i) && Freed(states[m + 1], events[k].i)
    decreases n
  {
    ExecutionInv(states, events, n - 1);
    assert StepAt(states, events, n - 1);
    if n > k + 1 {
      ResetSince(states, events, k, n - 1);
      if AtStage(states[n - 1], events[k].i, Resetting) {
        ResettingStep(states[n - 1], events[n - 1], events[k].i);
      }
    }
  }

  /** An inode that the restore resets is NONE and untracked again before the restore ends. */
  lemma RestoreResets(states: seq<State>, events: seq<Event>, k: nat, j: nat)
    requires Execution(states, events) && k < j < |events| && events[k].Reset? && events[j].EndRestore?
    ensures exists m :: k < m < j && events[m] == ResetDone(events[k].i) && Freed(states[m + 1], events[k].i)
  {
    ResetSince(states, events, k, j);
    assert StepAt(states, events, j);
  }

  // ----- writable opens -----

  /** The writable opens of an inode since it came into memory */
  function OpenCount(events: seq<Event>, k: nat, i: Ino): int
    requires k <= |events|
  {
    if k == 0 then 0
    else
      var e := events[k - 1];
      if e == NewInode(i) || e == RebuildInode(i) then 0
      else OpenCount(events, k - 1, i) + One(e == Open(i)) - One(e == Close(i))
  }

  lemma OpensAfter(e: Event, i: Ino, x: Inode)
    requires e == Close(i) ==> x.opens > 0
    ensures Becomes(e, i, x).opens == x.opens + One(e == Open(i)) - One(e == Close(i))
  {
  }

  lemma OpensStep(s: State, e: Event, i: Ino)
    requires Enabled(s, e) && i in Step(s, e).inodes
    ensures e != NewInode(i) && e != RebuildInode(i) ==> i in s.inodes
    ensures Step(s, e).inodes[i].opens ==
            if e == NewInode(i) || e == RebuildInode(i) then 0
            else s.inodes[i].opens + One(e == Open(i)) - One(e == Close(i))
  {
    if i in s.inodes {
      StepInode(s, e, i);
      OpensAfter(e, i, s.inodes[i]);
    }
  }

  lemma OpensStepAt(states: seq<State>, events: seq<Event>, k: nat, i: Ino)
    requires Execution(states, events) && k < |events| && i in states[k + 1].inodes
    ensures events[k] != NewInode(i) && events[k] != RebuildInode(i) ==> i in states[k].inodes
    ensures states[k + 1].inodes[i].opens ==
            if events[k] == NewInode(i) || events[k] == RebuildInode(i) then 0
            else states[k].inodes[i].opens + One(events[k] == Open(i)) - One(events[k] == Close(i))
  {
    assert StepAt(states, events, k);
    OpensStep(states[k], events[k], i);
  }

  /** wr_opened_cnt is the number of writable opens, and one more while the offline work has the inode. */
  lemma {:induction false} OpensCounted(states: seq<State>, events: seq<Event>, k: nat, i: Ino)
    requires Execution(states, events) && k < |states| && i in states[k].inodes
    ensures var x := states[k].inodes[i];
            x.opens == OpenCount(events, k, i) && x.count == OpenCount(events, k, i) + One(Pinned(x))
  {
    ExecutionInv(states, events, k);
    assert InodeOk(states[k].inodes[i]);
    if k > 0 {
      OpensStepAt(states, events, k - 1, i);
      if events[k - 1] != NewInode(i) && events[k - 1] != RebuildInode(i) {
        OpensCounted(states, events, k - 1, i);
      }
    }
  }
}
