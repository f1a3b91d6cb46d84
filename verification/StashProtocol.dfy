/**
 Offline stash and online restore for one peer: how each inode moves between the
 states NONE, STASHING and RESTORING, which lists it is on, and who holds a
 reference to it.  Each step is a region of the code that others cannot enter.
 */
module StashProtocol {
  import opened Bytes

  type Ino = nat

  datatype Status = Normal | Stashing | Restoring

  /** Where the offline or online work stands with an inode. */
  datatype Stage =
    | Resting
    | Preparing       // fetched, on the local preparing list
    | Collected       // on the local stashing list
    | StashedOk       // stash file linked, not yet tracked
    | StashedBad      // nothing stashed, not yet released
    | TrackedPinned   // tracked, still counted as opened for writing
    | Resetting       // off the tracked list, status not yet cleared

  /**
   `opens` counts the writable opens of the inode; `count` and `onWrList` are
   wr_opened_cnt and membership of wr_opened_inode_list; `tracked` is membership
   of stashed_inode_list; `holds` counts the references taken by this protocol.
   */
  datatype Inode = Inode(opens: nat, count: nat, onWrList: bool, status: Status, stage: Stage, tracked: bool,
                         holds: nat)

  const NEW_INODE := Inode(0, 0, false, Normal, Resting, false, 0)

  /** offline_cb_lock and how far the holder is. */
  datatype Lock = Free | Prepare | Stash(collected: bool)

  /** The asynchronous event callbacks of a peer run one at a time. */
  datatype Worker = Idle | InStash | InRestore

  /** `files` are the inodes that have a stash file; `needRebuild` is need_rebuild_stash_list. */
  datatype State = State(inodes: map<Ino, Inode>, files: set<Ino>, trackedNr: int, lock: Lock, worker: Worker,
                         needRebuild: bool)

  datatype Event =
    | NewInode(i: Ino)
    | RebuildInode(i: Ino)
    | Evict(i: Ino)
    | Open(i: Ino)
    | Close(i: Ino)
    | BeginPrepare
    | EndPrepare
    | BeginStash
    | InitCache(i: Ino)
    | Collect
    | StashInode(i: Ino, ok: bool)
    | Track(i: Ino)
    | Release(i: Ino)
    | EndStash
    | ClearRebuild
    | BeginRestore
    | Reset(i: Ino)
    | ResetDone(i: Ino)
    | DeleteFile(i: Ino)
    | EndRestore
    | DelCleanup

  predicate AtStage(s: State, i: Ino, stage: Stage) {
    i in s.inodes && s.inodes[i].stage == stage
  }

  predicate Tracked(s: State, i: Ino) {
    i in s.inodes && s.inodes[i].tracked
  }

  /** The stages of an inode that do_stash has collected and not yet released. */
  predicate StashStage(stage: Stage) {
    stage.Collected? || stage.StashedOk? || stage.StashedBad? || stage.TrackedPinned?
  }

  predicate NonePreparing(s: State) {
    forall i :: i in s.inodes ==> !s.inodes[i].stage.Preparing?
  }

  predicate NoneStashing(s: State) {
    forall i :: i in s.inodes ==> !StashStage(s.inodes[i].stage)
  }

  predicate NoneResetting(s: State) {
    forall i :: i in s.inodes ==> !s.inodes[i].stage.Resetting?
  }

  predicate Enabled(s: State, e: Event) {
    match e
    case NewInode(i) => i !in s.inodes
    case RebuildInode(i) => i !in s.inodes && s.needRebuild && i in s.files
    case Evict(i) => i in s.inodes && s.inodes[i].opens == 0 && s.inodes[i].holds == 0
    case Open(i) => i in s.inodes
    case Close(i) => i in s.inodes && s.inodes[i].opens > 0
    case BeginPrepare => s.lock.Free?
    case EndPrepare => s.lock.Prepare? && NonePreparing(s)
    case BeginStash => s.lock.Free? && s.worker.Idle?
    case InitCache(i) => !s.lock.Free? && AtStage(s, i, Preparing)
    case Collect => s.lock == Stash(false) && NonePreparing(s)
    case StashInode(i, _) => s.lock == Stash(true) && AtStage(s, i, Collected)
    case Track(i) => AtStage(s, i, StashedOk)
    case Release(i) => AtStage(s, i, TrackedPinned) || AtStage(s, i, StashedBad)
    case EndStash => s.lock == Stash(true) && NoneStashing(s)
    case ClearRebuild => true
    case BeginRestore => s.worker.Idle? && !s.needRebuild
    case Reset(i) => s.worker.InRestore? && Tracked(s, i) && AtStage(s, i, Resting)
    case ResetDone(i) => AtStage(s, i, Resetting)
    case DeleteFile(i) => s.worker.InRestore? && !Tracked(s, i)
    case EndRestore => s.worker.InRestore? && NoneResetting(s)
    case DelCleanup => s.lock.Free? && s.worker.Idle?
  }

  /** hmdfs_remote_add_wr_opened_inode_nolock */
  function AddWrOpened(x: Inode): Inode {
    Inode(x.opens, if x.onWrList then x.count + 1 else 1, true, x.status, x.stage, x.tracked, x.holds)
  }

  /** hmdfs_remote_del_wr_opened_inode_nolock */
  function DelWrOpened(x: Inode): Inode {
    Inode(x.opens, if x.count <= 1 then 0 else x.count - 1, x.onWrList && x.count > 1,
          x.status, x.stage, x.tracked, x.holds)
  }

  function Hold(x: Inode): Inode {
    x.(holds := x.holds + 1)
  }

  function Put(x: Inode): Inode {
    x.(holds := if x.holds == 0 then 0 else x.holds - 1)
  }

  /** hmdfs_stash_fetch_ready_files, on each inode of wr_opened_inode_list */
  function Fetched(x: Inode): Inode {
    if x.onWrList && x.status.Normal? then Hold(AddWrOpened(x)).(stage := Preparing) else x
  }

  function CollectedInode(x: Inode): Inode {
    if x.onWrList && x.status.Stashing? then x.(stage := Collected) else x
  }

  /** hmdfs_stash_del_do_cleanup on one inode: first the STASHING ones, then the tracked ones */
  function CleanedInode(x: Inode): Inode {
    var y := if x.onWrList && x.status.Stashing? then Put(DelWrOpened(x.(status := Normal))) else x;
    if y.tracked then Put(y.(tracked := false)) else y
  }

  function Each(m: map<Ino, Inode>, f: Inode -> Inode): map<Ino, Inode> {
    map i | i in m :: f(m[i])
  }

  /** hmdfs_file_open_remote and its close, for a file opened for writing */
  function Opened(x: Inode): Inode {
    AddWrOpened(x.(opens := x.opens + 1))
  }

  function Closed(x: Inode): Inode {
    DelWrOpened(x.(opens := if x.opens > 0 then x.opens - 1 else 0))
  }

  /** hmdfs_init_stash_file_cache */
  function CacheReady(x: Inode): Inode {
    x.(status := Stashing, stage := Resting)
  }

  /** hmdfs_stash_remote_inode */
  function StashResult(x: Inode, ok: bool): Inode {
    if ok then x.(status := Restoring, stage := StashedOk) else x.(status := Normal, stage := StashedBad)
  }

  /** hmdfs_track_inode_locked */
  function TrackedInode(x: Inode): Inode {
    x.(tracked := true, stage := TrackedPinned)
  }

  /** The end of the loop body of hmdfs_stash_remote_inodes */
  function Released(x: Inode): Inode {
    if x.stage.TrackedPinned? then DelWrOpened(x).(stage := Resting) else Put(DelWrOpened(x)).(stage := Resting)
  }

  /** hmdfs_reset_stashed_inode: up to the untracking, and the rest */
  function Untracked(x: Inode): Inode {
    Put(Hold(x)).(tracked := false, stage := Resetting)
  }

  function ResetInode(x: Inode): Inode {
    Put(x.(status := Normal, stage := Resting))
  }

  /** What the step makes of its inode. */
  function InodeAfter(e: Event, x: Inode): Inode {
    match e
    case Open(_) => Opened(x)
    case Close(_) => Closed(x)
    case InitCache(_) => CacheReady(x)
    case StashInode(_, ok) => StashResult(x, ok)
    case Track(_) => TrackedInode(x)
    case Release(_) => Released(x)
    case Reset(_) => Untracked(x)
    case ResetDone(_) => ResetInode(x)
    case _ => x
  }

  function Step(s: State, e: Event): State
    requires Enabled(s, e)
  {
    match e
    case NewInode(i) => s.(inodes := s.inodes[i := NEW_INODE])
    case RebuildInode(i) =>
      s.(inodes := s.inodes[i := Hold(NEW_INODE.(status := Restoring, tracked := true))], trackedNr := s.trackedNr + 1)
    case Evict(i) => s.(inodes := s.inodes - {i})
    case BeginPrepare => s.(lock := Prepare, inodes := Each(s.inodes, Fetched))
    case EndPrepare => s.(lock := Free)
    case BeginStash => s.(lock := Stash(false), worker := InStash, inodes := Each(s.inodes, Fetched))
    case Collect => s.(lock := Stash(true), inodes := Each(s.inodes, CollectedInode))
    case StashInode(i, ok) =>
      s.(inodes := s.inodes[i := InodeAfter(e, s.inodes[i])], files := if ok then s.files + {i} else s.files)
    case Track(i) => s.(inodes := s.inodes[i := InodeAfter(e, s.inodes[i])], trackedNr := s.trackedNr + 1)
    case EndStash => s.(lock := Free, worker := Idle)
    case ClearRebuild => s.(needRebuild := false)
    case BeginRestore => s.(worker := InRestore)
    case Reset(i) => s.(inodes := s.inodes[i := InodeAfter(e, s.inodes[i])], trackedNr := s.trackedNr - 1)
    case DeleteFile(i) => s.(files := s.files - {i})
    case EndRestore => s.(worker := Idle)
    case DelCleanup => s.(inodes := Each(s.inodes, CleanedInode), trackedNr := s.trackedNr - |TrackedSet(s)|)
    case _ => s.(inodes := s.inodes[e.i := InodeAfter(e, s.inodes[e.i])])
  }

  // ----- the invariant -----

  function TrackedIn(m: map<Ino, Inode>): set<Ino> {
    set i | i in m && m[i].tracked
  }

  function TrackedSet(s: State): set<Ino> {
    TrackedIn(s.inodes)
  }

  lemma TrackedUpdate(m: map<Ino, Inode>, i: Ino, x: Inode)
    ensures TrackedIn(m[i := x]) == if x.tracked then TrackedIn(m) + {i} else TrackedIn(m) - {i}
    ensures i in TrackedIn(m) <==> i in m && m[i].tracked
  {
  }

  /** The offline work has counted the inode as one more writable open. */
  predicate Pinned(x: Inode) {
    x.status.Stashing? || x.stage.Preparing? || StashStage(x.stage)
  }

  predicate InodeOk(x: Inode) {
    && x.count == x.opens + One(Pinned(x))
    && (x.onWrList <==> x.count > 0)
    && x.holds == One(Pinned(x) && !x.tracked) + One(x.tracked) + One(x.stage.Resetting?)
    && (x.tracked ==> x.status.Restoring? && (x.stage.Resting? || x.stage.TrackedPinned?))
    && (x.status.Stashing? ==> x.stage.Resting? || x.stage.Collected?)
    && (x.stage.Preparing? || x.stage.StashedBad? ==> x.status.Normal?)
    && (x.stage.Collected? ==> x.status.Stashing?)
    && (x.stage.StashedOk? || x.stage.TrackedPinned? || x.stage.Resetting? ==> x.status.Restoring?)
    && (x.stage.TrackedPinned? ==> x.tracked)
  }

  /** The stages an inode may be in while the lock and the worker are where they are. */
  predicate StageOk(lock: Lock, worker: Worker, x: Inode) {
    && (x.stage.Preparing? ==> !lock.Free? && lock != Stash(true))
    && (StashStage(x.stage) ==> lock == Stash(true))
    && (x.stage.Resetting? ==> worker.InRestore?)
    && (lock == Stash(true) && x.status.Stashing? ==> x.stage.Collected?)
  }

  ghost predicate Inv(s: State) {
    && InodesOk(s.inodes, s.lock, s.worker)
    && FilesOk(s)
    && s.trackedNr == |TrackedSet(s)|
    && (s.lock.Stash? <==> s.worker.InStash?)
    && (s.worker.InRestore? ==> !s.needRebuild)
  }

  lemma InitInv(s: State)
    requires Init(s)
    ensures Inv(s)
  {
    assert TrackedSet(s) == {};
  }

  /** The part of Enabled that speaks of the inode itself. */
  predicate InodeEnabled(e: Event, lock: Lock, worker: Worker, x: Inode) {
    match e
    case Open(_) => true
    case Close(_) => x.opens > 0
    case InitCache(_) => x.stage.Preparing?
    case StashInode(_, _) => lock == Stash(true) && x.stage.Collected?
    case Track(_) => x.stage.StashedOk?
    case Release(_) => x.stage.TrackedPinned? || x.stage.StashedBad?
    case Reset(_) => worker.InRestore? && x.tracked && x.stage.Resting?
    case ResetDone(_) => x.stage.Resetting?
    case _ => false
  }

  lemma OpenedOk(lock: Lock, worker: Worker, x: Inode)
    requires InodeOk(x) && StageOk(lock, worker, x)
    ensures InodeOk(Opened(x)) && StageOk(lock, worker, Opened(x))
  {
    assert Opened(x) == Inode(x.opens + 1, x.count + 1, true, x.status, x.stage, x.tracked, x.holds);
    assert Pinned(Opened(x)) == Pinned(x);
  }

  lemma ClosedOk(lock: Lock, worker: Worker, x: Inode)
    requires InodeOk(x) && StageOk(lock, worker, x) && x.opens > 0
    ensures x.onWrList && InodeOk(Closed(x)) && StageOk(lock, worker, Closed(x))
  {
    var y := Closed(x);
    assert x.count > 0;
    assert y.opens == x.opens - 1 && y.count == x.count - 1 && (y.onWrList <==> y.count > 0);
    assert y.status == x.status && y.stage == x.stage && y.tracked == x.tracked && y.holds == x.holds;
    assert Pinned(y) == Pinned(x);
  }

  lemma CacheReadyOk(lock: Lock, worker: Worker, x: Inode)
    requires InodeOk(x) && StageOk(lock, worker, x) && x.stage.Preparing?
    ensures InodeOk(CacheReady(x)) && StageOk(lock, worker, CacheReady(x))
  {
  }

  lemma StashResultOk(worker: Worker, x: Inode, ok: bool)
    requires InodeOk(x) && StageOk(Stash(true), worker, x) && x.stage.Collected?
    ensures InodeOk(StashResult(x, ok)) && StageOk(Stash(true), worker, StashResult(x, ok))
  {
  }

  lemma TrackedOk(lock: Lock, worker: Worker, x: Inode)
    requires InodeOk(x) && StageOk(lock, worker, x) && x.stage.StashedOk?
    ensures InodeOk(TrackedInode(x)) && StageOk(lock, worker, TrackedInode(x))
  {
  }

  lemma ReleasedOk(lock: Lock, worker: Worker, x: Inode)
    requires InodeOk(x) && StageOk(lock, worker, x) && (x.stage.TrackedPinned? || x.stage.StashedBad?)
    ensures InodeOk(Released(x)) && StageOk(lock, worker, Released(x))
  {
  }

  lemma UntrackedOk(lock: Lock, x: Inode)
    requires InodeOk(x) && StageOk(lock, InRestore, x) && x.tracked && x.stage.Resting?
    ensures InodeOk(Untracked(x)) && StageOk(lock, InRestore, Untracked(x))
  {
  }

  lemma ResetOk(lock: Lock, worker: Worker, x: Inode)
    requires InodeOk(x) && StageOk(lock, worker, x) && x.stage.Resetting?
    ensures InodeOk(ResetInode(x)) && StageOk(lock, worker, ResetInode(x))
  {
  }

  lemma InodeAfterOk(e: Event, lock: Lock, worker: Worker, x: Inode)
    requires InodeOk(x) && StageOk(lock, worker, x) && InodeEnabled(e, lock, worker, x)
    ensures InodeOk(InodeAfter(e, x)) && StageOk(lock, worker, InodeAfter(e, x))
  {
    match e {
      case Open(_) => OpenedOk(lock, worker, x);
      case Close(_) => ClosedOk(lock, worker, x);
      case InitCache(_) => CacheReadyOk(lock, worker, x);
      case StashInode(_, ok) => StashResultOk(worker, x, ok);
      case Track(_) => TrackedOk(lock, worker, x);
      case Release(_) => ReleasedOk(lock, worker, x);
      case Reset(_) => UntrackedOk(lock, x);
      case ResetDone(_) => ResetOk(lock, worker, x);
    }
  }

  lemma FetchedOk(lock: Lock, worker: Worker, x: Inode)
    requires InodeOk(x) && StageOk(Free, worker, x) && (lock == Prepare || lock == Stash(false))
    ensures InodeOk(Fetched(x)) && StageOk(lock, worker, Fetched(x)) && Fetched(x).tracked == x.tracked
    ensures Fetched(x).stage.StashedOk? ==> x.stage.StashedOk?
  {
  }

  lemma CollectedOk(worker: Worker, x: Inode)
    requires InodeOk(x) && StageOk(Stash(false), worker, x) && !x.stage.Preparing?
    ensures InodeOk(CollectedInode(x)) && StageOk(Stash(true), worker, CollectedInode(x))
    ensures CollectedInode(x).tracked == x.tracked && (CollectedInode(x).stage.StashedOk? ==> x.stage.StashedOk?)
  {
  }

  lemma CleanedOk(x: Inode)
    requires InodeOk(x) && StageOk(Free, Idle, x)
    ensures InodeOk(CleanedInode(x)) && StageOk(Free, Idle, CleanedInode(x)) && !CleanedInode(x).tracked
    ensures CleanedInode(x).holds == 0 && CleanedInode(x).count == x.opens && CleanedInode(x).opens == x.opens
  {
  }

  /** The steps that concern one inode present before and after. */
  predicate Single(e: Event) {
    e.Open? || e.Close? || e.InitCache? || e.StashInode? || e.Track? || e.Release? || e.Reset? || e.ResetDone?
  }

  ghost predicate InodesOk(inodes: map<Ino, Inode>, lock: Lock, worker: Worker) {
    forall i :: i in inodes ==> InodeOk(inodes[i]) && StageOk(lock, worker, inodes[i])
  }

  lemma SingleShape(s: State, e: Event)
    requires Enabled(s, e) && Single(e)
    ensures e.i in s.inodes && InodeEnabled(e, s.lock, s.worker, s.inodes[e.i])
    ensures var t := Step(s, e);
            && t.inodes == s.inodes[e.i := InodeAfter(e, s.inodes[e.i])]
            && t.lock == s.lock && t.worker == s.worker && t.needRebuild == s.needRebuild
  {
  }

  lemma InodesUpdate(inodes: map<Ino, Inode>, lock: Lock, worker: Worker, i: Ino, x: Inode)
    requires InodesOk(inodes, lock, worker) && InodeOk(x) && StageOk(lock, worker, x)
    ensures InodesOk(inodes[i := x], lock, worker)
  {
  }

  lemma StepSingle(s: State, e: Event)
    requires InodesOk(s.inodes, s.lock, s.worker) && Enabled(s, e) && Single(e)
    ensures e.i in s.inodes
    ensures var t := Step(s, e);
            && t.inodes == s.inodes[e.i := InodeAfter(e, s.inodes[e.i])]
            && t.lock == s.lock && t.worker == s.worker && t.needRebuild == s.needRebuild
            && InodesOk(t.inodes, t.lock, t.worker)
  {
    SingleShape(s, e);
    InodeAfterOk(e, s.lock, s.worker, s.inodes[e.i]);
    InodesUpdate(s.inodes, s.lock, s.worker, e.i, InodeAfter(e, s.inodes[e.i]));
  }

  lemma StepEach(s: State, e: Event)
    requires InodesOk(s.inodes, s.lock, s.worker) && Enabled(s, e)
    requires e.BeginPrepare? || e.BeginStash? || e.Collect? || e.DelCleanup?
    ensures var t := Step(s, e); InodesOk(t.inodes, t.lock, t.worker)
    ensures var t := Step(s, e);
            forall i :: i in t.inodes ==>
              && i in s.inodes && (t.inodes[i].stage.StashedOk? ==> s.inodes[i].stage.StashedOk?)
              && t.inodes[i].tracked == (s.inodes[i].tracked && !e.DelCleanup?)
  {
    var t := Step(s, e);
    forall i | i in s.inodes
      ensures InodeOk(t.inodes[i]) && StageOk(t.lock, t.worker, t.inodes[i])
      ensures t.inodes[i].stage.StashedOk? ==> s.inodes[i].stage.StashedOk?
      ensures t.inodes[i].tracked == (s.inodes[i].tracked && !e.DelCleanup?)
    {
      var x := s.inodes[i];
      assert InodeOk(x) && StageOk(s.lock, s.worker, x);
      if e.BeginPrepare? {
        FetchedOk(Prepare, s.worker, x);
      } else if e.BeginStash? {
        FetchedOk(Stash(false), InStash, x);
      } else if e.Collect? {
        CollectedOk(s.worker, x);
      } else {
        CleanedOk(x);
      }
    }
  }

  lemma StepInodes(s: State, e: Event)
    requires Inv(s) && Enabled(s, e)
    ensures var t := Step(s, e); InodesOk(t.inodes, t.lock, t.worker)
  {
    if Single(e) {
      StepSingle(s, e);
    } else if e.BeginPrepare? || e.BeginStash? || e.Collect? || e.DelCleanup? {
      StepEach(s, e);
    } else if e.NewInode? || e.RebuildInode? {
      InodesUpdate(s.inodes, s.lock, s.worker, e.i, Step(s, e).inodes[e.i]);
    } else {
      StepAround(s, e);
    }
  }

  /** The steps that move the lock or the worker, or take an inode away */
  lemma StepAround(s: State, e: Event)
    requires InodesOk(s.inodes, s.lock, s.worker) && (s.lock.Stash? <==> s.worker.InStash?) && Enabled(s, e)
    requires || e.Evict? || e.EndPrepare? || e.EndStash? || e.ClearRebuild? || e.BeginRestore?
             || e.DeleteFile? || e.EndRestore?
    ensures var t := Step(s, e); InodesOk(t.inodes, t.lock, t.worker)
  {
    var t := Step(s, e);
    forall i | i in t.inodes ensures InodeOk(t.inodes[i]) && StageOk(t.lock, t.worker, t.inodes[i]) {
      assert i in s.inodes && t.inodes[i] == s.inodes[i];
      assert InodeOk(s.inodes[i]) && StageOk(s.lock, s.worker, s.inodes[i]);
    }
  }

  ghost predicate FilesOk(s: State) {
    forall i :: i in s.inodes && (s.inodes[i].tracked || s.inodes[i].stage.StashedOk?) ==> i in s.files
  }

  lemma StepFiles(s: State, e: Event)
    requires Inv(s) && Enabled(s, e)
    ensures FilesOk(Step(s, e))
  {
    if Single(e) {
      StepSingle(s, e);
    } else if e.BeginPrepare? || e.BeginStash? || e.Collect? || e.DelCleanup? {
      StepEach(s, e);
    } else if e.DeleteFile? {
      assert AtStage(s, e.i, StashedOk) ==> s.worker.InStash?;
    }
  }

  lemma TrackedSingle(s: State, e: Event)
    requires Inv(s) && Enabled(s, e) && Single(e)
    ensures var t := Step(s, e); t.trackedNr == |TrackedSet(t)|
  {
    var t := Step(s, e);
    StepSingle(s, e);
    var x := s.inodes[e.i];
    assert InodeOk(x);
    TrackedUpdate(s.inodes, e.i, InodeAfter(e, x));
  }

  lemma TrackedEach(s: State, e: Event)
    requires Inv(s) && Enabled(s, e)
    requires e.BeginPrepare? || e.BeginStash? || e.Collect? || e.DelCleanup?
    ensures var t := Step(s, e); t.trackedNr == |TrackedSet(t)|
  {
    StepEach(s, e);
    assert TrackedSet(Step(s, e)) == if e.DelCleanup? then {} else TrackedSet(s);
  }

  lemma TrackedEvict(s: State, i: Ino)
    requires Inv(s) && Enabled(s, Evict(i))
    ensures var t := Step(s, Evict(i)); t.trackedNr == |TrackedSet(t)|
  {
    assert InodeOk(s.inodes[i]);
    assert TrackedSet(Step(s, Evict(i))) == TrackedSet(s);
  }

  lemma StepTracked(s: State, e: Event)
    requires Inv(s) && Enabled(s, e)
    ensures var t := Step(s, e); t.trackedNr == |TrackedSet(t)|
  {
    if Single(e) {
      TrackedSingle(s, e);
    } else if e.BeginPrepare? || e.BeginStash? || e.Collect? || e.DelCleanup? {
      TrackedEach(s, e);
    } else if e.Evict? {
      TrackedEvict(s, e.i);
    } else if e.RebuildInode? || e.NewInode? {
      TrackedUpdate(s.inodes, e.i, Step(s, e).inodes[e.i]);
    }
  }

  lemma StepInv(s: State, e: Event)
    requires Inv(s) && Enabled(s, e)
    ensures Inv(Step(s, e))
  {
    StepInodes(s, e);
    StepFiles(s, e);
    StepTracked(s, e);
  }

  // ----- whole runs -----

  ghost predicate Init(s: State) {
    s.inodes == map[] && s.trackedNr == 0 && s.lock.Free? && s.worker.Idle?
  }

  predicate StepAt(states: seq<State>, events: seq<Event>, k: int) {
    && 0 <= k < |events| && k + 1 < |states|
    && Enabled(states[k], events[k]) && states[k + 1] == Step(states[k], events[k])
  }

  /** Any interleaving of opens, closes, node events and their callbacks, stash files of earlier boots included. */
  ghost predicate Execution(states: seq<State>, events: seq<Event>) {
    && |states| == |events| + 1 && Init(states[0])
    && forall k :: 0 <= k < |events| ==> StepAt(states, events, k)
  }

  lemma {:induction false} ExecutionInv(states: seq<State>, events: seq<Event>, k: nat)
    requires Execution(states, events) && k < |states|
    ensures Inv(states[k])
  {
    if k == 0 {
      InitInv(states[0]);
    } else {
      ExecutionInv(states, events, k - 1);
      assert StepAt(states, events, k - 1);
      StepInv(states[k - 1], events[k - 1]);
    }
  }

  /**
   In every state of every run: an inode being stashed is on wr_opened_inode_list,
   so the next do_stash or cleanup finds it; the list holds exactly the inodes
   counted as opened for writing; and stashed_inode_nr is the number of tracked
   inodes, each of which is RESTORING, has a stash file and is held.
   */
  lemma ListsBalance(states: seq<State>, events: seq<Event>, k: nat)
    requires Execution(states, events) && k < |states|
    ensures var s := states[k];
            && (forall i :: i in s.inodes && s.inodes[i].status.Stashing? ==>
                 s.inodes[i].onWrList && s.inodes[i].holds > 0)
            && (forall i :: i in s.inodes ==> (s.inodes[i].onWrList <==> s.inodes[i].count > 0))
            && (forall i :: i in s.inodes ==> s.inodes[i].count == s.inodes[i].opens + One(Pinned(s.inodes[i])))
            && s.trackedNr == |TrackedSet(s)|
            && (forall i :: i in TrackedSet(s) ==>
                 s.inodes[i].status.Restoring? && i in s.files && s.inodes[i].holds > 0)
  {
    ExecutionInv(states, events, k);
    var s := states[k];
    forall i | i in s.inodes ensures InodeOk(s.inodes[i]) {
    }
  }

  /** Between the callbacks, the references taken are one for each STASHING and one for each tracked inode. */
  lemma HoldsBalance(states: seq<State>, events: seq<Event>, k: nat, i: Ino)
    requires Execution(states, events) && k < |states| && i in states[k].inodes
    requires states[k].lock.Free? && states[k].worker.Idle?
    ensures var x := states[k].inodes[i];
            && x.stage.Resting? && x.holds == One(x.status.Stashing?) + One(x.tracked) <= 1
            && x.count == x.opens + One(x.status.Stashing?)
  {
    ExecutionInv(states, events, k);
    assert InodeOk(states[k].inodes[i]) && StageOk(states[k].lock, states[k].worker, states[k].inodes[i]);
  }

  /** When do_stash ends, no inode is left STASHING. */
  lemma StashLeavesNone(states: seq<State>, events: seq<Event>, k: nat, i: Ino)
    requires Execution(states, events) && k < |events| && events[k].EndStash? && i in states[k + 1].inodes
    ensures !states[k + 1].inodes[i].status.Stashing?
  {
    ExecutionInv(states, events, k);
    assert StepAt(states, events, k);
    assert InodeOk(states[k].inodes[i]) && StageOk(states[k].lock, states[k].worker, states[k].inodes[i]);
  }

  /** No inode is prepared, stashed, tracked or being reset. */
  predicate Untouched(s: State) {
    && s.lock.Free?
    && forall i :: i in s.inodes ==>
         !s.inodes[i].tracked && s.inodes[i].stage.Resting? && !s.inodes[i].status.Stashing?
  }

  /** The events that take up an inode */
  predicate TakesUp(e: Event) {
    e.RebuildInode? || e.BeginPrepare? || e.BeginStash?
  }

  lemma CleanupIdle(s: State)
    requires Inv(s) && Enabled(s, DelCleanup)
    ensures Untouched(Step(s, DelCleanup))
  {
    var t := Step(s, DelCleanup);
    forall i | i in t.inodes
      ensures !t.inodes[i].tracked && t.inodes[i].stage.Resting? && !t.inodes[i].status.Stashing?
    {
      assert InodeOk(s.inodes[i]) && StageOk(s.lock, s.worker, s.inodes[i]);
      CleanedOk(s.inodes[i]);
    }
  }

  lemma StaysIdle(s: State, e: Event)
    requires Inv(s) && Untouched(s) && Enabled(s, e) && !TakesUp(e)
    ensures Untouched(Step(s, e))
  {
    if e.DelCleanup? {
      CleanupIdle(s);
    }
  }

  lemma {:induction false} IdleSince(states: seq<State>, events: seq<Event>, k: nat, j: nat)
    requires Execution(states, events) && k < j < |states| && events[k].DelCleanup?
    requires forall n :: k < n < j ==> !TakesUp(events[n])
    ensures Untouched(states[j])
    decreases j
  {
    ExecutionInv(states, events, j - 1);
    assert StepAt(states, events, j - 1);
    if j == k + 1 {
      CleanupIdle(states[k]);
    } else {
      IdleSince(states, events, k, j - 1);
      StaysIdle(states[j - 1], events[j - 1]);
    }
  }

  /**
   From the deletion of the peer until an inode is next looked up, prepared or stashed, no
   reference, no tracked inode and no extra open count is left.
   */
  lemma DeletedPeerHoldsNothing(states: seq<State>, events: seq<Event>, k: nat, j: nat)
    requires Execution(states, events) && k < j < |states| && events[k].DelCleanup?
    requires forall n :: k < n < j ==> !TakesUp(events[n])
    ensures var t := states[j];
            && t.trackedNr == 0 && TrackedSet(t) == {}
            && forall i :: i in t.inodes ==> t.inodes[i].holds == 0 && t.inodes[i].count == t.inodes[i].opens
  {
    IdleSince(states, events, k, j);
    ExecutionInv(states, events, j);
    var t := states[j];
    forall i | i in t.inodes ensures t.inodes[i].holds == 0 && t.inodes[i].count == t.inodes[i].opens {
      assert InodeOk(t.inodes[i]);
    }
    assert TrackedSet(t) == {};
  }

  /** An inode with neither open nor reference left is on no list, so freeing it leaves no dangling entry. */
  lemma EvictionIsSafe(states: seq<State>, events: seq<Event>, k: nat)
    requires Execution(states, events) && k < |events| && events[k].Evict?
    ensures events[k].i in states[k].inodes
    ensures var x := states[k].inodes[events[k].i]; !x.onWrList && !x.tracked && !Pinned(x)
  {
    ExecutionInv(states, events, k);
    assert StepAt(states, events, k);
    assert InodeOk(states[k].inodes[events[k].i]);
  }
}
