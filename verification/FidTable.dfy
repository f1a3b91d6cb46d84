/**
 File ids handed to a client: a table of open files and a version that changes when the
 client goes offline, so that ids from before do not resolve.  The request handlers run side by
 side; every get and put of a file reference is a step of its own, and that the references
 add up is proved, with the one race in which they do not.
 */
module FidTable {
  import opened Bytes

  type Id = nat
  type File = nat
  type TaskId = nat

  datatype Fid = Fid(id: Id, ver: nat)

  /** A fid as issued: for which file, and after how many offline events. */
  datatype Issued = Issued(fid: Fid, file: File, epoch: nat)

  /** Where a handler stands with its file. */
  datatype Task =
    | Opened(f: File)              // open: hmdfs_open_path has returned the file
    | Doubled(f: File)             // open: get_file for the table
    | Inserted(f: File, id: Id)    // open: in the table, not yet answered
    | Delivered(f: File, id: Id)   // open: the client has the response, the send has not returned
    | InfoFailed(f: File, id: Id)  // open: has still to put, remove and put
    | PutOnce(f: File, id: Id)     // open: has still to remove and put
    | SendFailed(f: File, id: Id)  // open: has still to remove, put and put
    | Closing(f: File, puts: nat)  // has still so many puts to make
    | Found(f: File, id: Id)       // release: get_file_by_fid_and_ver has returned the file
    | Removing(f: File, id: Id)    // release: has put that reference, has still to remove

  /**
   `table` is file_id_idr and `cursor` its cyclic cursor; `refs` counts the references to each
   file, as an integer so that a put too many shows; `epoch` counts offline events, of which the
   version keeps fifteen bits below the boot cookie; `closing` are the slots that the offline
   handler has still to close.  `stolen` and `leaked` count, for each file, removals that did not
   meet the slot they were meant for.
   */
  datatype State = State(table: map<Id, File>, cursor: Id, boot: nat, epoch: nat, refs: map<File, int>,
                         tasks: map<TaskId, Task>, closing: Option<set<Id>>, issued: set<Issued>,
                         stolen: map<File, nat>, leaked: map<File, nat>)

  /** hmdfs_server_pack_fid_ver */
  function Version(boot: nat, epoch: nat): nat {
    boot * TWO_15 + epoch % TWO_15
  }

  /** get_file_by_fid_and_ver, up to the reference */
  function Resolve(s: State, fid: Fid): Option<File> {
    if fid.ver != Version(s.boot, s.epoch) then None
    else if fid.id in s.table then Some(s.table[fid.id])
    else None
  }

  function Get<T>(m: map<File, T>, f: File, zero: T): T {
    if f in m then m[f] else zero
  }

  function RefsOf(s: State, f: File): int {
    Get(s.refs, f, 0)
  }

  datatype Event =
    | OpenPath(t: TaskId, f: File)
    | GetFile(t: TaskId)
    | Insert(t: TaskId, id: Id)
    | InsertFails(t: TaskId)
    | InfoFails(t: TaskId)
    | Deliver(t: TaskId)
    | Answer(t: TaskId)
    | AnswerFails(t: TaskId)
    | Lookup(t: TaskId, fid: Fid)
    | Put(t: TaskId)
    | Remove(t: TaskId)
    | BeginOffline
    | CloseSlot(id: Id)
    | EndOffline

  predicate Puts(x: Task) {
    x.InfoFailed? || x.Found? || (x.Closing? && x.puts > 0)
  }

  predicate Removes(x: Task) {
    x.PutOnce? || x.SendFailed? || x.Removing?
  }

  /** The offline handler waits for all requests first, and none starts while it runs. */
  predicate Enabled(s: State, e: Event) {
    match e
    case OpenPath(t, _) => t !in s.tasks && s.closing.None?
    case GetFile(t) => t in s.tasks && s.tasks[t].Opened?
    case Insert(t, id) => t in s.tasks && s.tasks[t].Doubled? && id !in s.table
    case InsertFails(t) => t in s.tasks && s.tasks[t].Doubled?
    case InfoFails(t) => t in s.tasks && s.tasks[t].Inserted?
    case Deliver(t) => t in s.tasks && s.tasks[t].Inserted?
    case Answer(t) => t in s.tasks && s.tasks[t].Delivered?
    case AnswerFails(t) => t in s.tasks && s.tasks[t].Inserted?
    case Lookup(t, fid) =>
      t !in s.tasks && s.closing.None? && Resolve(s, fid).Some? && RefsOf(s, Resolve(s, fid).value) > 0
    case Put(t) => t in s.tasks && Puts(s.tasks[t])
    case Remove(t) => t in s.tasks && Removes(s.tasks[t])
    case BeginOffline => s.tasks == map[] && s.closing.None?
    case CloseSlot(id) => s.closing.Some? && id in s.closing.value && id in s.table
    case EndOffline => s.closing == Some({})
  }

  function Added(s: State, f: File, n: int): map<File, int> {
    s.refs[f := RefsOf(s, f) + n]
  }

  /** What a handler has still to do after a put */
  function AfterPut(x: Task): Option<Task>
    requires Puts(x)
  {
    match x
    case InfoFailed(f, id) => Some(PutOnce(f, id))
    case Found(f, id) => Some(Removing(f, id))
    case Closing(f, puts) => if puts == 1 then None else Some(Closing(f, puts - 1))
  }

  /** What it has still to do after remove_file_from_conn: only a release looks at the result. */
  function AfterRemove(x: Task, hit: bool): Option<Task>
    requires Removes(x)
  {
    match x
    case PutOnce(f, _) => Some(Closing(f, 1))
    case SendFailed(f, _) => Some(Closing(f, 2))
    case Removing(f, _) => if hit then Some(Closing(f, 1)) else None
  }

  function With(tasks: map<TaskId, Task>, t: TaskId, x: Option<Task>): map<TaskId, Task> {
    if x.Some? then tasks[t := x.value] else tasks - {t}
  }

  /** The handler will put a reference that no slot gave it. */
  predicate Steals(s: State, x: Task)
    requires Removes(x)
  {
    if x.id in s.table then s.table[x.id] != x.f else !x.Removing?
  }

  function Counted(m: map<File, nat>, f: File, b: bool): map<File, nat> {
    if b then m[f := Get(m, f, 0) + 1] else m
  }

  function RemoveStep(s: State, t: TaskId): State
    requires t in s.tasks && Removes(s.tasks[t])
  {
    var x := s.tasks[t];
    var hit := x.id in s.table;
    s.(table := s.table - {x.id}, tasks := With(s.tasks, t, AfterRemove(x, hit)),
       stolen := Counted(s.stolen, x.f, Steals(s, x)),
       leaked := if hit then Counted(s.leaked, s.table[x.id], s.table[x.id] != x.f) else s.leaked)
  }

  function Step(s: State, e: Event): State
    requires Enabled(s, e)
  {
    match e
    case OpenPath(t, f) => s.(refs := Added(s, f, 1), tasks := s.tasks[t := Opened(f)])
    case GetFile(t) => s.(refs := Added(s, s.tasks[t].f, 1), tasks := s.tasks[t := Doubled(s.tasks[t].f)])
    case Insert(t, id) =>
      var f := s.tasks[t].f;
      s.(table := s.table[id := f], cursor := id + 1, tasks := s.tasks[t := Inserted(f, id)],
         issued := s.issued + {Issued(Fid(id, Version(s.boot, s.epoch)), f, s.epoch)})
    case InsertFails(t) => s.(tasks := s.tasks[t := Closing(s.tasks[t].f, 2)])
    case InfoFails(t) => s.(tasks := s.tasks[t := InfoFailed(s.tasks[t].f, s.tasks[t].id)])
    case Deliver(t) => s.(tasks := s.tasks[t := Delivered(s.tasks[t].f, s.tasks[t].id)])
    case Answer(t) => s.(tasks := s.tasks[t := Closing(s.tasks[t].f, 1)])
    case AnswerFails(t) => s.(tasks := s.tasks[t := SendFailed(s.tasks[t].f, s.tasks[t].id)])
    case Lookup(t, fid) =>
      var f := Resolve(s, fid).value;
      s.(refs := Added(s, f, 1), tasks := s.tasks[t := Found(f, fid.id)])
    case Put(t) => s.(refs := Added(s, s.tasks[t].f, -1), tasks := With(s.tasks, t, AfterPut(s.tasks[t])))
    case Remove(t) => RemoveStep(s, t)
    case BeginOffline => s.(closing := Some(s.table.Keys))
    case CloseSlot(id) => s.(refs := Added(s, s.table[id], -1), closing := Some(s.closing.value - {id}))
    case EndOffline => s.(table := map[], closing := None, epoch := s.epoch + 1)
  }

  // ----- the account of a file -----

  /** The puts a handler has still to make, less the gets and the slot still to come */
  function Owed(x: Task, f: File): nat {
    if x.f != f then 0
    else match x
      case Opened(_) => 1
      case Doubled(_) => 2
      case Inserted(_, _) => 1
      case Delivered(_, _) => 1
      case InfoFailed(_, _) => 1
      case PutOnce(_, _) => 0
      case SendFailed(_, _) => 1
      case Closing(_, puts) => puts
      case Found(_, _) => 1
      case Removing(_, _) => 0
  }

  /** The handlers that owe at least `n` puts of the file */
  function Owing(tasks: map<TaskId, Task>, f: File, n: nat): set<TaskId> {
    set t | t in tasks && Owed(tasks[t], f) >= n
  }

  /** The slots that hold the file and have still to be closed */
  function Slots(s: State, f: File): set<Id> {
    set i | i in s.table && s.table[i] == f && (s.closing.Some? ==> i in s.closing.value)
  }

  function Held(tasks: map<TaskId, Task>, f: File): nat {
    |Owing(tasks, f, 1)| + |Owing(tasks, f, 2)|
  }

  /** References are one for each slot and one for each put a handler owes, up to removals gone astray. */
  predicate Balanced(s: State, f: File) {
    RefsOf(s, f) + Get(s.stolen, f, 0) == |Slots(s, f)| + Held(s.tasks, f) + Get(s.leaked, f, 0)
  }

  predicate TasksOk(s: State) {
    && (forall t :: t in s.tasks && s.tasks[t].Closing? ==> 1 <= s.tasks[t].puts <= 2)
    && (s.closing.Some? ==> s.tasks == map[] && s.closing.value <= s.table.Keys)
  }

  lemma OwingUpdate(tasks: map<TaskId, Task>, t: TaskId, x: Option<Task>, f: File, n: nat)
    requires n > 0
    ensures var after := Owing(With(tasks, t, x), f, n);
            after == if x.Some? && Owed(x.value, f) >= n then Owing(tasks, f, n) + {t} else Owing(tasks, f, n) - {t}
    ensures t in Owing(tasks, f, n) <==> t in tasks && Owed(tasks[t], f) >= n
  {
  }

  /** Changing one handler changes what is held by the difference of what it owes. */
  lemma HeldUpdate(tasks: map<TaskId, Task>, t: TaskId, x: Option<Task>, f: File)
    requires (t in tasks ==> Owed(tasks[t], f) <= 2) && (x.Some? ==> Owed(x.value, f) <= 2)
    ensures Held(With(tasks, t, x), f) ==
            Held(tasks, f) + (if x.Some? then Owed(x.value, f) else 0) - (if t in tasks then Owed(tasks[t], f) else 0)
  {
    OwingUpdate(tasks, t, x, f, 1);
    OwingUpdate(tasks, t, x, f, 2);
  }

  /** A step of one handler that leaves the table alone: the references change as what it owes does. */
  predicate HandlerStep(s: State, u: State, t: TaskId, x: Option<Task>, g: File, d: int) {
    && u == s.(refs := u.refs, tasks := u.tasks) && u.tasks == With(s.tasks, t, x)
    && u.refs == (if d == 0 then s.refs else Added(s, g, d))
  }

  function OwedBy(x: Option<Task>, f: File): nat {
    if x.Some? then Owed(x.value, f) else 0
  }

  function TaskOf(s: State, t: TaskId): Option<Task> {
    if t in s.tasks then Some(s.tasks[t]) else None
  }

  lemma HandlerBalanced(s: State, u: State, t: TaskId, x: Option<Task>, g: File, d: int, f: File)
    requires HandlerStep(s, u, t, x, g, d) && Balanced(s, f)
    requires OwedBy(TaskOf(s, t), f) <= 2 && OwedBy(x, f) <= 2
    requires OwedBy(x, f) - OwedBy(TaskOf(s, t), f) == if f == g then d else 0
    ensures Balanced(u, f)
  {
    HeldUpdate(s.tasks, t, x, f);
    assert Slots(u, f) == Slots(s, f);
  }

  predicate LeavesTable(e: Event) {
    !e.Insert? && !e.Remove? && !e.BeginOffline? && !e.CloseSlot? && !e.EndOffline?
  }

  /** The handler, its next task, the file and the change of its references, for the steps that leave the table alone */
  function Effect(s: State, e: Event): (TaskId, Option<Task>, File, int)
    requires Enabled(s, e) && LeavesTable(e)
  {
    match e
    case OpenPath(t, f) => (t, Some(Opened(f)), f, 1)
    case GetFile(t) => (t, Some(Doubled(s.tasks[t].f)), s.tasks[t].f, 1)
    case InsertFails(t) => (t, Some(Closing(s.tasks[t].f, 2)), s.tasks[t].f, 0)
    case InfoFails(t) => (t, Some(InfoFailed(s.tasks[t].f, s.tasks[t].id)), s.tasks[t].f, 0)
    case Deliver(t) => (t, Some(Delivered(s.tasks[t].f, s.tasks[t].id)), s.tasks[t].f, 0)
    case Answer(t) => (t, Some(Closing(s.tasks[t].f, 1)), s.tasks[t].f, 0)
    case AnswerFails(t) => (t, Some(SendFailed(s.tasks[t].f, s.tasks[t].id)), s.tasks[t].f, 0)
    case Lookup(t, fid) => (t, Some(Found(Resolve(s, fid).value, fid.id)), Resolve(s, fid).value, 1)
    case Put(t) => (t, AfterPut(s.tasks[t]), s.tasks[t].f, -1)
  }

  lemma EffectIs(s: State, e: Event, f: File)
    requires Enabled(s, e) && LeavesTable(e) && TasksOk(s)
    ensures var (t, x, g, d) := Effect(s, e);
            && HandlerStep(s, Step(s, e), t, x, g, d)
            && OwedBy(TaskOf(s, t), f) <= 2 && OwedBy(x, f) <= 2
            && OwedBy(x, f) - OwedBy(TaskOf(s, t), f) == if f == g then d else 0
  {
  }

  lemma InsertBalanced(s: State, t: TaskId, id: Id, f: File)
    requires Enabled(s, Insert(t, id)) && TasksOk(s) && Balanced(s, f)
    ensures Balanced(Step(s, Insert(t, id)), f)
  {
    var u := Step(s, Insert(t, id));
    HeldUpdate(s.tasks, t, Some(Inserted(s.tasks[t].f, id)), f);
    assert Slots(u, f) == InTable(u.table, f) && Slots(s, f) == InTable(s.table, f);
    InTableAdd(s.table, id, s.tasks[t].f, f);
  }

  function InTable(table: map<Id, File>, f: File): set<Id> {
    set i | i in table && table[i] == f
  }

  lemma InTableAdd(table: map<Id, File>, id: Id, g: File, f: File)
    requires id !in table
    ensures |InTable(table[id := g], f)| == |InTable(table, f)| + One(g == f)
  {
    assert InTable(table[id := g], f) == InTable(table, f) + if g == f then {id} else {};
  }

  lemma RemoveBalanced(s: State, t: TaskId, f: File)
    requires Enabled(s, Remove(t)) && TasksOk(s) && Balanced(s, f)
    ensures Balanced(Step(s, Remove(t)), f)
  {
    var u, x := Step(s, Remove(t)), s.tasks[t];
    HeldUpdate(s.tasks, t, AfterRemove(x, x.id in s.table), f);
    SlotsRemoved(s, x.id, u, f);
    assert u.refs == s.refs;
  }

  lemma SlotsRemoved(s: State, id: Id, u: State, f: File)
    requires s.closing.None? && u.closing.None? && u.table == s.table - {id}
    ensures |Slots(u, f)| == |Slots(s, f)| - if id in s.table && s.table[id] == f then 1 else 0
  {
    assert id in Slots(s, f) <==> id in s.table && s.table[id] == f;
    assert Slots(u, f) == Slots(s, f) - {id};
  }

  lemma OfflineBalanced(s: State, e: Event, f: File)
    requires Enabled(s, e) && TasksOk(s) && Balanced(s, f) && (e.BeginOffline? || e.CloseSlot? || e.EndOffline?)
    ensures Balanced(Step(s, e), f)
  {
    var u := Step(s, e);
    if e.CloseSlot? {
      assert Slots(u, f) == if s.table[e.id] == f then Slots(s, f) - {e.id} else Slots(s, f);
    } else {
      assert Slots(u, f) == Slots(s, f);
    }
  }

  lemma StepTasks(s: State, e: Event)
    requires Enabled(s, e) && TasksOk(s)
    ensures TasksOk(Step(s, e))
  {
  }

  /** Every get, put, insertion, removal and closing keeps the account of every file. */
  lemma StepBalanced(s: State, e: Event, f: File)
    requires Enabled(s, e) && TasksOk(s) && Balanced(s, f)
    ensures Balanced(Step(s, e), f)
  {
    if e.Insert? {
      InsertBalanced(s, e.t, e.id, f);
    } else if e.Remove? {
      RemoveBalanced(s, e.t, f);
    } else if LeavesTable(e) {
      EffectIs(s, e, f);
      var (t, x, g, d) := Effect(s, e);
      HandlerBalanced(s, Step(s, e), t, x, g, d, f);
    } else {
      OfflineBalanced(s, e, f);
    }
  }

  // ----- whole runs -----

  predicate StepAt(states: seq<State>, events: seq<Event>, k: int) {
    && 0 <= k < |events| && k + 1 < |states|
    && Enabled(states[k], events[k]) && states[k + 1] == Step(states[k], events[k])
  }

  predicate Init(s: State) {
    && s.table == map[] && s.refs == map[] && s.tasks == map[] && s.issued == {}
    && s.closing.None? && s.stolen == map[] && s.leaked == map[]
  }

  /** Any interleaving of handlers and offline events */
  ghost predicate Execution(states: seq<State>, events: seq<Event>) {
    && |states| == |events| + 1 && Init(states[0])
    && forall k :: 0 <= k < |events| ==> StepAt(states, events, k)
  }

  lemma {:induction false} Accounts(states: seq<State>, events: seq<Event>, k: nat, f: File)
    requires Execution(states, events) && k < |states|
    ensures TasksOk(states[k]) && Balanced(states[k], f)
  {
    if k == 0 {
      assert Slots(states[0], f) == {} && Owing(map[], f, 1) == {} && Owing(map[], f, 2) == {};
    } else {
      Accounts(states, events, k - 1, f);
      assert StepAt(states, events, k - 1);
      StepTasks(states[k - 1], events[k - 1]);
      StepBalanced(states[k - 1], events[k - 1], f);
    }
  }

  // ----- ids that have not wrapped -----

  /** The allocator has not wrapped: every insertion got the id at the cursor. */
  ghost predicate NotWrapped(states: seq<State>, events: seq<Event>) {
    |states| == |events| + 1 && forall k :: 0 <= k < |events| && events[k].Insert? ==> events[k].id == states[k].cursor
  }

  /** An open whose file is, or was, in the table and whose response has not reached the client, or never will */
  predicate Pending(x: Task) {
    x.Inserted? || x.InfoFailed? || x.PutOnce? || x.SendFailed?
  }

  predicate Releases(x: Task) {
    x.Found? || x.Removing?
  }

  predicate IssuedFor(issued: set<Issued>, id: Id, f: File) {
    exists i :: i in issued && i.fid.id == id && i.file == f
  }

  /** All issued ids lie below the cursor and differ, and slots are of this epoch. */
  ghost predicate IdsOk(s: State) {
    && (forall i :: i in s.issued ==> i.fid.id < s.cursor)
    && (forall i, j :: i in s.issued && j in s.issued && i.fid.id == j.fid.id ==> i == j)
    && (forall k :: k in s.table ==> Issued(Fid(k, Version(s.boot, s.epoch)), s.table[k], s.epoch) in s.issued)
  }

  /** Handlers hold ids that were issued for their file, pending opens different ones. */
  ghost predicate TaskIds(tasks: map<TaskId, Task>, issued: set<Issued>) {
    && (forall t :: t in tasks && (Pending(tasks[t]) || Releases(tasks[t])) ==>
         IssuedFor(issued, tasks[t].id, tasks[t].f))
    && (forall t, u :: t in tasks && u in tasks && Pending(tasks[t]) && Pending(tasks[u]) ==>
          tasks[t].id == tasks[u].id ==> t == u)
  }

  ghost predicate NoReuse(s: State) {
    IdsOk(s) && TaskIds(s.tasks, s.issued)
  }

  lemma IssuedGrows(tasks: map<TaskId, Task>, issued: set<Issued>, more: set<Issued>)
    requires TaskIds(tasks, issued) && issued <= more
    ensures TaskIds(tasks, more)
  {
    forall t | t in tasks && (Pending(tasks[t]) || Releases(tasks[t]))
      ensures IssuedFor(more, tasks[t].id, tasks[t].f)
    {
      var i :| i in issued && i.fid.id == tasks[t].id && i.file == tasks[t].f;
      assert i in more;
    }
  }

  /** A handler that goes on with the id it has, or takes up one that no pending open has, keeps the ids in order. */
  lemma TaskIdsUpdate(tasks: map<TaskId, Task>, issued: set<Issued>, t: TaskId, x: Option<Task>)
    requires TaskIds(tasks, issued)
    requires x.Some? && (Pending(x.value) || Releases(x.value)) ==> IssuedFor(issued, x.value.id, x.value.f)
    requires x.Some? && Pending(x.value) ==>
               forall u :: u in tasks && u != t && Pending(tasks[u]) ==> tasks[u].id != x.value.id
    ensures TaskIds(With(tasks, t, x), issued)
  {
  }

  lemma InsertNoReuse(s: State, t: TaskId, id: Id)
    requires NoReuse(s) && Enabled(s, Insert(t, id)) && id == s.cursor
    ensures NoReuse(Step(s, Insert(t, id)))
  {
    var u := Step(s, Insert(t, id));
    assert Issued(Fid(id, Version(s.boot, s.epoch)), s.tasks[t].f, s.epoch) in u.issued;
    IssuedGrows(s.tasks, s.issued, u.issued);
    forall v | v in s.tasks && v != t && Pending(s.tasks[v]) ensures s.tasks[v].id != id {
      assert IssuedFor(s.issued, s.tasks[v].id, s.tasks[v].f);
    }
    TaskIdsUpdate(s.tasks, u.issued, t, Some(u.tasks[t]));
  }

  /** What a handler goes on with: the id it has, or for a release the one it looked up. */
  predicate Carries(s: State, t: TaskId, x: Task) {
    && (Pending(x) ==> t in s.tasks && Pending(s.tasks[t]) && s.tasks[t].id == x.id && s.tasks[t].f == x.f)
    && (Releases(x) ==>
          || (t in s.tasks && Releases(s.tasks[t]) && s.tasks[t].id == x.id && s.tasks[t].f == x.f)
          || (x.id in s.table && s.table[x.id] == x.f))
  }

  lemma EffectCarries(s: State, e: Event)
    requires Enabled(s, e) && LeavesTable(e)
    ensures var (t, x, g, d) := Effect(s, e);
            && HandlerStep(s, Step(s, e), t, x, g, d) && (x.Some? ==> Carries(s, t, x.value))
  {
  }

  lemma CarriedIds(s: State, t: TaskId, x: Option<Task>)
    requires NoReuse(s) && (x.Some? ==> Carries(s, t, x.value))
    ensures TaskIds(With(s.tasks, t, x), s.issued)
  {
    if x.Some? && Releases(x.value) && x.value.id in s.table && s.table[x.value.id] == x.value.f {
      assert Issued(Fid(x.value.id, Version(s.boot, s.epoch)), x.value.f, s.epoch) in s.issued;
    }
    TaskIdsUpdate(s.tasks, s.issued, t, x);
  }

  lemma HandlerNoReuse(s: State, e: Event)
    requires NoReuse(s) && Enabled(s, e) && (LeavesTable(e) || e.Remove?)
    ensures NoReuse(Step(s, e))
  {
    if LeavesTable(e) {
      EffectCarries(s, e);
      var (t, x, _, _) := Effect(s, e);
      CarriedIds(s, t, x);
    } else {
      CarriedIds(s, e.t, AfterRemove(s.tasks[e.t], s.tasks[e.t].id in s.table));
    }
  }

  lemma StepNoReuse(s: State, e: Event)
    requires NoReuse(s) && TasksOk(s) && Enabled(s, e) && (e.Insert? ==> e.id == s.cursor)
    ensures NoReuse(Step(s, e))
  {
    if e.Insert? {
      InsertNoReuse(s, e.t, e.id);
    } else if LeavesTable(e) || e.Remove? {
      HandlerNoReuse(s, e);
    }
  }

  lemma {:induction false} ExecutionNoReuse(states: seq<State>, events: seq<Event>, k: nat)
    requires Execution(states, events) && NotWrapped(states, events) && k < |states|
    ensures NoReuse(states[k])
  {
    if k > 0 {
      ExecutionNoReuse(states, events, k - 1);
      Accounts(states, events, k - 1, 0);
      assert StepAt(states, events, k - 1);
      StepNoReuse(states[k - 1], events[k - 1]);
    }
  }

  // ----- when the references add up -----

  /** A failing open finds that its id has already been removed, and puts the table's reference all the same. */
  predicate Misses(s: State, e: Event, f: File) {
    && e.Remove? && e.t in s.tasks && (s.tasks[e.t].PutOnce? || s.tasks[e.t].SendFailed?)
    && s.tasks[e.t].f == f && s.tasks[e.t].id !in s.table
  }

  lemma SameFile(s: State, t: TaskId)
    requires NoReuse(s) && t in s.tasks && Removes(s.tasks[t]) && s.tasks[t].id in s.table
    ensures s.table[s.tasks[t].id] == s.tasks[t].f
  {
    var x := s.tasks[t];
    assert IssuedFor(s.issued, x.id, x.f);
    assert Issued(Fid(x.id, Version(s.boot, s.epoch)), s.table[x.id], s.epoch) in s.issued;
  }

  lemma StolenStep(s: State, e: Event, f: File)
    requires NoReuse(s) && Enabled(s, e)
    ensures Step(s, e).leaked == s.leaked
    ensures Get(Step(s, e).stolen, f, 0) == Get(s.stolen, f, 0) + if Misses(s, e, f) then 1 else 0
  {
    if e.Remove? && s.tasks[e.t].id in s.table {
      SameFile(s, e.t);
    }
  }

  predicate NoMiss(states: seq<State>, events: seq<Event>, k: nat, f: File)
    requires k <= |events| && k < |states|
  {
    forall j :: 0 <= j < k ==> !Misses(states[j], events[j], f)
  }

  lemma {:induction false} StolenIff(states: seq<State>, events: seq<Event>, k: nat, f: File)
    requires Execution(states, events) && NotWrapped(states, events) && k < |states|
    ensures states[k].leaked == map[] && (Get(states[k].stolen, f, 0) == 0 <==> NoMiss(states, events, k, f))
  {
    if k > 0 {
      StolenIff(states, events, k - 1, f);
      ExecutionNoReuse(states, events, k - 1);
      assert StepAt(states, events, k - 1);
      StolenStep(states[k - 1], events[k - 1], f);
    }
  }

  /**
   In every state of every run, the references of a file are one for each of its ids and one for
   each put that some handler owes, if and only if no failing open found its id removed by then.
   */
  lemma ConservedIff(states: seq<State>, events: seq<Event>, k: nat, f: File)
    requires Execution(states, events) && NotWrapped(states, events) && k < |states|
    ensures RefsOf(states[k], f) == |Slots(states[k], f)| + Held(states[k].tasks, f) <==> NoMiss(states, events, k, f)
    ensures states[k].tasks == map[] ==> Held(states[k].tasks, f) == 0
  {
    Accounts(states, events, k, f);
    StolenIff(states, events, k, f);
    if states[k].tasks == map[] {
      assert Owing(states[k].tasks, f, 1) == {} && Owing(states[k].tasks, f, 2) == {};
    }
  }

  /** The file that a step puts */
  function PutFile(s: State, e: Event): File
    requires Enabled(s, e) && (e.Put? || e.CloseSlot?)
  {
    if e.Put? then s.tasks[e.t].f else s.table[e.id]
  }

  /** As long as that has not happened to a file, no reference to it is put that does not exist. */
  lemma PutsAreSafe(states: seq<State>, events: seq<Event>, k: nat)
    requires Execution(states, events) && NotWrapped(states, events) && k < |events|
             && (events[k].Put? || events[k].CloseSlot?)
    ensures Enabled(states[k], events[k])
    ensures var f := PutFile(states[k], events[k]); NoMiss(states, events, k, f) ==> RefsOf(states[k], f) > 0
  {
    assert StepAt(states, events, k);
    var s, e := states[k], events[k];
    var f := PutFile(s, e);
    Accounts(states, events, k, f);
    ConservedIff(states, events, k, f);
    if e.Put? {
      assert e.t in Owing(s.tasks, f, 1);
    } else {
      assert e.id in Slots(s, f);
    }
  }

  // ----- how an id can be missing -----

  /** A release removes id `id` from the table. */
  predicate TakesId(s: State, e: Event, id: Id) {
    e.Remove? && e.t in s.tasks && s.tasks[e.t].Removing? && s.tasks[e.t].id == id && id in s.table
  }

  predicate PendingWith(s: State, t: TaskId, id: Id) {
    t in s.tasks && Pending(s.tasks[t]) && s.tasks[t].id == id
  }

  /** One step back: the open was pending with its id already, or has just put it into the table. */
  lemma PendingBefore(s: State, e: Event, t: TaskId, id: Id)
    requires Enabled(s, e) && TasksOk(s) && PendingWith(Step(s, e), t, id)
    ensures PendingWith(s, t, id) || id in Step(s, e).table
    ensures id in s.table && id !in Step(s, e).table ==> e.Remove? && s.tasks[e.t].id == id && e.t != t
  {
  }

  /** Only a release can have taken the id of a pending open, while that was pending. */
  lemma {:induction false} TakenByRelease(states: seq<State>, events: seq<Event>, k: nat, t: TaskId, id: Id)
    returns (r: nat)
    requires Execution(states, events) && NotWrapped(states, events) && k < |states|
    requires PendingWith(states[k], t, id) && id !in states[k].table
    ensures r < k && TakesId(states[r], events[r], id) && PendingWith(states[r], t, id)
    decreases k
  {
    assert k > 0;
    assert StepAt(states, events, k - 1);
    Accounts(states, events, k - 1, 0);
    PendingBefore(states[k - 1], events[k - 1], t, id);
    if id !in states[k - 1].table {
      r := TakenByRelease(states, events, k - 1, t, id);
    } else {
      ExecutionNoReuse(states, events, k - 1);
      r := k - 1;
    }
  }

  /**
   A failing open misses its id only because a release of that id ran before the open's response
   reached the client.
   */
  lemma MissMeansTaken(states: seq<State>, events: seq<Event>, j: nat, f: File) returns (r: nat)
    requires Execution(states, events) && NotWrapped(states, events) && j < |events| && Misses(states[j], events[j], f)
    ensures r < j && PendingWith(states[r], events[j].t, states[j].tasks[events[j].t].id)
    ensures TakesId(states[r], events[r], states[j].tasks[events[j].t].id)
  {
    r := TakenByRelease(states, events, j, events[j].t, states[j].tasks[events[j].t].id);
  }

  /** The client releases no id before it has the response of the open that made it. */
  predicate PoliteStep(s: State, e: Event) {
    e.Lookup? ==> forall t :: t in s.tasks ==> !PendingWith(s, t, e.fid.id)
  }

  ghost predicate Polite(states: seq<State>, events: seq<Event>) {
    |states| == |events| + 1 && forall k :: 0 <= k < |events| ==> PoliteStep(states[k], events[k])
  }

  /** No release is under way for the id of a pending open. */
  predicate Apart(tasks: map<TaskId, Task>) {
    forall t, u :: t in tasks && u in tasks && Pending(tasks[t]) && Releases(tasks[u]) ==> tasks[t].id != tasks[u].id
  }

  lemma ApartUpdate(tasks: map<TaskId, Task>, t: TaskId, x: Option<Task>)
    requires Apart(tasks)
    requires x.Some? && Pending(x.value) ==>
               forall u :: u in tasks && u != t && Releases(tasks[u]) ==> tasks[u].id != x.value.id
    requires x.Some? && Releases(x.value) ==>
               forall u :: u in tasks && u != t && Pending(tasks[u]) ==> tasks[u].id != x.value.id
    ensures Apart(With(tasks, t, x))
  {
  }

  lemma InsertApart(s: State, t: TaskId, id: Id)
    requires NoReuse(s) && Apart(s.tasks) && Enabled(s, Insert(t, id)) && id == s.cursor
    ensures Apart(Step(s, Insert(t, id)).tasks)
  {
    forall u | u in s.tasks && u != t && Releases(s.tasks[u]) ensures s.tasks[u].id != id {
      assert IssuedFor(s.issued, s.tasks[u].id, s.tasks[u].f);
    }
    ApartUpdate(s.tasks, t, Some(Inserted(s.tasks[t].f, id)));
  }

  lemma HandlerApart(s: State, e: Event)
    requires Apart(s.tasks) && Enabled(s, e) && LeavesTable(e) && PoliteStep(s, e)
    ensures Apart(Step(s, e).tasks)
  {
    EffectCarries(s, e);
    var (t, x, _, _) := Effect(s, e);
    if e.Lookup? {
      forall u | u in s.tasks && u != t && Pending(s.tasks[u]) ensures s.tasks[u].id != e.fid.id {
        assert !PendingWith(s, u, e.fid.id);
      }
    } else if x.Some? && Releases(x.value) {
      assert e.Put? && s.tasks[t].Found?;
    }
    ApartUpdate(s.tasks, t, x);
  }

  lemma StepApart(s: State, e: Event)
    requires NoReuse(s) && Apart(s.tasks) && Enabled(s, e) && PoliteStep(s, e) && (e.Insert? ==> e.id == s.cursor)
    ensures Apart(Step(s, e).tasks)
  {
    if e.Insert? {
      InsertApart(s, e.t, e.id);
    } else if LeavesTable(e) {
      HandlerApart(s, e);
    } else if e.Remove? {
      ApartUpdate(s.tasks, e.t, AfterRemove(s.tasks[e.t], s.tasks[e.t].id in s.table));
    }
  }

  lemma {:induction false} ExecutionApart(states: seq<State>, events: seq<Event>, k: nat)
    requires Execution(states, events) && NotWrapped(states, events) && Polite(states, events) && k < |states|
    ensures Apart(states[k].tasks)
  {
    if k > 0 {
      ExecutionApart(states, events, k - 1);
      ExecutionNoReuse(states, events, k - 1);
      assert StepAt(states, events, k - 1) && PoliteStep(states[k - 1], events[k - 1]);
      StepApart(states[k - 1], events[k - 1]);
    }
  }

  /** With a client that releases only ids it has been given, the references of every file always add up. */
  lemma PoliteConserves(states: seq<State>, events: seq<Event>, k: nat, f: File)
    requires Execution(states, events) && NotWrapped(states, events) && Polite(states, events) && k < |states|
    ensures RefsOf(states[k], f) == |Slots(states[k], f)| + Held(states[k].tasks, f)
  {
    forall j | 0 <= j < k ensures !Misses(states[j], events[j], f) {
      if Misses(states[j], events[j], f) {
        var r := MissMeansTaken(states, events, j, f);
        ExecutionApart(states, events, r);
        assert false;
      }
    }
    ConservedIff(states, events, k, f);
  }

  // ----- the race -----

  ghost predicate Run(states: seq<State>, events: seq<Event>) {
    Execution(states, events) && NotWrapped(states, events)
  }

  lemma Extend(states: seq<State>, events: seq<Event>, e: Event) returns (states': seq<State>, events': seq<Event>)
    requires Run(states, events) && Enabled(states[|states| - 1], e)
             && (e.Insert? ==> e.id == states[|states| - 1].cursor)
    ensures Run(states', events') && |states'| == |states| + 1 && states' == states + [Step(states[|states| - 1], e)]
    ensures events' == events + [e]
  {
    states', events' := states + [Step(states[|states| - 1], e)], events + [e];
    forall k | 0 <= k < |events'| ensures StepAt(states', events', k) {
      if k < |events| {
        assert StepAt(states, events, k);
      }
    }
  }

  /** Handler `t` is at `x`, the file has `n` references, and id `id` is in the table or not. */
  predicate Stands(s: State, t: TaskId, x: Option<Task>, f: File, n: int, id: Id, there: bool) {
    && TaskOf(s, t) == x && RefsOf(s, f) == n && s.closing.None?
    && (if there then id in s.table && s.table[id] == f else id !in s.table)
  }

  lemma OpenHalf(states: seq<State>, events: seq<Event>, a: TaskId, f: File)
    returns (states': seq<State>, events': seq<Event>)
    requires Run(states, events) && a !in states[|states| - 1].tasks && states[|states| - 1].closing.None?
    ensures Run(states', events') && events <= events'
    ensures var s, u := states[|states| - 1], states'[|states'| - 1];
            && Stands(u, a, Some(Inserted(f, s.cursor)), f, RefsOf(s, f) + 2, s.cursor, true)
            && u.epoch == s.epoch && u.boot == s.boot && u.tasks.Keys == s.tasks.Keys + {a} && s.cursor !in s.table
            && u.table - {s.cursor} == s.table
  {
    var s := states[|states| - 1];
    ExecutionNoReuse(states, events, |states| - 1);
    assert s.cursor !in s.table;
    states', events' := Extend(states, events, OpenPath(a, f));
    states', events' := Extend(states', events', GetFile(a));
    states', events' := Extend(states', events', Insert(a, s.cursor));
  }

  lemma ReleaseWhole(states: seq<State>, events: seq<Event>, b: TaskId, f: File, id: Id)
    returns (states': seq<State>, events': seq<Event>)
    requires Run(states, events)
    requires var s := states[|states| - 1];
             b !in s.tasks && s.closing.None? && id in s.table && s.table[id] == f && RefsOf(s, f) > 0
    ensures Run(states', events') && events <= events'
    ensures var s, u := states[|states| - 1], states'[|states'| - 1];
            u.tasks == s.tasks && u.closing.None? && u.table == s.table - {id} && RefsOf(u, f) == RefsOf(s, f) - 1
  {
    var s := states[|states| - 1];
    states', events' := Extend(states, events, Lookup(b, Fid(id, Version(s.boot, s.epoch))));
    states', events' := Extend(states', events', Put(b));
    states', events' := Extend(states', events', Remove(b));
    states', events' := Extend(states', events', Put(b));
    assert states'[|states'| - 1].tasks == s.tasks;
  }

  lemma OpenFails(states: seq<State>, events: seq<Event>, a: TaskId, f: File, id: Id)
    returns (states': seq<State>, events': seq<Event>)
    requires Run(states, events)
    requires var s := states[|states| - 1]; Stands(s, a, Some(Inserted(f, id)), f, RefsOf(s, f), id, false)
    ensures Run(states', events') && events <= events'
    ensures var s, u := states[|states| - 1], states'[|states'| - 1];
            u.tasks == s.tasks - {a} && u.table == s.table && u.closing.None? && RefsOf(u, f) == RefsOf(s, f) - 2
  {
    states', events' := Extend(states, events, AnswerFails(a));
    states', events' := Extend(states', events', Remove(a));
    states', events' := Extend(states', events', Put(a));
    states', events' := Extend(states', events', Put(a));
    assert states'[|states'| - 1].tasks == states[|states| - 1].tasks - {a};
  }

  /**
   The race is real: every run can go on with an open of any file, a release of its id before the open
   answers, and a failure to answer, after which the file has one reference less and the same ids.
   */
  lemma RudeRelease(states: seq<State>, events: seq<Event>, a: TaskId, b: TaskId, f: File)
    returns (states': seq<State>, events': seq<Event>)
    requires Run(states, events) && a != b && RefsOf(states[|states| - 1], f) >= 0
    requires var s := states[|states| - 1]; a !in s.tasks && b !in s.tasks && s.closing.None?
    ensures Run(states', events') && events <= events'
    ensures var s, u := states[|states| - 1], states'[|states'| - 1];
            u.table == s.table && a !in u.tasks && b !in u.tasks && RefsOf(u, f) == RefsOf(s, f) - 1
  {
    var id := states[|states| - 1].cursor;
    states', events' := OpenHalf(states, events, a, f);
    states', events' := ReleaseWhole(states', events', b, f, id);
    states', events' := OpenFails(states', events', a, f, id);
  }

  // ----- what a fid resolves to -----

  /** The version tells two epochs apart exactly when they are not a multiple of 2^15 apart. */
  lemma VersionPeriod(boot: nat, e: nat, n: nat)
    ensures Version(boot, e + n) == Version(boot, e) <==> n % TWO_15 == 0
  {
  }

  /** Every issued fid carries the version of its epoch, and no epoch lies in the future. */
  ghost predicate EpochsOk(s: State) {
    forall i :: i in s.issued ==> i.epoch <= s.epoch && i.fid.ver == Version(s.boot, i.epoch)
  }

  lemma {:induction false} ExecutionEpochs(states: seq<State>, events: seq<Event>, k: nat)
    requires Execution(states, events) && k < |states|
    ensures EpochsOk(states[k])
  {
    if k > 0 {
      ExecutionEpochs(states, events, k - 1);
      assert StepAt(states, events, k - 1);
    }
  }

  /**
   Whatever ids the allocator reuses, an issued fid resolves after `n` further offline events if and
   only if its id is in the table again and `n` is a multiple of 2^15; before the allocator
   wraps, only in its own epoch and only to the file it was issued for.
   */
  lemma ResolvesIff(states: seq<State>, events: seq<Event>, k: nat, i: Issued)
    requires Execution(states, events) && k < |states| && i in states[k].issued
    ensures i.epoch <= states[k].epoch
    ensures Resolve(states[k], i.fid).Some? <==>
            i.fid.id in states[k].table && (states[k].epoch - i.epoch) % TWO_15 == 0
    ensures NotWrapped(states, events) && Resolve(states[k], i.fid).Some? ==>
              i.epoch == states[k].epoch && Resolve(states[k], i.fid).value == i.file
  {
    ExecutionEpochs(states, events, k);
    var s := states[k];
    VersionPeriod(s.boot, i.epoch, s.epoch - i.epoch);
    if NotWrapped(states, events) && Resolve(s, i.fid).Some? {
      ExecutionNoReuse(states, events, k);
      assert Issued(Fid(i.fid.id, Version(s.boot, s.epoch)), s.table[i.fid.id], s.epoch) in s.issued;
    }
  }

  /** The offline events so far */
  function Offlines(events: seq<Event>, k: nat): nat
    requires k <= |events|
  {
    if k == 0 then 0 else Offlines(events, k - 1) + One(events[k - 1].EndOffline?)
  }

  lemma {:induction false} EpochIsCount(states: seq<State>, events: seq<Event>, k: nat)
    requires Execution(states, events) && k < |states|
    ensures states[k].epoch == states[0].epoch + Offlines(events, k) && states[k].boot == states[0].boot
  {
    if k > 0 {
      EpochIsCount(states, events, k - 1);
      assert StepAt(states, events, k - 1);
    }
  }

  /** The fid that an insertion issues */
  function FidOf(s: State, e: Event): Fid
    requires e.Insert?
  {
    Fid(e.id, Version(s.boot, s.epoch))
  }

  /**
   A fid issued at step `m` resolves at step `k` only if the offline events in between are a multiple
   of 2^15, and without an offline event in between exactly while its id is in the table.
   */
  lemma FidsAcrossOfflines(states: seq<State>, events: seq<Event>, m: nat, k: nat)
    requires Execution(states, events) && m < k < |states| && events[m].Insert?
    ensures var n := Offlines(events, k) - Offlines(events, m);
            && n >= 0
            && (Resolve(states[k], FidOf(states[m], events[m])).Some? <==>
                  events[m].id in states[k].table && n % TWO_15 == 0)
  {
    EpochIsCount(states, events, m);
    EpochIsCount(states, events, k);
    OfflinesGrow(events, m, k);
    VersionPeriod(states[0].boot, states[m].epoch, Offlines(events, k) - Offlines(events, m));
  }

  lemma {:induction false} OfflinesGrow(events: seq<Event>, m: nat, k: nat)
    requires m <= k <= |events|
    ensures Offlines(events, m) <= Offlines(events, k)
  {
    if m < k {
      OfflinesGrow(events, m, k - 1);
    }
  }

  /** Versions of different boots never agree, whatever the offline events. */
  lemma BootsDiffer(boot: nat, epoch: nat, boot': nat, epoch': nat)
    ensures Version(boot, epoch) == Version(boot', epoch') ==> boot == boot'
  {
  }
}
