/**
 The life of a page write: the writer takes the page's writeback flag, perhaps the
 inode's wpage_sem, a context and a reference to its own task, and hands the context
 to a request on its way or to delayed retry work.  Writer, requests and retry work
 are three separate holders of plain references to contexts; that every context has exactly one
 of them until it is freed, and none afterwards, is proved and not built in.
 */
module WritePage {
  import opened Bytes

  type Id = nat

  /** What one call of hmdfs_writepage_remote took (besides the page lock its caller holds). */
  datatype Taken = Taken(sem: bool, writeback: bool, task: bool, memory: bool)

  /** How often each was given back, and the page lock with them. */
  datatype Given = Given(sem: nat, writeback: nat, task: nat, memory: nat, unlock: nat)

  datatype Context = Context(took: Taken, gave: Given)

  /** The contexts by identity, and who holds a reference to one. */
  datatype State = State(ctx: map<Id, Context>, writers: multiset<Id>, requests: multiset<Id>, retries: multiset<Id>)

  const Initial: State := State(map[], multiset{}, multiset{}, multiset{})

  /** How one attempt to write ends: by the network, or locally while the inode is being stashed. */
  datatype Attempt =
    | SentRemote           // request on its way
    | RemoteError          // not sent
    | StashedLocally       // written to the stash file
    | StashError

  /**
   Start: a writer enters hmdfs_writepage_remote.  Skip: it finds a pending signal or nothing
   to write.  Write: it reaches do_writepage.  Callback: a response or a timeout of a request;
   `redo` is hmdfs_client_redo_writepage.  RetryWork: delayed work runs.
   */
  datatype Event =
    | Start(id: Id, sync: bool, semFree: bool, memory: bool)
    | Skip(id: Id)
    | Write(id: Id, a: Attempt, offlineRetry: bool)
    | Callback(id: Id, ok: bool, redo: bool, a: Attempt, offlineRetry: bool)
    | RetryWork(id: Id, a: Attempt, offlineRetry: bool)

  /**
   hmdfs_client_writepage_done and _err, put_task_struct and kfree, as the callback, the retry and the
   stash do them
   */
  function Finish(x: Context): Context {
    var g := x.gave;
    Context(x.took, Given(g.sem + One(x.took.sem), g.writeback + 1, g.task + 1, g.memory + 1, g.unlock + 1))
  }

  /** The exits of hmdfs_writepage_remote from `out_free` on; with a task reference, one line earlier */
  function GiveUp(x: Context): Context {
    var g := x.gave;
    Context(x.took,
            Given(g.sem + One(x.took.sem), g.writeback + 1, g.task + One(x.took.task), g.memory + 1, g.unlock + 1))
  }

  /** hmdfs_writepage_remote up to the allocation: refused by the semaphore, out of memory, or ready to write */
  function Entered(sync: bool, semFree: bool, memory: bool): Context {
    if !sync && !semFree then Context(Taken(false, false, false, false), Given(0, 0, 0, 0, 1))
    else if !memory then Context(Taken(!sync, true, false, false), Given(One(!sync), 1, 0, 0, 1))
    else Context(Taken(!sync, true, false, true), Given(0, 0, 0, 0, 0))
  }

  predicate Enabled(s: State, e: Event) {
    match e
    case Start(id, _, _, _) => id !in s.ctx
    case Skip(id) => id in s.ctx && id in s.writers
    case Write(id, _, _) => id in s.ctx && id in s.writers
    case Callback(id, _, _, _, _) => id in s.ctx && id in s.requests
    case RetryWork(id, _, _) => id in s.ctx && id in s.retries
  }

  /**
   hmdfs_remote_do_writepage, called by someone who holds the context: the state after the call
   and whether it returned 0.  `offlineRetry` is hmdfs_client_rewrite_for_offline, which only a
   failed network attempt consults.
   */
  function DoWritepage(s: State, id: Id, a: Attempt, offlineRetry: bool): (State, bool)
    requires id in s.ctx
  {
    match a
    case SentRemote => (s.(requests := s.requests + multiset{id}), true)
    case StashedLocally => (s.(ctx := s.ctx[id := Finish(s.ctx[id])]), true)
    case RemoteError => if offlineRetry then (s.(retries := s.retries + multiset{id}), true) else (s, false)
    case StashError => (s, false)
  }

  /** hmdfs_writepage_remote from get_task_struct on */
  function WriterWrites(s: State, id: Id, a: Attempt, offlineRetry: bool): State
    requires id in s.ctx
  {
    var x := s.ctx[id];
    var s1 := State(s.ctx[id := Context(x.took.(task := true), x.gave)],
                    s.writers - multiset{id}, s.requests, s.retries);
    var (s2, ok) := DoWritepage(s1, id, a, offlineRetry);
    if ok then s2 else s2.(ctx := s2.ctx[id := GiveUp(s2.ctx[id])])
  }

  /** hmdfs_remote_writepage_retry, and the part of hmdfs_writepage_cb that writes again */
  function WriteAgain(s: State, id: Id, a: Attempt, offlineRetry: bool): State
    requires id in s.ctx
  {
    var (s1, ok) := DoWritepage(s, id, a, offlineRetry);
    if ok then s1 else s1.(ctx := s1.ctx[id := Finish(s1.ctx[id])])
  }

  /** hmdfs_writepage_cb */
  function ResponseComes(s: State, id: Id, redo: bool, a: Attempt, offlineRetry: bool): State
    requires id in s.ctx
  {
    var s1 := s.(requests := s.requests - multiset{id});
    if redo then WriteAgain(s1, id, a, offlineRetry) else s1.(ctx := s1.ctx[id := Finish(s1.ctx[id])])
  }

  /**
   One step.  Once do_writepage has returned 0 none of its three callers touches the context
   again, so that handing it over and returning are one step.
   */
  function Step(s: State, e: Event): State
    requires Enabled(s, e)
  {
    match e
    case Start(id, sync, semFree, memory) =>
      var x := Entered(sync, semFree, memory);
      State(s.ctx[id := x], if x.took.memory then s.writers + multiset{id} else s.writers, s.requests, s.retries)
    case Skip(id) => State(s.ctx[id := GiveUp(s.ctx[id])], s.writers - multiset{id}, s.requests, s.retries)
    case Write(id, a, offlineRetry) => WriterWrites(s, id, a, offlineRetry)
    case Callback(id, ok, redo, a, offlineRetry) =>
      ResponseComes(s, id, !ok && redo, a, offlineRetry)
    case RetryWork(id, a, offlineRetry) =>
      WriteAgain(s.(retries := s.retries - multiset{id}), id, a, offlineRetry)
  }

  /** How many hold a reference to context `id` */
  function Holders(s: State, id: Id): nat {
    s.writers[id] + s.requests[id] + s.retries[id]
  }

  const Nothing: Given := Given(0, 0, 0, 0, 0)

  /** Exactly what was taken, each once, and the page unlocked once */
  function All(t: Taken): Given {
    Given(One(t.sem), One(t.writeback), One(t.task), One(t.memory), 1)
  }

  /** A context in progress: nothing given back, one holder, and the caller taken unless the writer still has it. */
  predicate Live(s: State, id: Id) {
    && id in s.ctx && s.ctx[id].gave == Nothing && Holders(s, id) == 1
    && s.ctx[id].took.memory && s.ctx[id].took.writeback
    && (s.ctx[id].took.task <==> s.writers[id] == 0)
  }

  predicate Finished(s: State, id: Id) {
    id in s.ctx && s.ctx[id].gave == All(s.ctx[id].took) && Holders(s, id) == 0
  }

  predicate IdOk(s: State, id: Id) {
    if id in s.ctx then Live(s, id) || Finished(s, id) else Holders(s, id) == 0
  }

  /** A context some step holds alone: in nobody's list, task taken, nothing given back */
  predicate InHand(s: State, id: Id) {
    && id in s.ctx && s.ctx[id].gave == Nothing && Holders(s, id) == 0
    && s.ctx[id].took.memory && s.ctx[id].took.writeback && s.ctx[id].took.task
  }

  lemma DoWritepageOk(s: State, id: Id, a: Attempt, offlineRetry: bool)
    requires InHand(s, id)
    ensures
      var (s1, ok) := DoWritepage(s, id, a, offlineRetry);
      if ok then IdOk(s1, id) && s1.ctx.Keys == s.ctx.Keys else s1 == s
  {
  }

  lemma WriteAgainOk(s: State, id: Id, a: Attempt, offlineRetry: bool)
    requires InHand(s, id)
    ensures IdOk(WriteAgain(s, id, a, offlineRetry), id)
  {
    DoWritepageOk(s, id, a, offlineRetry);
  }

  lemma WriterWritesOk(s: State, id: Id, a: Attempt, offlineRetry: bool)
    requires Live(s, id) && id in s.writers
    ensures IdOk(WriterWrites(s, id, a, offlineRetry), id)
  {
    var x := s.ctx[id];
    var s1 := State(s.ctx[id := Context(x.took.(task := true), x.gave)],
                    s.writers - multiset{id}, s.requests, s.retries);
    assert InHand(s1, id);
    DoWritepageOk(s1, id, a, offlineRetry);
  }

  lemma ResponseComesOk(s: State, id: Id, redo: bool, a: Attempt, offlineRetry: bool)
    requires Live(s, id) && id in s.requests
    ensures IdOk(ResponseComes(s, id, redo, a, offlineRetry), id)
  {
    var s1 := s.(requests := s.requests - multiset{id});
    assert InHand(s1, id);
    WriteAgainOk(s1, id, a, offlineRetry);
  }

  lemma RetryRunsOk(s: State, id: Id, a: Attempt, offlineRetry: bool)
    requires Live(s, id) && id in s.retries
    ensures IdOk(WriteAgain(s.(retries := s.retries - multiset{id}), id, a, offlineRetry), id)
  {
    var s1 := s.(retries := s.retries - multiset{id});
    assert InHand(s1, id);
    WriteAgainOk(s1, id, a, offlineRetry);
  }

  lemma EntersAndLeavesOk(s: State, e: Event)
    requires e.Start? || e.Skip?
    requires Enabled(s, e) && IdOk(s, e.id)
    ensures IdOk(Step(s, e), e.id)
  {
  }

  /** A step keeps the context it works on in order. */
  lemma OwnStep(s: State, e: Event)
    requires Enabled(s, e) && IdOk(s, e.id)
    ensures IdOk(Step(s, e), e.id)
  {
    match e
    case Start(_, _, _, _) => EntersAndLeavesOk(s, e);
    case Skip(_) => EntersAndLeavesOk(s, e);
    case Write(id, a, offlineRetry) => WriterWritesOk(s, id, a, offlineRetry);
    case Callback(id, ok, redo, a, offlineRetry) => ResponseComesOk(s, id, !ok && redo, a, offlineRetry);
    case RetryWork(id, a, offlineRetry) => RetryRunsOk(s, id, a, offlineRetry);
  }

  predicate SameAt(s: State, t: State, id: Id) {
    && (id in s.ctx <==> id in t.ctx) && (id in s.ctx ==> s.ctx[id] == t.ctx[id])
    && s.writers[id] == t.writers[id] && s.requests[id] == t.requests[id] && s.retries[id] == t.retries[id]
  }

  lemma DoWritepageElsewhere(s: State, id: Id, a: Attempt, offlineRetry: bool, other: Id)
    requires id in s.ctx && other != id
    ensures SameAt(s, DoWritepage(s, id, a, offlineRetry).0, other)
  {
  }

  lemma WriterElsewhere(s: State, id: Id, a: Attempt, offlineRetry: bool, other: Id)
    requires id in s.ctx && other != id
    ensures SameAt(s, WriterWrites(s, id, a, offlineRetry), other)
  {
    var x := s.ctx[id];
    var s1 := State(s.ctx[id := Context(x.took.(task := true), x.gave)],
                    s.writers - multiset{id}, s.requests, s.retries);
    DoWritepageElsewhere(s1, id, a, offlineRetry, other);
  }

  lemma AgainElsewhere(s: State, id: Id, a: Attempt, offlineRetry: bool, other: Id)
    requires id in s.ctx && other != id
    ensures SameAt(s, WriteAgain(s, id, a, offlineRetry), other)
  {
    DoWritepageElsewhere(s, id, a, offlineRetry, other);
  }

  /** It touches no other context. */
  lemma OtherStep(s: State, e: Event, id: Id)
    requires Enabled(s, e) && id != e.id
    ensures SameAt(s, Step(s, e), id)
  {
    match e
    case Start(_, _, _, _) =>
    case Skip(_) =>
    case Write(i, a, offlineRetry) => WriterElsewhere(s, i, a, offlineRetry, id);
    case Callback(i, ok, redo, a, offlineRetry) =>
      AgainElsewhere(s.(requests := s.requests - multiset{i}), i, a, offlineRetry, id);
    case RetryWork(i, a, offlineRetry) =>
      AgainElsewhere(s.(retries := s.retries - multiset{i}), i, a, offlineRetry, id);
  }

  predicate StepAt(states: seq<State>, events: seq<Event>, k: int) {
    && 0 <= k < |events| && k + 1 < |states|
    && Enabled(states[k], events[k]) && states[k + 1] == Step(states[k], events[k])
  }

  /** Any mix of writers, responses, timeouts, stash switches and retries. */
  ghost predicate Execution(states: seq<State>, events: seq<Event>) {
    && |states| == |events| + 1 && states[0] == Initial
    && forall k :: 0 <= k < |events| ==> StepAt(states, events, k)
  }

  /**
   In every reachable state a context is live with one holder, or all it took was given back once and
   no one holds it.
   */
  lemma {:induction false} ExecutionOk(states: seq<State>, events: seq<Event>, k: nat, id: Id)
    requires Execution(states, events) && k < |states|
    ensures IdOk(states[k], id)
  {
    if k > 0 {
      assert StepAt(states, events, k - 1);
      var e := events[k - 1];
      ExecutionOk(states, events, k - 1, id);
      if e.id == id {
        OwnStep(states[k - 1], e);
      } else {
        OtherStep(states[k - 1], e, id);
      }
    }
  }

  // ----- where each step leads -----

  /** An attempt that gives the context to no one: written locally, or failed with no retry. */
  predicate Settles(a: Attempt, offlineRetry: bool) {
    a.StashedLocally? || a.StashError? || (a.RemoteError? && !offlineRetry)
  }

  /** The page write is over: never begun, skipped, answered, not to be repeated, or settled by its attempt. */
  predicate EndsWrite(e: Event) {
    match e
    case Start(_, sync, semFree, memory) => (!sync && !semFree) || !memory
    case Skip(_) => true
    case Write(_, a, offlineRetry) => Settles(a, offlineRetry)
    case Callback(_, ok, redo, a, offlineRetry) => ok || !redo || Settles(a, offlineRetry)
    case RetryWork(_, a, offlineRetry) => Settles(a, offlineRetry)
  }

  /** The step makes an attempt to write. */
  predicate Attempts(e: Event) {
    e.Write? || e.RetryWork? || (e.Callback? && !e.ok && e.redo)
  }

  lemma AttemptLeads(s: State, id: Id, a: Attempt, offlineRetry: bool)
    requires InHand(s, id)
    ensures var u := WriteAgain(s, id, a, offlineRetry);
            && (Finished(u, id) <==> Settles(a, offlineRetry))
            && (a.SentRemote? <==> u.requests[id] == 1)
            && (a.RemoteError? && offlineRetry <==> u.retries[id] == 1)
  {
  }

  lemma WriterLeads(s: State, id: Id, a: Attempt, offlineRetry: bool)
    requires Live(s, id) && id in s.writers
    ensures var u := WriterWrites(s, id, a, offlineRetry);
            && (Finished(u, id) <==> Settles(a, offlineRetry))
            && (a.SentRemote? <==> u.requests[id] == 1)
            && (a.RemoteError? && offlineRetry <==> u.retries[id] == 1)
  {
  }

  lemma CallbackLeads(s: State, id: Id, redo: bool, a: Attempt, offlineRetry: bool)
    requires Live(s, id) && id in s.requests
    ensures var u := ResponseComes(s, id, redo, a, offlineRetry);
            && (Finished(u, id) <==> !redo || Settles(a, offlineRetry))
            && (redo && a.SentRemote? <==> u.requests[id] == 1)
            && (redo && a.RemoteError? && offlineRetry <==> u.retries[id] == 1)
  {
    var s1 := s.(requests := s.requests - multiset{id});
    assert InHand(s1, id);
    AttemptLeads(s1, id, a, offlineRetry);
  }

  /** What one step makes of its own write: whether it is over, and else who holds it */
  predicate Leads(e: Event, u: State) {
    && (Finished(u, e.id) <==> EndsWrite(e))
    && (u.requests[e.id] == 1 <==> Attempts(e) && e.a.SentRemote?)
    && (u.retries[e.id] == 1 <==> Attempts(e) && e.a.RemoteError? && e.offlineRetry)
    && (u.writers[e.id] == 1 <==> e.Start? && !EndsWrite(e))
  }

  lemma StepLeads(s: State, e: Event)
    requires Enabled(s, e) && IdOk(s, e.id)
    ensures Leads(e, Step(s, e))
  {
    OwnStep(s, e);
    match e
    case Start(_, _, _, _) =>
    case Skip(_) =>
    case Write(id, a, offlineRetry) => WriterLeads(s, id, a, offlineRetry);
    case Callback(id, ok, redo, a, offlineRetry) => CallbackLeads(s, id, !ok && redo, a, offlineRetry);
    case RetryWork(id, a, offlineRetry) =>
      var s1 := s.(retries := s.retries - multiset{id});
      assert InHand(s1, id);
      AttemptLeads(s1, id, a, offlineRetry);
  }

  /**
   In every run a step finishes its page write if and only if the write was refused, skipped,
   answered, failed without being repeated, or settled by the attempt the step made; an attempt that was
   sent leaves it with the request, one that failed offline with the retry work.
   */
  lemma EveryStepLeads(states: seq<State>, events: seq<Event>, k: nat)
    requires Execution(states, events) && k < |events|
    ensures Leads(events[k], states[k + 1])
  {
    assert StepAt(states, events, k);
    ExecutionOk(states, events, k, events[k].id);
    StepLeads(states[k], events[k]);
  }

  /**
   What a page write has taken, from its first step on: the semaphore unless it is synchronous, and its
   task once it has tried
   */
  lemma {:induction false} TakenIs(states: seq<State>, events: seq<Event>, j: nat, k: nat)
    requires Execution(states, events) && j < k < |states| && events[j].Start?
    ensures events[j].id in states[k].ctx
    ensures var e, t := events[j], states[k].ctx[events[j].id].took;
            && (t.sem <==> !e.sync && e.semFree) && (t.writeback <==> e.sync || e.semFree)
            && (t.memory <==> (e.sync || e.semFree) && e.memory)
            && (t.task <==> exists n :: j < n < k && events[n].Write? && events[n].id == e.id)
    decreases k
  {
    assert StepAt(states, events, k - 1);
    var id := events[j].id;
    if k > j + 1 {
      TakenIs(states, events, j, k - 1);
      TakenStep(states[k - 1], events[k - 1], id);
    }
  }

  lemma TakenStep(s: State, e: Event, id: Id)
    requires Enabled(s, e) && id in s.ctx
    ensures id in Step(s, e).ctx
    ensures Step(s, e).ctx[id].took == if e.Write? && e.id == id then s.ctx[id].took.(task := true) else s.ctx[id].took
  {
    if e.id != id {
      OtherStep(s, e, id);
    }
  }

  /** No step of any run works on a freed context. */
  lemma NoUseAfterFree(states: seq<State>, events: seq<Event>, k: nat)
    requires Execution(states, events) && k < |events| && !events[k].Start?
    ensures Live(states[k], events[k].id)
  {
    assert StepAt(states, events, k);
    ExecutionOk(states, events, k, events[k].id);
  }

  /** A finished context stays as it is for the rest of the run. */
  lemma {:induction false} FinishedExactlyOnce(states: seq<State>, events: seq<Event>, i: nat, j: nat, id: Id)
    requires Execution(states, events) && i <= j < |states| && Finished(states[i], id)
    ensures Finished(states[j], id) && states[j].ctx[id] == states[i].ctx[id]
    decreases j
  {
    if i < j {
      assert StepAt(states, events, j - 1);
      FinishedExactlyOnce(states, events, i, j - 1, id);
      OtherStep(states[j - 1], events[j - 1], id);
    }
  }

  /** When nothing is running any more, every page write has given back exactly what it took. */
  lemma QuiescentMeansFinished(states: seq<State>, events: seq<Event>, k: nat, id: Id)
    requires Execution(states, events) && k < |states| && id in states[k].ctx
    requires states[k].writers == states[k].requests == states[k].retries == multiset{}
    ensures Finished(states[k], id)
  {
    ExecutionOk(states, events, k, id);
  }
}
