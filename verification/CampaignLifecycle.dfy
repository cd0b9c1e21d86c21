/**
  Every run of handlers, scheduler passes and expansions over the campaigns of a
  server, interleaved one operation at a time.
 */
module CampaignLifecycle {
  import opened Options
  import opened CampaignStore

  /**
    Where an expansion stands: `audience` subscribers listed, `left` of them still to
    be sent to, `outcomes` what the sends returned, oldest first, the last `inBatch`
    of them not yet reported.
   */
  datatype Phase =
    | Resolving
    | Listing
    | Expanding(audience: nat, left: nat, inBatch: nat, outcomes: seq<bool>)
    | Finished(audience: nat, outcomes: seq<bool>)
    | Aborted

  /** One expansion, spawned by a handler or run by the scheduler. */
  datatype Task = Task(campaign: nat, phase: Phase)

  datatype State = State(clock: int, campaigns: Campaigns, tasks: seq<Task>)

  datatype Step =
    | Create(id: nat, sendNow: bool, at: Option<int>, total: nat)
    | Edit(id: nat, schedule: Option<Option<int>>)
    | SendNow(id: nat, streamPresent: bool, total: nat)
    | Cancel(id: nat)
    | Scheduler(due: seq<nat>)
    | Resolve(task: nat, streamPresent: bool)
    | List(task: nat, subscribers: Option<nat>)
    | Enqueue(task: nat, ok: bool)
    | EndBatch(task: nat)
    | Complete(task: nat)
    | Tick(seconds: nat)

  function Spawned(ids: seq<nat>): (tasks: seq<Task>)
    ensures |tasks| == |ids| && forall i :: 0 <= i < |ids| ==> tasks[i] == Task(ids[i], Resolving)
  {
    seq(|ids|, i requires 0 <= i < |ids| => Task(ids[i], Resolving))
  }

  function MoveTo(s: State, task: nat, phase: Phase): State
    requires task < |s.tasks|
  {
    s.(tasks := s.tasks[task := s.tasks[task].(phase := phase)])
  }

  function Record(s: State, task: nat, sent: nat, status: Status, completed: Option<int>): State
    requires task < |s.tasks|
  {
    s.(campaigns := Progress(s.campaigns, s.tasks[task].campaign, sent, status, completed))
  }

  ghost predicate Enabled(s: State, step: Step) {
    match step
    case Create(id, _, _, _) => id !in s.campaigns
    case Edit(id, _) => id in s.campaigns && Planned(s.campaigns[id].status)
    case SendNow(id, present, _) => id in s.campaigns && Planned(s.campaigns[id].status) && present
    case Cancel(id) => id in s.campaigns && Planned(s.campaigns[id].status)
    case Scheduler(due) => Claims(s.campaigns, s.clock, due)
    case Resolve(t, _) => t < |s.tasks| && s.tasks[t].phase.Resolving?
    case List(t, _) => t < |s.tasks| && s.tasks[t].phase.Listing?
    case Enqueue(t, _) =>
      t < |s.tasks| && s.tasks[t].phase.Expanding? && s.tasks[t].phase.left > 0 && s.tasks[t].phase.inBatch < BATCH_SIZE
    case EndBatch(t) =>
      && t < |s.tasks| && s.tasks[t].phase.Expanding? && s.tasks[t].phase.inBatch > 0
      && (s.tasks[t].phase.inBatch == BATCH_SIZE || s.tasks[t].phase.left == 0)
    case Complete(t) =>
      t < |s.tasks| && s.tasks[t].phase.Expanding? && s.tasks[t].phase.left == 0 && s.tasks[t].phase.inBatch == 0
    case Tick(_) => true
  }

  /** The effect of an enabled step. A spawned expansion knows its stream, a claimed one looks it up first. */
  function Apply(s: State, step: Step): State
    requires Enabled(s, step)
  {
    match step
    case Create(id, sendNow, at, total) =>
      var created := s.(campaigns := s.campaigns[id := Created(sendNow, at, total)]);
      if sendNow then created.(tasks := s.tasks + [Task(id, Listing)]) else created
    case Edit(id, schedule) => s.(campaigns := s.campaigns[id := Edited(s.campaigns[id], schedule)])
    case SendNow(id, _, total) =>
      s.(campaigns := s.campaigns[id := s.campaigns[id].(status := Sending, total := total)],
         tasks := s.tasks + [Task(id, Listing)])
    case Cancel(id) => s.(campaigns := s.campaigns[id := s.campaigns[id].(status := Canceled)])
    case Scheduler(due) => s.(campaigns := Claim(s.campaigns, s.clock), tasks := s.tasks + Spawned(due))
    case Resolve(t, present) =>
      if present then MoveTo(s, t, Listing)
      else MoveTo(Record(s, t, 0, Failed, Some(s.clock)), t, Aborted)
    case List(t, subscribers) =>
      if subscribers.Some? then MoveTo(s, t, Expanding(subscribers.value, subscribers.value, 0, []))
      else MoveTo(Record(s, t, 0, Failed, Some(s.clock)), t, Aborted)
    case Enqueue(t, ok) =>
      var p := s.tasks[t].phase;
      MoveTo(s, t, Expanding(p.audience, p.left - 1, p.inBatch + 1, p.outcomes + [ok]))
    case EndBatch(t) =>
      var p := s.tasks[t].phase;
      MoveTo(Record(s, t, Successes(p.outcomes), Sending, None), t, Expanding(p.audience, p.left, 0, p.outcomes))
    case Complete(t) =>
      var p := s.tasks[t].phase;
      MoveTo(Record(s, t, Successes(p.outcomes), Delivered, Some(s.clock)), t, Finished(p.audience, p.outcomes))
    case Tick(seconds) => s.(clock := s.clock + seconds)
  }

  // ------------------------------------------------------------ invariant

  /** A task and its campaign agree. */
  predicate InStep(task: Task, c: Campaign) {
    match task.phase
    case Resolving => c.status == Sending && c.sent == 0 && c.completedAt.None?
    case Listing => c.status == Sending && c.sent == 0 && c.completedAt.None?
    case Expanding(audience, left, inBatch, outcomes) =>
      && c.status == Sending && c.completedAt.None?
      && left + |outcomes| == audience && inBatch <= |outcomes| && inBatch <= BATCH_SIZE
      && ((|outcomes| - inBatch) % BATCH_SIZE == 0 || (left == 0 && inBatch == 0))
      && c.sent == Successes(outcomes[..|outcomes| - inBatch])
    case Finished(audience, outcomes) =>
      c.status == Delivered && c.completedAt.Some? && |outcomes| == audience && c.sent == Successes(outcomes)
    case Aborted => c.status == Failed && c.completedAt.Some? && c.sent == 0
  }

  /** A campaign no expansion has taken up. */
  predicate Untouched(c: Campaign) {
    !Started(c.status) && c.sent == 0 && c.completedAt.None?
    && (Planned(c.status) ==> (c.status == Scheduled <==> c.scheduledAt.Some?))
  }

  predicate TasksOk(s: State) {
    && (forall i :: 0 <= i < |s.tasks| ==>
          s.tasks[i].campaign in s.campaigns && InStep(s.tasks[i], s.campaigns[s.tasks[i].campaign]))
    && (forall i, j :: 0 <= i < j < |s.tasks| ==> s.tasks[i].campaign != s.tasks[j].campaign)
  }

  predicate HasTask(tasks: seq<Task>, id: nat) {
    exists t <- tasks :: t.campaign == id
  }

  predicate Inv(s: State) {
    TasksOk(s) && forall id <- s.campaigns :: HasTask(s.tasks, id) || Untouched(s.campaigns[id])
  }

  /** What may become of a campaign in one step. */
  predicate Moves(a: Campaign, b: Campaign) {
    && (a.status == b.status
        || (Planned(a.status) && (Planned(b.status) || b.status == Sending || b.status == Canceled))
        || (a.status == Sending && (b.status == Delivered || b.status == Failed)))
    && a.sent <= b.sent
    && (!Planned(a.status) && a.status != Sending ==> b == a)
  }

  // --------------------------------------------------------- preservation

  lemma UnstartedHasNoTask(s: State, id: nat)
    requires Inv(s) && id in s.campaigns && !Started(s.campaigns[id].status)
    ensures !HasTask(s.tasks, id)
  {
    forall t | t in s.tasks
      ensures t.campaign != id
    {
      var i :| 0 <= i < |s.tasks| && s.tasks[i] == t;
      assert InStep(t, s.campaigns[t.campaign]);
    }
  }

  /** Replacing a campaign that no task holds. */
  lemma ReplaceKeeps(s: State, id: nat, c: Campaign)
    requires Inv(s) && !HasTask(s.tasks, id) && Untouched(c)
    ensures Inv(s.(campaigns := s.campaigns[id := c]))
  {
    var t := s.(campaigns := s.campaigns[id := c]);
    forall i | 0 <= i < |t.tasks|
      ensures t.tasks[i].campaign in t.campaigns && InStep(t.tasks[i], t.campaigns[t.tasks[i].campaign])
    {
      assert s.tasks[i] in s.tasks;
    }
  }

  /** Starting the expansion of a campaign that no task holds. */
  lemma SpawnKeeps(s: State, id: nat, c: Campaign, phase: Phase)
    requires Inv(s) && !HasTask(s.tasks, id) && InStep(Task(id, phase), c)
    ensures Inv(s.(campaigns := s.campaigns[id := c], tasks := s.tasks + [Task(id, phase)]))
  {
    var t := s.(campaigns := s.campaigns[id := c], tasks := s.tasks + [Task(id, phase)]);
    var n := |s.tasks|;
    forall i | 0 <= i < n
      ensures s.tasks[i].campaign != id
    {
      assert s.tasks[i] in s.tasks;
    }
    forall x | x in t.campaigns
      ensures HasTask(t.tasks, x) || Untouched(t.campaigns[x])
    {
      HasTaskAppend(s.tasks, [Task(id, phase)], x);
      if x == id {
        assert t.tasks[n] in t.tasks;
      }
    }
  }

  lemma HasTaskAppend(a: seq<Task>, b: seq<Task>, id: nat)
    ensures HasTask(a + b, id) <==> HasTask(a, id) || HasTask(b, id)
  {
    if HasTask(a, id) {
      var t :| t in a && t.campaign == id;
      assert t in a + b;
    }
    if HasTask(b, id) {
      var t :| t in b && t.campaign == id;
      assert t in a + b;
    }
  }

  /** Advancing one task and rewriting the campaign it holds. */
  lemma AdvanceKeeps(s: State, t: nat, c: Campaign, phase: Phase)
    requires Inv(s) && t < |s.tasks| && InStep(Task(s.tasks[t].campaign, phase), c)
    ensures Inv(s.(campaigns := s.campaigns[s.tasks[t].campaign := c],
                   tasks := s.tasks[t := s.tasks[t].(phase := phase)]))
  {
    var id := s.tasks[t].campaign;
    var after := s.(campaigns := s.campaigns[id := c], tasks := s.tasks[t := s.tasks[t].(phase := phase)]);
    forall x | x in after.campaigns
      ensures HasTask(after.tasks, x) || Untouched(after.campaigns[x])
    {
      if x == id {
        assert after.tasks[t] in after.tasks;
      } else if HasTask(s.tasks, x) {
        var k :| 0 <= k < |s.tasks| && s.tasks[k].campaign == x;
        assert after.tasks[k] == s.tasks[k] && after.tasks[k] in after.tasks;
      }
    }
  }

  lemma SchedulerKeeps(s: State, due: seq<nat>)
    requires Inv(s) && Claims(s.campaigns, s.clock, due)
    ensures Inv(Apply(s, Scheduler(due)))
  {
    var after := Apply(s, Scheduler(due));
    var n := |s.tasks|;
    forall id | id in due
      ensures !HasTask(s.tasks, id) && Untouched(s.campaigns[id])
    {
      UnstartedHasNoTask(s, id);
    }
    forall i | 0 <= i < n
      ensures s.tasks[i].campaign !in due && after.tasks[i] == s.tasks[i]
    {
      assert s.tasks[i] in s.tasks;
    }
    forall i | n <= i < |after.tasks|
      ensures after.tasks[i] == Task(due[i - n], Resolving) && due[i - n] in due
    {
    }
    forall x | x in after.campaigns
      ensures HasTask(after.tasks, x) || Untouched(after.campaigns[x])
    {
      HasTaskAppend(s.tasks, Spawned(due), x);
      if x in due {
        var k :| 0 <= k < |due| && due[k] == x;
        assert Spawned(due)[k] in Spawned(due);
      }
    }
  }

  /** Every step keeps the invariant. */
  lemma StepKeeps(s: State, step: Step)
    requires Inv(s) && Enabled(s, step)
    ensures Inv(Apply(s, step))
  {
    match step
    case Create(id, sendNow, at, total) =>
      assert !HasTask(s.tasks, id) by { FreshHasNoTask(s, id); }
      if sendNow {
        SpawnKeeps(s, id, Created(sendNow, at, total), Listing);
      } else {
        ReplaceKeeps(s, id, Created(sendNow, at, total));
      }
    case Edit(id, schedule) =>
      UnstartedHasNoTask(s, id);
      ReplaceKeeps(s, id, Edited(s.campaigns[id], schedule));
    case SendNow(id, _, total) =>
      UnstartedHasNoTask(s, id);
      SpawnKeeps(s, id, s.campaigns[id].(status := Sending, total := total), Listing);
    case Cancel(id) =>
      UnstartedHasNoTask(s, id);
      ReplaceKeeps(s, id, s.campaigns[id].(status := Canceled));
    case Scheduler(due) => SchedulerKeeps(s, due);
    case Tick(_) =>
    case Enqueue(t, ok) => EnqueueKeeps(s, t, ok);
    case EndBatch(_) => ProgressKeeps(s, step);
    case Complete(_) => ProgressKeeps(s, step);
    case _ => ResolveKeeps(s, step);
  }

  lemma FreshHasNoTask(s: State, id: nat)
    requires Inv(s) && id !in s.campaigns
    ensures !HasTask(s.tasks, id)
  {
    forall t | t in s.tasks
      ensures t.campaign != id
    {
      var i :| 0 <= i < |s.tasks| && s.tasks[i] == t;
    }
  }

  /** A task that moves on without touching its campaign. */
  lemma MovedKeeps(s: State, t: nat, phase: Phase)
    requires Inv(s) && t < |s.tasks| && InStep(Task(s.tasks[t].campaign, phase), s.campaigns[s.tasks[t].campaign])
    ensures Inv(MoveTo(s, t, phase))
  {
    var id := s.tasks[t].campaign;
    assert s.campaigns[id := s.campaigns[id]] == s.campaigns;
    AdvanceKeeps(s, t, s.campaigns[id], phase);
  }

  /** A task that records progress and moves on. */
  lemma RecordedKeeps(s: State, t: nat, sent: nat, status: Status, completed: Option<int>, phase: Phase)
    requires Inv(s) && t < |s.tasks|
    requires var c := s.campaigns[s.tasks[t].campaign];
             InStep(Task(s.tasks[t].campaign, phase), c.(sent := sent, status := status, completedAt := completed))
    ensures Inv(MoveTo(Record(s, t, sent, status, completed), t, phase))
  {
    var id := s.tasks[t].campaign;
    AdvanceKeeps(s, t, s.campaigns[id].(sent := sent, status := status, completedAt := completed), phase);
  }

  lemma ResolveKeeps(s: State, step: Step)
    requires Inv(s) && Enabled(s, step) && (step.Resolve? || step.List?)
    ensures Inv(Apply(s, step))
  {
    var t := step.task;
    assert InStep(s.tasks[t], s.campaigns[s.tasks[t].campaign]);
    if step.Resolve? && step.streamPresent {
      MovedKeeps(s, t, Listing);
    } else if step.List? && step.subscribers.Some? {
      MovedKeeps(s, t, Expanding(step.subscribers.value, step.subscribers.value, 0, []));
    } else {
      RecordedKeeps(s, t, 0, Failed, Some(s.clock), Aborted);
    }
  }

  /** One more outcome, unreported. */
  predicate Follows(p: Phase, q: Phase) {
    && p.Expanding? && q.Expanding? && q.audience == p.audience && q.left + 1 == p.left && q.inBatch == p.inBatch + 1
    && |q.outcomes| == |p.outcomes| + 1 && q.outcomes[..|p.outcomes|] == p.outcomes
  }

  lemma FollowsInStep(id: nat, p: Phase, q: Phase, c: Campaign)
    requires Follows(p, q) && p.inBatch < BATCH_SIZE && InStep(Task(id, p), c)
    ensures InStep(Task(id, q), c)
  {
    assert q.outcomes[..|q.outcomes| - q.inBatch] == p.outcomes[..|p.outcomes| - p.inBatch];
  }

  lemma StillExpanding(s: State, t: nat, phase: Phase)
    requires Inv(s) && t < |s.tasks| && Follows(s.tasks[t].phase, phase) && s.tasks[t].phase.inBatch < BATCH_SIZE
    ensures Inv(MoveTo(s, t, phase))
  {
    var task := s.tasks[t];
    assert InStep(task, s.campaigns[task.campaign]);
    FollowsInStep(task.campaign, task.phase, phase, s.campaigns[task.campaign]);
    MovedKeeps(s, t, phase);
  }

  /** Enqueueing adds one outcome. */
  lemma EnqueueLengthens(s: State, t: nat, ok: bool, keeps: State -> bool)
    requires Enabled(s, Enqueue(t, ok))
    requires forall phase :: Follows(s.tasks[t].phase, phase) ==> keeps(MoveTo(s, t, phase))
    ensures keeps(Apply(s, Enqueue(t, ok)))
  {
    var p := s.tasks[t].phase;
    var q := Expanding(p.audience, p.left - 1, p.inBatch + 1, p.outcomes + [ok]);
    assert Follows(p, q);
    assert keeps(MoveTo(s, t, q));
  }

  lemma EnqueueKeeps(s: State, t: nat, ok: bool)
    requires Inv(s) && Enabled(s, Enqueue(t, ok))
    ensures Inv(Apply(s, Enqueue(t, ok)))
  {
    forall phase | Follows(s.tasks[t].phase, phase)
      ensures Inv(MoveTo(s, t, phase))
    {
      StillExpanding(s, t, phase);
    }
    EnqueueLengthens(s, t, ok, x => Inv(x));
  }

  lemma ProgressKeeps(s: State, step: Step)
    requires Inv(s) && Enabled(s, step) && (step.EndBatch? || step.Complete?)
    ensures Inv(Apply(s, step))
  {
    var t := step.task;
    var p := s.tasks[t].phase;
    assert InStep(s.tasks[t], s.campaigns[s.tasks[t].campaign]);
    assert p.outcomes[..|p.outcomes|] == p.outcomes;
    if step.EndBatch? {
      RecordedKeeps(s, t, Successes(p.outcomes), Sending, None, Expanding(p.audience, p.left, 0, p.outcomes));
    } else {
      RecordedKeeps(s, t, Successes(p.outcomes), Delivered, Some(s.clock), Finished(p.audience, p.outcomes));
    }
  }

  lemma {:induction false} SuccessesGrow(outcomes: seq<bool>, n: nat)
    requires n <= |outcomes|
    ensures Successes(outcomes[..n]) <= Successes(outcomes)
    decreases |outcomes|
  {
    if n == |outcomes| {
      assert outcomes[..n] == outcomes;
    } else {
      var front := outcomes[..|outcomes| - 1];
      SuccessesGrow(front, n);
      assert front[..n] == outcomes[..n];
    }
  }

  /** Every step moves every campaign along the lifecycle and never takes progress back. */
  lemma StepMoves(s: State, step: Step, id: nat)
    requires Inv(s) && Enabled(s, step) && id in s.campaigns
    ensures id in Apply(s, step).campaigns && Moves(s.campaigns[id], Apply(s, step).campaigns[id])
  {
    if TaskStep(step) {
      TaskMoves(s, step, id);
    }
  }

  predicate TaskStep(step: Step) {
    step.Resolve? || step.List? || step.Enqueue? || step.EndBatch? || step.Complete?
  }

  lemma TaskMoves(s: State, step: Step, id: nat)
    requires Inv(s) && Enabled(s, step) && id in s.campaigns && TaskStep(step)
    ensures id in Apply(s, step).campaigns && Moves(s.campaigns[id], Apply(s, step).campaigns[id])
  {
    var task := s.tasks[step.task];
    assert InStep(task, s.campaigns[task.campaign]);
    if task.phase.Expanding? {
      SuccessesGrow(task.phase.outcomes, |task.phase.outcomes| - task.phase.inBatch);
    }
  }

  // ------------------------------------------------ what changes a status

  /** The campaign whose expansion a step advances. */
  predicate Advances(s: State, step: Step, id: nat) {
    && TaskStep(step) && step.task < |s.tasks| && s.tasks[step.task].campaign == id
  }

  /** Exactly which step gives a campaign each status it did not have. */
  lemma StatusChanges(s: State, step: Step, id: nat)
    requires Inv(s) && Enabled(s, step) && id in s.campaigns
    requires Apply(s, step).campaigns[id].status != s.campaigns[id].status
    ensures match Apply(s, step).campaigns[id].status
            case Draft => step == Edit(id, Some(None))
            case Scheduled => step.Edit? && step.id == id && step.schedule.Some? && step.schedule.value.Some?
            case Sending => (step.SendNow? && step.id == id) || (step.Scheduler? && id in step.due)
            case Canceled => step == Cancel(id)
            case Delivered => step.Complete? && Advances(s, step, id)
            case Failed =>
              Advances(s, step, id)
                && ((step.Resolve? && !step.streamPresent) || (step.List? && step.subscribers.None?))
  {
    if TaskStep(step) {
      assert InStep(s.tasks[step.task], s.campaigns[s.tasks[step.task].campaign]);
    }
  }

  /** And the steps that must change a status do. */
  lemma StepsTakeEffect(s: State, step: Step)
    requires Inv(s) && Enabled(s, step)
    ensures step.SendNow? ==> Apply(s, step).campaigns[step.id].status == Sending
    ensures step.Cancel? ==> Apply(s, step).campaigns[step.id].status == Canceled
    ensures step.Scheduler? ==>
            forall id <- step.due :: id in s.campaigns && Apply(s, step).campaigns[id].status == Sending
    ensures step.SendNow? ==> Apply(s, step).tasks == s.tasks + [Task(step.id, Listing)]
    ensures step.Scheduler? ==> |Apply(s, step).tasks| == |s.tasks| + |step.due|
    ensures (step.Resolve? && !step.streamPresent) || (step.List? && step.subscribers.None?) ==>
              Apply(s, step).campaigns[s.tasks[step.task].campaign].status == Failed
    ensures step.Complete? ==> Apply(s, step).campaigns[s.tasks[step.task].campaign].status == Delivered
    ensures step.List? && step.subscribers.Some? ==>
              var phase := Apply(s, step).tasks[step.task].phase;
              phase.Expanding? && phase.audience == phase.left == step.subscribers.value && phase.outcomes == []
    ensures step.Enqueue? ==>
              var before, after := s.tasks[step.task].phase, Apply(s, step).tasks[step.task].phase;
              after.Expanding? && after.outcomes == before.outcomes + [step.ok]
  {
    if TaskStep(step) {
      assert InStep(s.tasks[step.task], s.campaigns[s.tasks[step.task].campaign]);
    }
  }

  // ----------------------------------------------------------------- runs

  ghost predicate Run(states: seq<State>, steps: seq<Step>) {
    && |states| == |steps| + 1 && states[0].campaigns == map[] && states[0].tasks == []
    && forall i :: 0 <= i < |steps| ==> Enabled(states[i], steps[i]) && states[i + 1] == Apply(states[i], steps[i])
  }

  lemma {:induction false} RunInv(states: seq<State>, steps: seq<Step>, i: nat)
    requires Run(states, steps) && i < |states|
    ensures Inv(states[i])
  {
    if i > 0 {
      RunInv(states, steps, i - 1);
      StepKeeps(states[i - 1], steps[i - 1]);
    }
  }

  /** The order of the lifecycle. */
  function Rank(status: Status): nat {
    match status
    case Draft => 0 case Scheduled => 0 case Sending => 1 case _ => 2
  }

  /** What may have become of a campaign after any number of steps. */
  predicate Later(a: Campaign, b: Campaign) {
    && Rank(a.status) <= Rank(b.status) && a.sent <= b.sent
    && (Rank(a.status) == 2 ==> b == a)
    && (a.status == Sending ==> b.status != Canceled)
  }

  lemma LaterMoves(a: Campaign, b: Campaign, c: Campaign)
    requires Later(a, b) && Moves(b, c)
    ensures Later(a, c)
  {
  }

  lemma RunMoves(states: seq<State>, steps: seq<Step>, i: nat, id: nat)
    requires Run(states, steps) && i < |steps| && id in states[i].campaigns
    ensures id in states[i + 1].campaigns && Moves(states[i].campaigns[id], states[i + 1].campaigns[id])
  {
    RunInv(states, steps, i);
    StepMoves(states[i], steps[i], id);
  }

  /** The campaign is there and moves along the lifecycle at step `k`. */
  predicate MovesAt(states: seq<State>, k: nat, id: nat) {
    k + 1 < |states| && id in states[k].campaigns ==>
      id in states[k + 1].campaigns && Moves(states[k].campaigns[id], states[k + 1].campaigns[id])
  }

  lemma {:induction false} LaterOver(states: seq<State>, i: nat, j: nat, id: nat)
    requires i <= j < |states| && id in states[i].campaigns
    requires forall k: nat :: MovesAt(states, k, id)
    ensures id in states[j].campaigns && Later(states[i].campaigns[id], states[j].campaigns[id])
    decreases j - i
  {
    if i < j {
      LaterOver(states, i, j - 1, id);
      assert MovesAt(states, j - 1, id);
      LaterMoves(states[i].campaigns[id], states[j - 1].campaigns[id], states[j].campaigns[id]);
    }
  }

  /** Over any stretch of any run: no way back, nothing after the end, and progress only grows. */
  lemma Lifecycle(states: seq<State>, steps: seq<Step>, i: nat, j: nat, id: nat)
    requires Run(states, steps) && i <= j < |states| && id in states[i].campaigns
    ensures id in states[j].campaigns && Later(states[i].campaigns[id], states[j].campaigns[id])
  {
    forall k: nat
      ensures MovesAt(states, k, id)
    {
      if k < |steps| && id in states[k].campaigns {
        RunMoves(states, steps, k, id);
      }
    }
    LaterOver(states, i, j, id);
  }

  /** In every reachable state each campaign has at most one expansion, and a canceled one none. */
  lemma ExpandedAtMostOnce(states: seq<State>, steps: seq<Step>, i: nat, a: nat, b: nat)
    requires Run(states, steps) && i < |states| && a < |states[i].tasks| && b < |states[i].tasks|
    ensures states[i].tasks[a].campaign == states[i].tasks[b].campaign ==> a == b
    ensures states[i].tasks[a].campaign in states[i].campaigns
            && Started(states[i].campaigns[states[i].tasks[a].campaign].status)
  {
    RunInv(states, steps, i);
    assert InStep(states[i].tasks[a], states[i].campaigns[states[i].tasks[a].campaign]);
  }

  /** In every reachable state a planned campaign has a send time exactly when it is scheduled. */
  lemma PlannedScheduleTime(states: seq<State>, steps: seq<Step>, i: nat, id: nat)
    requires Run(states, steps) && i < |states| && id in states[i].campaigns && Planned(states[i].campaigns[id].status)
    ensures states[i].campaigns[id].status == Scheduled <==> states[i].campaigns[id].scheduledAt.Some?
  {
    RunInv(states, steps, i);
    UnstartedHasNoTask(states[i], id);
  }

  /**
    A delivered campaign shows exactly the sends its one expansion enqueued, and that
    expansion tried every subscriber it listed; a failed one sent nothing.
   */
  lemma FinalProgress(states: seq<State>, steps: seq<Step>, i: nat, id: nat)
    requires Run(states, steps) && i < |states| && id in states[i].campaigns
    ensures states[i].campaigns[id].status == Delivered ==>
              exists t :: 0 <= t < |states[i].tasks| && states[i].tasks[t].campaign == id
                          && states[i].tasks[t].phase.Finished?
                          && |states[i].tasks[t].phase.outcomes| == states[i].tasks[t].phase.audience
                          && states[i].campaigns[id].sent == multiset(states[i].tasks[t].phase.outcomes)[true]
    ensures states[i].campaigns[id].status == Failed ==> states[i].campaigns[id].sent == 0
  {
    var s := states[i];
    RunInv(states, steps, i);
    if s.campaigns[id].status == Delivered || s.campaigns[id].status == Failed {
      var t := HoldingTask(s, id);
      assert InStep(s.tasks[t], s.campaigns[id]);
      if s.tasks[t].phase.Finished? {
        SuccessesCount(s.tasks[t].phase.outcomes);
      }
    }
  }

  /**
    While a campaign is being expanded its progress counts the sends of the batches
    completed so far: a multiple of the batch size, or all of them.
   */
  lemma PolledProgress(states: seq<State>, steps: seq<Step>, i: nat, t: nat)
    requires Run(states, steps) && i < |states| && t < |states[i].tasks| && states[i].tasks[t].phase.Expanding?
    ensures var task := states[i].tasks[t];
            var reported := |task.phase.outcomes| - task.phase.inBatch;
            && 0 <= reported && (reported % BATCH_SIZE
                                 == 0 || (task.phase.left == 0 && reported == |task.phase.outcomes|))
            && task.campaign in states[i].campaigns
            && states[i].campaigns[task.campaign].sent == multiset(task.phase.outcomes[..reported])[true]
  {
    RunInv(states, steps, i);
    var task := states[i].tasks[t];
    assert InStep(task, states[i].campaigns[task.campaign]);
    SuccessesCount(task.phase.outcomes[..|task.phase.outcomes| - task.phase.inBatch]);
  }

  lemma HoldingTask(s: State, id: nat) returns (t: nat)
    requires Inv(s) && id in s.campaigns && Started(s.campaigns[id].status)
    ensures t < |s.tasks| && s.tasks[t].campaign == id
  {
    assert HasTask(s.tasks, id);
    var task :| task in s.tasks && task.campaign == id;
    t :| 0 <= t < |s.tasks| && s.tasks[t] == task;
  }
}
