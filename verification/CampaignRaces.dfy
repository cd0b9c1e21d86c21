/**
  Campaign handlers as they interleave (server_api.rs, server_store.rs): each one
  reads a campaign, checks that it is still planned, and later writes without
  checking again. When is a campaign expanded twice?
 */
module CampaignRaces {
  import opened Options
  import opened CampaignStore

  /** What a handler that found its campaign planned is going to write. */
  datatype Change =
    | Edit(schedule: Option<Option<int>>)
    | Send(total: nat)
    | Cancel

  /** A request between its check and its write. */
  datatype Pending = Pending(campaign: nat, change: Change)

  /** `expansions` lists the campaigns of all expansions spawned so far. */
  datatype State = State(clock: int, campaigns: Campaigns, pending: map<nat, Pending>, expansions: seq<nat>)

  datatype Step =
    | Create(id: nat, sendNow: bool, at: Option<int>, total: nat)
    | Check(request: nat, id: nat, change: Change)
    | Write(request: nat)
    | Scheduler(due: seq<nat>)
    | Record(id: nat, sent: nat, status: Status, completed: Option<int>)
    | Tick(seconds: nat)

  // ---------------------------------------------------------------- steps

  /** A check that finds a campaign no longer planned ends its request and is not a step. */
  ghost predicate Enabled(s: State, step: Step) {
    match step
    case Create(id, _, _, _) => id !in s.campaigns
    case Check(request, id, _) => request !in s.pending && id in s.campaigns && Planned(s.campaigns[id].status)
    case Write(request) => request in s.pending
    case Scheduler(due) => Claims(s.campaigns, s.clock, due)
    case Record(id, _, status, _) => id in s.expansions && Started(status)
    case Tick(_) => true
  }

  function Changed(c: Campaign, change: Change): Campaign {
    match change
    case Edit(schedule) => Edited(c, schedule)
    case Send(total) => c.(status := Sending, total := total)
    case Cancel => c.(status := Canceled)
  }

  /** Campaigns whose expansion this step spawns. */
  function Spawns(s: State, step: Step): seq<nat>
    requires Enabled(s, step)
  {
    match step
    case Create(id, sendNow, _, _) => if sendNow then [id] else []
    case Write(request) =>
      var p := s.pending[request];
      if p.change.Send? && p.campaign in s.campaigns then [p.campaign] else []
    case Scheduler(due) => due
    case _ => []
  }

  /** `update_campaign` writes whatever the status has become since the check. */
  function Apply(s: State, step: Step): State
    requires Enabled(s, step)
  {
    var t := s.(expansions := s.expansions + Spawns(s, step));
    match step
    case Create(id, sendNow, at, total) => t.(campaigns := s.campaigns[id := Created(sendNow, at, total)])
    case Check(request, id, change) => t.(pending := s.pending[request := Pending(id, change)])
    case Write(request) =>
      var p := s.pending[request];
      var done := t.(pending := s.pending - {request});
      if p.campaign !in s.campaigns then done
      else done.(campaigns := s.campaigns[p.campaign := Changed(s.campaigns[p.campaign], p.change)])
    case Scheduler(due) => t.(campaigns := Claim(s.campaigns, s.clock))
    case Record(id, sent, status, completed) => t.(campaigns := Progress(s.campaigns, id, sent, status, completed))
    case Tick(seconds) => t.(clock := s.clock + seconds)
  }

  ghost predicate Run(states: seq<State>, steps: seq<Step>) {
    && |states| == |steps| + 1
    && states[0].campaigns == map[] && states[0].pending == map[] && states[0].expansions == []
    && forall i :: 0 <= i < |steps| ==> Enabled(states[i], steps[i]) && states[i + 1] == Apply(states[i], steps[i])
  }

  // ------------------------------------------------ exactly when it happens

  predicate Distinct(ids: seq<nat>) {
    forall i, j :: 0 <= i < j < |ids| ==> ids[i] != ids[j]
  }

  /** Expansions and pending requests are for campaigns that exist. */
  predicate Known(s: State) {
    && (forall id <- s.expansions :: id in s.campaigns)
    && (forall r <- s.pending :: s.pending[r].campaign in s.campaigns)
  }

  lemma StepKnown(s: State, step: Step)
    requires Known(s) && Enabled(s, step)
    ensures Known(Apply(s, step))
  {
  }

  /** The step spawns an expansion of a campaign that already has one. */
  ghost predicate Respawns(s: State, step: Step) {
    Enabled(s, step) && exists id :: id in Spawns(s, step) && id in s.expansions
  }

  lemma DistinctAppend(a: seq<nat>, b: seq<nat>)
    requires Distinct(a) && Distinct(b)
    ensures Distinct(a + b) <==> !exists id :: id in b && id in a
  {
    var c := a + b;
    if id :| id in b && id in a {
      var i :| 0 <= i < |a| && a[i] == id;
      var j :| 0 <= j < |b| && b[j] == id;
      assert c[i] == c[|a| + j];
    } else {
      forall i, j | 0 <= i < j < |c|
        ensures c[i] != c[j]
      {
        if i < |a| <= j {
          assert c[i] in a && c[j] in b;
        }
      }
    }
  }

  /** One step makes an expansion a second one exactly when it respawns. */
  lemma StepDoubles(s: State, step: Step)
    requires Known(s) && Distinct(s.expansions) && Enabled(s, step)
    ensures Distinct(Apply(s, step).expansions) <==> !Respawns(s, step)
  {
    assert step.Write? ==> s.pending[step.request].campaign in s.campaigns;
    DistinctAppend(s.expansions, Spawns(s, step));
  }

  lemma {:induction false} RunKnown(states: seq<State>, steps: seq<Step>, i: nat)
    requires Run(states, steps) && i < |states|
    ensures Known(states[i])
  {
    if i > 0 {
      RunKnown(states, steps, i - 1);
      StepKnown(states[i - 1], steps[i - 1]);
    }
  }

  lemma ExpansionsGrow(states: seq<State>, steps: seq<Step>, i: nat)
    requires Run(states, steps) && i < |steps|
    ensures states[i].expansions <= states[i + 1].expansions
  {
    RunKnown(states, steps, i);
    assert states[i + 1] == Apply(states[i], steps[i]);
  }

  /** Over a run, no campaign is expanded twice exactly when no step respawns. */
  lemma {:induction false} ExpandedTwice(states: seq<State>, steps: seq<Step>, n: nat)
    requires Run(states, steps) && n < |states|
    ensures Distinct(states[n].expansions) <==> forall i :: 0 <= i < n ==> !Respawns(states[i], steps[i])
  {
    if n > 0 {
      ExpandedTwice(states, steps, n - 1);
      RunKnown(states, steps, n - 1);
      ExpansionsGrow(states, steps, n - 1);
      assert states[n] == Apply(states[n - 1], steps[n - 1]);
      if Distinct(states[n - 1].expansions) {
        StepDoubles(states[n - 1], steps[n - 1]);
      } else {
        var before := states[n - 1].expansions;
        var i, j :| 0 <= i < j < |before| && before[i] == before[j];
        assert states[n].expansions[i] == states[n].expansions[j];
      }
    }
  }

  // ------------------------------------------------------- overtaken writes

  /** The write of a request whose campaign is no longer planned: the check would fail now. */
  predicate Overtaken(s: State, step: Step) {
    && step.Write? && step.request in s.pending && s.pending[step.request].campaign in s.campaigns
    && !Planned(s.campaigns[s.pending[step.request].campaign].status)
  }

  /** An expanded campaign is never planned again. */
  predicate Settled(s: State) {
    forall id <- s.expansions :: id in s.campaigns && !Planned(s.campaigns[id].status)
  }

  lemma FreshStepKeeps(s: State, step: Step)
    requires Known(s) && Settled(s) && Enabled(s, step) && !Overtaken(s, step)
    ensures Settled(Apply(s, step)) && !Respawns(s, step)
  {
    assert step.Write? ==> s.pending[step.request].campaign in s.campaigns;
    forall id | id in Apply(s, step).expansions
      ensures id in Apply(s, step).campaigns && !Planned(Apply(s, step).campaigns[id].status)
    {
      assert id in s.expansions || id in Spawns(s, step);
    }
  }

  lemma {:induction false} FreshRun(states: seq<State>, steps: seq<Step>, n: nat)
    requires Run(states, steps) && n < |states|
    requires forall i :: 0 <= i < n ==> !Overtaken(states[i], steps[i])
    ensures Settled(states[n])
  {
    if n > 0 {
      FreshRun(states, steps, n - 1);
      RunKnown(states, steps, n - 1);
      FreshStepKeeps(states[n - 1], steps[n - 1]);
    }
  }

  /** As long as every write finds its campaign still planned, no campaign is expanded twice. */
  lemma FreshWritesExpandOnce(states: seq<State>, steps: seq<Step>)
    requires Run(states, steps)
    requires forall i :: 0 <= i < |steps| ==> !Overtaken(states[i], steps[i])
    ensures Distinct(states[|steps|].expansions)
  {
    forall i | 0 <= i < |steps|
      ensures !Respawns(states[i], steps[i])
    {
      FreshRun(states, steps, i);
      RunKnown(states, steps, i);
      FreshStepKeeps(states[i], steps[i]);
    }
    ExpandedTwice(states, steps, |steps|);
  }

  /**
    The first overtaken write of a run makes a second expansion exactly when it is a
    send-now whose campaign has been expanded since the check; an overtaken edit only
    prepares one by planning the campaign anew.
   */
  lemma FirstOvertakenWrite(states: seq<State>, steps: seq<Step>, n: nat)
    requires Run(states, steps) && n < |steps| && Overtaken(states[n], steps[n])
    requires forall i :: 0 <= i < n ==> !Overtaken(states[i], steps[i])
    ensures var p := states[n].pending[steps[n].request];
            && Distinct(states[n].expansions)
            && (Distinct(states[n + 1].expansions) <==> !(p.change.Send? && p.campaign in states[n].expansions))
            && (Settled(states[n + 1]) <==>
                !(p.campaign in states[n].expansions && p.change.Edit? && p.change.schedule.Some?))
  {
    forall i | 0 <= i < n
      ensures !Respawns(states[i], steps[i])
    {
      FreshRun(states, steps, i);
      RunKnown(states, steps, i);
      FreshStepKeeps(states[i], steps[i]);
    }
    ExpandedTwice(states, steps, n);
    RunKnown(states, steps, n);
    FreshRun(states, steps, n);
    StepDoubles(states[n], steps[n]);
    WriteSettles(states[n], steps[n].request);
  }

  lemma WriteSettles(s: State, request: nat)
    requires Known(s) && Settled(s) && request in s.pending && Overtaken(s, Write(request))
    ensures var p := s.pending[request];
            Settled(Apply(s, Write(request))) <==>
            !(p.campaign in s.expansions && p.change.Edit? && p.change.schedule.Some?)
    ensures Respawns(s, Write(request)) <==>
            s.pending[request].change.Send? && s.pending[request].campaign in s.expansions
  {
    var p := s.pending[request];
    var t := Apply(s, Write(request));
    assert p.campaign in s.campaigns && p.campaign in t.campaigns;
    assert t.expansions == if p.change.Send? then s.expansions + [p.campaign] else s.expansions;
    assert t.campaigns[p.campaign] == Changed(s.campaigns[p.campaign], p.change);
    if p.change.Send? {
      assert Spawns(s, Write(request)) == [p.campaign];
    }
  }

  // ------------------------------------------------------------- the race

  /** A due campaign, checked by a send-now, claimed by the scheduler, then written by the send-now. */
  function Race(request: nat, id: nat, total: nat, due: seq<nat>): seq<Step> {
    [Check(request, id, Send(total)), Scheduler(due), Write(request)]
  }

  /** From any state in which a campaign is due and nobody is ahead of the race, it ends in two expansions. */
  lemma ScheduledSendRace(s: State, request: nat, id: nat, total: nat, due: seq<nat>)
    requires Known(s) && request !in s.pending && id in s.campaigns && Due(s.campaigns[id], s.clock)
    requires Claims(s.campaigns, s.clock, due)
    ensures var race := Race(request, id, total, due);
            && Enabled(s, race[0]) && Enabled(Apply(s, race[0]), race[1])
            && Enabled(Apply(Apply(s, race[0]), race[1]), race[2])
            && !Distinct(Apply(Apply(Apply(s, race[0]), race[1]), race[2]).expansions)
  {
    var race := Race(request, id, total, due);
    var s1 := Apply(s, race[0]);
    var s2 := Apply(s1, race[1]);
    var s3 := Apply(s2, race[2]);
    assert id in due && id in s2.campaigns && s2.pending[request] == Pending(id, Send(total));
    assert s3.expansions == s2.expansions + [id];
    assert id in s2.expansions;
    var i :| 0 <= i < |s2.expansions| && s2.expansions[i] == id;
    assert s3.expansions[i] == s3.expansions[|s2.expansions|];
  }

  /** Checked by a send-now, canceled, then written by the send-now: the canceled campaign is sent. */
  lemma CanceledCampaignIsSent(s: State, send: nat, cancel: nat, id: nat, total: nat)
    requires Known(s) && send !in s.pending && cancel !in s.pending && send != cancel
    requires id in s.campaigns && Planned(s.campaigns[id].status)
    ensures var s1 := Apply(s, Check(send, id, Send(total)));
            Enabled(s, Check(send, id, Send(total))) && Enabled(s1, Check(cancel, id, Cancel))
            && var s2 := Apply(s1, Check(cancel, id, Cancel));
               Enabled(s2, Write(cancel))
               && var s3 := Apply(s2, Write(cancel));
                  && s3.campaigns[id].status == Canceled && Enabled(s3, Write(send))
                  && var s4 := Apply(s3, Write(send));
                     s4.campaigns[id].status == Sending && s4.expansions == s.expansions + [id]
  {
  }
}
