/**
  Idempotent sends under concurrency (server_api.rs). Any number of requests run
  at once; looking up, preparing, committing and reconciling are separate steps
  that interleave freely, and only the commit is atomic.
 */
module Idempotency {
  import opened Options
  import opened SendStore

  const RETENTION: int := 24 * 60 * 60

  datatype Kind = Single | Batch {
    function Operation(): string {
      match this case Single => "messages.send" case Batch => "messages.send_batch"
    }
  }

  datatype Answer =
    | Answered(response: Response)
    | KeyConflict
    | Rejected(error: string)
    | Internal

  datatype Phase =
    | Arrived
    | Preparing
    | Prepared(plan: seq<PlanItem>)
    | Reconciling(error: string)
    | Done(answer: Answer, at: int, stored: nat)

  /** One request. `Done` remembers when it ended and how many plans had been stored by then. */
  datatype Job = Job(kind: Kind, key: Option<string>, payload: string, started: int, phase: Phase) {
    function ToClaim(): Option<Claim> {
      match key
      case None => None
      case Some(k) => Some(Claim(k, payload, kind.Operation(), started + RETENTION))
    }
  }

  /** One stored plan. */
  datatype Entry = Entry(job: nat, key: Option<string>, payload: string, operation: string,
                         response: Response, at: int, expiresAt: int)

  datatype State = State(clock: int, tables: Tables, jobs: map<nat, Job>, log: seq<Entry>)

  datatype Step =
    | Arrive(id: nat, kind: Kind, key: Option<string>, payload: string)
    | LookUp(id: nat)
    | PrepareOk(id: nat, plan: seq<PlanItem>)
    | PrepareError(id: nat, error: string)
    | CommitPlan(id: nat)
    | Reconcile(id: nat)
    | StoreFails(id: nat)
    | PruneExpired
    | Tick(seconds: nat)

  // ---------------------------------------------------------------- steps

  /** `single_send_json` on a stored response; a batch renders any response. */
  function Render(kind: Kind, response: Response): Answer {
    if kind == Single && !(|response| == 1 && response[0].Success?) then Internal else Answered(response)
  }

  function Finish(s: State, id: nat, answer: Answer): State
    requires id in s.jobs
  {
    s.(jobs := s.jobs[id := s.jobs[id].(phase := Done(answer, s.clock, |s.log|))])
  }

  function MoveTo(s: State, id: nat, phase: Phase): State
    requires id in s.jobs
  {
    s.(jobs := s.jobs[id := s.jobs[id].(phase := phase)])
  }

  /** `cached_send_operation`: continue on a miss, answer on a hit. */
  function Cached(s: State, id: nat, onMiss: State): State
    requires id in s.jobs
  {
    var job := s.jobs[id];
    match job.ToClaim()
    case None => onMiss
    case Some(claim) =>
      match Find(s.tables, claim, s.clock)
      case New => onMiss
      case Replay(response) => Finish(s, id, Render(job.kind, response))
      case Conflict => Finish(s, id, KeyConflict)
  }

  /** `store_send_plan`. */
  function Store(s: State, id: nat, plan: seq<PlanItem>): State
    requires id in s.jobs
  {
    var job := s.jobs[id];
    var (tables, outcome) := Commit(s.tables, plan, job.ToClaim(), s.clock);
    match outcome
    case Stored(response) =>
      var entry := Entry(id, job.key, job.payload, job.kind.Operation(), response, s.clock, job.started + RETENTION);
      var stored := s.(tables := tables, log := s.log + [entry]);
      Finish(stored, id, Render(job.kind, response))
    case Replayed(response) => Finish(s, id, Render(job.kind, response))
    case Conflicting => Finish(s, id, KeyConflict)
  }

  /** One step; a step that is not enabled changes nothing. */
  function Apply(s: State, step: Step): State {
    match step
    case Arrive(id, kind, key, payload) =>
      if id in s.jobs then s else s.(jobs := s.jobs[id := Job(kind, key, payload, s.clock, Arrived)])
    case LookUp(id) =>
      if id in s.jobs && s.jobs[id].phase.Arrived? then Cached(s, id, MoveTo(s, id, Preparing)) else s
    case PrepareOk(id, plan) =>
      if id in s.jobs && s.jobs[id].phase.Preparing?
         && (s.jobs[id].kind == Single ==> |plan| == 1 && plan[0].Messages?)
      then MoveTo(s, id, Prepared(plan)) else s
    case PrepareError(id, error) =>
      if id in s.jobs && s.jobs[id].phase.Preparing? && s.jobs[id].kind == Single
      then MoveTo(s, id, Reconciling(error)) else s
    case CommitPlan(id) =>
      if id in s.jobs && s.jobs[id].phase.Prepared? then Store(s, id, s.jobs[id].phase.plan) else s
    case Reconcile(id) =>
      if id in s.jobs && s.jobs[id].phase.Reconciling?
      then Cached(s, id, Finish(s, id, Rejected(s.jobs[id].phase.error))) else s
    case StoreFails(id) =>
      if id in s.jobs && (s.jobs[id].phase.Arrived? || s.jobs[id].phase.Prepared? || s.jobs[id].phase.Reconciling?)
      then Finish(s, id, Internal) else s
    case PruneExpired => s.(tables := Prune(s.tables, s.clock))
    case Tick(seconds) => s.(clock := s.clock + seconds)
  }

  function Exec(s: State, steps: seq<Step>): State
    decreases steps
  {
    if steps == [] then s else Exec(Apply(s, steps[0]), steps[1..])
  }

  function Init(clock: int): State {
    State(clock, Tables(map[], []), map[], [])
  }

  // ----------------------------------------------------------- invariants

  function RecordOf(e: Entry): Record {
    Record(e.payload, e.operation, e.response, e.expiresAt)
  }

  predicate Matches(e: Entry, job: Job) {
    e.key == job.key && e.payload == job.payload && e.operation == job.kind.Operation()
  }

  /** A response every single send can render. */
  predicate SingleSuccess(response: Response) {
    |response| == 1 && response[0].Success?
  }

  /** The log: stored at known times, by distinct finished requests, each for its own payload. */
  predicate LogOk(s: State) {
    && (forall i :: 0 <= i < |s.log| ==>
          var e := s.log[i];
          && e.job in s.jobs && s.jobs[e.job].phase.Done? && Matches(e, s.jobs[e.job])
          && e.expiresAt == s.jobs[e.job].started + RETENTION && e.at <= s.clock
          && (e.operation == Single.Operation() ==> SingleSuccess(e.response)))
    && forall i, j :: 0 <= i < j < |s.log| ==> s.log[i].job != s.log[j].job && s.log[i].at <= s.log[j].at
  }

  /** Two plans under one key are a retention window apart. */
  predicate Windows(log: seq<Entry>) {
    forall i, j :: 0 <= i < j < |log| && log[i].key.Some? && log[i].key == log[j].key ==> log[i].expiresAt <= log[j].at
  }

  /** Records come from the log. */
  ghost predicate Backed(s: State) {
    forall k :: k in s.tables.records ==>
      exists i :: 0 <= i < |s.log| && s.log[i].key == Some(k) && RecordOf(s.log[i]) == s.tables.records[k]
  }

  /** Every unexpired plan is on record. */
  predicate Live(s: State) {
    forall i :: 0 <= i < |s.log| && s.log[i].key.Some? && s.log[i].expiresAt > s.clock ==>
      s.log[i].key.value in s.tables.records && s.tables.records[s.log[i].key.value] == RecordOf(s.log[i])
  }

  /**
    Entry `i` is the plan a finished request answered from: on record for the
    request's key, payload and operation, and either unexpired at that moment or
    just stored by the request itself.
   */
  predicate AnsweredBy(log: seq<Entry>, job: Job, i: nat) {
    && Succeeded(job) && i < job.phase.stored <= |log| && Matches(log[i], job)
    && log[i].response == job.phase.answer.response
    && (job.phase.at < log[i].expiresAt || (i == job.phase.stored - 1 && log[i].at == job.phase.at))
  }

  predicate Succeeded(job: Job) {
    job.phase.Done? && job.phase.answer.Answered?
  }

  /** What a finished request was told is true of the log. */
  ghost predicate Honest(s: State, job: Job) {
    match job.phase
    case Done(Answered(response), at, stored) =>
      && stored <= |s.log| && (exists i: nat :: AnsweredBy(s.log, job, i))
      && forall i :: 0 <= i < stored ==> s.log[i].at <= at
    case Done(Rejected(_), at, stored) =>
      && job.kind == Single && stored <= |s.log|
      && (forall i :: 0 <= i < stored && job.key.Some? && s.log[i].key == job.key ==> s.log[i].expiresAt <= at)
      && (forall i :: stored <= i < |s.log| ==> at <= s.log[i].at)
    case Done(_, at, stored) => stored <= |s.log|
    case Prepared(plan) => job.kind == Single ==> |plan| == 1 && plan[0].Messages?
    case Reconciling(_) => job.kind == Single
    case _ => true
  }

  predicate Timely(job: Job, clock: int) {
    job.started <= clock && (job.phase.Done? ==> job.phase.at <= clock)
  }

  ghost predicate JobsOk(s: State) {
    forall id :: id in s.jobs ==> Timely(s.jobs[id], s.clock) && Honest(s, s.jobs[id])
  }

  /** All messages stored by the log. */
  function LogMessages(log: seq<Entry>): seq<Sent> {
    if log == [] then [] else LogMessages(log[..|log| - 1]) + Delivered(log[|log| - 1].response)
  }

  ghost predicate Inv(s: State) {
    && LogOk(s) && Windows(s.log) && Backed(s) && Live(s) && JobsOk(s)
    && s.tables.messages == LogMessages(s.log)
  }

  // ------------------------------------------------------- preservation

  /** A request that is not finished has stored nothing. */
  lemma UnfinishedNotLogged(s: State, id: nat)
    requires LogOk(s) && id in s.jobs && !s.jobs[id].phase.Done?
    ensures forall i :: 0 <= i < |s.log| ==> s.log[i].job != id
  {
  }

  /** Changing the phase of an unfinished request. */
  lemma MoveKeeps(s: State, id: nat, phase: Phase)
    requires Inv(s) && id in s.jobs && !s.jobs[id].phase.Done?
    requires Honest(s, s.jobs[id].(phase := phase)) && (phase.Done? ==> phase.at <= s.clock)
    ensures Inv(MoveTo(s, id, phase))
  {
    var t := MoveTo(s, id, phase);
    BackedSame(s, t);
    MoveKeepsLog(s, id, phase);
    MoveKeepsJobs(s, id, phase);
  }

  lemma MoveKeepsLog(s: State, id: nat, phase: Phase)
    requires LogOk(s) && id in s.jobs && !s.jobs[id].phase.Done?
    ensures LogOk(MoveTo(s, id, phase))
  {
    UnfinishedNotLogged(s, id);
  }

  lemma MoveKeepsJobs(s: State, id: nat, phase: Phase)
    requires JobsOk(s) && id in s.jobs
    requires Honest(s, s.jobs[id].(phase := phase)) && (phase.Done? ==> phase.at <= s.clock)
    ensures JobsOk(MoveTo(s, id, phase))
  {
    var t := MoveTo(s, id, phase);
    forall x | x in t.jobs
      ensures Timely(t.jobs[x], t.clock) && Honest(t, t.jobs[x])
    {
      HonestSameLog(s, t, t.jobs[x]);
    }
  }

  lemma HonestSameLog(s: State, t: State, job: Job)
    requires s.log == t.log
    ensures Honest(s, job) <==> Honest(t, job)
  {
  }

  lemma BackedSame(s: State, t: State)
    requires Backed(s) && s.log == t.log && s.tables.records == t.tables.records
    ensures Backed(t)
  {
    forall k | k in t.tables.records
      ensures exists i :: 0 <= i < |t.log| && t.log[i].key == Some(k) && RecordOf(t.log[i]) == t.tables.records[k]
    {
      var i :| 0 <= i < |s.log| && s.log[i].key == Some(k) && RecordOf(s.log[i]) == s.tables.records[k];
      assert t.log[i] == s.log[i];
    }
  }

  /** A replay answers from a matching entry, which a single send can always render. */
  lemma ReplayBacked(s: State, id: nat, claim: Claim, response: Response)
    requires Inv(s) && id in s.jobs && s.jobs[id].ToClaim() == Some(claim)
    requires Find(s.tables, claim, s.clock) == Replay(response)
    ensures Render(s.jobs[id].kind, response) == Answered(response)
    ensures Honest(s, s.jobs[id].(phase := Done(Answered(response), s.clock, |s.log|)))
  {
    var i :| 0 <= i < |s.log| && s.log[i].key == Some(claim.key) && RecordOf(s.log[i]) == s.tables.records[claim.key];
    assert Matches(s.log[i], s.jobs[id]) && s.log[i].response == response && s.clock < s.log[i].expiresAt;
    assert AnsweredBy(s.log, s.jobs[id].(phase := Done(Answered(response), s.clock, |s.log|)), i);
  }

  /** No lookup would find a stored plan for this request now. */
  predicate Missing(s: State, job: Job) {
    job.ToClaim().None? || Find(s.tables, job.ToClaim().value, s.clock) == New
  }

  /** On a miss every plan stored under the key has expired. */
  lemma MissMeansExpired(s: State, job: Job)
    requires Live(s) && Missing(s, job) && job.key.Some?
    ensures forall i :: 0 <= i < |s.log| && s.log[i].key == job.key ==> s.log[i].expiresAt <= s.clock
  {
    assert job.ToClaim().value.key == job.key.value;
  }

  lemma ReplayKeeps(s: State, id: nat, claim: Claim, response: Response)
    requires Inv(s) && id in s.jobs && !s.jobs[id].phase.Done? && s.jobs[id].ToClaim() == Some(claim)
    requires Find(s.tables, claim, s.clock) == Replay(response)
    ensures Inv(Finish(s, id, Render(s.jobs[id].kind, response)))
  {
    ReplayBacked(s, id, claim, response);
    MoveKeeps(s, id, Done(Answered(response), s.clock, |s.log|));
  }

  lemma ConflictKeeps(s: State, id: nat)
    requires Inv(s) && id in s.jobs && !s.jobs[id].phase.Done?
    ensures Inv(Finish(s, id, KeyConflict))
  {
    MoveKeeps(s, id, Done(KeyConflict, s.clock, |s.log|));
  }

  /** The three ways out of `cached_send_operation`. */
  lemma CachedCases(s: State, id: nat, onMiss: State, keeps: State -> bool)
    requires id in s.jobs
    requires Missing(s, s.jobs[id]) ==> keeps(onMiss)
    requires var claim := s.jobs[id].ToClaim();
             claim.Some? && Find(s.tables, claim.value, s.clock).Replay? ==>
               keeps(Finish(s, id, Render(s.jobs[id].kind, Find(s.tables, claim.value, s.clock).response)))
    requires !Missing(s, s.jobs[id]) ==> keeps(Finish(s, id, KeyConflict))
    ensures keeps(Cached(s, id, onMiss))
  {
  }

  lemma CachedKeeps(s: State, id: nat, onMiss: State)
    requires Inv(s) && id in s.jobs && !s.jobs[id].phase.Done?
    requires Missing(s, s.jobs[id]) ==> Inv(onMiss)
    ensures Inv(Cached(s, id, onMiss))
  {
    var claim := s.jobs[id].ToClaim();
    if claim.Some? && Find(s.tables, claim.value, s.clock).Replay? {
      ReplayKeeps(s, id, claim.value, Find(s.tables, claim.value, s.clock).response);
    }
    ConflictKeeps(s, id);
    CachedCases(s, id, onMiss, x => Inv(x));
  }

  /** Answering with one's own error at reconciliation. */
  lemma RejectKeeps(s: State, id: nat)
    requires Inv(s) && id in s.jobs && s.jobs[id].phase.Reconciling?
    requires Missing(s, s.jobs[id])
    ensures Inv(Finish(s, id, Rejected(s.jobs[id].phase.error)))
  {
    if s.jobs[id].key.Some? {
      MissMeansExpired(s, s.jobs[id]);
    }
    MoveKeeps(s, id, Done(Rejected(s.jobs[id].phase.error), s.clock, |s.log|));
  }

  // ------------------------------------------------------------ the commit

  /** The state right after a plan was stored. */
  function AfterStore(s: State, id: nat, response: Response, tables: Tables): State
    requires id in s.jobs
  {
    var job := s.jobs[id];
    var entry := Entry(id, job.key, job.payload, job.kind.Operation(), response, s.clock, job.started + RETENTION);
    Finish(s.(tables := tables, log := s.log + [entry]), id, Answered(response))
  }

  lemma StoreKeepsLog(s: State, id: nat, response: Response, tables: Tables)
    requires LogOk(s) && id in s.jobs && s.jobs[id].phase.Prepared?
    requires s.jobs[id].kind == Single ==> SingleSuccess(response)
    ensures LogOk(AfterStore(s, id, response, tables))
  {
    UnfinishedNotLogged(s, id);
  }

  lemma StoreKeepsWindows(s: State, id: nat, response: Response, tables: Tables)
    requires Windows(s.log) && Live(s) && id in s.jobs && Missing(s, s.jobs[id])
    ensures Windows(AfterStore(s, id, response, tables).log)
  {
    if s.jobs[id].key.Some? {
      MissMeansExpired(s, s.jobs[id]);
    }
  }

  lemma StoreKeepsJobs(s: State, id: nat, response: Response, tables: Tables)
    requires Inv(s) && id in s.jobs && s.jobs[id].phase.Prepared?
    ensures JobsOk(AfterStore(s, id, response, tables))
  {
    var t := AfterStore(s, id, response, tables);
    forall x | x in t.jobs
      ensures Timely(t.jobs[x], t.clock) && Honest(t, t.jobs[x])
    {
      if x == id {
        OwnAnswer(s, id, response, tables);
      } else {
        HonestGrows(s, t, t.jobs[x]);
      }
    }
  }

  /** The request that stored is answered from its own plan. */
  lemma OwnAnswer(s: State, id: nat, response: Response, tables: Tables)
    requires LogOk(s) && id in s.jobs && s.jobs[id].started <= s.clock
    ensures var t := AfterStore(s, id, response, tables);
            Timely(t.jobs[id], t.clock) && Honest(t, t.jobs[id])
  {
    var t := AfterStore(s, id, response, tables);
    assert forall i :: 0 <= i < |s.log| ==> t.log[i] == s.log[i];
    assert AnsweredBy(t.log, t.jobs[id], |s.log|);
  }

  lemma HonestGrows(s: State, t: State, job: Job)
    requires Honest(s, job) && |t.log| == |s.log| + 1 && t.log[..|s.log|] == s.log && t.log[|s.log|].at == s.clock
    requires job.phase.Done? ==> job.phase.at <= s.clock
    ensures Honest(t, job)
  {
    assert forall i :: 0 <= i < |s.log| ==> t.log[i] == s.log[i];
    if job.phase.Done? && job.phase.answer.Answered? {
      var i: nat :| AnsweredBy(s.log, job, i);
      assert AnsweredBy(t.log, job, i);
    }
  }

  /** What a commit that finds nothing does to the tables. */
  lemma CommitStores(s: State, id: nat, plan: seq<PlanItem>)
    requires id in s.jobs && Missing(s, s.jobs[id])
    ensures var (tables, outcome) := Commit(s.tables, plan, s.jobs[id].ToClaim(), s.clock);
            var response := Results(plan, |s.tables.messages|);
            && outcome == Stored(response)
            && tables.messages == s.tables.messages + Delivered(response)
            && var stored := AfterStore(s, id, response, tables).log[|s.log|];
               tables.records == match s.jobs[id].key
                                 case None => s.tables.records
                                 case Some(k) => s.tables.records[k := RecordOf(stored)]
  {
  }

  lemma StoreKeepsBacked(s: State, id: nat, response: Response, tables: Tables)
    requires Backed(s) && id in s.jobs
    requires var entry := AfterStore(s, id, response, tables).log[|s.log|];
             tables.records == match s.jobs[id].key
                               case None => s.tables.records
                               case Some(k) => s.tables.records[k := RecordOf(entry)]
    ensures Backed(AfterStore(s, id, response, tables))
  {
    var t := AfterStore(s, id, response, tables);
    var n := |s.log|;
    forall k | k in t.tables.records
      ensures exists i :: 0 <= i < |t.log| && t.log[i].key == Some(k) && RecordOf(t.log[i]) == t.tables.records[k]
    {
      if s.jobs[id].key == Some(k) {
        assert t.log[n].key == Some(k) && RecordOf(t.log[n]) == t.tables.records[k];
      } else {
        var i :| 0 <= i < n && s.log[i].key == Some(k) && RecordOf(s.log[i]) == s.tables.records[k];
        assert t.log[i] == s.log[i];
      }
    }
  }

  lemma StoreKeepsLive(s: State, id: nat, response: Response, tables: Tables)
    requires Live(s) && id in s.jobs && Missing(s, s.jobs[id])
    requires var entry := AfterStore(s, id, response, tables).log[|s.log|];
             tables.records == match s.jobs[id].key
                               case None => s.tables.records
                               case Some(k) => s.tables.records[k := RecordOf(entry)]
    ensures Live(AfterStore(s, id, response, tables))
  {
    var t := AfterStore(s, id, response, tables);
    if s.jobs[id].key.Some? {
      MissMeansExpired(s, s.jobs[id]);
    }
    assert forall i :: 0 <= i < |s.log| ==> t.log[i] == s.log[i];
  }

  lemma LogMessagesAppend(log: seq<Entry>, entry: Entry)
    ensures LogMessages(log + [entry]) == LogMessages(log) + Delivered(entry.response)
  {
    assert (log + [entry])[..|log|] == log;
  }

  lemma StoreIsAfterStore(s: State, id: nat, plan: seq<PlanItem>)
    requires id in s.jobs && Missing(s, s.jobs[id])
    requires s.jobs[id].kind == Single ==> SingleSuccess(Results(plan, |s.tables.messages|))
    ensures Store(s, id, plan) == AfterStore(s, id, Results(plan, |s.tables.messages|),
                                             Commit(s.tables, plan, s.jobs[id].ToClaim(), s.clock).0)
  {
  }

  lemma StoreNewKeeps(s: State, id: nat, plan: seq<PlanItem>)
    requires Inv(s) && id in s.jobs && s.jobs[id].phase == Prepared(plan)
    requires Missing(s, s.jobs[id])
    ensures Inv(Store(s, id, plan))
  {
    var tables := Commit(s.tables, plan, s.jobs[id].ToClaim(), s.clock).0;
    var response := Results(plan, |s.tables.messages|);
    CommitStores(s, id, plan);
    SingleStored(s, id, plan);
    StoreKeepsLog(s, id, response, tables);
    StoreKeepsWindows(s, id, response, tables);
    StoreKeepsBacked(s, id, response, tables);
    StoreKeepsLive(s, id, response, tables);
    StoreKeepsJobs(s, id, response, tables);
    LogMessagesAppend(s.log, AfterStore(s, id, response, tables).log[|s.log|]);
    StoreIsAfterStore(s, id, plan);
  }

  lemma SingleStored(s: State, id: nat, plan: seq<PlanItem>)
    requires JobsOk(s) && id in s.jobs && s.jobs[id].phase == Prepared(plan)
    ensures s.jobs[id].kind == Single ==> SingleSuccess(Results(plan, |s.tables.messages|))
  {
    assert Honest(s, s.jobs[id]);
    if s.jobs[id].kind == Single {
      assert plan == [Messages(plan[0].recipients)];
      SinglePlan(plan[0].recipients, |s.tables.messages|);
    }
  }

  /** Losing the race to store is the same as having found the winner at lookup. */
  lemma StoreLoses(s: State, id: nat, plan: seq<PlanItem>, claim: Claim)
    requires id in s.jobs && s.jobs[id].ToClaim() == Some(claim) && Find(s.tables, claim, s.clock) != New
    ensures Store(s, id, plan) == Cached(s, id, s)
  {
  }

  lemma StoreKeeps(s: State, id: nat)
    requires Inv(s) && id in s.jobs && s.jobs[id].phase.Prepared?
    ensures Inv(Store(s, id, s.jobs[id].phase.plan))
  {
    var job := s.jobs[id];
    if Missing(s, job) {
      StoreNewKeeps(s, id, job.phase.plan);
    } else {
      StoreLoses(s, id, job.phase.plan, job.ToClaim().value);
      CachedKeeps(s, id, s);
    }
  }

  // ------------------------------------------------------- the other steps

  lemma ArriveKeeps(s: State, id: nat, kind: Kind, key: Option<string>, payload: string)
    requires Inv(s)
    ensures Inv(Apply(s, Arrive(id, kind, key, payload)))
  {
    var t := Apply(s, Arrive(id, kind, key, payload));
    BackedSame(s, t);
    if id !in s.jobs {
      ArriveKeepsJobs(s, id, Job(kind, key, payload, s.clock, Arrived));
    }
  }

  lemma ArriveKeepsJobs(s: State, id: nat, job: Job)
    requires JobsOk(s) && job.started == s.clock && job.phase == Arrived
    ensures JobsOk(s.(jobs := s.jobs[id := job]))
  {
    var t := s.(jobs := s.jobs[id := job]);
    forall x | x in t.jobs
      ensures Timely(t.jobs[x], t.clock) && Honest(t, t.jobs[x])
    {
      HonestSameLog(s, t, t.jobs[x]);
    }
  }

  lemma TickKeeps(s: State, seconds: nat)
    requires Inv(s)
    ensures Inv(Apply(s, Tick(seconds)))
  {
    var t := Apply(s, Tick(seconds));
    BackedSame(s, t);
    TimeKeepsLog(s, t);
    TimeKeepsJobs(s, t);
  }

  lemma TimeKeepsLog(s: State, t: State)
    requires LogOk(s) && Live(s) && t == s.(clock := t.clock) && s.clock <= t.clock
    ensures LogOk(t) && Live(t)
  {
  }

  lemma TimeKeepsJobs(s: State, t: State)
    requires JobsOk(s) && t.jobs == s.jobs && t.log == s.log && s.clock <= t.clock
    ensures JobsOk(t)
  {
    forall x | x in t.jobs
      ensures Timely(t.jobs[x], t.clock) && Honest(t, t.jobs[x])
    {
      HonestSameLog(s, t, t.jobs[x]);
    }
  }

  lemma PruneKeeps(s: State)
    requires Inv(s)
    ensures Inv(Apply(s, PruneExpired))
  {
    var t := Apply(s, PruneExpired);
    PruneKeepsBacked(s);
    PruneKeepsLive(s);
    TimeKeepsJobs(s, t);
  }

  lemma PruneKeepsLive(s: State)
    requires LogOk(s) && Live(s)
    ensures LogOk(Apply(s, PruneExpired)) && Live(Apply(s, PruneExpired))
  {
  }

  lemma PruneKeepsBacked(s: State)
    requires Backed(s)
    ensures Backed(Apply(s, PruneExpired))
  {
    var t := Apply(s, PruneExpired);
    forall k | k in t.tables.records
      ensures exists i :: 0 <= i < |t.log| && t.log[i].key == Some(k) && RecordOf(t.log[i]) == t.tables.records[k]
    {
      var i :| 0 <= i < |s.log| && s.log[i].key == Some(k) && RecordOf(s.log[i]) == s.tables.records[k];
      assert t.log[i] == s.log[i];
    }
  }

  lemma LookUpKeeps(s: State, id: nat)
    requires Inv(s)
    ensures Inv(Apply(s, LookUp(id)))
  {
    if id in s.jobs && s.jobs[id].phase.Arrived? {
      MoveKeeps(s, id, Preparing);
      CachedKeeps(s, id, MoveTo(s, id, Preparing));
    }
  }

  lemma PrepareKeeps(s: State, step: Step)
    requires Inv(s) && (step.PrepareOk? || step.PrepareError?)
    ensures Inv(Apply(s, step))
  {
    if Apply(s, step) != s {
      MoveKeeps(s, step.id, if step.PrepareOk? then Prepared(step.plan) else Reconciling(step.error));
    }
  }

  lemma ReconcileKeeps(s: State, id: nat)
    requires Inv(s)
    ensures Inv(Apply(s, Reconcile(id)))
  {
    if id in s.jobs && s.jobs[id].phase.Reconciling? {
      if Missing(s, s.jobs[id]) {
        RejectKeeps(s, id);
      }
      CachedKeeps(s, id, Finish(s, id, Rejected(s.jobs[id].phase.error)));
    }
  }

  lemma CommitKeeps(s: State, id: nat)
    requires Inv(s)
    ensures Inv(Apply(s, CommitPlan(id)))
  {
    CommitIsStore(s, id);
    if id in s.jobs && s.jobs[id].phase.Prepared? {
      StoreKeeps(s, id);
    }
  }

  lemma CommitIsStore(s: State, id: nat)
    ensures Apply(s, CommitPlan(id))
         == if id in s.jobs && s.jobs[id].phase.Prepared? then Store(s, id, s.jobs[id].phase.plan) else s
  {
  }

  lemma FailureKeeps(s: State, id: nat)
    requires Inv(s)
    ensures Inv(Apply(s, StoreFails(id)))
  {
    if id in s.jobs && !s.jobs[id].phase.Done? {
      MoveKeeps(s, id, Done(Internal, s.clock, |s.log|));
    }
  }

  /** Every step of every request keeps the invariant. */
  lemma StepKeeps(s: State, step: Step)
    requires Inv(s)
    ensures Inv(Apply(s, step))
  {
    match step
    case Arrive(id, kind, key, payload) => ArriveKeeps(s, id, kind, key, payload);
    case LookUp(id) => LookUpKeeps(s, id);
    case PrepareOk(_, _) => PrepareKeeps(s, step);
    case PrepareError(_, _) => PrepareKeeps(s, step);
    case CommitPlan(id) => CommitKeeps(s, id);
    case Reconcile(id) => ReconcileKeeps(s, id);
    case StoreFails(id) => FailureKeeps(s, id);
    case PruneExpired => PruneKeeps(s);
    case Tick(seconds) => TickKeeps(s, seconds);
  }

  lemma {:induction false} RunKeeps(s: State, steps: seq<Step>)
    requires Inv(s)
    ensures Inv(Exec(s, steps))
    decreases steps
  {
    if steps != [] {
      StepKeeps(s, steps[0]);
      RunKeeps(Apply(s, steps[0]), steps[1..]);
    }
  }

  lemma {:induction false} StartTimes(s: State, steps: seq<Step>, from: int)
    requires from <= s.clock && forall id :: id in s.jobs ==> from <= s.jobs[id].started
    ensures forall id :: id in Exec(s, steps).jobs ==> from <= Exec(s, steps).jobs[id].started
    decreases steps
  {
    if steps != [] {
      StartTimes(Apply(s, steps[0]), steps[1..], from);
    }
  }

  // ------------------------------------------------------------- theorems

  /** Plan `j` was stored no earlier than a retention window after the arrival of the request that stored plan `i`. */
  predicate WindowAfterArrival(s: State, i: nat, j: nat) {
    && i < |s.log| && j < |s.log| && s.log[i].job in s.jobs
    && s.jobs[s.log[i].job].started + RETENTION <= s.log[j].at
  }

  /**
    Of two plans stored under one key, in any run, the second was stored no earlier
    than a retention window after the first one's request arrived. The window does
    not run from the first store: see `SlowRequest`.
   */
  lemma OncePerWindow(clock: int, steps: seq<Step>, i: nat, j: nat)
    requires var s := Exec(Init(clock), steps); i < j < |s.log| && s.log[i].key.Some? && s.log[i].key == s.log[j].key
    ensures WindowAfterArrival(Exec(Init(clock), steps), i, j)
  {
    RunKeeps(Init(clock), steps);
    StoredApart(Exec(Init(clock), steps), i, j);
  }

  /** A key's only stored plan. */
  predicate OnlyPlan(s: State, key: Option<string>, i: nat) {
    i < |s.log| && s.log[i].key == key && forall j :: 0 <= j < |s.log| && s.log[j].key == key ==> j == i
  }

  /** The plan a request was answered from is the one that was live at that moment. */
  lemma LivePlanIsIt(log: seq<Entry>, job: Job, i: nat, j: nat)
    requires Windows(log) && AnsweredBy(log, job, j) && job.key.Some?
    requires forall k :: 0 <= k < job.phase.stored ==> log[k].at <= job.phase.at
    requires i < job.phase.stored && log[i].key == job.key && job.phase.at < log[i].expiresAt
    ensures i == j
  {
  }

  /** A request answered while a plan under its key was unexpired was answered from that plan. */
  lemma LivePlan(s: State, id: nat, i: nat)
    requires Windows(s.log) && JobsOk(s) && id in s.jobs && Succeeded(s.jobs[id]) && s.jobs[id].key.Some?
    requires i < s.jobs[id].phase.stored <= |s.log| && s.log[i].key == s.jobs[id].key
    requires s.jobs[id].phase.at < s.log[i].expiresAt
    ensures AnsweredBy(s.log, s.jobs[id], i)
  {
    assert Honest(s, s.jobs[id]);
    var j: nat :| AnsweredBy(s.log, s.jobs[id], j);
    LivePlanIsIt(s.log, s.jobs[id], i, j);
  }

  /** The same over every interleaving of any length: whoever succeeds under a live plan is answered from it. */
  lemma LivePlanAnswers(clock: int, steps: seq<Step>, id: nat, i: nat)
    requires var s := Exec(Init(clock), steps);
             && id in s.jobs && Succeeded(s.jobs[id]) && s.jobs[id].key.Some?
             && i < |s.log| && s.log[i].key == s.jobs[id].key
             && i < s.jobs[id].phase.stored && s.jobs[id].phase.at < s.log[i].expiresAt
    ensures var s := Exec(Init(clock), steps);
            && s.jobs[id].phase.answer == Answered(s.log[i].response)
            && s.jobs[id].payload == s.log[i].payload && s.jobs[id].kind.Operation() == s.log[i].operation
  {
    var s := Exec(Init(clock), steps);
    RunKeeps(Init(clock), steps);
    assert Honest(s, s.jobs[id]);
    LivePlan(s, id, i);
  }

  /**
    Idempotency over every interleaving of any length: two successes under one key
    were answered from the same plan, and then agree in response, payload and
    operation, or from two plans of which the later one was stored no earlier than a
    retention window after the arrival of the request that stored the earlier one.
   */
  lemma Idempotent(clock: int, steps: seq<Step>, a: nat, b: nat)
    requires var s := Exec(Init(clock), steps);
             && a in s.jobs && b in s.jobs && Succeeded(s.jobs[a]) && Succeeded(s.jobs[b])
             && s.jobs[a].key.Some? && s.jobs[a].key == s.jobs[b].key
    ensures var s := Exec(Init(clock), steps);
            || (&& s.jobs[a].phase.answer == s.jobs[b].phase.answer
                && s.jobs[a].payload == s.jobs[b].payload && s.jobs[a].kind == s.jobs[b].kind)
            || (exists i: nat, j: nat :: WindowApart(s, a, b, i, j))
            || (exists i: nat, j: nat :: WindowApart(s, b, a, i, j))
  {
    var s := Exec(Init(clock), steps);
    RunKeeps(Init(clock), steps);
    var i := AnsweringPlan(s, a);
    var j := AnsweringPlan(s, b);
    if i < j {
      StoredApart(s, i, j);
    } else if j < i {
      StoredApart(s, j, i);
    }
    TwoPlans(s, a, b, i, j);
  }

  /** Two successes are answered from one plan or from two, one stored after the other's window. */
  lemma TwoPlans(s: State, a: nat, b: nat, i: nat, j: nat)
    requires a in s.jobs && b in s.jobs && AnsweredBy(s.log, s.jobs[a], i) && AnsweredBy(s.log, s.jobs[b], j)
    requires i < j ==> WindowAfterArrival(s, i, j)
    requires j < i ==> WindowAfterArrival(s, j, i)
    ensures || (&& s.jobs[a].phase.answer == s.jobs[b].phase.answer
                && s.jobs[a].payload == s.jobs[b].payload && s.jobs[a].kind == s.jobs[b].kind)
            || (exists i: nat, j: nat :: WindowApart(s, a, b, i, j))
            || (exists i: nat, j: nat :: WindowApart(s, b, a, i, j))
  {
    assert i < j ==> WindowApart(s, a, b, i, j);
    assert j < i ==> WindowApart(s, b, a, j, i);
  }

  lemma AnsweringPlan(s: State, id: nat) returns (i: nat)
    requires JobsOk(s) && id in s.jobs && Succeeded(s.jobs[id])
    ensures AnsweredBy(s.log, s.jobs[id], i)
  {
    assert Honest(s, s.jobs[id]);
    i :| AnsweredBy(s.log, s.jobs[id], i);
  }

  lemma StoredApart(s: State, i: nat, j: nat)
    requires LogOk(s) && Windows(s.log) && i < j < |s.log| && s.log[i].key.Some? && s.log[i].key == s.log[j].key
    ensures WindowAfterArrival(s, i, j)
  {
    assert s.log[i].expiresAt <= s.log[j].at;
  }

  /** The two were answered from different plans, the second stored after the first one's window. */
  predicate WindowApart(s: State, first: nat, second: nat, i: nat, j: nat) {
    && first in s.jobs && second in s.jobs
    && AnsweredBy(s.log, s.jobs[first], i) && AnsweredBy(s.log, s.jobs[second], j)
    && WindowAfterArrival(s, i, j)
  }

  // ------------------------------------------------ what a step must answer

  /** Plan `i` is stored under the request's key and has not expired. */
  predicate LiveFor(s: State, job: Job, i: nat) {
    i < |s.log| && job.key.Some? && s.log[i].key == job.key && s.clock < s.log[i].expiresAt
  }

  /** What the tables answer a request, in terms of the plans stored so far. */
  lemma LookupByLog(s: State, job: Job, i: nat)
    requires Live(s) && LiveFor(s, job, i)
    ensures job.ToClaim().Some?
    ensures Find(s.tables, job.ToClaim().value, s.clock)
         == if Matches(s.log[i], job) then Replay(s.log[i].response) else Conflict
  {
    assert s.tables.records[job.key.value] == RecordOf(s.log[i]);
  }

  /** A request with no live plan under its key finds nothing. */
  lemma NothingLive(s: State, job: Job)
    requires Backed(s)
    ensures Missing(s, job) || exists i: nat :: LiveFor(s, job, i)
  {
    if !Missing(s, job) {
      var key := job.key.value;
      var i :| 0 <= i < |s.log| && s.log[i].key == Some(key) && RecordOf(s.log[i]) == s.tables.records[key];
      assert LiveFor(s, job, i);
    }
  }

  /** The request asks the tables for its key in this step: at lookup, at commit or at reconciliation. */
  predicate Asks(s: State, step: Step, id: nat) {
    && id in s.jobs
    && match step
       case LookUp(x) => x == id && s.jobs[id].phase.Arrived?
       case CommitPlan(x) => x == id && s.jobs[id].phase.Prepared?
       case Reconcile(x) => x == id && s.jobs[id].phase.Reconciling?
       case _ => false
  }

  /**
    A retry gets the stored response: while a plan under its key is live, a request
    with that plan's payload and operation is answered with the plan's response, at
    whichever step it asks, and nothing is stored.
   */
  lemma RetryIsReplayed(s: State, step: Step, id: nat, i: nat)
    requires Inv(s) && Asks(s, step, id) && LiveFor(s, s.jobs[id], i) && Matches(s.log[i], s.jobs[id])
    ensures Apply(s, step)
         == s.(jobs := s.jobs[id := s.jobs[id].(phase := Done(Answered(s.log[i].response), s.clock, |s.log|))])
  {
    LookupByLog(s, s.jobs[id], i);
    AskFinds(s, step, id);
    ReplayBacked(s, id, s.jobs[id].ToClaim().value, s.log[i].response);
  }

  /** Whatever step asks, finding a record is answered alike. */
  lemma AskFinds(s: State, step: Step, id: nat)
    requires Asks(s, step, id) && !Missing(s, s.jobs[id])
    ensures Apply(s, step) == Cached(s, id, s)
  {
    if step.CommitPlan? {
      StoreLoses(s, id, s.jobs[id].phase.plan, s.jobs[id].ToClaim().value);
    }
  }

  /** While it is live, a request with another payload or operation is refused, and nothing is stored. */
  lemma OtherPayloadConflicts(s: State, step: Step, id: nat, i: nat)
    requires Inv(s) && Asks(s, step, id) && LiveFor(s, s.jobs[id], i) && !Matches(s.log[i], s.jobs[id])
    ensures Apply(s, step) == s.(jobs := s.jobs[id := s.jobs[id].(phase := Done(KeyConflict, s.clock, |s.log|))])
  {
    LookupByLog(s, s.jobs[id], i);
    AskFinds(s, step, id);
  }

  /** With no live plan under its key a request goes on: it prepares, it stores its plan,
    or it answers its own error. */
  lemma MissGoesOn(s: State, step: Step, id: nat)
    requires Inv(s) && Asks(s, step, id) && !exists i: nat :: LiveFor(s, s.jobs[id], i)
    ensures var job, t := s.jobs[id], Apply(s, step);
            && (step.LookUp? ==> t == s.(jobs := s.jobs[id := job.(phase := Preparing)]))
            && (step.Reconcile? ==>
                  t == s.(jobs := s.jobs[id := job.(phase := Done(Rejected(job.phase.error), s.clock, |s.log|))]))
            && (step.CommitPlan? ==>
                  var response := Results(job.phase.plan, |s.tables.messages|);
                  && |t.log| == |s.log| + 1 && t.log[..|s.log|] == s.log
                  && t.log[|s.log|].response == response && Matches(t.log[|s.log|], job) && t.log[|s.log|].at == s.clock
                  && t.tables.messages == s.tables.messages + Delivered(response)
                  && t.jobs == s.jobs[id := job.(phase := Done(Answered(response), s.clock, |s.log| + 1))])
  {
    NothingLive(s, s.jobs[id]);
    if step.CommitPlan? {
      var plan := s.jobs[id].phase.plan;
      SingleStored(s, id, plan);
      CommitStores(s, id, plan);
      StoreIsAfterStore(s, id, plan);
    }
  }

  /** So a key conflict is answered exactly while a plan under the key with another payload or operation is live. */
  lemma ConflictExactly(s: State, step: Step, id: nat)
    requires Inv(s) && Asks(s, step, id)
    ensures Apply(s, step).jobs[id].phase == Done(KeyConflict, s.clock, |s.log|) <==>
            exists i: nat :: LiveFor(s, s.jobs[id], i) && !Matches(s.log[i], s.jobs[id])
  {
    if i: nat :| LiveFor(s, s.jobs[id], i) {
      if Matches(s.log[i], s.jobs[id]) {
        RetryIsReplayed(s, step, id, i);
        OneLivePlan(s, s.jobs[id], i);
      } else {
        OtherPayloadConflicts(s, step, id, i);
      }
    } else {
      MissGoesOn(s, step, id);
    }
  }

  lemma OneLivePlan(s: State, job: Job, i: nat)
    requires LogOk(s) && Windows(s.log) && LiveFor(s, job, i)
    ensures forall j: nat :: LiveFor(s, job, j) ==> j == i
  {
  }

  // -------------------------------------------- how close two stores can be

  /** One keyed request that commits `wait` seconds after it arrived. */
  function OneRequest(id: nat, kind: Kind, key: string, payload: string, plan: seq<PlanItem>, wait: nat): seq<Step> {
    [Arrive(id, kind, Some(key), payload), LookUp(id), PrepareOk(id, plan), Tick(wait), CommitPlan(id)]
  }

  lemma {:induction false} ExecAppend(s: State, a: seq<Step>, b: seq<Step>)
    ensures Exec(s, a + b) == Exec(Exec(s, a), b)
    decreases a
  {
    if a == [] {
      assert a + b == b;
    } else {
      assert (a + b)[0] == a[0] && (a + b)[1..] == a[1..] + b;
      ExecAppend(Apply(s, a[0]), a[1..], b);
    }
  }

  lemma ExecCons(s: State, step: Step, rest: seq<Step>)
    ensures Exec(s, [step] + rest) == Exec(Apply(s, step), rest)
  {
    assert ([step] + rest)[1..] == rest;
  }

  lemma ExecFive(s: State, a: Step, b: Step, c: Step, d: Step, e: Step)
    ensures Exec(s, [a, b, c, d, e]) == Apply(Apply(Apply(Apply(Apply(s, a), b), c), d), e)
  {
    var s1, s2 := Apply(s, a), Apply(Apply(s, a), b);
    var s3, s4 := Apply(s2, c), Apply(Apply(s2, c), d);
    ExecCons(s, a, [b, c, d, e]);
    ExecCons(s1, b, [c, d, e]);
    ExecCons(s2, c, [d, e]);
    ExecCons(s3, d, [e]);
    ExecCons(s4, e, []);
    assert [a] + [b, c, d, e] == [a, b, c, d, e] && [b] + [c, d, e] == [b, c, d, e];
    assert [c] + [d, e] == [c, d, e] && [d] + [e] == [d, e] && [e] + [] == [e];
  }

  /** A request that finds no unexpired record stores its plan when it commits, however late that is. */
  lemma OneRequestStores(s: State, id: nat, kind: Kind, key: string, payload: string, plan: seq<PlanItem>, wait: nat)
    requires id !in s.jobs && (kind == Single ==> |plan| == 1 && plan[0].Messages?)
    requires key in s.tables.records ==> s.tables.records[key].expiresAt <= s.clock
    ensures var t := Exec(s, OneRequest(id, kind, key, payload, plan, wait));
            && t.clock == s.clock + wait && t.jobs.Keys == s.jobs.Keys + {id} && Succeeded(t.jobs[id])
            && |t.log| == |s.log| + 1 && t.log[..|s.log|] == s.log
            && t.log[|s.log|].key == Some(key) && t.log[|s.log|].at == t.clock
            && key in t.tables.records && t.tables.records[key].expiresAt == s.clock + RETENTION
  {
    var job := Job(kind, Some(key), payload, s.clock, Arrived);
    var s1 := Apply(s, Arrive(id, kind, Some(key), payload));
    var s2 := Apply(s1, LookUp(id));
    assert s2.jobs == s.jobs[id := job.(phase := Preparing)];
    var s3 := Apply(s2, PrepareOk(id, plan));
    assert s3 == s.(jobs := s.jobs[id := job.(phase := Prepared(plan))]);
    var s4 := Apply(s3, Tick(wait));
    ExecFive(s, Arrive(id, kind, Some(key), payload), LookUp(id), PrepareOk(id, plan), Tick(wait), CommitPlan(id));
    CommitAlone(s4, id, plan);
  }

  lemma CommitAlone(s: State, id: nat, plan: seq<PlanItem>)
    requires id in s.jobs && s.jobs[id].phase == Prepared(plan) && s.jobs[id].key.Some?
    requires s.jobs[id].kind == Single ==> |plan| == 1 && plan[0].Messages?
    requires var key := s.jobs[id].key.value;
             key in s.tables.records ==> s.tables.records[key].expiresAt <= s.clock
    ensures var t := Apply(s, CommitPlan(id));
            var key := s.jobs[id].key.value;
            && t.clock == s.clock && t.jobs.Keys == s.jobs.Keys && Succeeded(t.jobs[id])
            && |t.log| == |s.log| + 1 && t.log[..|s.log|] == s.log
            && t.log[|s.log|].key == Some(key) && t.log[|s.log|].at == s.clock
            && key in t.tables.records && t.tables.records[key].expiresAt == s.jobs[id].started + RETENTION
  {
    if s.jobs[id].kind == Single {
      assert plan == [Messages(plan[0].recipients)];
      SinglePlan(plan[0].recipients, |s.tables.messages|);
    }
    CommitStores(s, id, plan);
    StoreIsAfterStore(s, id, plan);
  }

  /** A request that takes `delay` seconds to commit, and the same request sent again once its window is over. */
  function SlowRun(kind: Kind, key: string, payload: string, plan: seq<PlanItem>, delay: nat): seq<Step> {
    OneRequest(0, kind, key, payload, plan, delay)
    + ([Tick(if delay < RETENTION then RETENTION - delay else 0)] + OneRequest(1, kind, key, payload, plan, 0))
  }

  /**
    The bound is met: for every commit delay there is a run of two equal requests
    under one key that both store, only the rest of the window apart. With a delay
    of a whole window the two stores happen at the same instant.
   */
  lemma SlowRequest(clock: int, kind: Kind, key: string, payload: string, plan: seq<PlanItem>, delay: nat)
    requires kind == Single ==> |plan| == 1 && plan[0].Messages?
    ensures var s := Exec(Init(clock), SlowRun(kind, key, payload, plan, delay));
            && 0 in s.jobs && 1 in s.jobs && Succeeded(s.jobs[1])
            && |s.log| == 2 && s.log[0].key == s.log[1].key == Some(key) && s.log[0].at == clock + delay
            && s.log[1].at - s.log[0].at == if delay < RETENTION then RETENTION - delay else 0
  {
    var rest := if delay < RETENTION then RETENTION - delay else 0;
    var first, second := OneRequest(0, kind, key, payload, plan, delay), OneRequest(1, kind, key, payload, plan, 0);
    var s := Exec(Init(clock), first);
    OneRequestStores(Init(clock), 0, kind, key, payload, plan, delay);
    var t := Apply(s, Tick(rest));
    OneRequestStores(t, 1, kind, key, payload, plan, 0);
    ExecAppend(Init(clock), first, [Tick(rest)] + second);
    assert ([Tick(rest)] + second)[1..] == second;
    var end := Exec(t, second);
    assert end.log[0] == end.log[..1][0];
  }

  // ------------------------------------------------- the first window and errors

  /**
    Before the first record can expire a key has one stored plan, and every success
    under it returns that plan's response to the same payload and operation.
   */
  lemma OnePlanWithinRetention(clock: int, steps: seq<Step>, a: nat, b: nat)
    requires var s := Exec(Init(clock), steps);
             s.clock < clock + RETENTION && a in s.jobs && b in s.jobs
             && Succeeded(s.jobs[a]) && Succeeded(s.jobs[b]) && s.jobs[a].key.Some? && s.jobs[a].key == s.jobs[b].key
    ensures var s := Exec(Init(clock), steps);
            && s.jobs[a].phase.answer == s.jobs[b].phase.answer
            && s.jobs[a].payload == s.jobs[b].payload && s.jobs[a].kind == s.jobs[b].kind
            && exists i: nat :: OnlyPlan(s, s.jobs[a].key, i) && s.log[i].response == s.jobs[a].phase.answer.response
  {
    var s := Exec(Init(clock), steps);
    RunKeeps(Init(clock), steps);
    StartTimes(Init(clock), steps, clock);
    var i := AnsweredFrom(s, clock, a);
    var j := AnsweredFrom(s, clock, b);
    assert j == i;
  }

  /** The plan a success was answered from; no other was stored under its key. */
  lemma AnsweredFrom(s: State, clock: int, id: nat) returns (i: nat)
    requires Inv(s) && s.clock < clock + RETENTION && (forall x :: x in s.jobs ==> clock <= s.jobs[x].started)
    requires id in s.jobs && Succeeded(s.jobs[id]) && s.jobs[id].key.Some?
    ensures OnlyPlan(s, s.jobs[id].key, i) && Matches(s.log[i], s.jobs[id])
    ensures s.log[i].response == s.jobs[id].phase.answer.response
  {
    assert Honest(s, s.jobs[id]);
    i :| AnsweredBy(s.log, s.jobs[id], i);
    OneEntry(s, clock, s.jobs[id].key, i);
  }

  lemma OneEntry(s: State, clock: int, key: Option<string>, i: nat)
    requires Inv(s) && s.clock < clock + RETENTION && (forall id :: id in s.jobs ==> clock <= s.jobs[id].started)
    requires key.Some? && i < |s.log| && s.log[i].key == key
    ensures forall j :: 0 <= j < |s.log| && s.log[j].key == key ==> j == i
  {
    forall j | 0 <= j < |s.log| && s.log[j].key == key
      ensures j == i
    {
      assert s.log[i].expiresAt == s.jobs[s.log[i].job].started + RETENTION;
      assert s.log[j].expiresAt == s.jobs[s.log[j].job].started + RETENTION;
    }
  }

  lemma RejectedSaw(s: State, id: nat, i: nat)
    requires JobsOk(s) && id in s.jobs && i < |s.log| && s.jobs[id].key.Some? && s.log[i].key == s.jobs[id].key
    requires s.jobs[id].phase.Done? && s.jobs[id].phase.answer.Rejected?
    ensures var done := s.jobs[id].phase;
            s.log[i].expiresAt <= done.at || (done.stored <= i && done.at <= s.log[i].at)
  {
    assert Honest(s, s.jobs[id]);
  }

  /**
    A single send answers with its own preparation error only if no plan under its
    key was on record when it reconciled.
   */
  lemma OwnErrorMeansNothingStored(clock: int, steps: seq<Step>, id: nat, i: nat)
    requires var s := Exec(Init(clock), steps);
             && id in s.jobs && s.jobs[id].phase.Done? && s.jobs[id].phase.answer.Rejected? && s.jobs[id].key.Some?
             && i < |s.log| && s.log[i].key == s.jobs[id].key
    ensures var s := Exec(Init(clock), steps);
            var done := s.jobs[id].phase;
            s.log[i].expiresAt <= done.at || (done.stored <= i && done.at <= s.log[i].at)
  {
    RunKeeps(Init(clock), steps);
    RejectedSaw(Exec(Init(clock), steps), id, i);
  }

  /** The message table holds exactly the messages of the stored plans: replays and conflicts add none. */
  lemma MessagesAreStoredOnce(clock: int, steps: seq<Step>)
    ensures Exec(Init(clock), steps).tables.messages == LogMessages(Exec(Init(clock), steps).log)
  {
    RunKeeps(Init(clock), steps);
  }

  /** A cached answer of a single send is always renderable: the "invalid stored send response" error is dead. */
  lemma SingleSendRenders(clock: int, steps: seq<Step>, id: nat, response: Response)
    requires var s := Exec(Init(clock), steps);
             && id in s.jobs && s.jobs[id].kind == Single && s.jobs[id].ToClaim().Some?
             && Find(s.tables, s.jobs[id].ToClaim().value, s.clock) == Replay(response)
    ensures Render(Single, response) == Answered(response)
  {
    RunKeeps(Init(clock), steps);
    var s := Exec(Init(clock), steps);
    ReplayBacked(s, id, s.jobs[id].ToClaim().value, response);
  }
}
