/**
  The storage side of idempotent sending, for one server (store.rs): the lookup
  of a completed claim and the atomic commit of a prepared plan.
 */
module SendStore {
  import opened Options
  import opened Sequences

  /** A prepared entry: its messages, one per recipient, or its validation error. */
  datatype PlanItem = Messages(recipients: seq<string>) | PlanError(code: string)

  datatype Sent = Sent(id: nat, rcptTo: string)

  datatype ResultItem = Success(recipients: seq<Sent>) | ItemError(code: string)

  type Response = seq<ResultItem>

  /** `IdempotencyRequest`: hashes of the key and of the normalized payload. */
  datatype Claim = Claim(key: string, payload: string, operation: string, expiresAt: int)

  datatype Record = Record(payload: string, operation: string, response: Response, expiresAt: int)

  datatype Lookup = New | Replay(response: Response) | Conflict

  datatype Committed = Stored(stored: Response) | Replayed(replayed: Response) | Conflicting

  datatype Tables = Tables(records: map<string, Record>, messages: seq<Sent>)

  // ------------------------------------------------------------- functions

  function Find(t: Tables, claim: Claim, now: int): Lookup {
    if claim.key !in t.records then New
    else
      var record := t.records[claim.key];
      if record.expiresAt <= now then New
      else if record.payload != claim.payload || record.operation != claim.operation then Conflict
      else Replay(record.response)
  }

  /** Message rows get consecutive ids. */
  function Rows(recipients: seq<string>, next: nat): (rows: seq<Sent>)
    ensures |rows| == |recipients|
    ensures forall i :: 0 <= i < |rows| ==> rows[i] == Sent(next + i, recipients[i])
  {
    seq(|recipients|, i requires 0 <= i < |recipients| => Sent(next + i, recipients[i]))
  }

  /** One result per planned item, in order. */
  function Results(plan: seq<PlanItem>, next: nat): (response: Response)
    ensures |response| == |plan|
    decreases plan
  {
    if plan == [] then []
    else match plan[0]
         case Messages(recipients) =>
           [Success(Rows(recipients, next))] + Results(plan[1..], next + |recipients|)
         case PlanError(code) => [ItemError(code)] + Results(plan[1..], next)
  }

  /** All messages of a response. */
  function Delivered(response: Response): seq<Sent> {
    if response == [] then []
    else (match response[0] case Success(rows) => rows case ItemError(_) => []) + Delivered(response[1..])
  }

  function Commit(t: Tables, plan: seq<PlanItem>, claim: Option<Claim>, now: int): (Tables, Committed) {
    var response := Results(plan, |t.messages|);
    var messages := t.messages + Delivered(response);
    match claim
    case None => (Tables(t.records, messages), Stored(response))
    case Some(c) =>
      match Find(t, c, now)
      case Replay(r) => (t, Replayed(r))
      case Conflict => (t, Conflicting)
      case New =>
        (Tables(t.records[c.key := Record(c.payload, c.operation, response, c.expiresAt)], messages), Stored(response))
  }

  function Prune(t: Tables, now: int): Tables {
    t.(records := map k | k in t.records && t.records[k].expiresAt > now :: t.records[k])
  }

  /** A plan with a single batch of messages is answered by a single success. */
  lemma SinglePlan(recipients: seq<string>, next: nat)
    ensures Results([Messages(recipients)], next) == [Success(Rows(recipients, next))]
  {
    assert [Messages(recipients)][1..] == [];
  }

  /** Every message row is numbered by its position in the table. */
  predicate Numbered(messages: seq<Sent>) {
    forall i :: 0 <= i < |messages| ==> messages[i].id == i
  }

  lemma {:induction false} ResultsNumbered(plan: seq<PlanItem>, next: nat)
    ensures forall i :: 0 <= i < |Delivered(Results(plan, next))| ==> Delivered(Results(plan, next))[i].id == next + i
    decreases plan
  {
    if plan != [] {
      var rest :=
        if plan[0].Messages? then Results(plan[1..], next + |plan[0].recipients|) else Results(plan[1..], next);
      ResultsNumbered(plan[1..], if plan[0].Messages? then next + |plan[0].recipients| else next);
      assert Results(plan, next)[1..] == rest;
    }
  }

  /** Every planned item is answered in its place: a message row per recipient in order, or its own error. */
  lemma {:induction false} ResultsFollowPlan(plan: seq<PlanItem>, next: nat, i: nat)
    requires i < |plan|
    ensures match plan[i]
            case Messages(recipients) =>
              && Results(plan, next)[i].Success?
              && |Results(plan, next)[i].recipients| == |recipients|
              && forall k :: 0 <= k < |recipients| ==> Results(plan, next)[i].recipients[k].rcptTo == recipients[k]
            case PlanError(code) => Results(plan, next)[i] == ItemError(code)
    decreases plan
  {
    if i > 0 {
      ResultsFollowPlan(plan[1..], if plan[0].Messages? then next + |plan[0].recipients| else next, i - 1);
    }
  }

  /** A lookup answers by the record under the key, while it has not expired. */
  lemma FindByRecord(t: Tables, claim: Claim, now: int)
    ensures var live := claim.key in t.records && now < t.records[claim.key].expiresAt;
            && (Find(t, claim, now) == New <==> !live)
            && (Find(t, claim, now).Replay? <==>
                live && t.records[claim.key].payload == claim.payload
                  && t.records[claim.key].operation == claim.operation)
            && (Find(t, claim, now).Replay? ==> Find(t, claim, now).response == t.records[claim.key].response)
  {
  }

  /** Pruning keeps exactly the records that have not expired. */
  lemma PruneExactly(t: Tables, now: int, key: string)
    ensures key in Prune(t, now).records <==> key in t.records && now < t.records[key].expiresAt
    ensures key in Prune(t, now).records ==> Prune(t, now).records[key] == t.records[key]
    ensures Prune(t, now).messages == t.messages
  {
  }

  /** A commit appends the plan's messages under fresh ids or changes nothing at all. */
  lemma CommitIsAtomic(t: Tables, plan: seq<PlanItem>, claim: Option<Claim>, now: int)
    requires Numbered(t.messages)
    ensures var (after, outcome) := Commit(t, plan, claim, now);
            && Numbered(after.messages)
            && (if outcome.Stored? then after.messages == t.messages + Delivered(outcome.stored) else after == t)
  {
    ResultsNumbered(plan, |t.messages|);
  }

  // ------------------------------------------------------------- the class

  /** `MemoryStore`, the parts a send touches. Each method runs under the store's lock. */
  class MemoryStore {
    var records: map<string, Record>
    var messages: seq<Sent>

    constructor ()
      ensures State() == Tables(map[], [])
    {
      records, messages := map[], [];
    }

    function State(): Tables
      reads this
    {
      Tables(records, messages)
    }

    /** `idempotency_result`. */
    method IdempotencyResult(claim: Claim, now: int) returns (lookup: Lookup)
      ensures lookup == Find(State(), claim, now)
    {
      if claim.key !in records {
        return New;
      }
      var record := records[claim.key];
      if record.expiresAt <= now {
        return New;
      }
      if record.payload != claim.payload || record.operation != claim.operation {
        return Conflict;
      }
      return Replay(record.response);
    }

    /** `insert_send_operation`: re-check the claim, store every message, record the answer. */
    method InsertSendOperation(plan: seq<PlanItem>, claim: Option<Claim>, now: int) returns (outcome: Committed)
      modifies this
      ensures (State(), outcome) == Commit(old(State()), plan, claim, now)
    {
      if claim.Some? && claim.value.key in records {
        var record := records[claim.value.key];
        if record.expiresAt > now {
          if record.payload == claim.value.payload && record.operation == claim.value.operation {
            return Replayed(record.response);
          }
          return Conflicting;
        }
      }
      var items: Response := [];
      ghost var before, target := messages, Results(plan, |messages|);
      assert plan[0..] == plan && [] + target == target;
      for i := 0 to |plan|
        invariant records == old(records)
        invariant items + Results(plan[i..], |messages|) == target
        invariant messages + Delivered(Results(plan[i..], |messages|)) == before + Delivered(target)
      {
        InsertStep(messages, items, plan[i..]);
        assert plan[i..][1..] == plan[i + 1..];
        match plan[i] {
          case Messages(recipients) =>
            var rows := Rows(recipients, |messages|);
            messages := messages + rows;
            items := items + [Success(rows)];
          case PlanError(code) =>
            items := items + [ItemError(code)];
        }
      }
      assert plan[|plan|..] == [] && items + [] == items && messages + [] == messages;
      if claim.Some? {
        records := records[claim.value.key :=
          Record(claim.value.payload, claim.value.operation, items, claim.value.expiresAt)];
      }
      return Stored(items);
    }

    /** `prune_idempotency_requests_at`. */
    method PruneAt(now: int) returns (pruned: nat)
      modifies this
      ensures State() == Prune(old(State()), now)
      ensures pruned == |old(records)| - |records|
    {
      var before := records;
      records := map k | k in records && records[k].expiresAt > now :: records[k];
      assert records.Keys <= before.Keys;
      SubsetSize(records.Keys, before.Keys);
      pruned := |before| - |records|;
    }
  }

  lemma InsertStep(messages: seq<Sent>, items: Response, plan: seq<PlanItem>)
    requires plan != []
    ensures plan[0].Messages? ==>
              var rows := Rows(plan[0].recipients, |messages|);
              var rest := Results(plan[1..], |messages + rows|);
              && items + Results(plan, |messages|) == items + [Success(rows)] + rest
              && messages + Delivered(Results(plan, |messages|)) == messages + rows + Delivered(rest)
    ensures plan[0].PlanError? ==>
              var rest := Results(plan[1..], |messages|);
              && items + Results(plan, |messages|) == items + [ItemError(plan[0].code)] + rest
              && messages + Delivered(Results(plan, |messages|)) == messages + Delivered(rest)
  {
    match plan[0]
    case Messages(recipients) =>
      var rows := Rows(recipients, |messages|);
      var rest := Results(plan[1..], |messages + rows|);
      DeliveredCons(Success(rows), rest);
      Assoc(items, [Success(rows)], rest);
      Assoc(messages, rows, Delivered(rest));
    case PlanError(code) =>
      var rest := Results(plan[1..], |messages|);
      DeliveredCons(ItemError(code), rest);
      Assoc(items, [ItemError(code)], rest);
  }

  lemma DeliveredCons(item: ResultItem, rest: Response)
    ensures Delivered([item] + rest) == (if item.Success? then item.recipients else []) + Delivered(rest)
    ensures item.ItemError? ==> Delivered([item] + rest) == Delivered(rest)
  {
    assert ([item] + rest)[1..] == rest;
  }

  lemma SubsetSize<T>(a: set<T>, b: set<T>)
    requires a <= b
    ensures |a| <= |b|
  {
    if a != {} {
      var x :| x in a;
      SubsetSize(a - {x}, b - {x});
    }
  }
}
