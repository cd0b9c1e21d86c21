/**
  The quota gate of sending (send_limit.rs, `prepare_send`) and the batch loop
  that reserves quota for the entries it has accepted (`messages_send_batch`).
 */
module BatchQuota {
  import opened Sequences
  import opened Options
  import opened SendStore

  const I64_MAX: int := 0x7fff_ffff_ffff_ffff
  const I64_MIN: int := -0x8000_0000_0000_0000

  type I64 = x: int | I64_MIN <= x <= I64_MAX

  function SaturatingAdd(a: I64, b: int): I64 {
    if a + b > I64_MAX then I64_MAX else if a + b < I64_MIN then I64_MIN else a + b
  }

  // ------------------------------------------------------------ allowances

  datatype Scope = Server | Organization

  datatype Allowance = Allowance(limit: Option<I64>, used: I64, scope: Scope) {
    function Remaining(): Option<int> {
      match limit
      case None => None
      case Some(l) => Some(if l - used < 0 then 0 else l - used)
    }

    predicate Allows(count: int) {
      match Remaining()
      case None => true
      case Some(r) => count <= 0 || count <= r
    }

    function Stricter(other: Allowance): Allowance {
      match (Remaining(), other.Remaining())
      case (None, _) => other
      case (_, None) => this
      case (Some(a), Some(b)) =>
        if a < b then this
        else if b < a then other
        else if scope == Organization then this else other
    }

    function ErrorCode(): string {
      if scope == Server then "SendLimitExceeded" else "OrganizationQuotaExceeded"
    }
  }

  /** Enforcing the stricter allowance enforces both, and a refusal names one that is exceeded. */
  lemma StricterEnforcesBoth(a: Allowance, b: Allowance, count: int)
    ensures a.Stricter(b).Allows(count) <==> a.Allows(count) && b.Allows(count)
    ensures !a.Stricter(b).Allows(count) ==>
              (a.Stricter(b) == a && !a.Allows(count)) || (a.Stricter(b) == b && !b.Allows(count))
  {
  }

  // ----------------------------------------------------------- preparation

  /** Usage and limits at the time of a request. */
  datatype Gate = Gate(serverLimit: Option<I64>, serverUsed: I64, orgLimit: Option<I64>, orgUsed: I64, suspended: bool)

  /**
    One send as submitted. `problem` is the error code of the first check after the
    quota gate that fails (sender authorization, stream, attachments, opt-in), if any.
   */
  datatype Entry = Entry(from: Option<string>, to: seq<string>, cc: seq<string>, bcc: seq<string>,
                         problem: Option<string>) {
    function Recipients(): seq<string> {
      to + cc + bcc
    }
  }

  function GateAllowance(gate: Gate, pending: nat): Allowance {
    var server := match gate.serverLimit
                  case Some(l) => Allowance(Some(l), SaturatingAdd(gate.serverUsed, pending), Server)
                  case None => Allowance(None, 0, Server);
    server.Stricter(Allowance(gate.orgLimit, SaturatingAdd(gate.orgUsed, pending), Organization))
  }

  /** `prepare_send`: one message per recipient, or the first error. */
  function Prepare(entry: Entry, gate: Gate, pending: nat): PlanItem {
    if entry.from.None? || entry.from.value == "" then PlanError("ParameterMissing")
    else if entry.Recipients() == [] then PlanError("ParameterMissing")
    else if gate.suspended then PlanError("OrganizationSuspended")
    else
      var allowance := GateAllowance(gate, pending);
      if !allowance.Allows(|entry.Recipients()|) then PlanError(allowance.ErrorCode())
      else if entry.problem.Some? then PlanError(entry.problem.value)
      else Messages(entry.Recipients())
  }

  function Size(item: PlanItem): nat {
    match item case Messages(recipients) => |recipients| case PlanError(_) => 0
  }

  function Accepted(plan: seq<PlanItem>): nat {
    if plan == [] then 0 else Size(plan[0]) + Accepted(plan[1..])
  }

  /** Preparing entries in order, each after the recipients accepted before it. */
  function Threaded(entries: seq<Entry>, prepare: (Entry, nat) -> PlanItem, pending: nat): (plan: seq<PlanItem>)
    ensures |plan| == |entries|
    decreases entries
  {
    if entries == [] then []
    else
      var item := prepare(entries[0], pending);
      [item] + Threaded(entries[1..], prepare, pending + Size(item))
  }

  function Gated(gate: Gate): (Entry, nat) -> PlanItem {
    (entry: Entry, pending: nat) => Prepare(entry, gate, pending)
  }

  function BatchPlan(entries: seq<Entry>, gate: Gate, pending: nat): seq<PlanItem> {
    Threaded(entries, Gated(gate), pending)
  }

  /** The loop of `messages_send_batch`. */
  method PrepareBatch(entries: seq<Entry>, gate: Gate) returns (plan: seq<PlanItem>)
    ensures plan == BatchPlan(entries, gate, 0)
  {
    plan := [];
    var pending: nat := 0;
    assert entries[0..] == entries;
    for i := 0 to |entries|
      invariant plan + BatchPlan(entries[i..], gate, pending) == BatchPlan(entries, gate, 0)
    {
      assert entries[i..][1..] == entries[i + 1..];
      var item := Prepare(entries[i], gate, pending);
      match item
      case Messages(recipients) =>
        pending := pending + |recipients|;
        plan := plan + [Messages(recipients)];
      case PlanError(code) =>
        plan := plan + [PlanError(code)];
    }
    assert entries[|entries|..] == [];
  }

  // ------------------------------------------------------- batch = one by one

  /** Usage after `stored` more messages were stored. */
  function Raise(gate: Gate, stored: nat): Gate {
    gate.(serverUsed := SaturatingAdd(gate.serverUsed, stored), orgUsed := SaturatingAdd(gate.orgUsed, stored))
  }

  /** Sending each entry on its own, every one seeing what the earlier ones stored. */
  function OneByOne(entries: seq<Entry>, gate: Gate): seq<PlanItem>
    decreases entries
  {
    if entries == [] then []
    else
      var item := Prepare(entries[0], gate, 0);
      [item] + OneByOne(entries[1..], Raise(gate, Size(item)))
  }

  lemma PendingIsUsage(entry: Entry, gate: Gate, stored: nat, pending: nat)
    ensures Prepare(entry, Raise(gate, stored), pending) == Prepare(entry, gate, stored + pending)
  {
    assert SaturatingAdd(SaturatingAdd(gate.serverUsed, stored), pending)
      == SaturatingAdd(gate.serverUsed, stored + pending);
    assert SaturatingAdd(SaturatingAdd(gate.orgUsed, stored), pending) == SaturatingAdd(gate.orgUsed, stored + pending);
  }

  lemma GatedShift(entry: Entry, gate: Gate, stored: nat, pending: nat)
    ensures Gated(Raise(gate, stored))(entry, pending) == Gated(gate)(entry, stored + pending)
  {
    PendingIsUsage(entry, gate, stored, pending);
  }

  /** Two ways of preparing that differ by a constant offset give the same plan at that offset. */
  lemma {:induction false} ThreadedShifts(entries: seq<Entry>, f: (Entry, nat) -> PlanItem, g: (Entry, nat) -> PlanItem,
                                          offset: nat, pending: nat)
    requires forall e, k: nat :: f(e, k) == g(e, offset + k)
    ensures Threaded(entries, f, pending) == Threaded(entries, g, offset + pending)
    decreases entries
  {
    if entries != [] {
      ThreadedShifts(entries[1..], f, g, offset, pending + Size(f(entries[0], pending)));
    }
  }

  lemma PendingIsUsageBatch(entries: seq<Entry>, gate: Gate, stored: nat, pending: nat)
    ensures BatchPlan(entries, Raise(gate, stored), pending) == BatchPlan(entries, gate, stored + pending)
  {
    var f, g := Gated(Raise(gate, stored)), Gated(gate);
    forall e, k: nat
      ensures f(e, k) == g(e, stored + k)
    {
      GatedShift(e, gate, stored, k);
    }
    ThreadedShifts(entries, f, g, stored, pending);
  }

  /** A batch decides exactly as the same entries sent one after the other. */
  lemma {:induction false} BatchIsOneByOne(entries: seq<Entry>, gate: Gate)
    ensures BatchPlan(entries, gate, 0) == OneByOne(entries, gate)
    decreases entries
  {
    if entries != [] {
      var n := Size(Prepare(entries[0], gate, 0));
      PendingIsUsageBatch(entries[1..], gate, n, 0);
      BatchIsOneByOne(entries[1..], Raise(gate, n));
    }
  }

  lemma ThreadedCons(x: Entry, rest: seq<Entry>, prepare: (Entry, nat) -> PlanItem, pending: nat)
    ensures var item := prepare(x, pending);
            Threaded([x] + rest, prepare, pending) == [item] + Threaded(rest, prepare, pending + Size(item))
  {
    assert ([x] + rest)[1..] == rest;
  }

  lemma AcceptedCons(item: PlanItem, rest: seq<PlanItem>)
    ensures Accepted([item] + rest) == Size(item) + Accepted(rest)
  {
    assert ([item] + rest)[1..] == rest;
  }

  lemma ThreadedHead(xs: seq<Entry>, ys: seq<Entry>, prepare: (Entry, nat) -> PlanItem, pending: nat)
    requires xs != []
    ensures var item := prepare(xs[0], pending);
            Threaded(xs + ys, prepare, pending) == [item] + Threaded(xs[1..] + ys, prepare, pending + Size(item))
  {
    assert xs + ys == [xs[0]] + (xs[1..] + ys);
    ThreadedCons(xs[0], xs[1..] + ys, prepare, pending);
  }

  /** Preparing `xs` and then `ys`, with the recipients pending after `xs` named. */
  lemma {:induction false} ThreadedThen(xs: seq<Entry>, ys: seq<Entry>, prepare: (Entry, nat) -> PlanItem,
                                        pending: nat, after: nat)
    requires after == pending + Accepted(Threaded(xs, prepare, pending))
    ensures Threaded(xs + ys, prepare, pending) == Threaded(xs, prepare, pending) + Threaded(ys, prepare, after)
    decreases xs
  {
    if xs == [] {
      EmptyLeft(ys);
      EmptyLeft(Threaded(ys, prepare, pending));
    } else {
      var item := prepare(xs[0], pending);
      var rest := Threaded(xs[1..], prepare, pending + Size(item));
      AcceptedCons(item, rest);
      ThreadedThen(xs[1..], ys, prepare, pending + Size(item), after);
      ThreadedHead(xs, ys, prepare, pending);
      Assoc([item], rest, Threaded(ys, prepare, after));
    }
  }

  lemma BatchAppends(xs: seq<Entry>, ys: seq<Entry>, gate: Gate)
    ensures BatchPlan(xs + ys, gate, 0)
            == BatchPlan(xs, gate, 0) + BatchPlan(ys, gate, Accepted(BatchPlan(xs, gate, 0)))
  {
    ThreadedThen(xs, ys, Gated(gate), 0, Accepted(BatchPlan(xs, gate, 0)));
  }

  /** Splitting a batch: the second part sees usage raised by what the first stored. */
  lemma BatchSplits(xs: seq<Entry>, ys: seq<Entry>, gate: Gate)
    ensures var first := BatchPlan(xs, gate, 0);
            BatchPlan(xs + ys, gate, 0) == first + BatchPlan(ys, Raise(gate, Accepted(first)), 0)
  {
    BatchAppends(xs, ys, gate);
    PendingIsUsageBatch(ys, gate, Accepted(BatchPlan(xs, gate, 0)), 0);
  }

  // --------------------------------------------------------------- limits

  predicate Fits(limit: Option<I64>, used: int) {
    limit.Some? ==> used <= limit.value
  }

  /** An entry passes the gate exactly when it fits both limits on top of what is used and pending. */
  lemma GateIsExact(gate: Gate, pending: nat, count: nat)
    requires count > 0
    ensures GateAllowance(gate, pending).Allows(count)
            <==> && Fits(gate.serverLimit, gate.serverUsed + pending + count)
                 && Fits(gate.orgLimit, gate.orgUsed + pending + count)
    ensures !GateAllowance(gate, pending).Allows(count)
            && GateAllowance(gate, pending).ErrorCode() == "SendLimitExceeded" ==>
              !Fits(gate.serverLimit, gate.serverUsed + pending + count)
    ensures !GateAllowance(gate, pending).Allows(count)
            && GateAllowance(gate, pending).ErrorCode() != "SendLimitExceeded" ==>
              !Fits(gate.orgLimit, gate.orgUsed + pending + count)
  {
  }

  /** Some sender, some recipient, and an organization that may send. */
  predicate Sendable(entry: Entry, gate: Gate) {
    && entry.from.Some? && entry.from.value != "" && |entry.to| + |entry.cc| + |entry.bcc| > 0
    && !gate.suspended
  }

  /** An entry is accepted exactly when it is sendable, fits both limits and has no later problem. */
  lemma AcceptedExactly(entry: Entry, gate: Gate, pending: nat)
    ensures var count := |entry.to| + |entry.cc| + |entry.bcc|;
            Prepare(entry, gate, pending).Messages? <==>
            && Sendable(entry, gate) && entry.problem.None?
            && Fits(gate.serverLimit, gate.serverUsed + pending + count)
            && Fits(gate.orgLimit, gate.orgUsed + pending + count)
  {
    var count := |entry.to| + |entry.cc| + |entry.bcc|;
    assert |entry.Recipients()| == count;
    if count > 0 {
      GateIsExact(gate, pending, count);
    }
  }

  /** What a limit leaves, none below zero. */
  function Room(limit: I64, used: int): nat {
    if limit < used then 0 else limit - used
  }

  /** The error of every refusal: the first check that fails, and of two limits the one that leaves less. */
  lemma RefusedBecause(entry: Entry, gate: Gate, pending: nat)
    ensures var count := |entry.to| + |entry.cc| + |entry.bcc|;
            var plan := Prepare(entry, gate, pending);
            var fits := && Fits(gate.serverLimit, gate.serverUsed + pending + count)
                        && Fits(gate.orgLimit, gate.orgUsed + pending + count);
            var serverIsTighter := && gate.serverLimit.Some?
                                   && (gate.orgLimit.None?
                                       || Room(gate.serverLimit.value, gate.serverUsed + pending)
                                          < Room(gate.orgLimit.value, gate.orgUsed + pending));
            && (entry.from.None? || entry.from.value == "" || count == 0 ==> plan == PlanError("ParameterMissing"))
            && (entry.from.Some? && entry.from.value != "" && count > 0 && gate.suspended ==>
                  plan == PlanError("OrganizationSuspended"))
            && (Sendable(entry, gate) && !fits ==>
                  plan == PlanError(if serverIsTighter then "SendLimitExceeded" else "OrganizationQuotaExceeded"))
            && (Sendable(entry, gate) && fits && entry.problem.Some? ==> plan == PlanError(entry.problem.value))
  {
    var count := |entry.to| + |entry.cc| + |entry.bcc|;
    assert |entry.Recipients()| == count;
    assert count == 0 ==> entry.Recipients() == [];
    if count > 0 {
      GateIsExact(gate, pending, count);
      LimitNamed(gate, pending);
    }
  }

  lemma LimitNamed(gate: Gate, pending: nat)
    ensures var serverIsTighter := && gate.serverLimit.Some?
                                   && (gate.orgLimit.None?
                                       || Room(gate.serverLimit.value, gate.serverUsed + pending)
                                          < Room(gate.orgLimit.value, gate.orgUsed + pending));
            gate.serverLimit.Some? || gate.orgLimit.Some? ==>
              GateAllowance(gate, pending).ErrorCode()
              == if serverIsTighter then "SendLimitExceeded" else "OrganizationQuotaExceeded"
  {
  }

  /** Accepted recipients never exceed what either limit has left. */
  lemma {:induction false} BatchRespectsLimits(entries: seq<Entry>, gate: Gate, pending: nat)
    ensures var total := Accepted(BatchPlan(entries, gate, pending));
            total > 0 ==> Fits(gate.serverLimit, gate.serverUsed + pending + total)
                          && Fits(gate.orgLimit, gate.orgUsed + pending + total)
    decreases entries
  {
    if entries != [] {
      var item := Prepare(entries[0], gate, pending);
      var rest := BatchPlan(entries[1..], gate, pending + Size(item));
      BatchRespectsLimits(entries[1..], gate, pending + Size(item));
      assert ([item] + rest)[1..] == rest;
      if Size(item) > 0 {
        GateIsExact(gate, pending, Size(item));
      }
    }
  }

  lemma {:induction false} ThreadedAt(entries: seq<Entry>, prepare: (Entry, nat) -> PlanItem, pending: nat, i: nat)
    requires i < |entries|
    ensures var plan := Threaded(entries, prepare, pending);
            plan[i] == prepare(entries[i], pending + Accepted(plan[..i]))
    decreases entries
  {
    var plan := Threaded(entries, prepare, pending);
    if i == 0 {
      assert plan[..0] == [];
    } else {
      var n := Size(plan[0]);
      ThreadedAt(entries[1..], prepare, pending + n, i - 1);
      assert plan[1..] == Threaded(entries[1..], prepare, pending + n);
      assert plan[..i] == [plan[0]] + plan[1..][..i - 1];
      assert plan[..i][1..] == plan[1..][..i - 1];
    }
  }

  /** The plan keeps one item per entry, in order, and fans an accepted entry out to, cc and bcc in order. */
  lemma BatchKeepsEntries(entries: seq<Entry>, gate: Gate, i: nat)
    requires i < |entries|
    ensures var plan := BatchPlan(entries, gate, 0);
            && |plan| == |entries|
            && plan[i] == Prepare(entries[i], gate, Accepted(plan[..i]))
            && (plan[i].Messages? ==> plan[i].recipients == entries[i].to + entries[i].cc + entries[i].bcc)
  {
    BatchAt(entries, gate, i);
    FansOut(entries[i], gate, Accepted(BatchPlan(entries, gate, 0)[..i]));
  }

  lemma BatchAt(entries: seq<Entry>, gate: Gate, i: nat)
    requires i < |entries|
    ensures |BatchPlan(entries, gate, 0)| == |entries|
    ensures BatchPlan(entries, gate, 0)[i] == Prepare(entries[i], gate, Accepted(BatchPlan(entries, gate, 0)[..i]))
  {
    ThreadedAt(entries, Gated(gate), 0, i);
    PreparedWith(BatchPlan(entries, gate, 0), Gated(gate), gate, entries[i], i);
  }

  /** The gate's way of preparing, applied to one entry of a plan. */
  lemma PreparedWith(plan: seq<PlanItem>, prepare: (Entry, nat) -> PlanItem, gate: Gate, entry: Entry, i: nat)
    requires i < |plan| && prepare == Gated(gate) && plan[i] == prepare(entry, Accepted(plan[..i]))
    ensures plan[i] == Prepare(entry, gate, Accepted(plan[..i]))
  {
  }

  lemma FansOut(entry: Entry, gate: Gate, pending: nat)
    ensures Prepare(entry, gate, pending).Messages? ==>
              Prepare(entry, gate, pending).recipients == entry.to + entry.cc + entry.bcc
  {
  }
}
