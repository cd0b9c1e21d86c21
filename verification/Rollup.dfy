/**
  The two-level traffic rollup of the administration area (admin_overview.rs):
  servers into organizations, organizations into the installation.
 */
module Rollup {
  import opened Options
  import opened StringOrder
  import StableSort

  datatype Counters = Counters(total: int, outgoing: int, incoming: int, sent: int, held: int, failed: int,
                               bounced: int)

  datatype Volume = Volume(day: Counters, week: Counters, month: Counters, first: Option<int>, last: Option<int>)

  const NoCounters := Counters(0, 0, 0, 0, 0, 0, 0)
  const NoVolume := Volume(NoCounters, NoCounters, NoCounters, None, None)

  // ---------------------------------------------------------------- adding

  /** `add_counters`. */
  function AddCounters(a: Counters, b: Counters): Counters {
    Counters(a.total + b.total, a.outgoing + b.outgoing, a.incoming + b.incoming, a.sent + b.sent,
             a.held + b.held, a.failed + b.failed, a.bounced + b.bounced)
  }

  function Earlier(a: Option<int>, b: Option<int>): Option<int> {
    if a.Some? && b.Some? then Some(if a.value <= b.value then a.value else b.value) else if a.Some? then a else b
  }

  function Later(a: Option<int>, b: Option<int>): Option<int> {
    if a.Some? && b.Some? then Some(if a.value >= b.value then a.value else b.value) else if a.Some? then a else b
  }

  /** `add_volume`. */
  function Add(a: Volume, b: Volume): Volume {
    Volume(AddCounters(a.day, b.day), AddCounters(a.week, b.week), AddCounters(a.month, b.month),
           Earlier(a.first, b.first), Later(a.last, b.last))
  }

  lemma AddLaws(a: Volume, b: Volume, c: Volume)
    ensures Add(a, b) == Add(b, a)
    ensures Add(Add(a, b), c) == Add(a, Add(b, c))
    ensures Add(NoVolume, a) == a
  {
  }

  function Sum(parts: seq<Volume>): Volume {
    if parts == [] then NoVolume else Add(parts[0], Sum(parts[1..]))
  }

  lemma {:induction false} SumAppend(a: seq<Volume>, b: seq<Volume>)
    ensures Sum(a + b) == Add(Sum(a), Sum(b))
  {
    if a == [] {
      assert a + b == b;
      AddLaws(Sum(b), Sum(b), Sum(b));
    } else {
      assert (a + b)[1..] == a[1..] + b;
      SumAppend(a[1..], b);
      AddLaws(a[0], Sum(a[1..]), Sum(b));
    }
  }

  lemma SumCons(v: Volume, rest: seq<Volume>)
    ensures Sum([v] + rest) == Add(v, Sum(rest))
  {
    assert ([v] + rest)[1..] == rest;
  }

  lemma SumOne(v: Volume)
    ensures Sum([v]) == v
  {
    assert [v][1..] == [];
    AddLaws(v, NoVolume, NoVolume);
  }

  lemma SumWithout(s: seq<Volume>, k: nat)
    requires k < |s|
    ensures Sum(s) == Add(s[k], Sum(s[..k] + s[k + 1..]))
  {
    var a, b := s[..k], s[k + 1..];
    assert s == a + ([s[k]] + b);
    SumAppend(a, [s[k]] + b);
    SumAppend([s[k]], b);
    SumOne(s[k]);
    SumAppend(a, b);
    AddLaws(Sum(a), s[k], Sum(b));
    AddLaws(s[k], Sum(a), Sum(b));
  }

  lemma RemoveOne(s: seq<Volume>, k: nat)
    requires k < |s|
    ensures multiset(s[..k] + s[k + 1..]) == multiset(s) - multiset{s[k]}
  {
    assert s == s[..k] + [s[k]] + s[k + 1..];
  }

  /** The order in which volumes are added does not matter. */
  lemma {:induction false} SumForgetsOrder(a: seq<Volume>, b: seq<Volume>)
    requires multiset(a) == multiset(b)
    ensures Sum(a) == Sum(b)
    decreases |a|
  {
    if a == [] {
      assert |multiset(b)| == 0;
    } else {
      assert a[0] in multiset(b);
      var k :| 0 <= k < |b| && b[k] == a[0];
      RemoveOne(a, 0);
      RemoveOne(b, k);
      assert a[..0] + a[1..] == a[1..];
      SumForgetsOrder(a[1..], b[..k] + b[k + 1..]);
      SumWithout(b, k);
    }
  }

  // ---------------------------------------------------- counter by counter

  datatype Window = Day | Week | Month

  datatype Kind = Total | Outgoing | Incoming | Delivered | Held | Failed | Bounced

  function Read(v: Volume, window: Window, kind: Kind): int {
    var c := match window case Day => v.day case Week => v.week case Month => v.month;
    match kind
    case Total => c.total
    case Outgoing => c.outgoing
    case Incoming => c.incoming
    case Delivered => c.sent
    case Held => c.held
    case Failed => c.failed
    case Bounced => c.bounced
  }

  function Numbers(parts: seq<Volume>, window: Window, kind: Kind): int {
    if parts == [] then 0 else Read(parts[0], window, kind) + Numbers(parts[1..], window, kind)
  }

  /** Each counter of a sum is the sum of that counter over the parts. */
  lemma {:induction false} SumByCounter(parts: seq<Volume>, window: Window, kind: Kind)
    ensures Read(Sum(parts), window, kind) == Numbers(parts, window, kind)
  {
    if parts != [] {
      SumByCounter(parts[1..], window, kind);
    }
  }

  // ------------------------------------------------- the activity span

  predicate Present(parts: seq<Volume>, t: int) {
    exists v <- parts :: v.first == Some(t)
  }

  /** The first activity of a sum is the earliest present anywhere, and there is one if any part has one. */
  lemma {:induction false} FirstIsEarliest(parts: seq<Volume>)
    ensures Sum(parts).first.None? <==> forall v <- parts :: v.first.None?
    ensures Sum(parts).first.Some? ==> Present(parts, Sum(parts).first.value)
    ensures forall v <- parts :: v.first.Some? ==> Sum(parts).first.Some? && Sum(parts).first.value <= v.first.value
  {
    if parts != [] {
      FirstIsEarliest(parts[1..]);
      assert parts == [parts[0]] + parts[1..];
      assert parts[0] in parts;
      assert forall v :: v in parts[1..] ==> v in parts;
    }
  }

  /** And the last activity is the latest. */
  lemma {:induction false} LastIsLatest(parts: seq<Volume>)
    ensures Sum(parts).last.None? <==> forall v <- parts :: v.last.None?
    ensures Sum(parts).last.Some? ==> exists v <- parts :: v.last == Sum(parts).last
    ensures forall v <- parts :: v.last.Some? ==> Sum(parts).last.Some? && Sum(parts).last.value >= v.last.value
  {
    if parts != [] {
      LastIsLatest(parts[1..]);
      assert parts == [parts[0]] + parts[1..];
      assert parts[0] in parts;
      assert forall v :: v in parts[1..] ==> v in parts;
    }
  }

  // --------------------------------------------------------------- rollups

  /** An organization's name, its servers' volumes and their sum. */
  datatype OrganizationRollup = OrganizationRollup(name: string, servers: seq<Volume>, volume: Volume)

  /** `rollup`: sum an organization's servers. */
  method RollUp(name: string, servers: seq<Volume>) returns (r: OrganizationRollup)
    ensures r == OrganizationRollup(name, servers, Sum(servers))
  {
    var total := NoVolume;
    var withVolumes: seq<Volume> := [];
    for i := 0 to |servers|
      invariant withVolumes == servers[..i]
      invariant total == Sum(servers[..i])
    {
      assert servers[..i + 1] == servers[..i] + [servers[i]];
      SumAppend(servers[..i], [servers[i]]);
      SumOne(servers[i]);
      total := Add(total, servers[i]);
      withVolumes := withVolumes + [servers[i]];
    }
    assert servers[..|servers|] == servers;
    r := OrganizationRollup(name, withVolumes, total);
  }

  /** Busiest first, then by name. */
  predicate Before(a: OrganizationRollup, b: OrganizationRollup) {
    a.volume.month.total > b.volume.month.total
    || (a.volume.month.total == b.volume.month.total && StringLe(a.name, b.name))
  }

  lemma BeforeOrders(a: OrganizationRollup, b: OrganizationRollup, c: OrganizationRollup)
    ensures Before(a, b) || Before(b, a)
    ensures Before(a, b) && Before(b, c) ==> Before(a, c)
  {
    StringLeTotal(a.name, b.name);
    if StringLe(a.name, b.name) && StringLe(b.name, c.name) {
      StringLeTransitive(a.name, b.name, c.name);
    }
  }

  lemma BeforeIsOrder()
    ensures StableSort.TotalOrder(Before)
  {
    forall a, b
      ensures Before(a, b) || Before(b, a)
    {
      BeforeOrders(a, b, b);
    }
    forall a, b, c | Before(a, b) && Before(b, c)
      ensures Before(a, c)
    {
      BeforeOrders(a, b, c);
    }
  }

  /** The list as displayed. */
  function Ranked(rollups: seq<OrganizationRollup>): seq<OrganizationRollup> {
    StableSort.Sort(rollups, Before)
  }

  /** Organizations come back busiest first, ties by name, each exactly once. */
  lemma RankedOrders(rollups: seq<OrganizationRollup>)
    ensures multiset(Ranked(rollups)) == multiset(rollups)
    ensures var ranked := Ranked(rollups);
            forall i, j :: 0 <= i < j < |ranked| ==>
              && ranked[i].volume.month.total >= ranked[j].volume.month.total
              && (ranked[i].volume.month.total == ranked[j].volume.month.total ==>
                  StringLe(ranked[i].name, ranked[j].name))
  {
    BeforeIsOrder();
    StableSort.SortOrders(rollups, Before);
    var ranked := Ranked(rollups);
    forall i, j | 0 <= i < j < |ranked|
      ensures && ranked[i].volume.month.total >= ranked[j].volume.month.total
              && (ranked[i].volume.month.total == ranked[j].volume.month.total ==>
                  StringLe(ranked[i].name, ranked[j].name))
    {
      assert Before(ranked[i], ranked[j]);
    }
  }

  function Volumes(rollups: seq<OrganizationRollup>): (vs: seq<Volume>)
    ensures |vs| == |rollups| && forall i :: 0 <= i < |vs| ==> vs[i] == rollups[i].volume
  {
    seq(|rollups|, i requires 0 <= i < |rollups| => rollups[i].volume)
  }

  lemma {:induction false} InsertVolume(r: OrganizationRollup, sorted: seq<OrganizationRollup>)
    ensures Sum(Volumes(StableSort.Insert(r, sorted, Before))) == Add(r.volume, Sum(Volumes(sorted)))
  {
    if sorted != [] && Before(sorted[0], r) {
      var rest := StableSort.Insert(r, sorted[1..], Before);
      InsertVolume(r, sorted[1..]);
      assert Volumes([sorted[0]] + rest)[1..] == Volumes(rest);
      assert Volumes(sorted)[1..] == Volumes(sorted[1..]);
      AddLaws(sorted[0].volume, r.volume, Sum(Volumes(sorted[1..])));
      AddLaws(r.volume, sorted[0].volume, Sum(Volumes(sorted[1..])));
    } else {
      assert Volumes([r] + sorted)[1..] == Volumes(sorted);
    }
  }

  lemma {:induction false} RankedSum(rollups: seq<OrganizationRollup>)
    ensures Sum(Volumes(Ranked(rollups))) == Sum(Volumes(rollups))
  {
    if rollups != [] {
      var front, last := rollups[..|rollups| - 1], rollups[|rollups| - 1];
      RankedSum(front);
      InsertVolume(last, Ranked(front));
      assert Volumes(rollups) == Volumes(front) + [last.volume];
      SumAppend(Volumes(front), [last.volume]);
      SumOne(last.volume);
      AddLaws(last.volume, Sum(Volumes(front)), NoVolume);
    }
  }

  type Organization = (string, seq<Volume>)

  /** Every server of the installation, organization by organization. */
  function AllServers(organizations: seq<Organization>): seq<Volume> {
    if organizations == [] then [] else organizations[0].1 + AllServers(organizations[1..])
  }

  function Rolled(organizations: seq<Organization>): (rs: seq<OrganizationRollup>)
    ensures |rs| == |organizations|
    ensures forall i :: 0 <= i < |rs| ==>
              rs[i] == OrganizationRollup(organizations[i].0, organizations[i].1, Sum(organizations[i].1))
  {
    seq(|organizations|, i requires 0 <= i < |organizations| =>
      OrganizationRollup(organizations[i].0, organizations[i].1, Sum(organizations[i].1)))
  }

  lemma RolledCons(organizations: seq<Organization>)
    requires organizations != []
    ensures Volumes(Rolled(organizations)) == [Sum(organizations[0].1)] + Volumes(Rolled(organizations[1..]))
  {
    var all, rest := Volumes(Rolled(organizations)), Volumes(Rolled(organizations[1..]));
    assert |all| == 1 + |rest|;
    forall i | 0 < i < |all|
      ensures all[i] == rest[i - 1]
    {
      assert organizations[1..][i - 1] == organizations[i];
    }
  }

  lemma {:induction false} RolledSum(organizations: seq<Organization>)
    ensures Sum(Volumes(Rolled(organizations))) == Sum(AllServers(organizations))
  {
    if organizations != [] {
      var rest := Volumes(Rolled(organizations[1..]));
      RolledSum(organizations[1..]);
      RolledCons(organizations);
      SumCons(Sum(organizations[0].1), rest);
      SumAppend(organizations[0].1, AllServers(organizations[1..]));
    }
  }

  /** `overview_show`: roll up, sort, and add the organizations up in sorted order. */
  method Overview(organizations: seq<Organization>) returns (rollups: seq<OrganizationRollup>, instance: Volume)
    ensures rollups == Ranked(Rolled(organizations))
    ensures instance == Sum(AllServers(organizations))
  {
    rollups := [];
    for i := 0 to |organizations|
      invariant rollups == Rolled(organizations)[..i]
    {
      var r := RollUp(organizations[i].0, organizations[i].1);
      rollups := rollups + [r];
    }
    assert Rolled(organizations)[..|organizations|] == Rolled(organizations);
    rollups := Ranked(rollups);
    instance := NoVolume;
    for i := 0 to |rollups|
      invariant instance == Sum(Volumes(rollups[..i]))
    {
      assert Volumes(rollups[..i + 1]) == Volumes(rollups[..i]) + [rollups[i].volume];
      SumAppend(Volumes(rollups[..i]), [rollups[i].volume]);
      SumOne(rollups[i].volume);
      instance := Add(instance, rollups[i].volume);
    }
    assert rollups[..|rollups|] == rollups;
    RankedSum(Rolled(organizations));
    RolledSum(organizations);
  }

  /** Any two groupings of the same servers, in any order, give the same instance totals. */
  lemma GroupingIsIrrelevant(a: seq<Organization>, b: seq<Organization>)
    requires multiset(AllServers(a)) == multiset(AllServers(b))
    ensures Sum(AllServers(a)) == Sum(AllServers(b))
  {
    SumForgetsOrder(AllServers(a), AllServers(b));
  }
}
