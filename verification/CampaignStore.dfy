/**
  Campaigns of one server as the handlers and the expansion change them
  (server_api.rs, server_store.rs). Each handler's read, check and write is one
  operation here.
 */
module CampaignStore {
  import opened Options
  import StableSort

  const BATCH_SIZE: nat := 200

  datatype Status = Draft | Scheduled | Sending | Delivered | Failed | Canceled

  datatype Campaign = Campaign(status: Status, scheduledAt: Option<int>, total: nat, sent: nat,
                               completedAt: Option<int>)

  type Campaigns = map<nat, Campaign>

  /** `campaign_is_planned`. */
  predicate Planned(status: Status) {
    status == Draft || status == Scheduled
  }

  /** What only an expansion or the step that spawns it sets. */
  predicate Started(status: Status) {
    status == Sending || status == Delivered || status == Failed
  }

  /** The initial lifecycle state: send-now wins, then a schedule, else a draft. */
  function Created(sendNow: bool, at: Option<int>, total: nat): Campaign {
    if sendNow then Campaign(Sending, None, total, 0, None)
    else if at.Some? then Campaign(Scheduled, at, total, 0, None)
    else Campaign(Draft, None, total, 0, None)
  }

  /** A schedule change also moves the status; an omitted schedule leaves both. */
  function Edited(c: Campaign, schedule: Option<Option<int>>): Campaign {
    match schedule
    case None => c
    case Some(None) => c.(scheduledAt := None, status := Draft)
    case Some(Some(at)) => c.(scheduledAt := Some(at), status := Scheduled)
  }

  predicate Due(c: Campaign, now: int) {
    c.status == Scheduled && c.scheduledAt.Some? && c.scheduledAt.value <= now
  }

  /** `claim_due_campaigns`: every due campaign flips to sending in one statement. */
  function Claim(cs: Campaigns, now: int): Campaigns {
    map id | id in cs :: if Due(cs[id], now) then cs[id].(status := Sending) else cs[id]
  }

  /** The claimed campaigns, in id order. */
  ghost predicate Claims(cs: Campaigns, now: int, due: seq<nat>) {
    && (forall i, j :: 0 <= i < j < |due| ==> due[i] < due[j])
    && (forall id :: id in due <==> id in cs && Due(cs[id], now))
  }

  predicate IdLe(a: nat, b: nat) {
    a <= b
  }

  /** Sorting distinct ids orders them strictly and keeps each. */
  lemma SortedIds(ids: seq<nat>)
    requires forall i, j :: 0 <= i < j < |ids| ==> ids[i] != ids[j]
    ensures var sorted := StableSort.Sort(ids, IdLe);
            && (forall i, j :: 0 <= i < j < |sorted| ==> sorted[i] < sorted[j])
            && (forall id :: id in sorted <==> id in ids)
  {
    var sorted := StableSort.Sort(ids, IdLe);
    StableSort.SortOrders(ids, IdLe);
    forall id
      ensures id in sorted <==> id in ids
    {
      assert id in sorted <==> id in multiset(sorted);
      assert id in ids <==> id in multiset(ids);
    }
    forall i, j | 0 <= i < j < |sorted|
      ensures sorted[i] != sorted[j]
    {
      DistinctOnce(ids, sorted[i]);
      if sorted[i] == sorted[j] {
        TwiceCounted(sorted, i, j);
      }
    }
  }

  lemma {:induction false} DistinctOnce(ids: seq<nat>, id: nat)
    requires forall i, j :: 0 <= i < j < |ids| ==> ids[i] != ids[j]
    ensures multiset(ids)[id] <= 1
  {
    if ids != [] {
      DistinctOnce(ids[1..], id);
      assert ids == [ids[0]] + ids[1..];
      assert ids[0] !in ids[1..];
      assert multiset(ids[1..])[ids[0]] == 0;
    }
  }

  lemma TwiceCounted(ids: seq<nat>, i: nat, j: nat)
    requires i < j < |ids| && ids[i] == ids[j]
    ensures multiset(ids)[ids[i]] >= 2
  {
    assert ids == ids[..i] + [ids[i]] + ids[i + 1..j] + [ids[j]] + ids[j + 1..];
  }

  /** `set_campaign_progress`. */
  function Progress(cs: Campaigns, id: nat, sent: nat, status: Status, completed: Option<int>): Campaigns {
    if id in cs then cs[id := cs[id].(sent := sent, status := status, completedAt := completed)] else cs
  }

  function Successes(outcomes: seq<bool>): nat {
    if outcomes == [] then 0
    else Successes(outcomes[..|outcomes| - 1]) + (if outcomes[|outcomes| - 1] then 1 else 0)
  }

  /** Progress counts the sends that were enqueued. */
  lemma {:induction false} SuccessesCount(outcomes: seq<bool>)
    ensures Successes(outcomes) == multiset(outcomes)[true]
  {
    if outcomes != [] {
      SuccessesCount(outcomes[..|outcomes| - 1]);
      assert outcomes == outcomes[..|outcomes| - 1] + [outcomes[|outcomes| - 1]];
    }
  }

  /** A new campaign sends at once, waits for its time or stays a draft; it has sent nothing. */
  lemma CreatedStarts(sendNow: bool, at: Option<int>, total: nat)
    ensures var c := Created(sendNow, at, total);
            && (c.status == Sending <==> sendNow) && (c.status == Scheduled <==> !sendNow && at.Some?)
            && (c.status == Draft <==> !sendNow && at.None?)
            && c.scheduledAt == (if sendNow then None else at) && c.total == total && c.sent == 0
              && c.completedAt == None
  {
  }

  /** An edit of the schedule sets it and the status with it; nothing else about the campaign changes. */
  lemma EditedSchedule(c: Campaign, schedule: Option<Option<int>>)
    ensures schedule.None? ==> Edited(c, schedule) == c
    ensures schedule.Some? ==>
              var e := Edited(c, schedule);
              && e.scheduledAt == schedule.value
              && e.status == (if schedule.value.Some? then Scheduled else Draft)
              && e.total == c.total && e.sent == c.sent && e.completedAt == c.completedAt
  {
  }

  /** The store behind the handlers. */
  class Store {
    var campaigns: Campaigns

    constructor ()
      ensures campaigns == map[]
    {
      campaigns := map[];
    }

    method Create(id: nat, sendNow: bool, at: Option<int>, total: nat)
      requires id !in campaigns
      modifies this
      ensures campaigns == old(campaigns)[id := Created(sendNow, at, total)]
    {
      var status, scheduledAt := Draft, None;
      if sendNow {
        status := Sending;
      } else if at.Some? {
        status, scheduledAt := Scheduled, at;
      }
      campaigns := campaigns[id := Campaign(status, scheduledAt, total, 0, None)];
    }

    /** `server_campaign_update`: only a planned campaign is edited. */
    method Edit(id: nat, schedule: Option<Option<int>>) returns (ok: bool)
      modifies this
      ensures ok <==> id in old(campaigns) && Planned(old(campaigns)[id].status)
      ensures campaigns == if ok then old(campaigns)[id := Edited(old(campaigns)[id], schedule)] else old(campaigns)
    {
      if id !in campaigns || !Planned(campaigns[id].status) {
        return false;
      }
      var c := campaigns[id];
      if schedule.Some? {
        c := c.(scheduledAt := schedule.value, status := if schedule.value.Some? then Scheduled else Draft);
      }
      campaigns := campaigns[id := c];
      return true;
    }

    /** `server_campaign_send`, up to the spawn of the expansion. */
    method SendNow(id: nat, streamPresent: bool, total: nat) returns (ok: bool)
      modifies this
      ensures ok <==> id in old(campaigns) && Planned(old(campaigns)[id].status) && streamPresent
      ensures campaigns == if ok
                           then old(campaigns)[id := old(campaigns)[id].(status := Sending, total := total)]
                           else old(campaigns)
    {
      if id !in campaigns || !Planned(campaigns[id].status) || !streamPresent {
        return false;
      }
      campaigns := campaigns[id := campaigns[id].(status := Sending, total := total)];
      return true;
    }

    /** `server_campaign_cancel`. */
    method Cancel(id: nat) returns (ok: bool)
      modifies this
      ensures ok <==> id in old(campaigns) && Planned(old(campaigns)[id].status)
      ensures campaigns == if ok then old(campaigns)[id := old(campaigns)[id].(status := Canceled)] else old(campaigns)
    {
      if id !in campaigns || !Planned(campaigns[id].status) {
        return false;
      }
      campaigns := campaigns[id := campaigns[id].(status := Canceled)];
      return true;
    }

    /** `claim_due_campaigns`: the table is visited in any order, the claimed ids come back sorted. */
    method ClaimDue(now: int) returns (claimed: seq<nat>)
      modifies this
      ensures campaigns == Claim(old(campaigns), now)
      ensures Claims(old(campaigns), now, claimed)
      ensures forall id :: id in claimed <==>
                && id in old(campaigns) && old(campaigns)[id].status == Scheduled
                && old(campaigns)[id].scheduledAt.Some? && old(campaigns)[id].scheduledAt.value <= now
      ensures forall id <- claimed :: id in campaigns && campaigns[id] == old(campaigns)[id].(status := Sending)
      ensures forall id <- old(campaigns) :: id !in claimed ==> id in campaigns && campaigns[id] == old(campaigns)[id]
    {
      var found: seq<nat> := [];
      var left := campaigns.Keys;
      while left != {}
        invariant left <= campaigns.Keys == old(campaigns).Keys
        invariant forall id <- left :: campaigns[id] == old(campaigns)[id]
        invariant forall id <- campaigns.Keys - left :: campaigns[id] == Claim(old(campaigns), now)[id]
        invariant forall i, j :: 0 <= i < j < |found| ==> found[i] != found[j]
        invariant forall id :: id in found <==> id in old(campaigns) && id !in left && Due(old(campaigns)[id], now)
        decreases |left|
      {
        var id :| id in left;
        if Due(campaigns[id], now) {
          campaigns := campaigns[id := campaigns[id].(status := Sending)];
          found := found + [id];
        }
        left := left - {id};
      }
      claimed := StableSort.Sort(found, IdLe);
      SortedIds(found);
    }

    method SetProgress(id: nat, sent: nat, status: Status, completed: Option<int>)
      modifies this
      ensures campaigns == Progress(old(campaigns), id, sent, status, completed)
    {
      if id in campaigns {
        campaigns := campaigns[id := campaigns[id].(sent := sent, status := status, completedAt := completed)];
      }
    }

    /**
      `expand_campaign` with nothing else running: `outcomes[i]` says whether the
      send to subscriber `i` was enqueued. Progress is written after every batch.
     */
    method Expand(id: nat, outcomes: seq<bool>, now: int) returns (writes: seq<nat>)
      requires id in campaigns
      modifies this
      ensures campaigns == Progress(old(campaigns), id, Successes(outcomes), Delivered, Some(now))
      ensures forall i, j :: 0 <= i < j < |writes| ==> writes[i] <= writes[j]
      ensures forall i :: 0 <= i < |writes| ==> writes[i] <= Successes(outcomes)
      ensures |writes| == (|outcomes| + BATCH_SIZE - 1) / BATCH_SIZE
    {
      writes := [];
      var sent, position := 0, 0;
      while position < |outcomes|
        invariant position <= |outcomes| && (position % BATCH_SIZE == 0 || position == |outcomes|)
        invariant sent == Successes(outcomes[..position])
        invariant |writes| == (position + BATCH_SIZE - 1) / BATCH_SIZE
        invariant forall i, j :: 0 <= i < j < |writes| ==> writes[i] <= writes[j]
        invariant forall i :: 0 <= i < |writes| ==> writes[i] <= sent
        invariant id in campaigns && campaigns.Keys == old(campaigns).Keys
        invariant forall x <- campaigns :: x != id ==> campaigns[x] == old(campaigns)[x]
        invariant campaigns[id].(sent := 0, status := Sending, completedAt := None)
               == old(campaigns)[id].(sent := 0, status := Sending, completedAt := None)
      {
        var batchEnd := if position + BATCH_SIZE < |outcomes| then position + BATCH_SIZE else |outcomes|;
        ghost var before := position;
        while position < batchEnd
          invariant before <= position <= batchEnd
          invariant sent == Successes(outcomes[..position])
          invariant forall i :: 0 <= i < |writes| ==> writes[i] <= sent
        {
          assert outcomes[..position + 1][..position] == outcomes[..position];
          if outcomes[position] {
            sent := sent + 1;
          }
          position := position + 1;
        }
        SetProgress(id, sent, Sending, None);
        writes := writes + [sent];
      }
      assert outcomes[..position] == outcomes;
      SetProgress(id, sent, Delivered, Some(now));
    }
  }
}
