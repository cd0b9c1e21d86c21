/**
  Who owns an organization (memberships.rs, org_sso_login.rs): the member
  operations with their owner guards, and what every run of them keeps.
 */
module Membership {
  import opened Options

  datatype Role = Viewer | Member | Admin | Owner

  /** User id to role; an id without an entry is not a member. */
  type Roles = map<nat, Role>

  /** The caller's role in the organization, `None` for root principals. */
  type Acting = Option<Role>

  /** `ActingRole::is_owner`. */
  predicate IsOwner(acting: Acting) {
    acting.None? || acting == Some(Owner)
  }

  /**
    Which store calls of one request succeed: finding the account, looking up the
    membership, counting the owners, and the write.
   */
  datatype Health = Health(account: bool, lookup: bool, count: bool, write: bool)

  datatype Outcome = Done | Forbidden | NotFound | Invalid | StoreError

  function Owners(roles: Roles): set<nat> {
    set u | u in roles && roles[u] == Owner
  }

  /** `owner_count`: a table that cannot be read counts as no owners, so the guards that use it refuse. */
  function OwnerCount(roles: Roles, health: Health): nat {
    if health.count then |Owners(roles)| else 0
  }

  // ------------------------------------------------------------ operations

  /** An operation with its inputs after decoding; a role that does not parse is `None`. */
  datatype Op =
    | Create(acting: Acting, user: Option<nat>, role: Option<Role>, health: Health)
    | Update(acting: Acting, target: nat, role: Option<Role>, health: Health)
    | Destroy(acting: Acting, target: nat, health: Health)
    | Ensure(joining: nat, defaultRole: Role, health: Health)

  function Write(roles: Roles, user: nat, role: Role, health: Health): (Roles, Outcome) {
    if health.write then (roles[user := role], Done) else (roles, StoreError)
  }

  /** In `Create` a failed lookup reads as "not a member"; everywhere else it ends the request. */
  function Apply(roles: Roles, op: Op): (Roles, Outcome) {
    match op
    case Create(acting, user, role, health) =>
      if role.None? then (roles, Invalid)
      else if role.value == Owner && !IsOwner(acting) then (roles, Forbidden)
      else if !health.account then (roles, StoreError)
      else if user.None? then (roles, Invalid)
      else if health.lookup && user.value in roles then (roles, Invalid)
      else Write(roles, user.value, role.value, health)
    case Update(acting, target, role, health) =>
      if role.None? then (roles, Invalid)
      else if !health.lookup then (roles, StoreError)
      else if target !in roles then (roles, NotFound)
      else if (role.value == Owner || roles[target] == Owner) && !IsOwner(acting) then (roles, Forbidden)
      else if roles[target] == Owner && role.value != Owner && OwnerCount(roles, health) <= 1 then (roles, Invalid)
      else Write(roles, target, role.value, health)
    case Destroy(acting, target, health) =>
      if !health.lookup then (roles, StoreError)
      else if target !in roles then (roles, NotFound)
      else if roles[target] == Owner && !IsOwner(acting) then (roles, Forbidden)
      else if roles[target] == Owner && OwnerCount(roles, health) <= 1 then (roles, Invalid)
      else if health.write then (roles - {target}, Done)
      else (roles, StoreError)
    case Ensure(joining, role, health) =>
      if !health.lookup then (roles, StoreError)
      else if joining in roles then (roles, Done)
      else Write(roles, joining, role, health)
  }

  /** The membership table of one organization. */
  class Table {
    var roles: Roles

    constructor ()
      ensures roles == map[]
    {
      roles := map[];
    }

    /** `upsert_membership`. */
    method Upsert(user: nat, role: Role, health: Health) returns (outcome: Outcome)
      modifies this
      ensures (roles, outcome) == Write(old(roles), user, role, health)
    {
      if !health.write {
        return StoreError;
      }
      roles := roles[user := role];
      return Done;
    }

    /** `members_create`. */
    method MembersCreate(acting: Acting, user: Option<nat>, role: Option<Role>, health: Health)
      returns (outcome: Outcome)
      modifies this
      ensures (roles, outcome) == Apply(old(roles), Create(acting, user, role, health))
    {
      if role.None? {
        return Invalid;
      }
      if role.value == Owner && !IsOwner(acting) {
        return Forbidden;
      }
      if !health.account {
        return StoreError;
      }
      if user.None? {
        return Invalid;
      }
      if health.lookup && user.value in roles {
        return Invalid;
      }
      outcome := Upsert(user.value, role.value, health);
    }

    /** `members_update`. */
    method MembersUpdate(acting: Acting, user: nat, role: Option<Role>, health: Health) returns (outcome: Outcome)
      modifies this
      ensures (roles, outcome) == Apply(old(roles), Update(acting, user, role, health))
    {
      if role.None? {
        return Invalid;
      }
      if !health.lookup {
        return StoreError;
      }
      if user !in roles {
        return NotFound;
      }
      var existing := roles[user];
      if (role.value == Owner || existing == Owner) && !IsOwner(acting) {
        return Forbidden;
      }
      if existing == Owner && role.value != Owner && OwnerCount(roles, health) <= 1 {
        return Invalid;
      }
      outcome := Upsert(user, role.value, health);
    }

    /** `members_destroy`. */
    method MembersDestroy(acting: Acting, user: nat, health: Health) returns (outcome: Outcome)
      modifies this
      ensures (roles, outcome) == Apply(old(roles), Destroy(acting, user, health))
    {
      if !health.lookup {
        return StoreError;
      }
      if user !in roles {
        return NotFound;
      }
      if roles[user] == Owner {
        if !IsOwner(acting) {
          return Forbidden;
        }
        if OwnerCount(roles, health) <= 1 {
          return Invalid;
        }
      }
      if !health.write {
        return StoreError;
      }
      roles := roles - {user};
      return Done;
    }

    /** `ensure_membership`, on a tenant SSO login. */
    method EnsureMembership(user: nat, role: Role, health: Health) returns (outcome: Outcome)
      modifies this
      ensures (roles, outcome) == Apply(old(roles), Ensure(user, role, health))
    {
      if !health.lookup {
        return StoreError;
      }
      if user in roles {
        return Done;
      }
      outcome := Upsert(user, role, health);
    }
  }

  // ------------------------------------------------- what each operation does

  /** Another owner than this user. */
  ghost predicate OtherOwner(roles: Roles, user: nat) {
    exists u :: u in roles && u != user && roles[u] == Owner
  }

  lemma CountsOthers(roles: Roles, user: nat)
    requires user in roles && roles[user] == Owner
    ensures |Owners(roles)| > 1 <==> OtherOwner(roles, user)
  {
    var owners := Owners(roles);
    assert user in owners;
    if OtherOwner(roles, user) {
      var u :| u in roles && u != user && roles[u] == Owner;
      assert {user, u} <= owners;
      assert |owners - {user, u}| == |owners| - 2;
    } else {
      assert owners == {user};
    }
  }

  /** Adding succeeds exactly for a known account that is not seen to be a member, with a role the caller may grant. */
  lemma CreateExactly(roles: Roles, acting: Acting, user: Option<nat>, role: Option<Role>, health: Health)
    ensures var (after, outcome) := Apply(roles, Create(acting, user, role, health));
            && (outcome == Done <==>
                  && role.Some? && (role.value == Owner ==> acting.None? || acting == Some(Owner))
                  && user.Some? && (user.value in roles ==> !health.lookup) && health.account && health.write)
            && after == if outcome == Done then roles[user.value := role.value] else roles
  {
  }

  /** A role changes exactly when the caller may touch it and an owner stays. */
  lemma UpdateExactly(roles: Roles, acting: Acting, target: nat, role: Option<Role>, health: Health)
    ensures var (after, outcome) := Apply(roles, Update(acting, target, role, health));
            && (outcome == Done <==>
                  && role.Some? && health.lookup && target in roles
                  && (role.value == Owner || roles[target] == Owner ==> acting.None? || acting == Some(Owner))
                  && (roles[target] == Owner && role.value != Owner ==> health.count && OtherOwner(roles, target))
                  && health.write)
            && after == if outcome == Done then roles[target := role.value] else roles
  {
    if target in roles && roles[target] == Owner {
      CountsOthers(roles, target);
    }
  }

  /** A member is removed exactly when the caller may touch it and an owner stays. */
  lemma DestroyExactly(roles: Roles, acting: Acting, target: nat, health: Health)
    ensures var (after, outcome) := Apply(roles, Destroy(acting, target, health));
            && (outcome == Done <==>
                  && health.lookup && target in roles
                  && (roles[target] == Owner ==>
                        (acting.None? || acting == Some(Owner)) && health.count && OtherOwner(roles, target))
                  && health.write)
            && after == if outcome == Done then roles - {target} else roles
  {
    if target in roles && roles[target] == Owner {
      CountsOthers(roles, target);
    }
  }

  /** An SSO login adds exactly a stranger, with the default role. */
  lemma EnsureExactly(roles: Roles, user: nat, role: Role, health: Health)
    ensures var (after, outcome) := Apply(roles, Ensure(user, role, health));
            && (outcome == Done <==> health.lookup && (user in roles || health.write))
            && after == if outcome == Done && user !in roles then roles[user := role] else roles
  {
  }

  /** Which refusal is answered. */
  lemma MemberRefusals(roles: Roles, acting: Acting, target: nat, role: Option<Role>, health: Health)
    ensures var owner := acting.None? || acting == Some(Owner);
            var update := Apply(roles, Update(acting, target, role, health)).1;
            var destroy := Apply(roles, Destroy(acting, target, health)).1;
            && (update == NotFound <==> role.Some? && health.lookup && target !in roles)
            && (update == Forbidden <==> role.Some? && health.lookup && target in roles && !owner
                                         && (role.value == Owner || roles[target] == Owner))
            && (destroy == NotFound <==> health.lookup && target !in roles)
            && (destroy == Forbidden <==> health.lookup && target in roles && roles[target] == Owner && !owner)
            && (update == StoreError ==> !health.lookup || !health.write)
            && (destroy == StoreError ==> !health.lookup || !health.write)
  {
  }

  // --------------------------------------------------------------- one step

  /** A create that passes its guards although the membership lookup failed, and writes a role other than owner. */
  predicate BlindCreate(op: Op) {
    && op.Create? && op.user.Some? && op.role.Some? && op.role.value != Owner
    && op.health.account && !op.health.lookup && op.health.write
  }

  /** The owners a blind create demotes: the one it names, if it names one. */
  function Overwrites(roles: Roles, op: Op): set<nat> {
    if BlindCreate(op) then {op.user.value} * Owners(roles) else {}
  }

  lemma RemovingOneOwner(roles: Roles, after: Roles, u: nat)
    requires |Owners(roles)| > 1 && Owners(after) == Owners(roles) - {u}
    ensures Owners(after) != {}
  {
    assert |Owners(roles) - {u}| >= |Owners(roles)| - 1;
  }

  lemma GuardedStepKeepsOwner(roles: Roles, op: Op)
    requires Owners(roles) != {} && !BlindCreate(op)
    ensures Owners(Apply(roles, op).0) != {}
  {
    var after := Apply(roles, op).0;
    var u :| u in Owners(roles);
    if op.Update? && after != roles && roles[op.target] == Owner && op.role.value != Owner {
      assert Owners(after) == Owners(roles) - {op.target};
      RemovingOneOwner(roles, after, op.target);
    } else if op.Destroy? && after != roles && roles[op.target] == Owner {
      assert Owners(after) == Owners(roles) - {op.target};
      RemovingOneOwner(roles, after, op.target);
    } else {
      assert u in Owners(after);
    }
  }

  lemma BlindCreateDemotes(roles: Roles, op: Op)
    requires BlindCreate(op)
    ensures Owners(Apply(roles, op).0) == Owners(roles) - {op.user.value}
  {
  }

  /** A step takes the last owner away exactly when it is a blind create that names the sole owner. */
  lemma LastOwnerLost(roles: Roles, op: Op)
    requires Owners(roles) != {}
    ensures Owners(Apply(roles, op).0) == {} <==> BlindCreate(op) && Owners(roles) == {op.user.value}
  {
    if BlindCreate(op) {
      BlindCreateDemotes(roles, op);
    } else {
      GuardedStepKeepsOwner(roles, op);
    }
  }

  /** The input that breaks the rule: anyone who may add members can demote the sole owner while the lookup fails. */
  lemma CreateCanDemoteTheSoleOwner(roles: Roles, owner: nat, acting: Acting, role: Role)
    requires Owners(roles) == {owner} && role != Owner
    ensures Apply(roles, Create(acting, Some(owner), Some(role), Health(true, false, true, true))).1 == Done
    ensures Owners(Apply(roles, Create(acting, Some(owner), Some(role), Health(true, false, true, true))).0) == {}
  {
    BlindCreateDemotes(roles, Create(acting, Some(owner), Some(role), Health(true, false, true, true)));
  }

  // ----------------------------------------------------------------- runs

  function Exec(roles: Roles, ops: seq<Op>): Roles
    decreases ops
  {
    if ops == [] then roles else Exec(Apply(roles, ops[0]).0, ops[1..])
  }

  /** The table before step `i` of a run, and after its last step. */
  function StateAt(roles: Roles, ops: seq<Op>, i: nat): Roles
    requires i <= |ops|
  {
    Exec(roles, ops[..i])
  }

  lemma {:induction false} ExecAppend(roles: Roles, ops: seq<Op>, op: Op)
    ensures Exec(roles, ops + [op]) == Apply(Exec(roles, ops), op).0
    decreases ops
  {
    if ops == [] {
      assert ops + [op] == [op] && [op][1..] == [];
    } else {
      assert (ops + [op])[1..] == ops[1..] + [op];
      ExecAppend(Apply(roles, ops[0]).0, ops[1..], op);
    }
  }

  lemma NextState(roles: Roles, ops: seq<Op>, i: nat)
    requires i < |ops|
    ensures StateAt(roles, ops, i + 1) == Apply(StateAt(roles, ops, i), ops[i]).0
  {
    assert ops[..i + 1] == ops[..i] + [ops[i]];
    ExecAppend(roles, ops[..i], ops[i]);
  }

  /** Some step of the run is a blind create that names the sole owner of the moment. */
  ghost predicate DemotesSoleOwner(roles: Roles, ops: seq<Op>) {
    exists i :: 0 <= i < |ops| && BlindCreate(ops[i]) && Owners(StateAt(roles, ops, i)) == {ops[i].user.value}
  }

  /** The organization has an owner in every state of the run. */
  ghost predicate AlwaysOwned(roles: Roles, ops: seq<Op>) {
    forall i :: 0 <= i <= |ops| ==> Owners(StateAt(roles, ops, i)) != {}
  }

  /**
    An organization that has an owner keeps at least one throughout a run exactly
    when no create demotes the sole owner behind a failed lookup.
   */
  lemma OwnerSurvives(roles: Roles, ops: seq<Op>)
    requires Owners(roles) != {}
    ensures AlwaysOwned(roles, ops) <==> !DemotesSoleOwner(roles, ops)
  {
    if !DemotesSoleOwner(roles, ops) {
      forall i | 0 <= i <= |ops|
        ensures Owners(StateAt(roles, ops, i)) != {}
      {
        OwnedUpTo(roles, ops, i);
      }
    } else {
      var i :| 0 <= i < |ops| && BlindCreate(ops[i]) && Owners(StateAt(roles, ops, i)) == {ops[i].user.value};
      NextState(roles, ops, i);
      LastOwnerLost(StateAt(roles, ops, i), ops[i]);
      assert Owners(StateAt(roles, ops, i + 1)) == {};
    }
  }

  lemma {:induction false} OwnedUpTo(roles: Roles, ops: seq<Op>, i: nat)
    requires Owners(roles) != {} && !DemotesSoleOwner(roles, ops) && i <= |ops|
    ensures Owners(StateAt(roles, ops, i)) != {}
  {
    if i > 0 {
      OwnedUpTo(roles, ops, i - 1);
      NextState(roles, ops, i - 1);
      LastOwnerLost(StateAt(roles, ops, i - 1), ops[i - 1]);
    }
  }

  /** In particular as long as every lookup of a create succeeds, whatever other store calls fail. */
  lemma OwnerSurvivesReadableRuns(roles: Roles, ops: seq<Op>)
    requires Owners(roles) != {} && forall op <- ops :: op.Create? ==> op.health.lookup
    ensures Owners(Exec(roles, ops)) != {}
  {
    assert !DemotesSoleOwner(roles, ops);
    OwnedUpTo(roles, ops, |ops|);
    assert ops[..|ops|] == ops;
  }

  // -------------------------------------------- runs in which no owner acts

  predicate ActedByOwner(op: Op) {
    match op
    case Create(acting, _, _, _) => IsOwner(acting)
    case Update(acting, _, _, _) => IsOwner(acting)
    case Destroy(acting, _, _) => IsOwner(acting)
    case Ensure(_, _, _) => false
  }

  /** The stranger that an SSO login with a default role of owner makes an owner. */
  function Joins(roles: Roles, op: Op): set<nat> {
    if op.Ensure? && op.defaultRole == Owner && op.joining !in roles && op.health.lookup && op.health.write
    then {op.joining} else {}
  }

  /** Without an owner or root acting there are only two ways to change the owners. */
  lemma NonOwnerStep(roles: Roles, op: Op)
    requires !ActedByOwner(op)
    ensures Owners(Apply(roles, op).0) == Owners(roles) - Overwrites(roles, op) + Joins(roles, op)
  {
    if BlindCreate(op) {
      BlindCreateDemotes(roles, op);
    }
  }

  /** Users that a run joins as owners over SSO. */
  function SsoOwners(roles: Roles, ops: seq<Op>): set<nat>
    decreases ops
  {
    if ops == [] then {} else Joins(roles, ops[0]) + SsoOwners(Apply(roles, ops[0]).0, ops[1..])
  }

  /** Owners that a run demotes by blind creates. */
  function Overwritten(roles: Roles, ops: seq<Op>): set<nat>
    decreases ops
  {
    if ops == [] then {} else Overwrites(roles, ops[0]) + Overwritten(Apply(roles, ops[0]).0, ops[1..])
  }

  /**
    Without an owner or root acting, every owner of the end either was one or
    joined over SSO, every owner of the start either still is one or was demoted by
    a blind create, and if none was demoted the owners are exactly those two groups.
   */
  lemma {:induction false} NonOwnersCannotTouchOwners(roles: Roles, ops: seq<Op>)
    requires forall op <- ops :: !ActedByOwner(op)
    ensures Owners(Exec(roles, ops)) <= Owners(roles) + SsoOwners(roles, ops)
    ensures Owners(roles) - Overwritten(roles, ops) <= Owners(Exec(roles, ops))
    ensures Overwritten(roles, ops) == {} ==>
              Owners(Exec(roles, ops)) == Owners(roles) + SsoOwners(roles, ops)
                && Owners(roles) !! SsoOwners(roles, ops)
    decreases ops
  {
    if ops != [] {
      assert ops[0] in ops;
      NonOwnerStep(roles, ops[0]);
      NonOwnersCannotTouchOwners(Apply(roles, ops[0]).0, ops[1..]);
    }
  }

  /** Some step of the run joins a stranger as owner or demotes an owner behind a failed lookup. */
  ghost predicate ChangesOwners(roles: Roles, ops: seq<Op>) {
    exists i :: 0 <= i < |ops| && Touched(StateAt(roles, ops, i), ops[i]) != {}
  }

  function Touched(roles: Roles, op: Op): set<nat> {
    Overwrites(roles, op) + Joins(roles, op)
  }

  ghost predicate SameOwnersThroughout(roles: Roles, ops: seq<Op>) {
    forall i :: 0 <= i <= |ops| ==> Owners(StateAt(roles, ops, i)) == Owners(roles)
  }

  lemma StepChangesOwners(roles: Roles, op: Op)
    requires !ActedByOwner(op)
    ensures Owners(Apply(roles, op).0) == Owners(roles) <==> Touched(roles, op) == {}
  {
    NonOwnerStep(roles, op);
    assert Overwrites(roles, op) == {} || Joins(roles, op) == {};
    assert Overwrites(roles, op) <= Owners(roles) && Joins(roles, op) !! Owners(roles);
    assert Owners(Apply(roles, op).0) - Owners(roles) == Joins(roles, op);
    assert Owners(roles) - Owners(Apply(roles, op).0) == Overwrites(roles, op);
  }

  /**
    The owners stay the same throughout a run in which no owner or root acts
    exactly when no SSO login joins a stranger as owner and no create demotes an
    owner behind a failed lookup.
   */
  lemma OwnersUnchanged(roles: Roles, ops: seq<Op>)
    requires forall op <- ops :: !ActedByOwner(op)
    ensures SameOwnersThroughout(roles, ops) <==> !ChangesOwners(roles, ops)
  {
    if ChangesOwners(roles, ops) {
      var i :| 0 <= i < |ops| && Touched(StateAt(roles, ops, i), ops[i]) != {};
      assert ops[i] in ops;
      NextState(roles, ops, i);
      StepChangesOwners(StateAt(roles, ops, i), ops[i]);
      assert Owners(StateAt(roles, ops, i + 1)) != Owners(StateAt(roles, ops, i));
    } else {
      forall i | 0 <= i <= |ops|
        ensures Owners(StateAt(roles, ops, i)) == Owners(roles)
      {
        UnchangedUpTo(roles, ops, i);
      }
    }
  }

  lemma {:induction false} UnchangedUpTo(roles: Roles, ops: seq<Op>, i: nat)
    requires (forall op <- ops :: !ActedByOwner(op)) && !ChangesOwners(roles, ops) && i <= |ops|
    ensures Owners(StateAt(roles, ops, i)) == Owners(roles)
  {
    if i > 0 {
      UnchangedUpTo(roles, ops, i - 1);
      assert ops[i - 1] in ops;
      NextState(roles, ops, i - 1);
      StepChangesOwners(StateAt(roles, ops, i - 1), ops[i - 1]);
    }
  }

  /** One SSO login with a default role of owner makes a stranger an owner with nobody acting. */
  lemma SsoLoginCanAddAnOwner(roles: Roles, user: nat, health: Health)
    requires user !in roles && health.lookup && health.write
    ensures Owners(Exec(roles, [Ensure(user, Owner, health)])) == Owners(roles) + {user}
  {
    var op := Ensure(user, Owner, health);
    assert [op][1..] == [];
    NonOwnerStep(roles, op);
  }

  /** SSO logins never change the role of an existing member. */
  lemma {:induction false} SsoKeepsRoles(roles: Roles, ops: seq<Op>, user: nat)
    requires user in roles && forall op <- ops :: op.Ensure?
    ensures user in Exec(roles, ops) && Exec(roles, ops)[user] == roles[user]
    decreases ops
  {
    if ops != [] {
      assert ops[0] in ops;
      SsoKeepsRoles(Apply(roles, ops[0]).0, ops[1..], user);
    }
  }
}
