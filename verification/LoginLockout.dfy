/**
  The failed-attempt counter of the login handler (auth_api.rs) and how fast an
  attacker can get answers out of it. Times are instants on one clock.
 */
module LoginLockout {
  import opened Options

  /** `auth.max_login_attempts` and `auth.lockout_minutes`. */
  datatype Policy = Policy(maxAttempts: nat, lockout: nat)

  datatype Code = NoCode | WrongCode | RightCode

  /** One request for an existing account, with the two checks already evaluated. */
  datatype Attempt = Attempt(now: int, passwordOk: bool, code: Code)

  datatype Outcome = AccountDisabled | AccountLocked | InvalidCredentials | TotpRequired | InvalidTotpCode | LoggedIn

  /** What `set_login_state` stores. */
  datatype LoginState = LoginState(attempts: nat, lockedUntil: Option<int>, lastLoginAt: Option<int>)

  const Fresh := LoginState(0, None, None)

  function Fail(st: LoginState, policy: Policy, now: int): LoginState {
    var attempts := st.attempts + 1;
    var locked := if attempts >= policy.maxAttempts then Some(now + policy.lockout) else None;
    st.(attempts := attempts, lockedUntil := locked)
  }

  /** The decision for one request and the state it leaves behind. */
  function Decide(st: LoginState, policy: Policy, disabled: bool, totp: bool, a: Attempt): (LoginState, Outcome) {
    if disabled then (st, AccountDisabled)
    else if st.lockedUntil.Some? && st.lockedUntil.value > a.now then (st, AccountLocked)
    else if !a.passwordOk then (Fail(st, policy, a.now), InvalidCredentials)
    else if totp && a.code == NoCode then (st, TotpRequired)
    else if totp && a.code == WrongCode then (Fail(st, policy, a.now), InvalidTotpCode)
    else (LoginState(0, None, Some(a.now)), LoggedIn)
  }

  /** The stored account, as the handler reads and rewrites it. */
  class Account {
    var attempts: nat
    var lockedUntil: Option<int>
    var lastLoginAt: Option<int>
    const policy: Policy
    const disabled: bool
    const totpEnabled: bool

    constructor (policy: Policy, disabled: bool, totpEnabled: bool)
      ensures State() == Fresh
      ensures this.policy == policy && this.disabled == disabled && this.totpEnabled == totpEnabled
    {
      this.policy, this.disabled, this.totpEnabled := policy, disabled, totpEnabled;
      attempts, lockedUntil, lastLoginAt := 0, None, None;
    }

    function State(): LoginState
      reads this
    {
      LoginState(attempts, lockedUntil, lastLoginAt)
    }

    /** `set_login_state`: a missing login time leaves the stored one. */
    method SetLoginState(failed: nat, locked: Option<int>, login: Option<int>)
      modifies this
      ensures State() == LoginState(failed, locked, if login.Some? then login else old(lastLoginAt))
    {
      attempts, lockedUntil := failed, locked;
      if login.Some? {
        lastLoginAt := login;
      }
    }

    /** `login`, from the point where the account has been found. */
    method Login(now: int, passwordOk: bool, code: Code) returns (outcome: Outcome)
      modifies this
      ensures (State(), outcome) == Decide(old(State()), policy, disabled, totpEnabled, Attempt(now, passwordOk, code))
    {
      if disabled {
        return AccountDisabled;
      }
      if lockedUntil.Some? && lockedUntil.value > now {
        return AccountLocked;
      }
      if !passwordOk {
        var failed := attempts + 1;
        SetLoginState(failed, if failed >= policy.maxAttempts then Some(now + policy.lockout) else None, None);
        return InvalidCredentials;
      }
      if totpEnabled {
        if code == NoCode {
          return TotpRequired;
        }
        if code == WrongCode {
          var failed := attempts + 1;
          SetLoginState(failed, if failed >= policy.maxAttempts then Some(now + policy.lockout) else None, None);
          return InvalidTotpCode;
        }
      }
      SetLoginState(0, None, Some(now));
      return LoggedIn;
    }
  }

  // -------------------------------------------------- what a login decides

  predicate LockedAt(st: LoginState, now: int) {
    st.lockedUntil.Some? && now < st.lockedUntil.value
  }

  /** A login succeeds exactly when the account is enabled and unlocked and every required proof is right. */
  lemma LoginSucceeds(st: LoginState, policy: Policy, disabled: bool, totp: bool, a: Attempt)
    ensures Decide(st, policy, disabled, totp, a).1 == LoggedIn <==>
            !disabled && !LockedAt(st, a.now) && a.passwordOk && (totp ==> a.code == RightCode)
  {
  }

  /** When each refusal is answered. */
  lemma LoginRefusals(st: LoginState, policy: Policy, disabled: bool, totp: bool, a: Attempt)
    ensures var outcome := Decide(st, policy, disabled, totp, a).1;
            var open := !disabled && !LockedAt(st, a.now);
            && (outcome == AccountDisabled <==> disabled)
            && (outcome == AccountLocked <==> !disabled && LockedAt(st, a.now))
            && (outcome == InvalidCredentials <==> open && !a.passwordOk)
            && (outcome == TotpRequired <==> open && a.passwordOk && totp && a.code == NoCode)
            && (outcome == InvalidTotpCode <==> open && a.passwordOk && totp && a.code == WrongCode)
  {
  }

  /**
    What a login stores: a wrong password or code adds one to the counter and locks
    from the limit on, a success clears both and dates the login, and every other
    answer stores nothing.
   */
  lemma LoginStores(st: LoginState, policy: Policy, disabled: bool, totp: bool, a: Attempt)
    ensures var (next, outcome) := Decide(st, policy, disabled, totp, a);
            && (WrongGuess(outcome) ==>
                  && next.attempts == st.attempts + 1 && next.lastLoginAt == st.lastLoginAt
                  && (next.lockedUntil.Some? <==> st.attempts + 1 >= policy.maxAttempts)
                  && (next.lockedUntil.Some? ==> next.lockedUntil.value == a.now + policy.lockout))
            && (outcome == LoggedIn ==>
                next.attempts == 0 && next.lockedUntil == None && next.lastLoginAt == Some(a.now))
            && (!WrongGuess(outcome) && outcome != LoggedIn ==> next == st)
  {
  }

  // ----------------------------------------------------------------- runs

  function Run(st: LoginState, policy: Policy, disabled: bool, totp: bool, run: seq<Attempt>)
    : (LoginState, seq<Outcome>)
    decreases run
  {
    if run == [] then (st, [])
    else
      var (next, outcome) := Decide(st, policy, disabled, totp, run[0]);
      var (final, outcomes) := Run(next, policy, disabled, totp, run[1..]);
      (final, [outcome] + outcomes)
  }

  /** Answers that tell an attacker a guess was wrong. */
  predicate WrongGuess(o: Outcome) {
    o == InvalidCredentials || o == InvalidTotpCode
  }

  function Count(outcomes: seq<Outcome>, p: Outcome -> bool): nat {
    if outcomes == [] then 0 else (if p(outcomes[0]) then 1 else 0) + Count(outcomes[1..], p)
  }

  predicate Clock(from: int, run: seq<Attempt>)
    decreases run
  {
    run == [] || (from <= run[0].now && Clock(run[0].now, run[1..]))
  }

  function Last(from: int, run: seq<Attempt>): int {
    if run == [] then from else run[|run| - 1].now
  }

  /** A limit of zero locks on the first failure, exactly as a limit of one does. */
  lemma {:induction false} ZeroLimitIsOne(st: LoginState, lockout: nat, disabled: bool, totp: bool, run: seq<Attempt>)
    ensures Run(st, Policy(0, lockout), disabled, totp, run) == Run(st, Policy(1, lockout), disabled, totp, run)
    decreases run
  {
    if run != [] {
      var next := Decide(st, Policy(1, lockout), disabled, totp, run[0]).0;
      assert Decide(st, Policy(0, lockout), disabled, totp, run[0])
          == Decide(st, Policy(1, lockout), disabled, totp, run[0]);
      ZeroLimitIsOne(next, lockout, disabled, totp, run[1..]);
    }
  }

  /** The number of failures that locks. */
  function Limit(policy: Policy): nat {
    if policy.maxAttempts == 0 then 1 else policy.maxAttempts
  }

  /**
    The potential behind the bound. `spent` counts wrong guesses so far, less the
    ones each login gives back; once the limit is reached the lock carries it.
   */
  predicate Paid(st: LoginState, policy: Policy, start: int, now: int, spent: int) {
    var m, l := Limit(policy), policy.lockout;
    start <= now &&
    if st.attempts < m then st.lockedUntil.None? && (spent - st.attempts) * l <= now - start
    else st.lockedUntil.Some? && (spent - m + 1) * l <= st.lockedUntil.value - start && st.lockedUntil.value <= now + l
  }

  lemma PaidLater(st: LoginState, policy: Policy, start: int, now: int, later: int, spent: int)
    requires Paid(st, policy, start, now, spent) && now <= later
    ensures Paid(st, policy, start, later, spent)
  {
  }

  lemma Scale(a: int, b: int, l: nat)
    requires a <= b
    ensures a * l <= b * l
  {
  }

  lemma PaidFailure(st: LoginState, policy: Policy, start: int, now: int, spent: int)
    requires Paid(st, policy, start, now, spent)
    requires st.lockedUntil.Some? ==> st.lockedUntil.value <= now
    ensures Paid(Fail(st, policy, now), policy, start, now, spent + 1)
  {
    var m, l := Limit(policy), policy.lockout;
    assert (spent + 1 - m + 1) * l == (spent - m + 1) * l + l;
    assert (spent + 1 - (st.attempts + 1)) * l == (spent - st.attempts) * l;
  }

  lemma PaidLogin(st: LoginState, policy: Policy, start: int, now: int, spent: int)
    requires Paid(st, policy, start, now, spent)
    requires st.lockedUntil.Some? ==> st.lockedUntil.value <= now
    ensures Paid(LoginState(0, None, Some(now)), policy, start, now, spent - (Limit(policy) - 1))
  {
    var m, l := Limit(policy), policy.lockout;
    if st.attempts < m {
      Scale(spent - (m - 1), spent - st.attempts, l);
    }
  }

  /** What one outcome adds to the account of guesses. */
  function Gain(outcome: Outcome, policy: Policy): int {
    if WrongGuess(outcome) then 1 else if outcome == LoggedIn then 1 - Limit(policy) else 0
  }

  lemma PaidStep(st: LoginState, policy: Policy, disabled: bool, totp: bool, a: Attempt, start: int, now: int,
                 spent: int)
    requires Paid(st, policy, start, now, spent) && now <= a.now
    ensures var (next, outcome) := Decide(st, policy, disabled, totp, a);
            Paid(next, policy, start, a.now, spent + Gain(outcome, policy))
  {
    var outcome := Decide(st, policy, disabled, totp, a).1;
    PaidLater(st, policy, start, now, a.now, spent);
    if WrongGuess(outcome) {
      PaidFailure(st, policy, start, a.now, spent);
    } else if outcome == LoggedIn {
      PaidLogin(st, policy, start, a.now, spent);
    }
  }

  /** A potential that every step keeps is kept by every run. */
  lemma {:induction false} PotentialRun(paid: (LoginState, int, int) -> bool, st: LoginState, policy: Policy,
                                        disabled: bool,
                                        totp: bool, run: seq<Attempt>, now: int, spent: int)
    requires forall s, t, n, a: Attempt :: paid(s, t, n) && t <= a.now ==>
               paid(Decide(s, policy, disabled, totp, a).0, a.now,
                    n + Gain(Decide(s, policy, disabled, totp, a).1, policy))
    requires paid(st, now, spent) && Clock(now, run)
    ensures var (final, outcomes) := Run(st, policy, disabled, totp, run);
            paid(final, Last(now, run),
                 spent + Count(outcomes, WrongGuess) - (Limit(policy) - 1) * Count(outcomes, o => o == LoggedIn))
    decreases run
  {
    if run != [] {
      var (next, outcome) := Decide(st, policy, disabled, totp, run[0]);
      PotentialRun(paid, next, policy, disabled, totp, run[1..], run[0].now, spent + Gain(outcome, policy));
      Tally(outcome, Run(next, policy, disabled, totp, run[1..]).1, Limit(policy) - 1);
      assert Last(run[0].now, run[1..]) == Last(now, run);
    }
  }

  lemma PaidRun(st: LoginState, policy: Policy, disabled: bool, totp: bool, run: seq<Attempt>,
                start: int, now: int, spent: int)
    requires Paid(st, policy, start, now, spent) && Clock(now, run)
    ensures var (final, outcomes) := Run(st, policy, disabled, totp, run);
            Paid(final, policy, start, Last(now, run),
                 spent + Count(outcomes, WrongGuess) - (Limit(policy) - 1) * Count(outcomes, o => o == LoggedIn))
  {
    forall s, t, n, a: Attempt | Paid(s, policy, start, t, n) && t <= a.now
      ensures Paid(Decide(s, policy, disabled, totp, a).0, policy, start, a.now,
                   n + Gain(Decide(s, policy, disabled, totp, a).1, policy))
    {
      PaidStep(s, policy, disabled, totp, a, start, t, n);
    }
    PotentialRun((s, t, n) => Paid(s, policy, start, t, n), st, policy, disabled, totp, run, now, spent);
  }

  lemma Tally(outcome: Outcome, rest: seq<Outcome>, m: int)
    ensures Count([outcome] + rest, WrongGuess) == (if WrongGuess(outcome) then 1 else 0) + Count(rest, WrongGuess)
    ensures m * Count([outcome] + rest, o => o == LoggedIn)
         == (if outcome == LoggedIn then m else 0) + m * Count(rest, o => o == LoggedIn)
  {
    assert ([outcome] + rest)[1..] == rest;
  }

  /**
    The lockout bound: a run that starts from a zero counter and contains `k`
    wrong guesses and `r` logins takes at least `(k - m - r * (m - 1))` lockouts.
    Without a login in between that is `(k - m)` lockouts.
   */
  lemma LockoutBound(policy: Policy, disabled: bool, totp: bool, run: seq<Attempt>, lastLogin: Option<int>)
    requires run != [] && Clock(run[0].now, run)
    ensures var outcomes := Run(LoginState(0, None, lastLogin), policy, disabled, totp, run).1;
            var k: int, r: int := Count(outcomes, WrongGuess), Count(outcomes, o => o == LoggedIn);
            var m: int := Limit(policy);
            (k - m - r * (m - 1)) * policy.lockout <= run[|run| - 1].now - run[0].now
  {
    var st := LoginState(0, None, lastLogin);
    var start := run[0].now;
    var m: int := Limit(policy);
    PaidRun(st, policy, disabled, totp, run, start, start, 0);
    var (final, outcomes) := Run(st, policy, disabled, totp, run);
    var k: int, r: int := Count(outcomes, WrongGuess), Count(outcomes, o => o == LoggedIn);
    PaidBound(final, policy, start, run[|run| - 1].now, k - (m - 1) * r);
    assert k - (m - 1) * r - m == k - m - r * (m - 1);
  }

  lemma PaidBound(st: LoginState, policy: Policy, start: int, now: int, spent: int)
    requires Paid(st, policy, start, now, spent)
    ensures (spent - Limit(policy)) * policy.lockout <= now - start
  {
    var m, l := Limit(policy), policy.lockout;
    if st.attempts < m {
      Scale(spent - m, spent - st.attempts, l);
    } else {
      assert (spent - m + 1) * l == (spent - m) * l + l;
    }
  }

  // ------------------------------------------------------------ tightness

  /** Guessing as fast as the lock allows. */
  function Fastest(policy: Policy, done: nat, k: nat): (run: seq<Attempt>)
    ensures |run| == k
    decreases k
  {
    if k == 0 then []
    else [Attempt(Due(policy, done), false, NoCode)] + Fastest(policy, done + 1, k - 1)
  }

  function Due(policy: Policy, done: nat): int {
    if done < Limit(policy) then 0 else (done - Limit(policy) + 1) * policy.lockout
  }

  lemma DueNext(policy: Policy, done: nat)
    ensures Due(policy, done) <= Due(policy, done + 1)
    ensures done + 1 >= Limit(policy) ==> Due(policy, done + 1) == Due(policy, done) + policy.lockout
  {
    var l := policy.lockout;
    if done >= Limit(policy) {
      assert (done + 1 - Limit(policy) + 1) * l == (done - Limit(policy) + 1) * l + l;
    }
  }

  lemma {:induction false} FastestGuesses(policy: Policy, st: LoginState, totp: bool, done: nat, k: nat)
    requires st.attempts == done
    requires st.lockedUntil.Some? ==> st.lockedUntil.value <= Due(policy, done)
    ensures var run := Fastest(policy, done, k);
            Clock(Due(policy, done), run) && Count(Run(st, policy, false, totp, run).1, WrongGuess) == k
    decreases k
  {
    if k > 0 {
      var run, rest := Fastest(policy, done, k), Fastest(policy, done + 1, k - 1);
      var next := Fail(st, policy, Due(policy, done));
      assert run[1..] == rest;
      DueNext(policy, done);
      FastestGuesses(policy, next, totp, done + 1, k - 1);
      var outcomes := Run(next, policy, false, totp, rest).1;
      assert ([InvalidCredentials] + outcomes)[1..] == outcomes;
      ClockFrom(Due(policy, done), Due(policy, done + 1), rest);
    }
  }

  lemma ClockFrom(from: int, later: int, run: seq<Attempt>)
    requires from <= later && Clock(later, run)
    ensures Clock(from, run)
  {
  }

  /** The bound is met: `k` wrong guesses can be made in exactly `k - m` lockouts. */
  lemma BoundIsTight(policy: Policy, totp: bool, k: nat)
    requires k > 0
    ensures var run := Fastest(policy, 0, k);
            && Clock(0, run) && run[0].now == 0
            && Count(Run(Fresh, policy, false, totp, run).1, WrongGuess) == k
            && run[k - 1].now == if k < Limit(policy) then 0 else (k - Limit(policy)) * policy.lockout
  {
    FastestGuesses(policy, Fresh, totp, 0, k);
    FastestAt(policy, 0, k, k - 1);
  }

  lemma {:induction false} FastestAt(policy: Policy, done: nat, k: nat, i: nat)
    requires i < k
    ensures Fastest(policy, done, k)[i].now == Due(policy, done + i)
    decreases k
  {
    if i > 0 {
      FastestAt(policy, done + 1, k - 1, i - 1);
    }
  }
}
