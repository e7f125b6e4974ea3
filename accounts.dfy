/** User records of the relay server and the three-strike lockout
    (`password_valid`, `can_attempt_login`, `record_failed_attempt` and the credential
    check of the login action). */
module Accounts {
  import opened Options
  import opened Failures

  const LockoutMinutes := 10
  const LockoutSeconds := LockoutMinutes * 60
  const MinPasswordLength := 6
  const MaxStrikes := 3

  /** `{"pw": ..., "strikes": ..., "locked_until": ...}`; the relay server keeps the
      password itself, not a digest of it. `lockedUntil` is a time in seconds. */
  datatype UserRecord = UserRecord(pw: string, strikes: nat, lockedUntil: Option<int>)

  /** The record a successful registration creates. */
  function NewUser(pw: string): UserRecord
  {
    UserRecord(pw, 0, None)
  }

  predicate PasswordValid(pw: string)
  {
    |pw| >= MinPasswordLength
  }

  /** The record carries a lock that has not yet expired at `now`. */
  predicate LockActive(rec: UserRecord, now: int)
  {
    rec.lockedUntil.Some? && now < rec.lockedUntil.value
  }

  /** Whether a login attempt may proceed, and the record afterwards: an expired lock
      is cleared, together with the strikes, as a side effect of asking. */
  datatype Gate = Gate(allowed: bool, rec: UserRecord)

  function CanAttemptLogin(rec: UserRecord, now: int): (g: Gate)
    ensures g.allowed <==> !LockActive(rec, now)
    ensures !g.allowed ==> g.rec == rec
    ensures g.allowed ==> g.rec == rec.(strikes := if rec.lockedUntil.Some? then 0 else rec.strikes,
                                        lockedUntil := None)
  {
    match rec.lockedUntil
    case None => Gate(true, rec)
    case Some(until) =>
      if now >= until then Gate(true, rec.(lockedUntil := None, strikes := 0))
      else Gate(false, rec)
  }

  /** The outcome of one wrong password: whether it locked the account, the strike
      number to report, and the record afterwards. */
  datatype Strike = Strike(locked: bool, strike: nat, rec: UserRecord)

  function RecordFailedAttempt(rec: UserRecord, now: int): (r: Strike)
    ensures 1 <= r.strike <= MaxStrikes
    ensures r.locked <==> rec.strikes + 1 >= MaxStrikes
    ensures r.locked ==>
              r.strike == MaxStrikes && r.rec == rec.(strikes := 0, lockedUntil := Some(now + LockoutSeconds))
    ensures !r.locked ==> r.strike == rec.strikes + 1 && r.rec == rec.(strikes := r.strike)
    ensures r.rec.strikes < MaxStrikes
  {
    var strikes := rec.strikes + 1;
    if strikes >= MaxStrikes then
      Strike(true, MaxStrikes, rec.(strikes := 0, lockedUntil := Some(now + LockoutSeconds)))
    else
      Strike(false, strikes, rec.(strikes := strikes))
  }

  /** The result of the login action on an existing user: `None` for success. */
  datatype LoginOutcome = LoginOutcome(failure: Option<Failure>, rec: UserRecord)

  /** The login action once the user is known to exist: the lock check, then the
      password comparison, then either the reset or one more strike. */
  function AttemptLogin(rec: UserRecord, pw: string, now: int): (o: LoginOutcome)
    ensures o.failure.None? <==> !LockActive(rec, now) && pw == rec.pw
    ensures LockActive(rec, now) ==> o == LoginOutcome(Some(LockedOut), rec)
    ensures o.failure.None? ==> o.rec == rec.(strikes := 0, lockedUntil := None)
    ensures !LockActive(rec, now) && pw != rec.pw ==>
              var n := (if rec.lockedUntil.Some? then 0 else rec.strikes) + 1;
              if n >= MaxStrikes then
                o.failure == Some(LockedAfter3(MaxStrikes))
                && o.rec == rec.(strikes := 0, lockedUntil := Some(now + LockoutSeconds))
              else
                o.failure == Some(BadCredentials(n))
                && o.rec == rec.(strikes := n, lockedUntil := None)
    ensures o.rec.pw == rec.pw
    ensures rec.strikes < MaxStrikes ==> o.rec.strikes < MaxStrikes
  {
    var gate := CanAttemptLogin(rec, now);
    if !gate.allowed then LoginOutcome(Some(LockedOut), rec)
    else if gate.rec.pw == pw then LoginOutcome(None, gate.rec.(strikes := 0, lockedUntil := None))
    else
      var s := RecordFailedAttempt(gate.rec, now);
      LoginOutcome(Some(if s.locked then LockedAfter3(s.strike) else BadCredentials(s.strike)), s.rec)
  }

  /** Three wrong passwords report strikes 1 and 2 and then lock the account for ten
      minutes; a fourth attempt inside that window is refused whatever the password;
      once the window has passed the right password succeeds and clears the record. */
  lemma ThreeStrikesThenLockout(pw: string, bad: string, t1: int, t2: int, t3: int, t4: int, t5: int)
    requires bad != pw
    requires t3 <= t4 < t3 + LockoutSeconds <= t5
    ensures var o1 := AttemptLogin(NewUser(pw), bad, t1);
            var o2 := AttemptLogin(o1.rec, bad, t2);
            var o3 := AttemptLogin(o2.rec, bad, t3);
            var o4 := AttemptLogin(o3.rec, pw, t4);
            var o5 := AttemptLogin(o4.rec, pw, t5);
            && o1.failure == Some(BadCredentials(1))
            && o2.failure == Some(BadCredentials(2))
            && o3.failure == Some(LockedAfter3(3))
            && o3.rec.lockedUntil == Some(t3 + LockoutSeconds)
            && o4 == LoginOutcome(Some(LockedOut), o3.rec)
            && o5.failure == None
            && o5.rec == NewUser(pw)
  {
  }
}
