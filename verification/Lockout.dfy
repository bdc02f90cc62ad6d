/** Account lockout after repeated failed logins. */
module Lockout {
  import opened Text

  /** Thirty minutes in microseconds, the resolution of the database clock. */
  const LOCK: nat := 30 * 60 * 1_000_000

  /** The login columns of a user row. */
  datatype Account = Account(active: bool, failed: nat, lockedUntil: Option<nat>)

  /** A login request at a time of the shared clock; `valid` when the password is right. */
  datatype Attempt = Attempt(now: nat, valid: bool)

  predicate Locked(a: Account, now: nat) { a.lockedUntil.Some? && a.lockedUntil.value > now }

  /** The password is looked at. */
  predicate Checked(a: Account, t: Attempt) { a.active && !Locked(a, t.now) }

  function Login(a: Account, t: Attempt): Account {
    if !Checked(a, t) then a
    else if t.valid then a.(failed := 0, lockedUntil := None)
    else a.(failed := a.failed + 1,
            lockedUntil := if a.failed + 1 >= 5 then Some(t.now + LOCK) else a.lockedUntil)
  }

  /** The user row. */
  class UserRow {
    var active: bool
    var failed: nat
    var lockedUntil: Option<nat>

    constructor (a: Account)
      ensures View() == a
    {
      active, failed, lockedUntil := a.active, a.failed, a.lockedUntil;
    }

    ghost function View(): Account
      reads this
    {
      Account(active, failed, lockedUntil)
    }

    /** `login`: whether the password was checked and whether the login succeeded. */
    method TryLogin(t: Attempt) returns (checked: bool, success: bool)
      modifies this`failed, this`lockedUntil
      ensures View() == Login(old(View()), t)
      ensures checked == Checked(old(View()), t) && success == (checked && t.valid)
    {
      checked, success := false, false;
      if !active {
        return;
      }
      if lockedUntil.Some? && lockedUntil.value > t.now {
        return;
      }
      checked := true;
      if !t.valid {
        var before := failed;
        failed := failed + 1;
        if before + 1 >= 5 {
          lockedUntil := Some(t.now + LOCK);
        }
        return;
      }
      failed, lockedUntil := 0, None;
      success := true;
    }
  }

  function Run(a: Account, ts: seq<Attempt>): Account {
    if ts == [] then a else Login(Run(a, ts[..|ts| - 1]), ts[|ts| - 1])
  }

  /** How many passwords were checked. */
  function Checks(a: Account, ts: seq<Attempt>): nat {
    if ts == [] then 0
    else
      var n := |ts| - 1;
      Checks(a, ts[..n]) + if Checked(Run(a, ts[..n]), ts[n]) then 1 else 0
  }

  /** Attempts in order of time within `[start, start + length]`, none of them a successful login. */
  predicate Window(a: Account, ts: seq<Attempt>, start: nat, length: nat) {
    && (forall i :: 0 <= i < |ts| ==> start <= ts[i].now <= start + length)
    && (forall i, j :: 0 <= i < j < |ts| ==> ts[i].now <= ts[j].now)
    && (forall k :: 0 <= k < |ts| ==> !(ts[k].valid && Checked(Run(a, ts[..k]), ts[k])))
  }

  lemma WindowPrefix(a: Account, ts: seq<Attempt>, start: nat, length: nat, n: nat)
    requires n <= |ts| && Window(a, ts, start, length)
    ensures Window(a, ts[..n], start, length)
  {
    forall k | 0 <= k < n ensures !(ts[..n][k].valid && Checked(Run(a, ts[..n][..k]), ts[..n][k])) {
      assert ts[..n][..k] == ts[..k] && ts[..n][k] == ts[k];
    }
  }

  /** What holds after `c` checks of which the last came at `last`. */
  predicate Paced(a: Account, end: Account, c: nat, start: nat, last: nat) {
    && end.failed == a.failed + c
    && (c >= 1 && end.failed >= 5 ==>
          end.lockedUntil.Some? && end.lockedUntil.value >= start + (c - 4) * LOCK)
    && (c > 5 ==> (c - 5) * LOCK <= last - start)
  }

  lemma PacedStep(a: Account, end: Account, c: nat, start: nat, last: nat, t: Attempt)
    requires Paced(a, end, c, start, last) && start <= last <= t.now && !(t.valid && Checked(end, t))
    ensures Paced(a, Login(end, t), c + (if Checked(end, t) then 1 else 0), start, t.now)
  {
  }

  /** Each check past the fifth waits out a lock set by the one before it. */
  lemma {:induction false} LockPaces(a: Account, ts: seq<Attempt>, start: nat, length: nat)
    requires Window(a, ts, start, length)
    ensures Paced(a, Run(a, ts), Checks(a, ts), start, if ts == [] then start else ts[|ts| - 1].now)
  {
    if ts != [] {
      var n := |ts| - 1;
      var init := ts[..n];
      WindowPrefix(a, ts, start, length, n);
      LockPaces(a, init, start, length);
      assert !(ts[n].valid && Checked(Run(a, ts[..n]), ts[n]));
      var last := if n == 0 then start else init[n - 1].now;
      assert n > 0 ==> init[n - 1] == ts[n - 1] && ts[n - 1].now <= ts[n].now;
      PacedStep(a, Run(a, init), Checks(a, init), start, last, ts[n]);
    }
  }

  /** In any window without a successful login at most five passwords are checked, plus one for every thirty
      minutes of the window, whatever the attempts and however the account starts. */
  lemma LockoutBound(a: Account, ts: seq<Attempt>, start: nat, length: nat)
    requires Window(a, ts, start, length)
    ensures Checks(a, ts) <= 5 + length / (30 * 60 * 1_000_000)
  {
    LockPaces(a, ts, start, length);
    var c := Checks(a, ts);
    if c > 5 {
      assert (c - 5) * LOCK <= length;
      assert c - 5 <= length / LOCK;
    }
  }

  // ---- single attempts -----------------------------------------------------

  /** The fifth wrong password in a row, and each one after it, locks the account for thirty minutes: until then not
      even the right password is looked at, and from then on any is. */
  lemma WrongPasswordLocks(a: Account, now: nat, next: Attempt)
    requires a.active && a.failed >= 4 && (a.lockedUntil.Some? ==> a.lockedUntil.value <= now)
    ensures
      var b := Login(a, Attempt(now, false));
      && (Checked(b, next) <==> next.now >= now + 30 * 60 * 1_000_000)
      && (next.now < now + 30 * 60 * 1_000_000 ==> Login(b, next) == b)
  {
  }

  predicate AllWrong(ts: seq<Attempt>) {
    forall i :: 0 <= i < |ts| ==> !ts[i].valid
  }

  lemma {:induction false} WrongOnesCount(ts: seq<Attempt>)
    requires AllWrong(ts) && |ts| <= 4
    ensures Run(Account(true, 0, None), ts) == Account(true, |ts|, None)
  {
    if ts != [] {
      var n := |ts| - 1;
      assert AllWrong(ts[..n]);
      WrongOnesCount(ts[..n]);
    }
  }

  /** A successful login starts over: after it up to four wrong passwords, at whatever times, lock nothing out. */
  lemma SuccessStartsOver(a: Account, good: Attempt, wrong: seq<Attempt>, next: Attempt)
    requires Checked(a, good) && good.valid && AllWrong(wrong) && |wrong| <= 4
    ensures Checked(Run(Login(a, good), wrong), next)
  {
    assert Login(a, good) == Account(true, 0, None);
    WrongOnesCount(wrong);
  }

  /** A deactivated account is never looked at and never changes. */
  lemma {:induction false} InactiveStays(a: Account, ts: seq<Attempt>)
    requires !a.active
    ensures Run(a, ts) == a && Checks(a, ts) == 0
  {
    if ts != [] {
      InactiveStays(a, ts[..|ts| - 1]);
    }
  }

  /** Five wrong passwords at once, then one each time the lock runs out. */
  function Patient(start: nat, n: nat): seq<Attempt> {
    var wrong := Attempt(start, false);
    if n == 0 then [wrong, wrong, wrong, wrong, wrong]
    else Patient(start, n - 1) + [Attempt(start + n * LOCK, false)]
  }

  lemma FiveAtOnce(start: nat)
    ensures
      var a := Account(true, 0, None);
      Run(a, Patient(start, 0)) == Account(true, 5, Some(start + LOCK)) && Checks(a, Patient(start, 0)) == 5
  {
    var a := Account(true, 0, None);
    var w := Attempt(start, false);
    assert [w][..0] == [];
    assert [w, w][..1] == [w];
    assert [w, w, w][..2] == [w, w];
    assert [w, w, w, w][..3] == [w, w, w];
    assert [w, w, w, w, w][..4] == [w, w, w, w];
    assert Run(a, [w]) == Account(true, 1, None) && Checks(a, [w]) == 1;
    assert Run(a, [w, w]) == Account(true, 2, None) && Checks(a, [w, w]) == 2;
    assert Run(a, [w, w, w]) == Account(true, 3, None) && Checks(a, [w, w, w]) == 3;
    assert Run(a, [w, w, w, w]) == Account(true, 4, None) && Checks(a, [w, w, w, w]) == 4;
  }

  lemma {:induction false} PatientTimes(start: nat, n: nat)
    ensures
      var ts := Patient(start, n);
      && ts != [] && ts[|ts| - 1].now == start + n * LOCK
      && (forall i :: 0 <= i < |ts| ==> start <= ts[i].now <= start + n * LOCK && !ts[i].valid)
      && (forall i, j :: 0 <= i < j < |ts| ==> ts[i].now <= ts[j].now)
  {
    if n > 0 {
      PatientTimes(start, n - 1);
      var ts, init := Patient(start, n), Patient(start, n - 1);
      assert forall i :: 0 <= i < |init| ==> ts[i] == init[i];
    }
  }

  lemma {:induction false} PatientChecks(start: nat, n: nat)
    ensures
      var a := Account(true, 0, None);
      var ts := Patient(start, n);
      && Checks(a, ts) == 5 + n
      && Run(a, ts) == Account(true, 5 + n, Some(start + (n + 1) * LOCK))
  {
    if n == 0 {
      FiveAtOnce(start);
    } else {
      PatientChecks(start, n - 1);
      OneMore(Account(true, 0, None), Patient(start, n - 1), Attempt(start + n * LOCK, false));
    }
  }

  lemma OneMore(a: Account, ts: seq<Attempt>, t: Attempt)
    ensures Run(a, ts + [t]) == Login(Run(a, ts), t)
    ensures Checks(a, ts + [t]) == Checks(a, ts) + if Checked(Run(a, ts), t) then 1 else 0
  {
    assert (ts + [t])[..|ts|] == ts;
  }

  /** The bound is reached for every window length. */
  lemma BoundReached(start: nat, length: nat)
    ensures
      var a := Account(true, 0, None);
      var ts := Patient(start, length / LOCK);
      Window(a, ts, start, length) && Checks(a, ts) == 5 + length / LOCK
  {
    var n := length / LOCK;
    assert n * LOCK <= length;
    PatientTimes(start, n);
    PatientChecks(start, n);
  }
}
