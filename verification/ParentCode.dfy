/**
 The unlock code: a one-time password per thirty-second step (RFC 6238) with replay
 protection, one-time recovery codes, a backup code, and a lockout that doubles.

 Instants are nanoseconds. HMAC and argon2 are uninterpreted: every result holds whatever
 functions `Primitives` carries.
 */
module ParentCode {
  import opened Options
  import Base32
  import Strings

  const SECOND := 1_000_000_000
  const DIGITS := 6
  const RECOVERY_DIGITS := 8
  const WINDOW := 1
  const FAILURES_BEFORE_LOCKOUT := 5
  const LOCKOUT_BASE_SECS := 60
  const LOCKOUT_MAX_SECS := 15 * 60

  /** The cryptography: a step's code, a recovery code's MAC, a backup code's hash. */
  datatype Primitives = Primitives(
    totp: (seq<nat>, nat) -> string,
    macMatches: (seq<nat>, string, string) -> bool,
    pinMatches: (string, string) -> bool)

  datatype RecoveryCode = RecoveryCode(id: string, mac: string)

  /** What the last policy bundle told this computer. */
  datatype Config = Config(
    secret: Option<string>,
    recovery: seq<RecoveryCode>,
    backupHash: Option<string>)
  {
    predicate Configured() {
      secret.Some? || backupHash.Some?
    }

    function Key(): Option<seq<nat>> {
      if secret.Some? then Base32.Decoded(secret.value) else None
    }
  }

  datatype Verdict = Ok | Recovery(id: string) | Backup | Wrong | LockedOut(secs: nat) | NotConfigured
  {
    predicate Accepted() {
      Ok? || Recovery? || Backup?
    }
  }

  datatype Tries = Left(n: nat) | Wait(secs: nat)

  /** What is kept on disk between attempts. */
  datatype State = State(
    lastCounter: nat,
    failures: nat,
    lockedUntil: Option<int>,
    usedRecovery: seq<string>)

  const FRESH := State(0, 0, None, [])

  // ---- Checking one code ----

  predicate AllDigits(s: string) {
    forall c <- s :: '0' <= c <= '9'
  }

  function TrimStart(s: string): string {
    if s != "" && Strings.IsSpace(s[0]) then TrimStart(s[1..]) else s
  }

  function TrimEnd(s: string): string {
    if s != "" && Strings.IsSpace(s[|s| - 1]) then TrimEnd(s[..|s| - 1]) else s
  }

  function WithoutSpaces(s: string): string {
    if s == "" then "" else (if s[0] == ' ' then "" else [s[0]]) + WithoutSpaces(s[1..])
  }

  function Normalized(code: string): string {
    WithoutSpaces(TrimEnd(TrimStart(code)))
  }

  /** A step whose code this is and that has not been used: what a typed code may stand for. */
  predicate Fresh(p: Primitives, key: seq<nat>, last: nat, code: string, counter: nat, c: nat) {
    counter - WINDOW <= c <= counter + WINDOW && c > last && p.totp(key, c) == code
  }

  /** The first fresh step from `c` on. */
  function FirstFresh(p: Primitives, key: seq<nat>, last: nat, code: string, counter: nat, c: nat): Option<nat>
    decreases counter + WINDOW - c
  {
    if c > counter + WINDOW then None
    else if Fresh(p, key, last, code, counter, c) then Some(c)
    else FirstFresh(p, key, last, code, counter, c + 1)
  }

  /** The first recovery code that is not spent and whose MAC this is. */
  function FirstUnspent(p: Primitives, key: seq<nat>, codes: seq<RecoveryCode>, used: seq<string>, code: string): Option<string> {
    if codes == [] then None
    else if codes[0].id !in used && p.macMatches(key, code, codes[0].mac) then Some(codes[0].id)
    else FirstUnspent(p, key, codes[1..], used, code)
  }

  datatype Match = StepMatch(c: nat) | RecoveryMatch(id: string) | BackupMatch | NoMatch

  function FirstInWindow(counter: nat): nat {
    if counter < WINDOW then 0 else counter - WINDOW
  }

  /** What a normalized code stands for: a fresh step, else a recovery code, else the backup. */
  function Matching(p: Primitives, config: Config, key: Option<seq<nat>>, st: State, code: string, counter: nat): Match {
    var step :=
      if key.Some? && |code| == DIGITS && AllDigits(code)
      then FirstFresh(p, key.value, st.lastCounter, code, counter, FirstInWindow(counter))
      else None;
    if step.Some? then StepMatch(step.value)
    else
      var spare :=
        if key.Some? && |code| == RECOVERY_DIGITS && AllDigits(code)
        then FirstUnspent(p, key.value, config.recovery, st.usedRecovery, code)
        else None;
      if spare.Some? then RecoveryMatch(spare.value)
      else if config.backupHash.Some? && p.pinMatches(code, config.backupHash.value) then BackupMatch
      else NoMatch
  }

  /** A match uses up its step or its recovery code. */
  function UsedUp(st: State, m: Match): (State, Verdict) {
    match m
    case StepMatch(c) => (st.(lastCounter := c), Ok)
    case RecoveryMatch(id) => (st.(usedRecovery := st.usedRecovery + [id]), Recovery(id))
    case BackupMatch => (st, Backup)
    case NoMatch => (st, Wrong)
  }

  function Min(a: nat, b: nat): nat {
    if a < b then a else b
  }

  /** The wait after the `failures`-th wrong code in a row. */
  function LockSecs(failures: nat): nat
    requires failures >= FAILURES_BEFORE_LOCKOUT
  {
    Min(LOCKOUT_BASE_SECS * Base32.Pow2(Min(failures - FAILURES_BEFORE_LOCKOUT, 10)), LOCKOUT_MAX_SECS)
  }

  function Failed(st: State, now: int): (State, Verdict) {
    var failures := st.failures + 1;
    if failures >= FAILURES_BEFORE_LOCKOUT then
      var secs := LockSecs(failures);
      (st.(failures := failures, lockedUntil := Some(now + secs * SECOND)), LockedOut(secs))
    else (st.(failures := failures), Wrong)
  }

  function Passed(st: State): State {
    st.(failures := 0, lockedUntil := None)
  }

  predicate Waiting(st: State, now: int) {
    st.lockedUntil.Some? && st.lockedUntil.value > now
  }

  function SecsLeft(st: State, now: int): nat
    requires Waiting(st, now)
  {
    var secs := (st.lockedUntil.value - now) / SECOND;
    if secs < 1 then 1 else secs
  }

  function Verified(p: Primitives, config: Config, st: State, code: string, counter: nat, now: int): (State, Verdict) {
    if !config.Configured() then (st, NotConfigured)
    else if Waiting(st, now) then (st, LockedOut(SecsLeft(st, now)))
    else
      var (used, verdict) := UsedUp(st, Matching(p, config, config.Key(), st, Normalized(code), counter));
      if verdict.Accepted() then (Passed(used), verdict) else Failed(st, now)
  }

  function TriesAt(st: State, now: int): Tries {
    if Waiting(st, now) then Wait(SecsLeft(st, now))
    else if st.failures >= FAILURES_BEFORE_LOCKOUT - 1 then Left(1)
    else Left(FAILURES_BEFORE_LOCKOUT - st.failures)
  }

  /** Recovery codes still usable on this computer. */
  function CodesLeft(codes: seq<RecoveryCode>, used: seq<string>): nat {
    if codes == [] then 0 else (if codes[0].id in used then 0 else 1) + CodesLeft(codes[1..], used)
  }

  /** The verifier, over the state file it loads and saves at every attempt. */
  class Verifier {
    const p: Primitives
    const config: Config
    var saved: State

    constructor (p: Primitives, config: Config, saved: State)
      ensures this.p == p && this.config == config && this.saved == saved
    {
      this.p, this.config, this.saved := p, config, saved;
    }

    /** The three places a code may come from, in turn. */
    method MatchCode(key: Option<seq<nat>>, typed: string, counter: nat) returns (st: State, verdict: Verdict)
      ensures (st, verdict) == UsedUp(saved, Matching(p, config, key, saved, typed, counter))
    {
      st, verdict := saved, Wrong;
      if key.Some? && |typed| == DIGITS && AllDigits(typed) {
        var lo := FirstInWindow(counter);
        for c := lo to counter + WINDOW + 1
          invariant verdict == Wrong && st == saved
          invariant FirstFresh(p, key.value, saved.lastCounter, typed, counter, lo)
                 == FirstFresh(p, key.value, saved.lastCounter, typed, counter, c)
        {
          if c > st.lastCounter && p.totp(key.value, c) == typed {
            st := st.(lastCounter := c);
            verdict := Ok;
            break;
          }
        }
      }
      if verdict == Wrong && |typed| == RECOVERY_DIGITS && AllDigits(typed) && key.Some? {
        var hit := FirstUnspent(p, key.value, config.recovery, st.usedRecovery, typed);
        if hit.Some? {
          st := st.(usedRecovery := st.usedRecovery + [hit.value]);
          verdict := Recovery(hit.value);
        }
      }
      if verdict == Wrong && config.backupHash.Some? && p.pinMatches(typed, config.backupHash.value) {
        verdict := Backup;
      }
    }

    method VerifyAt(code: string, counter: nat, now: int) returns (verdict: Verdict)
      modifies this
      ensures (saved, verdict) == Verified(p, config, old(saved), code, counter, now)
    {
      if !config.Configured() {
        return NotConfigured;
      }
      if saved.lockedUntil.Some? && saved.lockedUntil.value > now {
        var left := (saved.lockedUntil.value - now) / SECOND;
        return LockedOut(if left < 1 then 1 else left);
      }
      var st;
      st, verdict := MatchCode(config.Key(), Normalized(code), counter);
      if verdict.Accepted() {
        st := st.(failures := 0, lockedUntil := None);
      } else {
        st := st.(failures := st.failures + 1);
        if st.failures >= FAILURES_BEFORE_LOCKOUT {
          var secs := LockSecs(st.failures);
          st := st.(lockedUntil := Some(now + secs * SECOND));
          verdict := LockedOut(secs);
        }
      }
      saved := st;
    }

    method RecoveryCodesLeft() returns (n: nat)
      ensures n == CodesLeft(config.recovery, saved.usedRecovery)
    {
      n := 0;
      for i := |config.recovery| downto 0
        invariant n == CodesLeft(config.recovery[i..], saved.usedRecovery)
      {
        if config.recovery[i].id !in saved.usedRecovery {
          n := n + 1;
        }
      }
    }
  }

  // ---- One attempt ----

  lemma {:induction false} FirstFreshIsFirst(p: Primitives, key: seq<nat>, last: nat, code: string, counter: nat, c: nat)
    requires counter - WINDOW <= c
    ensures var r := FirstFresh(p, key, last, code, counter, c);
      && (r.Some? ==> c <= r.value && Fresh(p, key, last, code, counter, r.value))
      && (forall d :: c <= d && (r.None? || d < r.value) ==> !Fresh(p, key, last, code, counter, d))
    decreases counter + WINDOW - c
  {
    if c <= counter + WINDOW && !Fresh(p, key, last, code, counter, c) {
      FirstFreshIsFirst(p, key, last, code, counter, c + 1);
    }
  }

  /** Where in `codes` the first unspent one is whose MAC this is. */
  lemma {:induction false} FirstUnspentIsFirst(p: Primitives, key: seq<nat>, codes: seq<RecoveryCode>, used: seq<string>,
                                               code: string) returns (i: nat)
    ensures i <= |codes|
    ensures forall j :: 0 <= j < i ==> codes[j].id in used || !p.macMatches(key, code, codes[j].mac)
    ensures i < |codes| ==> codes[i].id !in used && p.macMatches(key, code, codes[i].mac)
    ensures FirstUnspent(p, key, codes, used, code) == if i < |codes| then Some(codes[i].id) else None
  {
    if codes == [] || (codes[0].id !in used && p.macMatches(key, code, codes[0].mac)) {
      i := 0;
    } else {
      i := FirstUnspentIsFirst(p, key, codes[1..], used, code);
      i := i + 1;
    }
  }

  /**
   A six-digit code is accepted exactly when it is the code of an unused step within one of
   the clock's, and then the earliest such step is used up.
   */
  lemma AcceptsExactlyFreshSteps(p: Primitives, config: Config, st: State, code: string, counter: nat, now: int)
    requires config.Key().Some? && !Waiting(st, now)
    requires |Normalized(code)| == DIGITS && AllDigits(Normalized(code))
    ensures var (after, verdict) := Verified(p, config, st, code, counter, now);
      var usable := (c: nat) => Fresh(p, config.Key().value, st.lastCounter, Normalized(code), counter, c);
      if verdict.Ok? then usable(after.lastCounter) && forall c: nat :: c < after.lastCounter ==> !usable(c)
      else after.lastCounter == st.lastCounter && forall c: nat :: !usable(c)
  {
    FirstFreshIsFirst(p, config.Key().value, st.lastCounter, Normalized(code), counter, FirstInWindow(counter));
  }

  // ---- What a typed code is accepted as ----

  predicate Digits(typed: string, n: nat) {
    |typed| == n && forall c <- typed :: '0' <= c <= '9'
  }

  /** `typed` is the code of step `c`, which is the clock's or next to it and later than any used. */
  predicate IsStep(p: Primitives, key: Option<seq<nat>>, st: State, typed: string, counter: nat, c: nat) {
    && key.Some? && Digits(typed, 6)
    && counter - 1 <= c <= counter + 1 && c > st.lastCounter && p.totp(key.value, c) == typed
  }

  /** It is the recovery code in place `i`, which is not spent. */
  predicate IsSpare(p: Primitives, key: Option<seq<nat>>, st: State, typed: string, codes: seq<RecoveryCode>, i: nat) {
    && key.Some? && Digits(typed, 8)
    && i < |codes| && codes[i].id !in st.usedRecovery && p.macMatches(key.value, typed, codes[i].mac)
  }

  ghost predicate NoStep(p: Primitives, key: Option<seq<nat>>, st: State, typed: string, counter: nat) {
    forall c: nat :: !IsStep(p, key, st, typed, counter, c)
  }

  ghost predicate NoSpare(p: Primitives, key: Option<seq<nat>>, st: State, typed: string, codes: seq<RecoveryCode>) {
    forall i: nat :: !IsSpare(p, key, st, typed, codes, i)
  }

  /** The first step it is the code of. */
  ghost predicate FirstStep(p: Primitives, key: Option<seq<nat>>, st: State, typed: string, counter: nat, c: nat) {
    IsStep(p, key, st, typed, counter, c) && forall d: nat :: d < c ==> !IsStep(p, key, st, typed, counter, d)
  }

  /** The first recovery code it is has this id. */
  ghost predicate FirstSpare(p: Primitives, key: Option<seq<nat>>, st: State, typed: string, codes: seq<RecoveryCode>, id: string) {
    exists i: nat ::
      && IsSpare(p, key, st, typed, codes, i) && codes[i].id == id
      && forall j: nat :: j < i ==> !IsSpare(p, key, st, typed, codes, j)
  }

  predicate IsBackup(p: Primitives, config: Config, typed: string) {
    config.backupHash.Some? && p.pinMatches(typed, config.backupHash.value)
  }

  /** What the three places make of a typed code: the step first, then the recovery codes, then the backup code. */
  lemma MatchingMeans(p: Primitives, config: Config, key: Option<seq<nat>>, st: State, typed: string, counter: nat)
    ensures var m := Matching(p, config, key, st, typed, counter);
      && (m.StepMatch? ==> FirstStep(p, key, st, typed, counter, m.c))
      && (!m.StepMatch? ==> NoStep(p, key, st, typed, counter))
      && (m.RecoveryMatch? ==> FirstSpare(p, key, st, typed, config.recovery, m.id))
      && (m.BackupMatch? || m.NoMatch? ==> NoSpare(p, key, st, typed, config.recovery))
      && (m.BackupMatch? ==> IsBackup(p, config, typed))
      && (m.NoMatch? ==> !IsBackup(p, config, typed))
  {
    if key.Some? {
      var lo := FirstInWindow(counter);
      FirstFreshIsFirst(p, key.value, st.lastCounter, typed, counter, lo);
      assert forall c: nat :: IsStep(p, key, st, typed, counter, c) ==>
        lo <= c && Fresh(p, key.value, st.lastCounter, typed, counter, c);
      var i := FirstUnspentIsFirst(p, key.value, config.recovery, st.usedRecovery, typed);
      if Matching(p, config, key, st, typed, counter).RecoveryMatch? {
        assert IsSpare(p, key, st, typed, config.recovery, i);
      }
    }
  }

  /**
   Outside a wait, a typed code is accepted as that of a step, as a recovery code or as the backup code
   exactly when it is one, in this order; what it was is used up, and the wrong codes before are forgotten.
   */
  lemma AcceptedAsIff(p: Primitives, config: Config, key: Option<seq<nat>>, st: State, code: string, counter: nat, now: int)
    requires config.secret.Some? || config.backupHash.Some?
    requires st.lockedUntil.Some? ==> st.lockedUntil.value <= now
    requires key == if config.secret.Some? then Base32.Decoded(config.secret.value) else None
    ensures var ((after, verdict), typed) := (Verified(p, config, st, code, counter, now), Normalized(code));
      var step, spare := !NoStep(p, key, st, typed, counter), !NoSpare(p, key, st, typed, config.recovery);
      && (verdict.Ok? <==> step)
      && (verdict.Recovery? <==> !step && spare)
      && (verdict.Backup? <==> !step && !spare && IsBackup(p, config, typed))
      && (verdict.Ok? ==>
            && FirstStep(p, key, st, typed, counter, after.lastCounter)
            && after == State(after.lastCounter, 0, None, st.usedRecovery))
      && (verdict.Recovery? ==>
            && FirstSpare(p, key, st, typed, config.recovery, verdict.id)
            && after == State(st.lastCounter, 0, None, st.usedRecovery + [verdict.id]))
      && (verdict.Backup? ==> after == State(st.lastCounter, 0, None, st.usedRecovery))
  {
    MatchingMeans(p, config, key, st, Normalized(code), counter);
  }

  lemma {:induction false} Pow2Rises(a: nat, b: nat)
    requires a <= b
    ensures Base32.Pow2(a) <= Base32.Pow2(b)
    decreases b
  {
    if a < b {
      Pow2Rises(a, b - 1);
    }
  }

  lemma LockSchedule(n: nat)
    requires n >= FAILURES_BEFORE_LOCKOUT
    ensures LockSecs(n) == if n == 5 then 60 else if n == 6 then 120 else if n == 7 then 240
                           else if n == 8 then 480 else 900
  {
    assert Base32.Pow2(2) == 4 && Base32.Pow2(4) == 16;
    if n > 8 {
      Pow2Rises(4, Min(n - FAILURES_BEFORE_LOCKOUT, 10));
    }
  }

  /** Any other is a wrong one, counted, and the fifth in a row and every one after it starts a wait. */
  lemma RefusedMeans(p: Primitives, config: Config, key: Option<seq<nat>>, st: State, code: string, counter: nat, now: int)
    requires config.secret.Some? || config.backupHash.Some?
    requires st.lockedUntil.Some? ==> st.lockedUntil.value <= now
    requires key == if config.secret.Some? then Base32.Decoded(config.secret.value) else None
    requires var typed := Normalized(code);
      NoStep(p, key, st, typed, counter) && NoSpare(p, key, st, typed, config.recovery) && !IsBackup(p, config, typed)
    ensures var (after, verdict) := Verified(p, config, st, code, counter, now);
      && after.lastCounter == st.lastCounter && after.usedRecovery == st.usedRecovery
      && after.failures == st.failures + 1
      && (after.failures < 5 ==> verdict == Wrong && after.lockedUntil == st.lockedUntil)
      && (after.failures >= 5 ==>
            && verdict.LockedOut? && after.lockedUntil == Some(now + verdict.secs * 1_000_000_000)
            && verdict.secs == match after.failures case 5 => 60 case 6 => 120 case 7 => 240 case 8 => 480 case _ => 900)
  {
    MatchingMeans(p, config, key, st, Normalized(code), counter);
    if st.failures + 1 >= 5 {
      LockSchedule(st.failures + 1);
    }
  }

  /** With neither a secret nor a backup code there is nothing to check, or count. */
  lemma NothingToCheck(p: Primitives, config: Config, st: State, code: string, counter: nat, now: int)
    ensures Verified(p, config, st, code, counter, now).1 == NotConfigured
       <==> config.secret.None? && config.backupHash.None?
    ensures config.secret.None? && config.backupHash.None? ==> Verified(p, config, st, code, counter, now).0 == st
  {
  }

  // ---- How a code may be typed ----

  predicate Blank(s: string) {
    forall c <- s :: Strings.IsSpace(c)
  }

  predicate Solid(s: string) {
    forall c <- s :: !Strings.IsSpace(c)
  }

  lemma {:induction false} TrimStartSkips(before: string, s: string)
    requires Blank(before) && (s != "" ==> !Strings.IsSpace(s[0]))
    ensures TrimStart(before + s) == s
  {
    if before == "" {
      assert before + s == s;
    } else {
      assert (before + s)[1..] == before[1..] + s;
      TrimStartSkips(before[1..], s);
    }
  }

  lemma {:induction false} TrimEndSkips(s: string, after: string)
    requires Blank(after) && (s != "" ==> !Strings.IsSpace(s[|s| - 1]))
    ensures TrimEnd(s + after) == s
  {
    if after == "" {
      assert s + after == s;
    } else {
      assert (s + after)[..|s + after| - 1] == s + after[..|after| - 1];
      assert after[|after| - 1] in after;
      TrimEndSkips(s, after[..|after| - 1]);
    }
  }

  lemma {:induction false} WithoutSpacesOfSolid(s: string)
    requires Solid(s)
    ensures WithoutSpaces(s) == s
  {
    if s == "" {
    } else {
      assert s[0] in s;
      WithoutSpacesOfSolid(s[1..]);
      assert s == [s[0]] + s[1..];
    }
  }

  lemma {:induction false} WithoutSpacesOfParts(a: string, b: string)
    ensures WithoutSpaces(a + b) == WithoutSpaces(a) + WithoutSpaces(b)
  {
    if a == "" {
      assert a + b == b;
    } else {
      assert (a + b)[1..] == a[1..] + b;
      WithoutSpacesOfParts(a[1..], b);
    }
  }

  /** White space around a code, and a space between its digits, do not matter. */
  lemma SpacesDoNotMatter(before: string, a: string, b: string, after: string)
    requires Blank(before) && Blank(after) && Solid(a) && Solid(b) && a != "" && b != ""
    ensures Normalized(before + (a + " " + b + after)) == a + b
    ensures Normalized(a) == a
  {
    var s := a + " " + b;
    assert a[0] in a && b[|b| - 1] in b && s[0] == a[0] && s[|s| - 1] == b[|b| - 1];
    TrimStartSkips(before, s + after);
    TrimEndSkips(s, after);
    WithoutSpacesOfParts(a + " ", b);
    WithoutSpacesOfParts(a, " ");
    WithoutSpacesOfSolid(a);
    WithoutSpacesOfSolid(b);
    assert WithoutSpaces(" ") == "";
    TrimStartSkips("", a);
    TrimEndSkips(a, "");
    assert a[|a| - 1] in a && "" + a == a && a + "" == a;
  }

  /** The wait a refused person is told is the whole seconds left, never none. */
  lemma ToldTheTruth(p: Primitives, config: Config, st: State, code: string, counter: nat, now: int)
    requires config.Configured() && Waiting(st, now)
    ensures Verified(p, config, st, code, counter, now).0 == st
    ensures var told := Verified(p, config, st, code, counter, now).1;
      && told.LockedOut? && told.secs >= 1
      && st.lockedUntil.value - now < (told.secs + 1) * SECOND
      && (told.secs * SECOND <= st.lockedUntil.value - now || told.secs == 1)
  {
  }

  // ---- Runs ----

  /** One attempt: the bundle in force, what was typed, the clock's step and the time. */
  datatype Attempt = Attempt(config: Config, code: string, counter: nat, now: int)

  function Try(p: Primitives, st: State, a: Attempt): (State, Verdict) {
    Verified(p, a.config, st, a.code, a.counter, a.now)
  }

  function Run(p: Primitives, st: State, attempts: seq<Attempt>): State {
    if attempts == [] then st
    else Try(p, Run(p, st, attempts[..|attempts| - 1]), attempts[|attempts| - 1]).0
  }

  /** The verdict on the last attempt. */
  function LastVerdict(p: Primitives, st: State, attempts: seq<Attempt>): Verdict
    requires attempts != []
  {
    Try(p, Run(p, st, attempts[..|attempts| - 1]), attempts[|attempts| - 1]).1
  }

  // ---- Codes are single-use ----

  /** The steps whose codes were accepted, in order. */
  function AcceptedSteps(p: Primitives, st: State, attempts: seq<Attempt>): seq<nat> {
    if attempts == [] then []
    else
      AcceptedSteps(p, st, attempts[..|attempts| - 1])
      + if LastVerdict(p, st, attempts).Ok? then [Run(p, st, attempts).lastCounter] else []
  }

  /** The recovery codes that were accepted, in order. */
  function SpentCodes(p: Primitives, st: State, attempts: seq<Attempt>): seq<string> {
    if attempts == [] then []
    else
      var v := LastVerdict(p, st, attempts);
      SpentCodes(p, st, attempts[..|attempts| - 1]) + if v.Recovery? then [v.id] else []
  }

  ghost predicate Rising(steps: seq<nat>) {
    forall i, j :: 0 <= i < j < |steps| ==> steps[i] < steps[j]
  }

  lemma StepOfAttempt(p: Primitives, st: State, a: Attempt)
    ensures var (after, verdict) := Try(p, st, a);
      if verdict.Ok? then st.lastCounter < after.lastCounter && a.counter - WINDOW <= after.lastCounter <= a.counter + WINDOW
      else after.lastCounter == st.lastCounter
  {
    if a.config.Key().Some? {
      FirstFreshIsFirst(p, a.config.Key().value, st.lastCounter, Normalized(a.code), a.counter, FirstInWindow(a.counter));
    }
  }

  /** The steps rise from above `lo` to at most `last`, each within one of the range. */
  ghost predicate RiseWithin(steps: seq<nat>, lo: nat, last: nat, a: nat, b: nat) {
    && Rising(steps)
    && (forall i :: 0 <= i < |steps| ==> lo < steps[i] <= last)
    && (forall i :: 0 <= i < |steps| ==> a - 1 <= steps[i] <= b + 1)
    && lo <= last
  }

  lemma OneMoreStep(steps: seq<nat>, lo: nat, last: nat, c: nat, a: nat, b: nat)
    requires RiseWithin(steps, lo, last, a, b) && last < c && a - 1 <= c <= b + 1
    ensures RiseWithin(steps + [c], lo, c, a, b)
  {
  }

  /** Accepted steps strictly increase, and stay within one step of the clock's range. */
  lemma {:induction false} StepsIncrease(p: Primitives, st: State, attempts: seq<Attempt>, a: nat, b: nat)
    requires forall i :: 0 <= i < |attempts| ==> a <= attempts[i].counter <= b
    ensures RiseWithin(AcceptedSteps(p, st, attempts), st.lastCounter, Run(p, st, attempts).lastCounter, a, b)
  {
    if attempts == [] {
    } else {
      var n := |attempts| - 1;
      var before, mid := attempts[..n], Run(p, st, attempts[..n]);
      StepsIncrease(p, st, before, a, b);
      StepOfAttempt(p, mid, attempts[n]);
      var c := Run(p, st, attempts).lastCounter;
      if LastVerdict(p, st, attempts).Ok? {
        OneMoreStep(AcceptedSteps(p, st, before), st.lastCounter, mid.lastCounter, c, a, b);
      }
    }
  }

  /** A rising sequence of numbers in `[lo, hi]` has at most `hi - lo + 1` of them. */
  lemma {:induction false} RisingBound(steps: seq<nat>, lo: int, hi: int)
    requires lo <= hi + 1 && Rising(steps)
    requires forall i :: 0 <= i < |steps| ==> lo <= steps[i] <= hi
    ensures |steps| <= hi - lo + 1
    decreases |steps|
  {
    if steps == [] {
    } else {
      var n := |steps| - 1;
      RisingBound(steps[..n], lo, steps[n] as int - 1);
    }
  }

  /** While the clock's step runs over `[a, b]`, at most `b - a + 3` codes are accepted. */
  lemma {:induction false} CodesAreSingleUse(p: Primitives, st: State, attempts: seq<Attempt>, a: nat, b: nat)
    requires a <= b && forall i :: 0 <= i < |attempts| ==> a <= attempts[i].counter <= b
    ensures |AcceptedSteps(p, st, attempts)| <= b - a + 3
  {
    StepsIncrease(p, st, attempts, a, b);
    RisingBound(AcceptedSteps(p, st, attempts), a - 1, b + 1);
  }

  predicate NoDuplicates(ids: seq<string>) {
    forall i, j :: 0 <= i < j < |ids| ==> ids[i] != ids[j]
  }

  lemma RecoveryOfAttempt(p: Primitives, st: State, a: Attempt)
    ensures var (after, verdict) := Try(p, st, a);
      if verdict.Recovery?
      then verdict.id !in st.usedRecovery && after.usedRecovery == st.usedRecovery + [verdict.id]
        && exists c <- a.config.recovery :: c.id == verdict.id
      else after.usedRecovery == st.usedRecovery
  {
    if a.config.Key().Some? {
      var _ := FirstUnspentIsFirst(p, a.config.Key().value, a.config.recovery, st.usedRecovery, Normalized(a.code));
    }
  }

  /** Each recovery code is accepted at most once, however the bundle changes meanwhile. */
  lemma {:induction false} RecoveryCodesAreSingleUse(p: Primitives, st: State, attempts: seq<Attempt>)
    ensures var spent := SpentCodes(p, st, attempts);
      && NoDuplicates(spent)
      && (forall id <- spent :: id !in st.usedRecovery)
      && Run(p, st, attempts).usedRecovery == st.usedRecovery + spent
  {
    if attempts == [] {
    } else {
      var before := attempts[..|attempts| - 1];
      RecoveryCodesAreSingleUse(p, st, before);
      RecoveryOfAttempt(p, Run(p, st, before), attempts[|attempts| - 1]);
    }
  }

  /** How many entries of a bundle's list carry this id. */
  function Entries(codes: seq<RecoveryCode>, id: string): nat {
    if codes == [] then 0 else (if codes[0].id == id then 1 else 0) + Entries(codes[1..], id)
  }

  lemma {:induction false} SpendingOne(codes: seq<RecoveryCode>, used: seq<string>, id: string)
    requires id !in used
    ensures CodesLeft(codes, used + [id]) == CodesLeft(codes, used) - Entries(codes, id)
  {
    if codes == [] {
    } else {
      SpendingOne(codes[1..], used, id);
    }
  }

  lemma {:induction false} NoEntry(codes: seq<RecoveryCode>, id: string)
    requires forall c <- codes :: c.id != id
    ensures Entries(codes, id) == 0
  {
    if codes == [] {
    } else {
      NoEntry(codes[1..], id);
    }
  }

  lemma {:induction false} OneEntry(codes: seq<RecoveryCode>, c: RecoveryCode)
    requires c in codes && forall i, j :: 0 <= i < j < |codes| ==> codes[i].id != codes[j].id
    ensures Entries(codes, c.id) == 1
  {
    if codes[0] == c {
      NoEntry(codes[1..], c.id);
    } else {
      OneEntry(codes[1..], c);
    }
  }

  /** Spending a recovery code costs its entries in the list: one, when the ids are distinct. */
  lemma {:induction false} RecoveryCostsOne(p: Primitives, config: Config, st: State, code: string, counter: nat, now: int)
    requires Verified(p, config, st, code, counter, now).1.Recovery?
    ensures var (after, verdict) := Verified(p, config, st, code, counter, now);
      && CodesLeft(config.recovery, after.usedRecovery)
      == CodesLeft(config.recovery, st.usedRecovery) - Entries(config.recovery, verdict.id)
      && ((forall i, j :: 0 <= i < j < |config.recovery| ==> config.recovery[i].id != config.recovery[j].id)
          ==> Entries(config.recovery, verdict.id) == 1)
  {
    var id := Verified(p, config, st, code, counter, now).1.id;
    RecoveryOfAttempt(p, st, Attempt(config, code, counter, now));
    SpendingOne(config.recovery, st.usedRecovery, id);
    var c :| c in config.recovery && c.id == id;
    if forall i, j :: 0 <= i < j < |config.recovery| ==> config.recovery[i].id != config.recovery[j].id {
      OneEntry(config.recovery, c);
    }
  }

  /** All are left while none is spent, and none exactly when every one is. */
  lemma {:induction false} CodesLeftMeans(codes: seq<RecoveryCode>, used: seq<string>)
    ensures used == [] ==> CodesLeft(codes, used) == |codes|
    ensures CodesLeft(codes, used) == 0 <==> forall c <- codes :: c.id in used
  {
    if codes == [] {
    } else {
      CodesLeftMeans(codes[1..], used);
      assert codes == [codes[0]] + codes[1..];
    }
  }

  // ---- The guessing budget ----

  /** Time does not run backwards over these attempts. */
  ghost predicate InOrder(attempts: seq<Attempt>) {
    forall i, j :: 0 <= i < j < |attempts| ==> attempts[i].now <= attempts[j].now
  }

  ghost predicate NoneAccepted(p: Primitives, st: State, attempts: seq<Attempt>) {
    forall k :: 0 < k <= |attempts| ==> !LastVerdict(p, st, attempts[..k]).Accepted()
  }

  predicate IsEvaluated(st: State, a: Attempt) {
    a.config.Configured() && !Waiting(st, a.now)
  }

  /** How many of the attempts were really checked, not turned away. */
  function Evaluations(p: Primitives, st: State, attempts: seq<Attempt>): nat {
    if attempts == [] then 0
    else
      var n := |attempts| - 1;
      Evaluations(p, st, attempts[..n])
      + if IsEvaluated(Run(p, st, attempts[..n]), attempts[n]) then 1 else 0
  }

  /** The least seconds from the first to the `n`-th evaluation. */
  function Delay(n: nat): nat {
    if n <= FAILURES_BEFORE_LOCKOUT then 0 else Delay(n - 1) + LockSecs(n - 1)
  }

  lemma {:induction false} DelayGrows(n: nat)
    ensures Delay(n) >= 900 * (n - 8)
  {
    if n > 5 {
      DelayGrows(n - 1);
      LockSchedule(n - 1);
      if n == 9 {
        LockSchedule(5);
        LockSchedule(6);
        LockSchedule(7);
        assert Delay(7) == 180;
        assert Delay(9) == 900;
      }
    }
  }

  /** After `n` evaluations since `start`: the failures counted, the wait running. */
  ghost predicate Charged(st: State, n: nat, start: int) {
    && st.failures == n
    && (n < FAILURES_BEFORE_LOCKOUT ==> st.lockedUntil.None?)
    && (n >= FAILURES_BEFORE_LOCKOUT ==>
          st.lockedUntil.Some? && st.lockedUntil.value >= start + Delay(n + 1) * SECOND)
  }

  /** An attempt that is not accepted was either turned away or counted as a failure. */
  lemma NotAccepted(p: Primitives, st: State, a: Attempt)
    requires !Try(p, st, a).1.Accepted()
    ensures if IsEvaluated(st, a) then Try(p, st, a) == Failed(st, a.now) else Try(p, st, a).0 == st
  {
  }

  lemma ChargeOne(p: Primitives, st: State, n: nat, start: int, a: Attempt)
    requires Charged(st, n, start) && a.now >= start && !Try(p, st, a).1.Accepted()
    ensures Charged(Try(p, st, a).0, if IsEvaluated(st, a) then n + 1 else n, start)
    ensures IsEvaluated(st, a) ==> a.now >= start + Delay(n + 1) * SECOND
  {
    NotAccepted(p, st, a);
  }

  lemma {:induction false} GuessesTakeTime(p: Primitives, attempts: seq<Attempt>)
    requires InOrder(attempts) && NoneAccepted(p, FRESH, attempts) && attempts != []
    ensures var n := Evaluations(p, FRESH, attempts);
      && Charged(Run(p, FRESH, attempts), n, attempts[0].now)
      && attempts[|attempts| - 1].now >= attempts[0].now + Delay(n) * SECOND
  {
    var k := |attempts| - 1;
    var before, a := attempts[..k], attempts[k];
    assert attempts[..k + 1] == attempts;
    assert !LastVerdict(p, FRESH, attempts[..k + 1]).Accepted();
    if k == 0 {
      ChargeOne(p, FRESH, 0, a.now, a);
    } else {
      assert forall i :: 0 < i <= k ==> before[..i] == attempts[..i];
      GuessesTakeTime(p, before);
      ChargeOne(p, Run(p, FRESH, before), Evaluations(p, FRESH, before), attempts[0].now, a);
    }
  }

  /** Within any `secs` seconds from a fresh state, at most `8 + secs / 900` guesses are checked. */
  lemma {:induction false} GuessingBudget(p: Primitives, attempts: seq<Attempt>, secs: nat)
    requires InOrder(attempts) && NoneAccepted(p, FRESH, attempts)
    requires attempts != [] ==> attempts[|attempts| - 1].now <= attempts[0].now + secs * SECOND
    ensures Delay(Evaluations(p, FRESH, attempts)) <= secs
    ensures Evaluations(p, FRESH, attempts) <= 8 + secs / 900
  {
    if attempts == [] {
    } else {
      GuessesTakeTime(p, attempts);
    }
    DelayGrows(Evaluations(p, FRESH, attempts));
  }

  /** Wrong guesses made the moment each wait ends. */
  function FastestGuesses(config: Config, code: string, counter: nat, n: nat): seq<Attempt> {
    seq(n, i requires 0 <= i < n => Attempt(config, code, counter, Delay(i + 1) * SECOND))
  }

  /** The state after `n` such guesses. */
  function AfterGuesses(n: nat): State {
    State(0, n, if n < FAILURES_BEFORE_LOCKOUT then None else Some(Delay(n + 1) * SECOND), [])
  }

  lemma NoMatchFails(p: Primitives, st: State, a: Attempt)
    requires IsEvaluated(st, a)
    requires Matching(p, a.config, a.config.Key(), st, Normalized(a.code), a.counter).NoMatch?
    ensures Try(p, st, a) == Failed(st, a.now)
  {
  }

  lemma FailureWaits(st: State, now: int, secs: nat)
    requires st.failures + 1 >= FAILURES_BEFORE_LOCKOUT && secs == LockSecs(st.failures + 1)
    ensures Failed(st, now).0 == st.(failures := st.failures + 1, lockedUntil := Some(now + secs * SECOND))
  {
  }

  lemma DelayOfNext(n: nat, secs: nat)
    requires n >= FAILURES_BEFORE_LOCKOUT && secs == LockSecs(n)
    ensures Delay(n + 1) * SECOND == Delay(n) * SECOND + secs * SECOND
  {
  }

  lemma {:induction false} FailureCharges(n: nat)
    ensures Failed(AfterGuesses(n), Delay(n + 1) * SECOND).0 == AfterGuesses(n + 1)
  {
    if n + 1 >= FAILURES_BEFORE_LOCKOUT {
      var secs := LockSecs(n + 1);
      FailureWaits(AfterGuesses(n), Delay(n + 1) * SECOND, secs);
      DelayOfNext(n + 1, secs);
    }
  }

  lemma OneMoreGuess(p: Primitives, n: nat, a: Attempt)
    requires a.config.Configured() && a.now == Delay(n + 1) * SECOND
    requires Matching(p, a.config, a.config.Key(), FRESH, Normalized(a.code), a.counter).NoMatch?
    ensures IsEvaluated(AfterGuesses(n), a) && Try(p, AfterGuesses(n), a).0 == AfterGuesses(n + 1)
  {
    var st := AfterGuesses(n);
    assert st == FRESH.(failures := st.failures, lockedUntil := st.lockedUntil);
    NoMatchFails(p, st, a);
    FailureCharges(n);
  }

  /** The budget is exact: `n` wrong guesses fit into `Delay(n)` seconds. */
  lemma {:induction false} BudgetIsReached(p: Primitives, config: Config, code: string, counter: nat, n: nat)
    requires config.Configured() && Matching(p, config, config.Key(), FRESH, Normalized(code), counter).NoMatch?
    ensures var guesses := FastestGuesses(config, code, counter, n);
      Evaluations(p, FRESH, guesses) == n && Run(p, FRESH, guesses) == AfterGuesses(n)
  {
    if n > 0 {
      var all := FastestGuesses(config, code, counter, n);
      assert all[..n - 1] == FastestGuesses(config, code, counter, n - 1);
      BudgetIsReached(p, config, code, counter, n - 1);
      OneMoreGuess(p, n - 1, all[n - 1]);
    }
  }

  // ---- The tries the lock screen shows ----

  /** While a wait runs its whole seconds are shown; else what is left of five tries, never less than one. */
  lemma TriesMean(st: State, now: int)
    ensures match TriesAt(st, now)
      case Left(n) =>
        && (st.lockedUntil.Some? ==> st.lockedUntil.value <= now)
        && (if st.failures < 5 then n == 5 - st.failures else n == 1)
      case Wait(secs) =>
        && st.lockedUntil.Some? && st.lockedUntil.value > now && secs >= 1
        && st.lockedUntil.value - now < (secs + 1) * 1_000_000_000
        && (secs * 1_000_000_000 <= st.lockedUntil.value - now || secs == 1)
  {
  }

  /** `k` wrong codes on from `st`, none of them locking. */
  predicate MoreFailures(st: State, mid: State, k: nat) {
    mid.failures == st.failures + k && mid.lockedUntil == st.lockedUntil
  }

  lemma OneMoreWrong(p: Primitives, st: State, now: int, mid: State, k: nat, a: Attempt)
    requires TriesAt(st, now).Left? && k < TriesAt(st, now).n && MoreFailures(st, mid, k)
    requires a.config.Configured() && a.now >= now && !Try(p, mid, a).1.Accepted()
    ensures if k + 1 < TriesAt(st, now).n
      then Try(p, mid, a).1 == Wrong && MoreFailures(st, Try(p, mid, a).0, k + 1)
      else Try(p, mid, a).1.LockedOut?
  {
    NotAccepted(p, mid, a);
  }

  /** With `n` tries left, the first `n - 1` further wrong codes are only wrong; the `n`-th locks. */
  lemma {:induction false} TriesAreExact(p: Primitives, st: State, now: int, attempts: seq<Attempt>)
    requires TriesAt(st, now).Left? && 0 < |attempts| <= TriesAt(st, now).n
    requires InOrder(attempts) && attempts[0].now >= now && NoneAccepted(p, st, attempts)
    requires forall i :: 0 <= i < |attempts| ==> attempts[i].config.Configured()
    ensures if |attempts| < TriesAt(st, now).n
      then LastVerdict(p, st, attempts) == Wrong && MoreFailures(st, Run(p, st, attempts), |attempts|)
      else LastVerdict(p, st, attempts).LockedOut?
  {
    var k := |attempts| - 1;
    var before := attempts[..k];
    assert attempts[..k + 1] == attempts;
    assert !LastVerdict(p, st, attempts[..k + 1]).Accepted();
    if k > 0 {
      assert forall i :: 0 < i <= k ==> before[..i] == attempts[..i];
      TriesAreExact(p, st, now, before);
    }
    OneMoreWrong(p, st, now, Run(p, st, before), k, attempts[k]);
  }
}
