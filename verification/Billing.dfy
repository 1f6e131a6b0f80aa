/**
 Screen time is billed in whole seconds of measured time, the fraction carried over; and the stop
 that is announced from it holds still and is the stop that comes.
 */
module Billing {
  import opened Options

  /** All times are in nanoseconds. */
  const SECOND := 1_000_000_000
  const MILLISECOND := 1_000_000
  const BILL_CAP := 60 * SECOND

  type User = string

  function Clamped(d: int): nat {
    if d < 0 then 0 else if d < BILL_CAP then d else BILL_CAP
  }

  /** The awake time since the last tick, capped; nothing on the first tick. */
  function BillableElapsed(last: Option<int>, now: int): (d: nat)
    ensures d <= BILL_CAP
  {
    if last.None? then 0 else Clamped(now - last.value)
  }

  /** The whole seconds in `d`, and the rest. */
  function WholeSeconds(d: nat): (r: (nat, nat))
    ensures r.0 * SECOND + r.1 == d && r.1 < SECOND
  {
    (d / SECOND, d % SECOND)
  }

  /** When the last tick was, the fraction not billed yet, and the seconds each person has used. */
  datatype State = State(last: Option<int>, carry: nat, used: map<User, nat>)

  /**
   A tick at `now` on the monotonic clock, which stands still while the computer sleeps, and `trusted` on
   the trusted one, which does not and which NTP or the server may correct.
   */
  datatype Tick = Tick(now: int, trusted: int, counting: set<User>)

  function Used(s: State, u: User): nat {
    if u in s.used then s.used[u] else 0
  }

  function Billed(s: State, now: int): nat {
    WholeSeconds(BillableElapsed(s.last, now) + s.carry).0
  }

  /** `n` more seconds for each of `people`. */
  function Charged(used: map<User, nat>, people: set<User>, n: nat): map<User, nat> {
    map u | u in used.Keys + people :: (if u in used then used[u] else 0) + (if u in people then n else 0)
  }

  function Next(s: State, t: Tick): State {
    var n := Billed(s, t.now);
    State(Some(t.now), WholeSeconds(BillableElapsed(s.last, t.now) + s.carry).1,
          Charged(s.used, t.counting, n))
  }

  lemma ChargedMore(used: map<User, nat>, people: set<User>, u: User, n: nat)
    requires u !in people
    ensures Charged(used, people + {u}, n) == Charged(used, people, n)[u := (if u in used then used[u] else 0) + n]
  {
  }

  class Biller {
    var lastTick: Option<int>
    var billCarry: nat
    var used: map<User, nat>

    function View(): State
      reads this
    {
      State(lastTick, billCarry, used)
    }

    constructor ()
      ensures View() == State(None, 0, map[])
    {
      lastTick, billCarry, used := None, 0, map[];
    }

    method Charge(people: set<User>, n: nat)
      modifies this`used
      ensures used == Charged(old(used), people, n)
    {
      var left := people;
      ghost var done: set<User> := {};
      while left != {}
        invariant done !! left && done + left == people && used == Charged(old(used), done, n)
        decreases |left|
      {
        var u :| u in left;
        ChargedMore(old(used), done, u, n);
        used := used[u := (if u in used then used[u] else 0) + n];
        left, done := left - {u}, done + {u};
      }
    }

    /** One tick's billing, for everyone whose time is counting: by the monotonic clock alone. */
    method BillTick(t: Tick)
      modifies this
      ensures View() == Next(old(View()), t)
    {
      var (secs, carry) := WholeSeconds(BillableElapsed(lastTick, t.now) + billCarry);
      billCarry := carry;
      lastTick := Some(t.now);
      Charge(t.counting, secs);
    }
  }

  function Run(s: State, ticks: seq<Tick>): State {
    if ticks == [] then s else Next(Run(s, ticks[..|ticks| - 1]), ticks[|ticks| - 1])
  }

  /** The time between the ticks, no gap counted for more than a minute. */
  function Awake(s: State, ticks: seq<Tick>): nat {
    if ticks == [] then 0
    else
      var before := ticks[..|ticks| - 1];
      Awake(s, before) + BillableElapsed(Run(s, before).last, ticks[|ticks| - 1].now)
  }

  /** What the cap leaves out of the time between the ticks. */
  function Excess(s: State, ticks: seq<Tick>): int {
    if ticks == [] then 0
    else
      var before := ticks[..|ticks| - 1];
      var (last, now) := (Run(s, before).last, ticks[|ticks| - 1].now);
      Excess(s, before) + (if last.None? then 0 else now - last.value - BillableElapsed(last, now))
  }

  predicate CountsThroughout(ticks: seq<Tick>, u: User) {
    forall i :: 0 <= i < |ticks| ==> u in ticks[i].counting
  }

  /** No tick bills more than a minute, and the fraction carried stays under a second. */
  lemma TickBillsAtMostAMinute(s: State, t: Tick)
    requires s.carry < SECOND
    ensures Billed(s, t.now) <= 60 && Next(s, t).carry < SECOND
  {
  }

  lemma TickChargesGap(s: State, t: Tick, u: User)
    requires u in t.counting
    ensures Used(Next(s, t), u) == Used(s, u) + Billed(s, t.now)
    ensures Billed(s, t.now) * SECOND + Next(s, t).carry == BillableElapsed(s.last, t.now) + s.carry
    ensures Next(s, t).carry < SECOND
  {
  }

  /** Nothing is billable on the first tick, nor when the clock has not moved on; else the time since the last, up to a minute. */
  lemma BillableMeans(last: Option<int>, now: int)
    ensures BillableElapsed(last, now) ==
      if last.None? || now <= last.value then 0
      else if now - last.value > 60_000_000_000 then 60_000_000_000 else now - last.value
  {
  }

  /** The whole seconds billed to `u`: those of the ticks that find their time counting. */
  function BilledTo(s: State, ticks: seq<Tick>, u: User): nat {
    if ticks == [] then 0
    else
      var before, t := ticks[..|ticks| - 1], ticks[|ticks| - 1];
      BilledTo(s, before, u) + if u in t.counting then Billed(Run(s, before), t.now) else 0
  }

  /** Over any run a tick bills exactly those whose time it finds counting, each as much, and nobody else. */
  lemma {:induction false} OnlyCountingIsBilled(s: State, ticks: seq<Tick>, u: User)
    ensures Used(Run(s, ticks), u) == Used(s, u) + BilledTo(s, ticks, u)
    ensures (forall i :: 0 <= i < |ticks| ==> u !in ticks[i].counting) ==> Used(Run(s, ticks), u) == Used(s, u)
  {
    if ticks == [] {
    } else {
      var before := ticks[..|ticks| - 1];
      OnlyCountingIsBilled(s, before, u);
      assert forall i :: 0 <= i < |before| ==> before[i] == ticks[i];
    }
  }

  /**
   Over any run, what someone whose time always counts is billed, with the fraction carried, is the
   sum of the time between ticks, each gap counted for at most a minute: nothing is lost or made up.
   */
  lemma {:induction false} BilledIsAwakeTime(s: State, ticks: seq<Tick>, u: User)
    requires s.carry < SECOND && CountsThroughout(ticks, u)
    ensures var t := Run(s, ticks);
      && (Used(t, u) - Used(s, u)) * SECOND + t.carry - s.carry == Awake(s, ticks)
      && t.carry < SECOND && Used(s, u) <= Used(t, u)
  {
    if ticks == [] {
    } else {
      var before := ticks[..|ticks| - 1];
      BilledIsAwakeTime(s, before, u);
      TickChargesGap(Run(s, before), ticks[|ticks| - 1], u);
    }
  }

  // ---- The announced stop ----

  datatype Reason = Limit | Bedtime | OutsideHours | Paused

  datatype Verdict = Verdict(allowed: bool, reason: Option<Reason>, stopAt: Option<int>, minutesLeft: Option<nat>,
                             resumeAt: Option<int>)

  /** The whole-device stops, with the pause's window as the time left in it. */
  datatype Device = Device(locked: bool, offline: bool, tamper: bool, window: Option<int>)

  /** Whole seconds of a duration, towards zero. */
  function Seconds(d: int): int {
    if d < 0 then -(-d / SECOND) else d / SECOND
  }

  function MinutesUp(secs: int): nat {
    (if secs < 0 then 0 else secs + 59) / 60
  }

  /** More than a millisecond apart. */
  predicate Apart(a: int, b: int) {
    (if a < b then b - a else a - b) / MILLISECOND > 1
  }

  /** A limit's stop, moved up by the fraction that was used but not billed. */
  function CarryTaken(v: Verdict, now: int, counting: bool, overrideEnd: Option<int>, carry: nat): Verdict {
    if || !v.allowed || v.reason != Some(Limit) || !counting || v.stopAt.None?
       || (overrideEnd.Some? && !Apart(v.stopAt.value, overrideEnd.value))
    then v
    else
      var at := v.stopAt.value - carry;
      v.(stopAt := Some(at), minutesLeft := Some(MinutesUp(Seconds(at - now))))
  }

  /** The whole-device stop folded in: a stop now, or one that comes when the pause's window closes. */
  function DeviceFolded(v: Verdict, now: int, d: Device): Verdict {
    if !d.locked && !d.offline && !d.tamper then v
    else if d.window.Some? && d.window.value > 0 && !d.offline && !d.tamper then
      var at := now + d.window.value;
      if v.allowed && (v.stopAt.None? || at < v.stopAt.value) then
        v.(stopAt := Some(at), reason := Some(Paused), minutesLeft := Some((d.window.value / SECOND + 59) / 60))
      else v
    else Verdict(false, Some(Paused), Some(now), Some(0), None)
  }

  function StopVerdict(v: Verdict, now: int, counting: bool, overrideEnd: Option<int>, carry: nat, d: Device): Verdict {
    DeviceFolded(CarryTaken(v, now, counting, overrideEnd, carry), now, d)
  }

  /** A daily limit's verdict for someone with `budget` seconds who has used `used`. */
  function LimitVerdict(now: int, budget: int, used: int): Verdict {
    if used >= budget then Verdict(false, Some(Limit), Some(now), Some(0), None)
    else
      var at := now + (budget - used) * SECOND;
      Verdict(true, Some(Limit), Some(at), Some(MinutesUp(Seconds(at - now))), None)
  }

  const NO_DEVICE_STOP := Device(false, false, false, None)

  /** The verdict on `u`, at `at` on the trusted clock. */
  function VerdictOn(s: State, u: User, budget: int, at: int): Verdict {
    StopVerdict(LimitVerdict(at, budget, Used(s, u)), at, true, None, s.carry, NO_DEVICE_STOP)
  }

  /** The moment on the trusted clock when the budget is really spent, if they go on without a break from `at`. */
  function SpentAt(s: State, u: User, budget: int, at: int): int {
    at + (budget - Used(s, u)) * SECOND - s.carry
  }

  /** The verdict at `at` on someone whose budget is spent at `moment`: that moment is announced until it has come, and stops them then, never before. */
  function VerdictFor(moment: int, at: int): Verdict {
    if at < moment then Verdict(true, Some(Limit), Some(moment), Some(MinutesUp(Seconds(moment - at))), None)
    else Verdict(false, Some(Limit), Some(at), Some(0), None)
  }

  /** The budget, the seconds billed and the fraction carried come down to that one moment. */
  lemma AnnouncedIsSpentAt(s: State, u: User, budget: int, at: int)
    requires s.carry < SECOND
    ensures VerdictOn(s, u, budget, at) == VerdictFor(SpentAt(s, u, budget, at), at)
  {
  }

  /** The trusted time of the last tick, from `start` on. */
  function TrustedAfter(start: int, ticks: seq<Tick>): int {
    if ticks == [] then start else ticks[|ticks| - 1].trusted
  }

  /** How much further the trusted clock went than what was billable: sleep, corrections, and what the cap leaves out. */
  function Slippage(s: State, ticks: seq<Tick>, start: int): int {
    TrustedAfter(start, ticks) - start - Awake(s, ticks)
  }

  /** The moment foreseen at `start`, moved by that much. */
  function Moved(s: State, ticks: seq<Tick>, u: User, budget: int, start: int): int {
    SpentAt(s, u, budget, start) + Slippage(s, ticks, start)
  }

  /** Over any run the moment moves by exactly that: so it stands still if and only if the trusted clock went as far as was billable. */
  lemma {:induction false} StopHoldsStillIff(s: State, ticks: seq<Tick>, u: User, budget: int, start: int)
    requires s.carry < SECOND && CountsThroughout(ticks, u)
    ensures Run(s, ticks).carry < SECOND
    ensures SpentAt(Run(s, ticks), u, budget, TrustedAfter(start, ticks)) == Moved(s, ticks, u, budget, start)
    ensures Moved(s, ticks, u, budget, start) == SpentAt(s, u, budget, start)
       <==> TrustedAfter(start, ticks) - start == Awake(s, ticks)
  {
    BilledIsAwakeTime(s, ticks, u);
  }

  /** The time since the tick before, of each tick of a run. */
  function Gap(s: State, now: int): int {
    if s.last.None? then 0 else now - s.last.value
  }

  predicate Rising(s: State, ticks: seq<Tick>) {
    ticks != [] ==>
      var before := ticks[..|ticks| - 1];
      Rising(s, before) && Gap(Run(s, before), ticks[|ticks| - 1].now) >= 0
  }

  /** No two ticks are more than a minute of waking time apart. */
  predicate Prompt(s: State, ticks: seq<Tick>) {
    ticks != [] ==>
      var before := ticks[..|ticks| - 1];
      Prompt(s, before) && Gap(Run(s, before), ticks[|ticks| - 1].now) <= BILL_CAP
  }

  /** What the cap leaves out of the waking time between the ticks: never less than nothing, and nothing exactly while they are prompt. */
  lemma {:induction false} ExcessIsLateness(s: State, ticks: seq<Tick>)
    requires s.last.Some? && Rising(s, ticks)
    ensures Excess(s, ticks) >= 0 && (Prompt(s, ticks) <==> Excess(s, ticks) == 0)
  {
    if ticks == [] {
    } else {
      ExcessIsLateness(s, ticks[..|ticks| - 1]);
    }
  }

  /** The waking time of a run is what was billable and what the cap left out. */
  lemma {:induction false} WakingTime(s: State, ticks: seq<Tick>)
    requires s.last.Some?
    ensures Run(s, ticks).last.Some?
    ensures Run(s, ticks).last.value - s.last.value == Awake(s, ticks) + Excess(s, ticks)
  {
    if ticks == [] {
    } else {
      WakingTime(s, ticks[..|ticks| - 1]);
    }
  }

  /** How much further the trusted clock went than the monotonic one: asleep, or corrected. */
  function Asleep(s: State, ticks: seq<Tick>, start: int): int
    requires s.last.Some? && Run(s, ticks).last.Some?
  {
    (TrustedAfter(start, ticks) - start) - (Run(s, ticks).last.value - s.last.value)
  }

  /**
   The moment moves by the sleep and the corrections between the ticks and by what the cap leaves out,
   and by nothing else: with neither, and prompt ticks, what was announced at the start stands.
   */
  lemma {:induction false} StopMovesBySleepAndExcess(s: State, ticks: seq<Tick>, u: User, budget: int, start: int)
    requires s.last.Some? && s.carry < SECOND && CountsThroughout(ticks, u) && Rising(s, ticks)
    ensures var (spent, t) := (SpentAt(s, u, budget, start), Run(s, ticks));
      && t.last.Some?
      && SpentAt(t, u, budget, TrustedAfter(start, ticks)) == spent + Asleep(s, ticks, start) + Excess(s, ticks)
      && (Prompt(s, ticks) ==>
            (SpentAt(t, u, budget, TrustedAfter(start, ticks)) == spent <==> Asleep(s, ticks, start) == 0))
  {
    StopHoldsStillIff(s, ticks, u, budget, start);
    WakingTime(s, ticks);
    ExcessIsLateness(s, ticks);
  }

  /**
   Someone who goes on without a break is stopped by the first tick at or after the moment announced,
   moved by the slippage since, and by none before it.
   */
  lemma {:induction false} AnnouncedStopIsTheRealStop(s: State, ticks: seq<Tick>, u: User, budget: int, start: int)
    requires s.carry < SECOND && CountsThroughout(ticks, u)
    ensures var end := TrustedAfter(start, ticks);
      VerdictOn(Run(s, ticks), u, budget, end) == VerdictFor(Moved(s, ticks, u, budget, start), end)
  {
    StopHoldsStillIff(s, ticks, u, budget, start);
    AnnouncedIsSpentAt(Run(s, ticks), u, budget, TrustedAfter(start, ticks));
  }

  /** A lid closed for an hour between two prompt ticks: Mia's stop, announced for seventeen minutes on, comes the hour later. */
  lemma SleepMovesTheStop()
    ensures var (s, ticks) := (State(Some(0), 0, map["mia" := 0]), [Tick(10 * SECOND, 3600 * SECOND, {"mia"})]);
      && Rising(s, ticks) && Prompt(s, ticks) && CountsThroughout(ticks, "mia")
      && VerdictOn(s, "mia", 1020, 0).stopAt == Some(1020 * SECOND)
      && VerdictOn(Run(s, ticks), "mia", 1020, 3600 * SECOND).stopAt == Some(4610 * SECOND)
  {
    var s, ticks := State(Some(0), 0, map["mia" := 0]), [Tick(10 * SECOND, 3600 * SECOND, {"mia"})];
    assert ticks[..0] == [] && Run(s, ticks[..0]) == s;
    AnnouncedIsSpentAt(s, "mia", 1020, 0);
    assert Awake(s, ticks) == 10 * SECOND;
    AnnouncedStopIsTheRealStop(s, ticks, "mia", 1020, 0);
  }

  /** `m` is the minutes in `left`, its whole seconds rounded up. */
  predicate MinutesIn(left: int, m: nat) {
    if left < 1_000_000_000 then m == 0
    else ((m - 1) * 60 + 1) * 1_000_000_000 <= left < (m * 60 + 1) * 1_000_000_000
  }

  lemma MinutesUpMeans(left: int)
    ensures MinutesIn(left, MinutesUp(Seconds(left)))
  {
    if left >= SECOND {
      var secs := left / SECOND;
      assert secs * SECOND <= left < (secs + 1) * SECOND;
    }
  }

  /**
   With no whole-device stop: a daily limit's stop of someone whose time counts, unless it lands within
   two milliseconds on the end of their override, comes earlier by the fraction carried. Nothing else is moved.
   */
  lemma CarryMovesLimitsOnly(v: Verdict, now: int, counting: bool, overrideEnd: Option<int>, carry: nat, window: Option<int>)
    ensures var r := StopVerdict(v, now, counting, overrideEnd, carry, Device(false, false, false, window));
      if && v.allowed && v.reason == Some(Limit) && counting && v.stopAt.Some?
         && (overrideEnd.Some? ==> !(-2_000_000 < v.stopAt.value - overrideEnd.value < 2_000_000))
      then && r == v.(stopAt := Some(v.stopAt.value - carry), minutesLeft := r.minutesLeft)
           && r.minutesLeft.Some? && MinutesIn(v.stopAt.value - carry - now, r.minutesLeft.value)
      else r == v
  {
    if v.stopAt.Some? {
      MinutesUpMeans(v.stopAt.value - carry - now);
    }
  }

  /**
   A whole-device stop in force is a stop now, with nothing left and no end told; a pause still in its
   window stops when the window closes, unless that comes later than what there was to tell already.
   */
  lemma DeviceStopIsTold(v: Verdict, now: int, counting: bool, overrideEnd: Option<int>, carry: nat, d: Device)
    ensures var (r, without) := (StopVerdict(v, now, counting, overrideEnd, carry, d),
                                 StopVerdict(v, now, counting, overrideEnd, carry, NO_DEVICE_STOP));
      if !d.locked && !d.offline && !d.tamper then r == without
      else if d.offline || d.tamper || d.window.None? || d.window.value <= 0
      then r == Verdict(false, Some(Paused), Some(now), Some(0), None)
      else if v.allowed && (without.stopAt.Some? ==> now + d.window.value < without.stopAt.value)
      then && r == without.(stopAt := Some(now + d.window.value), reason := Some(Paused), minutesLeft := r.minutesLeft)
           && r.minutesLeft.Some? && MinutesIn(d.window.value, r.minutesLeft.value)
      else r == without
  {
    if d.window.Some? {
      MinutesUpMeans(d.window.value);
    }
  }

  /** An override's end is a fixed moment: a stop that lands on it is not moved by the fraction. */
  lemma OverrideEndStays(v: Verdict, now: int, end: int, carry: nat)
    requires v.stopAt.Some? && -2_000_000 < v.stopAt.value - end < 2_000_000
    ensures StopVerdict(v, now, true, Some(end), carry, NO_DEVICE_STOP) == v
  {
  }

  /** Someone may go on exactly when their rules let them and no whole-device stop is in force; a pause's window is announced if it closes first. */
  lemma PauseIsAnnounced(v: Verdict, now: int, counting: bool, overrideEnd: Option<int>, carry: nat, d: Device)
    ensures var (r, taken) := (StopVerdict(v, now, counting, overrideEnd, carry, d), CarryTaken(v, now, counting, overrideEnd, carry));
      var inWindow := d.locked && !d.offline && !d.tamper && d.window.Some? && d.window.value > 0;
      var inForce := (d.locked || d.offline || d.tamper) && !inWindow;
      && (r.allowed <==> v.allowed && !inForce)
      && (inWindow && v.allowed ==>
            r.stopAt.Some? && r.stopAt.value <= now + d.window.value
            && (r.stopAt == taken.stopAt || (r.reason == Some(Paused) && r.stopAt == Some(now + d.window.value))))
  {
  }
}
