/**
 The trusted clock: an anchor (wall time, boot time) extrapolated by boot time, with a
 high-water mark that survives reboots.

 Times are nanoseconds since the epoch (integers, before it allowed); a boot time is the
 nanoseconds since boot, of which the clock keeps whole milliseconds.
 */
module Clock {
  import opened Options

  const NANOS_PER_MS := 1_000_000

  datatype Source = Boot | Ntp | Server

  /** One reading of the three kernel clocks, taken together. */
  datatype Reading = Reading(bootId: string, bootNanos: nat, wall: int, ntpSynced: bool) {
    function Ms(): nat {
      bootNanos / NANOS_PER_MS
    }
  }

  /** What the clock keeps (and what is saved with the ledger). */
  datatype State = State(
    bootId: string,
    anchorWall: Option<int>,
    anchorBootMs: nat,
    source: Source,
    highWater: Option<int>)

  const NEW_CLOCK := State("", None, 0, Boot, None)

  // ---- The operations as functions of the state ----

  function Anchored(c: State, r: Reading, at: int, source: Source): State {
    c.(bootId := r.bootId, anchorWall := Some(at), anchorBootMs := r.Ms(), source := source)
  }

  function Extrapolate(c: State, r: Reading): int
    requires c.anchorWall.Some?
  {
    c.anchorWall.value + (r.Ms() - c.anchorBootMs) * NANOS_PER_MS
  }

  predicate NewBoot(c: State, r: Reading) {
    c.bootId != r.bootId || c.anchorWall.None?
  }

  function Max(a: int, b: int): int {
    if a < b then b else a
  }

  /** The wall clock at boot, never earlier than the high-water mark. */
  function BootTime(c: State, r: Reading): int {
    if c.highWater.Some? then Max(c.highWater.value, r.wall) else r.wall
  }

  function Observe(c: State, r: Reading): (State, int) {
    var vouched := !NewBoot(c, r) && r.ntpSynced;
    var anchored :=
      if NewBoot(c, r) then Anchored(c, r, BootTime(c, r), Boot)
      else if r.ntpSynced then Anchored(c, r, r.wall, Ntp)
      else c;
    var now := Extrapolate(anchored, r);
    if vouched || c.highWater.None? || now > c.highWater.value
    then (anchored.(highWater := Some(now)), now)
    else (anchored, now)
  }

  function ObserveServer(c: State, r: Reading, serverTime: int): State {
    Anchored(c, r, serverTime, Server).(highWater := Some(serverTime))
  }

  /** The clock itself, updated in place by every tick and every server answer. */
  class TrustedClock {
    var bootId: string
    var anchorWall: Option<int>
    var anchorBootMs: nat
    var source: Source
    var highWater: Option<int>

    function Value(): State
      reads this
    {
      State(bootId, anchorWall, anchorBootMs, source, highWater)
    }

    constructor (saved: State)
      ensures Value() == saved
    {
      bootId, anchorWall, anchorBootMs := saved.bootId, saved.anchorWall, saved.anchorBootMs;
      source, highWater := saved.source, saved.highWater;
    }

    method AnchorAt(r: Reading, at: int, from: Source)
      modifies this
      ensures Value() == Anchored(old(Value()), r, at, from)
    {
      bootId := r.bootId;
      anchorWall := Some(at);
      anchorBootMs := r.Ms();
      source := from;
    }

    method ObserveReading(r: Reading) returns (now: int)
      modifies this
      ensures (Value(), now) == Observe(old(Value()), r)
    {
      var vouched := false;
      if bootId != r.bootId || anchorWall.None? {
        var floor := if highWater.Some? && highWater.value > r.wall then highWater.value else r.wall;
        AnchorAt(r, floor, Boot);
      } else if r.ntpSynced {
        AnchorAt(r, r.wall, Ntp);
        vouched := true;
      }
      now := Extrapolate(Value(), r);
      if vouched || highWater.None? || now > highWater.value {
        highWater := Some(now);
      }
    }

    method ObserveServerTime(r: Reading, serverTime: int)
      modifies this
      ensures Value() == ObserveServer(old(Value()), r, serverTime)
    {
      AnchorAt(r, serverTime, Server);
      highWater := Some(serverTime);
    }
  }

  // ---- Runs ----

  /** What the agent does with the clock, across ticks, suspends and reboots. */
  datatype Event = Observed(r: Reading) | ServerTold(r: Reading, time: int)

  /** The state after an event, and the trusted time at it. */
  function Step(c: State, e: Event): (State, int) {
    match e
    case Observed(r) => Observe(c, r)
    case ServerTold(r, time) => var d := ObserveServer(c, r, time); (d, Extrapolate(d, r))
  }

  function Run(c: State, es: seq<Event>): State {
    if es == [] then c else Step(Run(c, es[..|es| - 1]), es[|es| - 1]).0
  }

  /** The trusted time at the last event of `es`. */
  function TimeAt(c: State, es: seq<Event>): int
    requires es != []
  {
    Step(Run(c, es[..|es| - 1]), es[|es| - 1]).1
  }

  /** Event `k` is the first of its boot. */
  predicate FirstOfBoot(c: State, es: seq<Event>, k: nat)
    requires k < |es|
  {
    if k == 0 then c.anchorWall.None? || c.bootId != es[0].r.bootId else es[k - 1].r.bootId != es[k].r.bootId
  }

  /** Whether event `k` re-anchors: to the wall at boot, to NTP, or to the server. */
  predicate Reanchors(c: State, es: seq<Event>, k: nat)
    requires k < |es|
  {
    es[k].ServerTold? || es[k].r.ntpSynced || FirstOfBoot(c, es, k)
  }

  /** A time source other than the hand-settable wall clock vouches for event `k`. */
  predicate Vouched(c: State, es: seq<Event>, k: nat)
    requires k < |es|
  {
    es[k].ServerTold? || (es[k].r.ntpSynced && !FirstOfBoot(c, es, k))
  }

  /** Boot time never runs backwards within a boot. */
  ghost predicate BoottimeRises(es: seq<Event>) {
    forall k :: 0 < k < |es| && es[k - 1].r.bootId == es[k].r.bootId
      ==> es[k - 1].r.bootNanos <= es[k].r.bootNanos
  }

  lemma {:induction false} AnchoredAfterAnyEvent(c: State, es: seq<Event>)
    requires es != []
    ensures Run(c, es).anchorWall.Some? && Run(c, es).bootId == es[|es| - 1].r.bootId
  {
    var d := Run(c, es[..|es| - 1]);
    match es[|es| - 1]
    case Observed(r) => assert Step(d, es[|es| - 1]) == Observe(d, r);
    case ServerTold(r, time) =>
  }

  /** The state's own test for a new boot is the history's. */
  lemma {:induction false} NewBootIsFirstOfBoot(c: State, es: seq<Event>, k: nat)
    requires k < |es|
    ensures NewBoot(Run(c, es[..k]), es[k].r) == FirstOfBoot(c, es, k)
  {
    if k > 0 {
      AnchoredAfterAnyEvent(c, es[..k]);
    }
  }

  /** Extrapolating to the reading just observed gives the time just returned. */
  lemma ExtrapolatesItself(c: State, e: Event)
    ensures Step(c, e).0.anchorWall.Some?
    ensures Extrapolate(Step(c, e).0, e.r) == Step(c, e).1
  {
  }

  // ---- Hand-set clocks do not interfere ----

  /** Two events that differ at most in what the wall clock said. */
  predicate SameButWall(e: Event, f: Event) {
    match (e, f)
    case (Observed(r), Observed(q)) => r.(wall := 0) == q.(wall := 0)
    case (ServerTold(r, t), ServerTold(q, u)) => t == u && r.(wall := 0) == q.(wall := 0)
    case _ => false
  }

  /** The two runs' walls agree wherever the wall clock may be read. */
  ghost predicate SameEvidence(c: State, es: seq<Event>, fs: seq<Event>) {
    && |es| == |fs|
    && (forall k :: 0 <= k < |es| ==> SameButWall(es[k], fs[k]))
    && (forall k :: 0 <= k < |es| && es[k].Observed? && (es[k].r.ntpSynced || FirstOfBoot(c, es, k))
          ==> es[k].r.wall == fs[k].r.wall)
  }

  lemma {:induction false} SameState(c: State, es: seq<Event>, fs: seq<Event>)
    requires SameEvidence(c, es, fs)
    ensures Run(c, es) == Run(c, fs)
    ensures es != [] ==> TimeAt(c, es) == TimeAt(c, fs)
  {
    if es == [] {
    } else {
      var n := |es| - 1;
      var es', fs' := es[..n], fs[..n];
      assert forall k :: 0 <= k < n ==> FirstOfBoot(c, es', k) == FirstOfBoot(c, es, k);
      SameState(c, es', fs');
      NewBootIsFirstOfBoot(c, es, n);
      assert es[..n] == es' && fs[..n] == fs';
      assert SameButWall(es[n], fs[n]);
    }
  }

  /**
   Whatever the wall clock says in between, two runs with the same boots, boot times, NTP
   flags and server times return the same trusted time at every step, as long as the walls
   agree on the first reading of each boot and on every NTP-synced reading.
   */
  lemma {:induction false} HandSetClocksDoNotInterfere(c: State, es: seq<Event>, fs: seq<Event>)
    requires SameEvidence(c, es, fs)
    ensures forall k :: 0 < k <= |es| ==> TimeAt(c, es[..k]) == TimeAt(c, fs[..k])
  {
    forall k | 0 < k <= |es|
      ensures TimeAt(c, es[..k]) == TimeAt(c, fs[..k])
    {
      assert forall j :: 0 <= j < k ==> FirstOfBoot(c, es[..k], j) == FirstOfBoot(c, es, j);
      SameState(c, es[..k], fs[..k]);
    }
  }

  /** The converse: a synced wall clock, once the boot is anchored, is believed outright. */
  lemma {:induction false} VouchedTimeIsBelieved(c: State, es: seq<Event>, k: nat)
    requires k < |es| && Vouched(c, es, k)
    ensures TimeAt(c, es[..k + 1]) == if es[k].ServerTold? then es[k].time else es[k].r.wall
    ensures Run(c, es[..k + 1]).highWater == Some(TimeAt(c, es[..k + 1]))
  {
    NewBootIsFirstOfBoot(c, es, k);
    assert es[..k + 1][..k] == es[..k];
  }

  // ---- The reference clock, which keeps neither an anchor nor a high-water mark ----

  /** The trusted time at `e`, after `last` at `prev`. */
  function TimeAfter(prev: Event, last: int, e: Event): int {
    if e.ServerTold? then e.time
    else if prev.r.bootId != e.r.bootId then if last > e.r.wall then last else e.r.wall
    else if e.r.ntpSynced then e.r.wall
    else last + (e.r.bootNanos / 1_000_000 - prev.r.bootNanos / 1_000_000) * 1_000_000
  }

  /**
   What the trusted time should be, from the history alone: the server's word; at a boot,
   the wall clock but not before the last trusted time; a synced wall clock; otherwise the
   last trusted time plus the boot time since, in whole milliseconds.
   */
  function Reference(es: seq<Event>): int
    requires es != []
  {
    var n := |es| - 1;
    if n > 0 then TimeAfter(es[n - 1], Reference(es[..n]), es[n])
    else if es[0].ServerTold? then es[0].time
    else es[0].r.wall
  }

  /** An anchor and a mark that say `last` at `prev` say the reference's time at `e`. */
  lemma StepRefines(c: State, prev: Event, last: int, e: Event)
    requires c.anchorWall.Some? && Extrapolate(c, prev.r) == last && c.highWater == Some(last) && c.bootId == prev.r.bootId
    requires prev.r.bootId == e.r.bootId ==> prev.r.bootNanos <= e.r.bootNanos
    ensures Step(c, e).1 == TimeAfter(prev, last, e) && Step(c, e).0.highWater == Some(TimeAfter(prev, last, e))
  {
  }

  /** The anchored clock computes the reference clock, and its mark is the last time it told. */
  lemma {:induction false} RefinesReference(es: seq<Event>)
    requires es != [] && BoottimeRises(es)
    ensures TimeAt(NEW_CLOCK, es) == Reference(es)
    ensures Run(NEW_CLOCK, es).highWater == Some(Reference(es))
  {
    var n := |es| - 1;
    var c := Run(NEW_CLOCK, es[..n]);
    if n > 0 {
      RefinesReference(es[..n]);
      AnchoredAfterAnyEvent(NEW_CLOCK, es[..n]);
      ExtrapolatesItself(Run(NEW_CLOCK, es[..n][..n - 1]), es[n - 1]);
      StepRefines(c, es[n - 1], Reference(es[..n]), es[n]);
    }
  }

  /** Unless someone vouches for a step in between, a later trusted time is not an earlier one. */
  lemma {:induction false} NeverBackwards(es: seq<Event>, i: nat, j: nat)
    requires i <= j < |es| && BoottimeRises(es)
    requires forall k :: i < k <= j ==> !Vouched(NEW_CLOCK, es, k)
    ensures TimeAt(NEW_CLOCK, es[..i + 1]) <= TimeAt(NEW_CLOCK, es[..j + 1])
    decreases j - i
  {
    if i < j {
      NeverBackwards(es, i, j - 1);
      RefinesReference(es[..j]);
      RefinesReference(es[..j + 1]);
      assert es[..j + 1][..j] == es[..j];
      assert !Vouched(NEW_CLOCK, es, j);
      if es[j - 1].r.bootId == es[j].r.bootId {
        assert es[j - 1].r.Ms() <= es[j].r.Ms();
      }
    }
  }

  /** Between re-anchors the trusted time advances exactly with boot time. */
  lemma {:induction false} AdvancesWithBoottime(c: State, es: seq<Event>, i: nat, j: nat)
    requires i <= j < |es|
    requires forall k :: i < k <= j ==> !Reanchors(c, es, k)
    ensures TimeAt(c, es[..j + 1]) - TimeAt(c, es[..i + 1])
         == (es[j].r.bootNanos / 1_000_000 - es[i].r.bootNanos / 1_000_000) * 1_000_000
    decreases j - i
  {
    if i < j {
      AdvancesWithBoottime(c, es, i, j - 1);
      assert !Reanchors(c, es, j);
      NewBootIsFirstOfBoot(c, es, j);
      var before := Run(c, es[..j][..j - 1]);
      ExtrapolatesItself(before, es[j - 1]);
      assert es[..j + 1][..j] == es[..j];
      assert Run(c, es[..j]) == Step(before, es[j - 1]).0;
    }
  }

  /** The mark falls only to what NTP or the server vouches for; whatever else a reading says, it rises to the time told or stands. */
  lemma MarkNeverFalls(c: State, r: Reading)
    requires !r.ntpSynced || c.anchorWall.None? || c.bootId != r.bootId
    ensures var (d, now) := Observe(c, r);
      d.highWater == if c.highWater.Some? && c.highWater.value >= now then c.highWater else Some(now)
  {
  }

  /** The source named is that of the last re-anchoring. */
  lemma SourceMeans(c: State, es: seq<Event>, k: nat)
    requires k < |es|
    ensures var (was, after) := (Run(c, es[..k]).source, Run(c, es[..k + 1]).source);
      after == if es[k].ServerTold? then Server else if FirstOfBoot(c, es, k) then Boot else if es[k].r.ntpSynced then Ntp else was
  {
    NewBootIsFirstOfBoot(c, es, k);
    assert es[..k + 1][..k] == es[..k];
  }
}
