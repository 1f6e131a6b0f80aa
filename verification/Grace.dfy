/**
 The time to save one's work is given once per stop, whatever ticks, VT changes, restarts, reboots,
 whole-device stops and other people's commands come between.
 */
module Grace {
  import opened Options
  import opened Host
  import opened Enforcement
  import opened LockProtocol
  import opened Walks

  /**
   Where someone is in a stop: counting down to it, or stopped already; stopped; or, since a restart
   at `since` on the clock of that process, stopped or else to be stopped by the next tick.
   */
  datatype Phase = Counting(until: int) | Stopped | Due(since: int)

  function PhaseNext(p: Phase, step: Step): Phase {
    match step.event
    case Ticked => if p.Counting? && step.world.now < p.until then p else Stopped
    case Restarted(_, _) => Due(step.world.now)
    case _ => p
  }

  function PhaseAfter(p: Phase, steps: seq<Step>): Phase {
    if steps == [] then p else PhaseNext(PhaseAfter(p, steps[..|steps| - 1]), steps[|steps| - 1])
  }

  predicate InPhase(p: Phase, s: State, u: User) {
    || u in s.frozen
    || match p
       case Counting(until) => u in s.pending && s.pending[u] == until
       case Stopped => false
       case Due(since) => u in s.pending && s.pending[u] == since
  }

  /** Someone ends `u`'s stop: a parent, with time that lets them go or in person, or `u` with extra time granted. */
  predicate EndsStop(s: State, step: Step, u: User) {
    match step.event
    case Ticked => step.world.marker
    case UnlockCommand => true
    case CreditCommand(v) =>
      v == u && !s.orders.deviceLocked && !s.orders.offline && !s.orders.tamper && u !in step.world.reasons
    case SnoozeRequest(selfSet, waited, used) =>
      s.subject == Some(u) && SnoozeCheck(selfSet, OwnRules(s, step.world, u), waited, used)
    case CodeRequest(ok) => ok
    case Retirement => true
    case _ => false
  }

  /**
   Nobody ends `u`'s stop, a lock can be shown in front of them, and every tick finds them here, with
   rules on this computer that stop them and no override.
   */
  predicate Calm(s: State, step: Step, u: User) {
    var w := step.world;
    && !EndsStop(s, step, u) && !LockCannotShow(s, step, u)
    && (step.event.Ticked? ==>
          && u in s.orders.policies && u in w.loggedIn && u in w.reasons && u !in w.overridden
          && (u in w.active || u in w.graphical || u in w.clockRules)
          && u in w.shows)
  }

  ghost predicate AllCalm(s: State, steps: seq<Step>, u: User) {
    steps != [] ==>
      var before := steps[..|steps| - 1];
      AllCalm(s, before, u) && Calm(Run(s, before), steps[|steps| - 1], u)
  }

  /** The monotonic clock does not run back within one process; each process, and each boot, has its own. */
  ghost predicate Rising(steps: seq<Step>) {
    forall i :: 0 < i < |steps| && !steps[i].event.Restarted? ==> steps[i - 1].world.now <= steps[i].world.now
  }

  // ---- One step ----

  lemma TickUserPhase(x: State, w: World, u: User, p: Phase)
    requires InPhase(p, x, u) && u in w.loggedIn && u in w.shows && Stops(x, w, u)
    requires p.Due? ==> p.since <= w.now
    ensures InPhase(PhaseNext(p, Step(Ticked, w)), TickUser(x, w, u), u)
  {
    StopLeavesOthers(Refrozen(x, w, u), w, u, u);
    StopLeavesOthers(Disarmed(x, u), w, u, u);
  }

  lemma TickPhase(s: State, w: World, u: User, p: Phase)
    requires InPhase(p, s, u) && Calm(s, Step(Ticked, w), u) && WalksAll(w, s)
    requires p.Due? ==> p.since <= w.now
    ensures var t := TickAll(Engaged(s, w), w, w.order);
      InPhase(PhaseNext(p, Step(Ticked, w)), t, u) && t.orders.retired == s.orders.retired
  {
    TickAllAt(Engaged(s, w), w, w.order, u);
    TickUserPhase(WhenReached(Engaged(s, w), w, w.order, u), w, u, p);
  }

  lemma ActedPhase(s: State, step: Step, u: User, p: Phase)
    requires InPhase(p, s, u) && Calm(s, step, u) && Sound(s, false) && WalksAll(step.world, s)
    requires step.event.Ticked? && p.Due? ==> p.since <= step.world.now
    requires !Ignored(s, step.event)
    ensures var t := Acted(s, step.event, step.world);
      InPhase(PhaseNext(p, step), t, u) && t.orders.retired == s.orders.retired
  {
    match step.event
    case Ticked => TickPhase(s, step.world, u, p);
    case LockCommand(grace) => StopAllLeaves(Paused(s, step.world, 0), step.world, step.world.order);
    case SeatChange => SeatLeavesOthers(s, step.world, u);
    case Restarted(rebooted, policies) => RestartKeepsSafe(s, step.world, rebooted, policies, false);
    case _ =>
  }

  lemma ReconcileKeepsOrders(s: State, w: World)
    ensures Reconciled(s, w).orders == s.orders
  {
  }

  lemma NextPhase(s: State, step: Step, u: User, p: Phase)
    requires InPhase(p, s, u) && !s.orders.retired && Calm(s, step, u) && Sound(s, false) && WalksAll(step.world, s)
    requires step.event.Ticked? && p.Due? ==> p.since <= step.world.now
    ensures InPhase(PhaseNext(p, step), Next(s, step), u) && !Next(s, step).orders.retired
  {
    if !Ignored(s, step.event) {
      ActedPhase(s, step, u, p);
      ReconcileLetsGoIff(Acted(s, step.event, step.world), step.world, u);
      ReconcileKeepsOrders(Acted(s, step.event, step.world), step.world);
    }
  }

  // ---- Over a run ----

  /** Whoever is due has been since the last restart, whose clock the present one continues. */
  lemma {:induction false} DueIsPast(until: int, steps: seq<Step>)
    requires Rising(steps) && PhaseAfter(Counting(until), steps).Due?
    ensures steps != [] && PhaseAfter(Counting(until), steps).since <= steps[|steps| - 1].world.now
  {
    var before, n := steps[..|steps| - 1], |steps| - 1;
    if !steps[n].event.Restarted? {
      assert forall i :: 0 <= i < n ==> before[i] == steps[i];
      DueIsPast(until, before);
    }
  }

  /**
   Once a countdown is armed, any run that finds its person here and still over their rules takes them
   through the phases above: the countdown is never put back, a tick at or after its end stops them,
   and so does the first tick after a restart or a reboot.
   */
  lemma {:induction false} GraceIsGivenOnce(s: State, steps: seq<Step>, u: User, until: int)
    requires InPhase(Counting(until), s, u) && !s.orders.retired && Sound(s, false)
    requires AllCalm(s, steps, u) && Walked(s, steps) && Rising(steps)
    ensures var t := Run(s, steps);
      InPhase(PhaseAfter(Counting(until), steps), t, u) && !t.orders.retired && Sound(t, false)
  {
    if steps == [] {
    } else {
      var before, step := steps[..|steps| - 1], steps[|steps| - 1];
      assert forall i :: 0 <= i < |before| ==> before[i] == steps[i];
      GraceIsGivenOnce(s, before, u, until);
      if PhaseAfter(Counting(until), before).Due? {
        DueIsPast(until, before);
      }
      NextPhase(Run(s, before), step, u, PhaseAfter(Counting(until), before));
      NextKeepsSound(Run(s, before), step, false);
    }
  }

  /** Some step of the run was a restart. */
  predicate AnyRestart(steps: seq<Step>) {
    exists i :: 0 <= i < |steps| && steps[i].event.Restarted?
  }

  lemma {:induction false} CountingMeans(until: int, steps: seq<Step>)
    ensures var p := PhaseAfter(Counting(until), steps);
      p.Counting? ==> p.until == until && !AnyRestart(steps)
  {
    if steps == [] {
    } else {
      var before := steps[..|steps| - 1];
      CountingMeans(until, before);
      assert forall i :: 0 <= i < |before| ==> before[i] == steps[i];
    }
  }

  /** A tick at or after the end of the countdown, or any tick after a restart, leaves them stopped. */
  lemma TickStops(s: State, steps: seq<Step>, tick: Step, u: User, until: int)
    requires InPhase(Counting(until), s, u) && !s.orders.retired && Sound(s, false)
    requires AllCalm(s, steps + [tick], u) && Walked(s, steps + [tick]) && Rising(steps + [tick])
    requires tick.event.Ticked? && (tick.world.now >= until || AnyRestart(steps))
    ensures u in Run(s, steps + [tick]).frozen
  {
    var all := steps + [tick];
    assert all[..|all| - 1] == steps;
    GraceIsGivenOnce(s, all, u, until);
    CountingMeans(until, steps);
  }

  // ---- Until then they run ----

  /** The step is no restart, finds the countdown still running, and acts for no whole-device stop. */
  predicate Early(s: State, step: Step, until: int) {
    match step.event
    case Ticked => step.world.now < until && !Effective(Engaged(s, step.world), step.world.now)
    case LockCommand(grace) => grace > 0
    case Restarted(_, _) => false
    case _ => true
  }

  ghost predicate AllEarly(s: State, steps: seq<Step>, until: int) {
    steps != [] ==>
      var before := steps[..|steps| - 1];
      AllEarly(s, before, until) && Early(Run(s, before), steps[|steps| - 1], until)
  }

  predicate Runs(s: State, u: User, until: int) {
    u !in s.frozen && u in s.pending && s.pending[u] == until
  }

  lemma NextEarly(s: State, step: Step, u: User, until: int)
    requires Runs(s, u, until) && Calm(s, step, u) && Early(s, step, until) && WalksAll(step.world, s)
    ensures Runs(Next(s, step), u, until)
  {
    var w := step.world;
    if !Ignored(s, step.event) {
      match step.event {
        case Ticked => TickAllAt(Engaged(s, w), w, w.order, u);
        case SeatChange => SeatLeavesOthers(s, w, u);
        case _ =>
      }
      ReconcileLetsGoIff(Acted(s, step.event, w), w, u);
    }
  }

  /** Until a tick finds the countdown over, a restart, or a whole-device stop, its person is not stopped and it stands as it was armed. */
  lemma {:induction false} CountdownStands(s: State, steps: seq<Step>, u: User, until: int)
    requires Runs(s, u, until) && AllCalm(s, steps, u) && AllEarly(s, steps, until) && Walked(s, steps)
    ensures var t := Run(s, steps); u !in t.frozen && u in t.pending && t.pending[u] == until
  {
    if steps == [] {
    } else {
      var before := steps[..|steps| - 1];
      CountdownStands(s, before, u, until);
      NextEarly(Run(s, before), steps[|steps| - 1], u, until);
    }
  }

  // ---- Where it starts ----

  /** No work to save: they were told, have only just logged in, or their desktop is not the one on screen. */
  predicate NothingToSave(s: State, w: World, u: User) {
    || u in w.announced
    || (s.orders.prevActive.Some? && u !in s.orders.prevActive.value)
    || (u in w.graphical && u !in w.front)
  }

  /** When a countdown armed now ends: a minute, or what their bracket gets to wind down. */
  function SaveUntil(w: World, u: User): int {
    w.now + (if u in w.windDown && w.windDown[u] > 60 then w.windDown[u] else 60)
  }

  /** The tick that first finds the stop: at once for whoever has nothing to save, else a countdown of a minute or more. */
  lemma CountdownStarts(s: State, w: World, u: User)
    requires !s.orders.retired && Calm(s, Step(Ticked, w), u) && WalksAll(w, s) && u !in s.frozen && u !in s.pending
    requires !Effective(Engaged(s, w), w.now)
    ensures var t := Next(s, Step(Ticked, w));
      if NothingToSave(s, w, u) then u in t.frozen else Runs(t, u, SaveUntil(w, u))
  {
    TickAllAt(Engaged(s, w), w, w.order, u);
    var x := WhenReached(Engaged(s, w), w, w.order, u);
    StopLeavesOthers(x, w, u, u);
    ReconcileLetsGoIff(Acted(s, Ticked, w), w, u);
  }

  // ---- Where it is given again ----

  /** Coming to stop `u`, who is the one on screen or has the lock, the tick can show no lock. */
  predicate StopCannotShow(s: State, w: World, u: User) {
    && (u in w.front || WhenReached(Engaged(s, w), w, w.order, u).subject == Some(u))
    && u !in w.shows
  }

  /** Their rules stop `u`, who is here with rules on this computer, and no whole-device stop is in force. */
  predicate Over(s: State, w: World, u: User) {
    && !s.orders.retired && !w.marker && !Effective(Engaged(s, w), w.now)
    && u in s.orders.policies && u in w.loggedIn && u in w.reasons && u !in w.overridden
    && (u in w.active || u in w.graphical || u in s.frozen || u in w.clockRules)
  }

  /** Someone stopped, or whose countdown is over. */
  predicate DueOrStopped(s: State, now: int, u: User) {
    u in s.frozen || (u in s.pending && s.pending[u] <= now)
  }

  /**
   A tick that finds someone stopped, or due, and over their rules, leaves them neither stopped nor
   counting down exactly when no lock can be shown for them: not when they are to be stopped, or not
   once they are.
   */
  lemma GivenAgainIff(s: State, w: World, u: User)
    requires Over(s, w, u) && WalksAll(w, s) && DueOrStopped(s, w.now, u)
    ensures var t := Next(s, Step(Ticked, w));
      u !in t.frozen && u !in t.pending <==>
      if u in s.frozen then u !in s.pending && LockCannotShow(s, Step(Ticked, w), u)
      else StopCannotShow(s, w, u) || LockCannotShow(s, Step(Ticked, w), u)
  {
    TickAllAt(Engaged(s, w), w, w.order, u);
    var x := WhenReached(Engaged(s, w), w, w.order, u);
    StopLeavesOthers(Disarmed(x, u), w, u, u);
    ReconcileLetsGoIff(Acted(s, Ticked, w), w, u);
  }

  /** Between ticks, too, only a lock that cannot be shown lets someone stopped go whose stop nobody ends. */
  lemma LockLostIff(s: State, step: Step, u: User)
    requires u in s.frozen && !EndsStop(s, step, u) && WalksAll(step.world, s)
    requires !step.event.Ticked? && !step.event.Restarted?
    ensures u in Next(s, step).frozen <==> !LockCannotShow(s, step, u)
  {
    if !Ignored(s, step.event) {
      var w := step.world;
      match step.event {
        case LockCommand(_) => StopAllLeaves(Paused(s, w, 0), w, w.order);
        case SeatChange => SeatLeavesOthers(s, w, u);
        case _ =>
      }
      ReconcileLetsGoIff(Acted(s, step.event, w), w, u);
    }
  }

  /** And then the next tick that finds them over their rules, with work to save, arms a countdown from the start. */
  lemma GivenAgain(s: State, w: World, u: User)
    requires Over(s, w, u) && WalksAll(w, s) && u !in s.frozen && u !in s.pending && !NothingToSave(s, w, u)
    ensures Runs(Next(s, Step(Ticked, w)), u, SaveUntil(w, u))
  {
    TickAllAt(Engaged(s, w), w, w.order, u);
    ReconcileLetsGoIff(Acted(s, Ticked, w), w, u);
  }

  /** Mia, on screen and over her rules at `now`; `kept`: a lock once shown can be kept. */
  function MiaAt(now: int, kept: bool): World {
    QUIET.(now := now, order := ["mia"], loggedIn := {"mia"}, graphical := {"mia"}, desktop := {"mia"},
           front := {"mia"}, onScreenAfter := Some("mia"), shows := {"mia"}, showsAfter := kept, holds := kept,
           reasons := {"mia"}, active := {"mia"})
  }

  lemma TickOrders(s: State, w: World)
    requires !s.orders.retired && !w.marker && WalksAll(w, s)
    ensures Next(s, Step(Ticked, w)).orders == Engaged(s, w).orders.(prevActive := Some(w.active))
  {
    TickAllAt(Engaged(s, w), w, w.order, "");
    ReconcileKeepsOrders(Acted(s, Ticked, w), w);
  }

  /** Her rules arrive, and a tick finds her over them. */
  const MIA_RUN := [Step(PolicyPull({"mia"}), QUIET), Step(Ticked, MiaAt(0, true))]

  lemma MiaCountsDown() returns (s: State)
    ensures Walked(BLANK, MIA_RUN) && s == Run(BLANK, MIA_RUN) && s.frozen == {} && s.pending == map["mia" := 60]
    ensures s.orders == BLANK.orders.(policies := {"mia"}, prevActive := Some({"mia"})) && s.log == []
  {
    var w := MiaAt(0, true);
    var pulled := BLANK.(orders := BLANK.orders.(policies := {"mia"}));
    assert MIA_RUN[..1][..0] == [] && Run(BLANK, []) == BLANK && Walked(BLANK, []);
    assert Run(BLANK, MIA_RUN[..1]) == pulled && Kernel(BLANK.log) == {};
    assert Engaged(pulled, w) == pulled && w.order[..0] == [] && TickAll(pulled, w, []) == pulled;
    assert Acted(pulled, Ticked, w) == TickUser(pulled, w, "mia") == pulled.(pending := map["mia" := 60]);
    s := Next(pulled, MIA_RUN[1]);
  }

  lemma OnlyMia(s: State, w: World)
    requires s.frozen == {} && s.pending == map["mia" := 60] && w == MiaAt(60, false)
    requires s.orders == BLANK.orders.(policies := {"mia"}, prevActive := Some({"mia"}))
    ensures var t := Next(s, Step(Ticked, w)); t.frozen <= {"mia"} && t.pending.Keys <= {"mia"}
  {
    assert w.order[..0] == [] && TickAll(s, w, []) == s && Engaged(s, w) == s;
    assert Acted(s, Ticked, w) == TickUser(s, w, "mia");
    StopLeavesOthers(Disarmed(s, "mia"), w, "mia", "mia");
    forall u
      ensures u in Next(s, Step(Ticked, w)).frozen ==> u in Acted(s, Ticked, w).frozen
    {
      ReconcileLetsGoIff(Acted(s, Ticked, w), w, u);
    }
    ReconcileLetsGoIff(Acted(s, Ticked, w), w, "mia");
  }

  /** Her countdown is over in front of a lock that is shown and lost at once: ten seconds later she has a minute again. */
  lemma MiaGetsAnotherMinute()
    ensures var s := Run(BLANK, MIA_RUN);
      var t := Next(s, Step(Ticked, MiaAt(60, false)));
      && Walked(BLANK, MIA_RUN) && Runs(s, "mia", 60) && "mia" in MiaAt(60, false).shows
      && "mia" !in t.frozen && "mia" !in t.pending
      && Runs(Next(t, Step(Ticked, MiaAt(70, true))), "mia", 130)
  {
    var s := MiaCountsDown();
    var w := MiaAt(60, false);
    assert Kernel(s.log) == {};
    var t := Next(s, Step(Ticked, w));
    assert Over(s, w, "mia") && LockCannotShow(s, Step(Ticked, w), "mia");
    GivenAgainIff(s, w, "mia");
    TickOrders(s, w);
    EveryRunIsSound(MIA_RUN);
    NextKeepsSound(s, Step(Ticked, w), false);
    OnlyMia(s, w);
    GivenAgain(t, MiaAt(70, true), "mia");
  }
}
