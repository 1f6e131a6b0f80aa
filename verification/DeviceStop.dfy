/**
 A whole-device stop, a parent's pause or a lockdown, dominates: while one is in force nothing lets
 anyone go but a parent's own act, or a lock that cannot be shown.
 */
module DeviceStop {
  import opened Options
  import opened Host
  import opened Enforcement
  import opened LockProtocol
  import opened Walks
  import Grace

  /** A parent ends the stop: a Resume, a code accepted at the lock, `ost unlock`, or taking the computer out. */
  predicate ParentActs(step: Step) {
    match step.event
    case UnlockCommand => true
    case CodeRequest(ok) => ok
    case Ticked => step.world.marker
    case Retirement => true
    case _ => false
  }

  lemma ActedKeepsStopped(s: State, step: Step)
    requires !Ignored(s, step.event) && !ParentActs(step) && !step.event.Restarted? && WalksAll(step.world, s)
    requires Effective(Acted(s, step.event, step.world), step.world.now)
    ensures s.frozen <= Acted(s, step.event, step.world).frozen
  {
    var w := step.world;
    match step.event
    case Ticked =>
      TickAllAt(Engaged(s, w), w, w.order, "");
    case LockCommand(grace) =>
      StopAllLeaves(Paused(s, w, 0), w, w.order);
    case SeatChange => SeatLeavesOthers(s, w, "");
    case _ =>
  }

  /**
   While a whole-device stop is in force no tick, grant, snooze, policy pull, VT change or other
   command lets anyone go: someone stopped is let go exactly when no lock can be shown for them.
   */
  lemma StoppedStayStoppedIff(s: State, step: Step, u: User)
    requires !ParentActs(step) && !step.event.Restarted? && WalksAll(step.world, s)
    requires Effective(Next(s, step), step.world.now) && u in s.frozen
    ensures u in Next(s, step).frozen <==> !LockCannotShow(s, step, u)
  {
    if !Ignored(s, step.event) {
      var acted := Acted(s, step.event, step.world);
      ReconcileLetsGoIff(acted, step.world, u);
      Grace.ReconcileKeepsOrders(acted, step.world);
      ActedKeepsStopped(s, step);
    }
  }

  /** A snooze asked for under any whole-device stop, even one still in its window, does no more than asking does. */
  lemma SnoozeIsRefused(s: State, w: World, selfSet: bool, waited: nat, used: nat)
    requires s.orders.deviceLocked || s.orders.offline || s.orders.tamper
    ensures Next(s, Step(SnoozeRequest(selfSet, waited, used), w)) == Next(s, Step(AskRequest, w))
  {
  }

  /** Whether a stop in force is still in force after a step that is no parent's act. */
  predicate StaysInForce(s: State, step: Step) {
    || Ignored(s, step.event)
    || match step.event
       case Ticked =>
         // the offline lockdown lifts when it is no longer engaged
         Effective(s.(orders := s.orders.(offline := step.world.offlineEngaged)), step.world.now) || step.world.confirmed
       case LockCommand(grace) =>
         // a pause with a window stands in for an older one without
         grace == 0 || s.orders.offline || s.orders.tamper
       case Restarted(_, _) =>
         // the offline lockdown is not on disk: it comes back with the first tick that finds it engaged
         s.orders.lockedOnDisk || s.disk.tamper
       case _ => true
  }

  lemma {:induction false} AdoptKeepsOrders(s: State, kernel: set<User>, users: seq<User>)
    ensures Adopt(s, kernel, users).orders == s.orders && Adopt(s, kernel, users).pending == s.pending
  {
    if users == [] {
    } else {
      AdoptKeepsOrders(s, kernel, users[..|users| - 1]);
    }
  }

  lemma ActedOrders(s: State, step: Step)
    requires !Ignored(s, step.event) && !ParentActs(step) && WalksAll(step.world, s)
    ensures var (o, w) := (Acted(s, step.event, step.world).orders, step.world);
      match step.event
      case Restarted(rebooted, policies) => o == Loaded(s, w.now, rebooted, policies).orders
      case Ticked => o == s.orders.(offline := w.offlineEngaged, tamper := s.orders.tamper || w.confirmed)
      case LockCommand(grace) =>
        o == s.orders.(deviceLocked := true, lockedOnDisk := true,
                       graceUntil := if grace > 0 then Some(w.now + grace) else None)
      case PolicyPull(policies) => o == s.orders.(policies := policies)
      case _ => o == s.orders
  {
    var w := step.world;
    match step.event
    case Ticked =>
      TickAllAt(Engaged(s, w), w, w.order, "");
    case LockCommand(grace) =>
      StopAllLeaves(Paused(s, w, 0), w, w.order);
    case SeatChange => SeatLeavesOthers(s, w, "");
    case Restarted(rebooted, policies) =>
      var loaded := Loaded(s, w.now, rebooted, policies);
      AdoptKeepsOrders(loaded, Kernel(loaded.log), w.order);
    case _ =>
  }

  /**
   But for a parent's act it ends in these ways only: the offline lockdown is no longer engaged, a
   restart forgets that lockdown until the next tick, or a new pause brings a window.
   */
  lemma StopStaysInForceIff(s: State, step: Step)
    requires Effective(s, step.world.now) && !ParentActs(step) && WalksAll(step.world, s)
    ensures Effective(Next(s, step), step.world.now) <==> StaysInForce(s, step)
  {
    if !Ignored(s, step.event) {
      ActedOrders(s, step);
      Grace.ReconcileKeepsOrders(Acted(s, step.event, step.world), step.world);
    }
  }

  /**
   A restart or a reboot never makes a persisted pause or tamper lockdown weaker, but closes a pause's
   window at once; and whoever was stopped or counting down is due at the first tick.
   */
  lemma RestartNeverWeakens(s: State, step: Step, u: User, later: int)
    requires Sound(s, false) && WalksAll(step.world, s) && step.event.Restarted? && !s.orders.retired
    ensures var t := Next(s, step);
      && t.orders.deviceLocked == s.orders.deviceLocked && t.orders.tamper == s.orders.tamper
      && (s.orders.deviceLocked || s.orders.tamper ==> Effective(t, later))
      && (u in s.frozen || u in s.pending ==> u in t.pending && t.pending[u] == step.world.now)
  {
    var acted := Acted(s, step.event, step.world);
    RestartKeepsSafe(s, step.world, step.event.rebooted, step.event.policies, false);
    ReconcileLetsGoIff(acted, step.world, u);
    Grace.ReconcileKeepsOrders(acted, step.world);
  }

  /** A tick under a whole-device stop stops everyone with rules here who is logged in and can be shown a lock. */
  lemma TickStopsEveryone(s: State, step: Step, u: User)
    requires step.event.Ticked? && !s.orders.retired && WalksAll(step.world, s)
    requires Effective(Next(s, step), step.world.now)
    requires u in Acted(s, Ticked, step.world).orders.policies && u in s.orders.policies
    requires u in step.world.loggedIn && u in step.world.shows && !LockCannotShow(s, step, u)
    ensures u in Next(s, step).frozen
  {
    var w := step.world;
    var acted := Acted(s, Ticked, w);
    ReconcileLetsGoIff(acted, w, u);
    Grace.ReconcileKeepsOrders(acted, w);
    assert u in w.order;
    TickAllAt(Engaged(s, w), w, w.order, u);
    var x := WhenReached(Engaged(s, w), w, w.order, u);
    StopLeavesOthers(if Stops(x, w, u) then Refrozen(x, w, u) else Disarmed(Refrozen(x, w, u), u), w, u, u);
  }

  lemma {:induction false} StopAllStops(s: State, w: World, users: seq<User>, u: User)
    requires u in s.orders.policies && u in users && u in w.loggedIn && u in w.shows
    ensures u in StopAll(s, w, users).frozen
  {
    var rest, v := users[..|users| - 1], users[|users| - 1];
    StopAllLeaves(s, w, rest);
    StopLeavesOthers(StopAll(s, w, rest), w, v, u);
    if v != u {
      StopAllStops(s, w, rest, u);
    }
  }

  /** A pause without a window stops at once everyone with rules here who is logged in and can be shown a lock. */
  lemma PauseStopsEveryone(s: State, w: World, u: User)
    requires u in s.orders.policies && u in w.order && u in w.loggedIn && u in w.shows
    ensures u in Lock(s, w, 0).frozen
  {
    StopAllStops(Paused(s, w, 0), w, w.order, u);
  }

  // ---- Over every run ----

  function Latest(start: int, steps: seq<Step>): int {
    if steps == [] then start else steps[|steps| - 1].world.now
  }

  /** The clock does not run back within one process, from `start` on. */
  ghost predicate RisingFrom(start: int, steps: seq<Step>) {
    steps != [] ==>
      var (before, step) := (steps[..|steps| - 1], steps[|steps| - 1]);
      && RisingFrom(start, before)
      && (step.event.Restarted? || Latest(start, before) <= step.world.now)
  }

  /** No tick since the last restart. */
  predicate Starting(steps: seq<Step>) {
    steps != [] && !steps[|steps| - 1].event.Ticked?
    && (steps[|steps| - 1].event.Restarted? || Starting(steps[..|steps| - 1]))
  }

  /**
   No parent's act, and nothing ends the stop; a lock can be shown in front of `u`, and a tick that finds
   them due after a restart finds them here.
   */
  predicate Dominated(s: State, step: Step, u: User) {
    && !ParentActs(step) && StaysInForce(s, step) && !LockCannotShow(s, step, u)
    && (step.event.Ticked? && u !in s.frozen ==>
          u in s.orders.policies && u in step.world.loggedIn && u in step.world.shows)
  }

  ghost predicate AllDominated(s: State, steps: seq<Step>, u: User) {
    steps != [] ==>
      var before := steps[..|steps| - 1];
      AllDominated(s, before, u) && Dominated(Run(s, before), steps[|steps| - 1], u)
  }

  /** Stopped, or, in a process that has not ticked yet, due at its first tick. */
  predicate Held(s: State, u: User, starting: bool) {
    u in s.frozen || (starting && u in s.pending)
  }

  lemma WaitingStays(s: State, step: Step, u: User)
    requires !ParentActs(step) && !step.event.Ticked? && !step.event.Restarted? && WalksAll(step.world, s)
    requires Effective(s, step.world.now) && u !in s.frozen && u in s.pending
    ensures Held(Next(s, step), u, true) || LockCannotShow(s, step, u)
  {
    var w := step.world;
    if !Ignored(s, step.event) {
      match step.event {
        case LockCommand(_) => StopAllLeaves(Paused(s, w, 0), w, w.order);
        case SeatChange => SeatLeavesOthers(s, w, u);
        case _ =>
      }
      ReconcileLetsGoIff(Acted(s, step.event, w), w, u);
    }
  }

  lemma NextHeld(s: State, step: Step, u: User, starting: bool)
    requires Held(s, u, starting) && !s.orders.retired && Sound(s, false) && WalksAll(step.world, s)
    requires Dominated(s, step, u) && (step.event.Restarted? || Effective(s, step.world.now))
    requires step.event.Restarted? || Effective(Next(s, step), step.world.now)
    ensures Held(Next(s, step), u, step.event.Restarted? || (starting && !step.event.Ticked?))
  {
    if step.event.Restarted? {
      RestartNeverWeakens(s, step, u, 0);
    } else if u in s.frozen {
      StoppedStayStoppedIff(s, step, u);
    } else if step.event.Ticked? {
      TickAllAt(Engaged(s, step.world), step.world, step.world.order, u);
      TickStopsEveryone(s, step, u);
    } else {
      WaitingStays(s, step, u);
    }
  }

  lemma NextInForce(s: State, step: Step, u: User, later: int)
    requires !s.orders.retired && Sound(s, false) && WalksAll(step.world, s) && Dominated(s, step, u)
    requires step.event.Restarted? || Effective(s, step.world.now)
    requires step.world.now <= later || step.event.Restarted?
    ensures Effective(Next(s, step), later) && !Next(s, step).orders.retired
  {
    if !Ignored(s, step.event) {
      if step.event.Restarted? {
        RestartNeverWeakens(s, step, u, later);
      } else {
        StopStaysInForceIff(s, step);
      }
      ActedOrders(s, step);
      Grace.ReconcileKeepsOrders(Acted(s, step.event, step.world), step.world);
    }
  }

  /**
   A whole-device stop dominates over every run: through ticks, grants, snoozes, pulls, VT changes,
   other commands, restarts and reboots it stays in force, and whoever it stopped stays stopped; but
   that after a restart they are due, and stopped by its first tick at the latest.
   */
  lemma {:induction false} StopDominates(s: State, steps: seq<Step>, u: User, start: int)
    requires Effective(s, start) && !s.orders.retired && Sound(s, false) && u in s.frozen
    requires AllDominated(s, steps, u) && Walked(s, steps) && RisingFrom(start, steps)
    ensures var t := Run(s, steps);
      && Held(t, u, Starting(steps)) && Effective(t, Latest(start, steps)) && !t.orders.retired && Sound(t, false)
  {
    if steps == [] {
    } else {
      var before, step := steps[..|steps| - 1], steps[|steps| - 1];
      StopDominates(s, before, u, start);
      var mid := Run(s, before);
      assert Effective(mid, Latest(start, before));
      NextInForce(mid, step, u, step.world.now);
      NextHeld(mid, step, u, Starting(before));
      NextKeepsSound(mid, step, false);
    }
  }

  // ---- After a tick, frozen means frozen ----

  /** If the agent takes `u` for stopped, the kernel has them frozen. */
  ghost predicate Real(s: State, u: User) {
    u in s.frozen ==> u in Kernel(s.log)
  }

  lemma ActKeepsReal(s: State, a: Act, u: User)
    requires Real(s, u) && !a.Thaw? && !a.Gone? && !a.Reboot?
    ensures Real(Did(s, a), u)
  {
    KernelOfLast(s.log, a);
  }

  lemma PresentIsReal(s: State, v: User, ok: bool, u: User)
    requires Real(s, u)
    ensures Real(Presented(s, v, ok), u)
  {
    KernelOfLast(s.log, Present(v, ok));
    KernelOfLast(s.log + [Present(v, ok)], Release(v));
  }

  lemma FreezeIsReal(s: State, v: User, inFront: bool, u: User)
    requires Real(s, u)
    ensures Real(Froze(s, v, inFront), u)
  {
    KernelOfLast(s.log, Freeze(v, inFront));
  }

  lemma StopIsReal(s: State, w: World, v: User, u: User)
    requires Real(s, u)
    ensures Real(StopUser(s, w, v), u)
  {
    if v !in w.loggedIn {
    } else if v !in w.front && s.subject != Some(v) {
      FreezeIsReal(s, v, false, u);
    } else {
      PresentIsReal(s, v, v in w.shows, u);
      if v in w.shows {
        FreezeIsReal(Presented(s, v, true), v, true, u);
      }
    }
  }

  lemma LockoutIsReal(s: State, w: World, v: User, u: User)
    requires Real(s, u)
    ensures Real(Lockout(s, w, v), u)
  {
    StopIsReal(s, w, v, u);
    StopIsReal(Disarmed(s, v), w, v, u);
  }

  lemma TickUserIsReal(s: State, w: World, v: User, u: User)
    requires Real(s, u) || (v == u && u in w.loggedIn)
    ensures Real(TickUser(s, w, v), u)
  {
    KernelOfLast(s.log, Refreeze(v));
    var armed := if Stops(s, w, v) then Refrozen(s, w, v) else Disarmed(Refrozen(s, w, v), v);
    assert Real(armed, u);
    match DecideFreeze(Effective(s, w.now), Stops(s, w, v), v in s.frozen)
    case DoFreeze =>
      StopIsReal(armed, w, v, u);
      LockoutIsReal(armed, w, v, u);
    case DoUnfreeze =>
      KernelOfLast(armed.log, Thaw(v));
    case DoNothing =>
  }

  lemma {:induction false} TickAllIsReal(s: State, w: World, users: seq<User>, u: User)
    requires u in users && u in s.orders.policies && u in w.loggedIn
    ensures Real(TickAll(s, w, users), u)
  {
    var rest, v := users[..|users| - 1], users[|users| - 1];
    if v != u {
      TickAllIsReal(s, w, rest, u);
    }
    if v in s.orders.policies {
      TickUserIsReal(TickAll(s, w, rest), w, v, u);
    }
  }

  lemma CoverIsReal(s: State, w: World, u: User)
    requires Real(s, u)
    ensures Real(Covered(s, w), u)
  {
    if w.onScreenAfter.Some? {
      var v := w.onScreenAfter.value;
      PresentIsReal(s, v, w.showsAfter, u);
      KernelOfLast(Presented(s, v, w.showsAfter).log, Thaw(v));
    }
  }

  lemma TakeDownIsReal(s: State, w: World, u: User)
    requires Real(s, u) && s.subject.Some?
    ensures Real(TakenDown(s, w), u)
  {
    var v := Faced(s, w, s.subject.value);
    if v !in s.frozen {
      ActKeepsReal(s, Release(v), u);
    } else if v !in w.desktop {
      ActKeepsReal(s, HandOver(v), u);
    } else {
      var kept := s.(subject := Some(Kept(s, w, v)));
      KernelOfLast(s.log, Thaw(v));
      ActKeepsReal(Thawed(kept, v), Release(Kept(s, w, v)), u);
    }
  }

  lemma ReconcileIsReal(s: State, w: World, u: User)
    requires Real(s, u)
    ensures Real(Reconciled(s, w), u)
  {
    if s.subject.None? {
      CoverIsReal(s, w, u);
    } else if !LockKept(s, w) {
      TakeDownIsReal(s, w, u);
      CoverIsReal(TakenDown(s, w), w, u);
    }
  }

  /** After a tick, whoever has rules here, is logged in and is taken for stopped really is frozen, whatever thawed them before. */
  lemma TickMakesStopsReal(s: State, w: World, u: User)
    requires !s.orders.retired && u in w.order && u in Engaged(s, w).orders.policies && u in w.loggedIn
    ensures u in Next(s, Step(Ticked, w)).frozen ==> u in Kernel(Next(s, Step(Ticked, w)).log)
  {
    TickAllIsReal(Engaged(s, w), w, w.order, u);
    ReconcileIsReal(Acted(s, Ticked, w), w, u);
  }
}
