/**
 The freeze and the lock over every run: the kernel has frozen whom the agent thinks it has, a lock
 is shown before anyone on screen is frozen and comes down after the thaw, and the disk keeps up.
 */
module LockProtocol {
  import opened Options
  import opened Host
  import opened Enforcement

  /**
   The kernel has frozen exactly the agent's frozen set less those whose freeze something else undid, and
   a lock was shown before anyone on screen was frozen. `strict`: the lock also never came down in
   front of someone still frozen.
   */
  ghost predicate SafeLog(frozen: set<User>, log: seq<Act>, strict: bool) {
    && Kernel(log) == frozen - Lost(log)
    && LockFirst(log)
    && (strict ==> ThawFirst(log))
  }

  ghost predicate Safe(s: State, strict: bool) {
    SafeLog(s.frozen, s.log, strict)
  }

  ghost predicate OnDisk(s: State) {
    && s.disk == Disk(s.frozen + s.pending.Keys, s.subject, s.orders.tamper)
    && s.orders.lockedOnDisk == s.orders.deviceLocked
  }

  ghost predicate LockOnStopped(s: State) {
    s.subject.Some? ==> s.subject.value in s.frozen
  }

  ghost predicate Sound(s: State, strict: bool) {
    Safe(s, strict) && OnDisk(s) && LockOnStopped(s)
  }

  // ---- One act at a time ----

  /** What the agent takes its frozen set to be after `a`. */
  function Believed(frozen: set<User>, a: Act): set<User> {
    match a
    case Freeze(u, _) => frozen + {u}
    case Refreeze(u) => frozen + {u}
    case Thaw(u) => frozen - {u}
    case _ => frozen
  }

  /** When the protocol allows `a` next. */
  ghost predicate Allowed(log: seq<Act>, a: Act, strict: bool) {
    && (a.Freeze? && a.inFront ==> log != [] && log[|log| - 1] == Present(a.user, true))
    && (a.Release? && strict ==> a.user !in Kernel(log))
    && !a.Reboot?
  }

  lemma LockFirstLast(log: seq<Act>, a: Act)
    requires LockFirst(log)
    requires a.Freeze? && a.inFront ==> log != [] && log[|log| - 1] == Present(a.user, true)
    ensures LockFirst(log + [a])
  {
  }

  lemma ThawFirstLast(log: seq<Act>, a: Act)
    requires ThawFirst(log)
    ensures ThawFirst(log + [a]) <==> (a.Release? ==> a.user !in Kernel(log))
  {
    var all := log + [a];
    assert all[..|log|] == log && all[|log|] == a;
    forall i | 0 <= i < |log| && all[i].Release?
      ensures all[i].user !in Kernel(all[..i])
    {
      assert all[..i] == log[..i] && log[i].Release?;
    }
  }

  lemma ActKeepsSafe(frozen: set<User>, log: seq<Act>, a: Act, strict: bool)
    requires SafeLog(frozen, log, strict) && Allowed(log, a, strict)
    ensures SafeLog(Believed(frozen, a), log + [a], strict)
  {
    KernelOfLast(log, a);
    LockFirstLast(log, a);
    if strict {
      ThawFirstLast(log, a);
    }
  }

  // ---- Stopping ----

  /** With no lock up, one asked for in front of `u` that cannot be shown comes down with `u` still frozen. */
  ghost predicate GivesUp(s: State, u: User) {
    s.subject.None? && u in Kernel(s.log)
  }

  lemma PresentKeepsSafe(s: State, u: User, ok: bool, strict: bool)
    requires Safe(s, strict) && (strict && !ok ==> !GivesUp(s, u))
    ensures Safe(Presented(s, u, ok), strict) && Presented(s, u, ok).orders == s.orders
    ensures Presented(s, u, ok).frozen == s.frozen && Presented(s, u, ok).pending == s.pending
    ensures Presented(s, u, ok).subject == if ok || s.subject.Some? then Some(u) else None
  {
    ActKeepsSafe(s.frozen, s.log, Present(u, ok), strict);
    if !ok && s.subject.None? {
      KernelOfLast(s.log, Present(u, ok));
      ActKeepsSafe(s.frozen, s.log + [Present(u, ok)], Release(u), strict);
    }
  }

  /** Stopping `u`, whom the kernel has frozen already, asks in vain for a lock in front of them. */
  ghost predicate StopGivesUp(s: State, w: World, u: User) {
    u in w.loggedIn && u in w.front && u !in w.shows && GivesUp(s, u)
  }

  lemma FreezeKeepsSafe(s: State, u: User, inFront: bool, strict: bool)
    requires Safe(s, strict)
    requires inFront ==> s.log != [] && s.log[|s.log| - 1] == Present(u, true)
    ensures Safe(Froze(s, u, inFront), strict) && Froze(s, u, inFront).orders == s.orders
  {
    ActKeepsSafe(s.frozen, s.log, Freeze(u, inFront), strict);
  }

  lemma StopKeepsSafe(s: State, w: World, u: User, strict: bool)
    requires Safe(s, strict) && (strict ==> !StopGivesUp(s, w, u))
    ensures Safe(StopUser(s, w, u), strict) && StopUser(s, w, u).orders == s.orders
  {
    if u !in w.loggedIn {
    } else if u !in w.front && s.subject != Some(u) {
      FreezeKeepsSafe(s, u, false, strict);
    } else {
      PresentKeepsSafe(s, u, u in w.shows, strict);
      if u in w.shows {
        FreezeKeepsSafe(Presented(s, u, true), u, true, strict);
      }
    }
  }

  /** No stop of the walk gives up in front of someone frozen. */
  ghost predicate StopsCarefully(s: State, w: World, users: seq<User>) {
    users != [] ==>
      var (rest, u) := (users[..|users| - 1], users[|users| - 1]);
      StopsCarefully(s, w, rest) && (u in s.orders.policies ==> !StopGivesUp(StopAll(s, w, rest), w, u))
  }

  lemma {:induction false} StopAllKeepsSafe(s: State, w: World, users: seq<User>, strict: bool)
    requires Safe(s, strict) && (strict ==> StopsCarefully(s, w, users))
    ensures Safe(StopAll(s, w, users), strict) && StopAll(s, w, users).orders == s.orders
  {
    if users == [] {
    } else {
      var before, u := StopAll(s, w, users[..|users| - 1]), users[|users| - 1];
      StopAllKeepsSafe(s, w, users[..|users| - 1], strict);
      if u in s.orders.policies {
        StopKeepsSafe(before, w, u, strict);
      }
    }
  }

  lemma LockoutKeepsSafe(s: State, w: World, u: User, strict: bool)
    requires Safe(s, strict) && u !in s.frozen
    ensures Safe(Lockout(s, w, u), strict) && Lockout(s, w, u).orders == s.orders
  {
    if u !in w.loggedIn {
    } else if u !in s.pending {
      StopKeepsSafe(s, w, u, strict);
    } else {
      StopKeepsSafe(Disarmed(s, u), w, u, strict);
    }
  }

  // ---- The lock follows ----

  /**
   The lock cannot be kept, and had turned to somebody else who is stopped: it comes down from in
   front of them with only the one it was meant for thawed.
   */
  ghost predicate LetsGoOfAnother(s: State, w: World) {
    && s.subject.Some?
    && var u := Faced(s, w, s.subject.value);
       && u in s.frozen && u in w.desktop && !w.holds
       && Kept(s, w, u) != u && Kept(s, w, u) in Kernel(s.log)
  }

  /** With no lock up any more, one for whoever is on screen and frozen cannot be shown, and comes down before their thaw. */
  ghost predicate CoverGivesUp(s: State, w: World) {
    w.onScreenAfter.Some? && w.onScreenAfter.value in s.frozen && !w.showsAfter && GivesUp(s, w.onScreenAfter.value)
  }

  lemma ThawKeepsSafe(s: State, u: User, strict: bool)
    requires Safe(s, strict)
    ensures Safe(Thawed(s, u), strict)
  {
    ActKeepsSafe(s.frozen, s.log, Thaw(u), strict);
  }

  lemma CoverKeepsSafe(s: State, w: World, strict: bool)
    requires Safe(s, strict) && s.subject.None? && (strict ==> !CoverGivesUp(s, w))
    ensures Safe(Covered(s, w), strict) && LockOnStopped(Covered(s, w)) && Covered(s, w).orders == s.orders
  {
    if w.onScreenAfter.Some? && w.onScreenAfter.value in s.frozen {
      var u := w.onScreenAfter.value;
      PresentKeepsSafe(s, u, w.showsAfter, strict);
      if !w.showsAfter {
        ThawKeepsSafe(Presented(s, u, false), u, strict);
      }
    }
  }

  /** A lock that cannot be kept: its person is thawed, then it comes down. */
  lemma FailKeepsSafe(s: State, w: World, u: User, strict: bool)
    requires Safe(s, strict) && s.subject.Some?
    requires strict && s.subject.value != u ==> s.subject.value !in Kernel(s.log)
    ensures Safe(Released(Thawed(s, u)), strict)
  {
    var who := s.subject.value;
    ActKeepsSafe(s.frozen, s.log, Thaw(u), strict);
    KernelOfLast(s.log, Thaw(u));
    ActKeepsSafe(s.frozen - {u}, s.log + [Thaw(u)], Release(who), strict);
  }

  /** The lock comes down for someone frozen only when it had turned to them and could not be kept. */
  lemma TakeDownKeepsSafe(s: State, w: World, strict: bool)
    requires Safe(s, strict) && s.subject.Some? && !LockKept(s, w) && (strict ==> !LetsGoOfAnother(s, w))
    ensures Safe(TakenDown(s, w), strict) && TakenDown(s, w).subject.None? && TakenDown(s, w).orders == s.orders
  {
    var u := Faced(s, w, s.subject.value);
    if u !in s.frozen {
      ActKeepsSafe(s.frozen, s.log, Release(u), strict);
    } else if u !in w.desktop {
      ActKeepsSafe(s.frozen, s.log, HandOver(u), strict);
    } else {
      FailKeepsSafe(s.(subject := Some(Kept(s, w, u))), w, u, strict);
    }
  }

  /** Reconciling takes a lock down in front of someone still frozen. */
  ghost predicate LetsGoEarly(s: State, w: World) {
    || LetsGoOfAnother(s, w)
    || (!LockKept(s, w) && CoverGivesUp(if s.subject.Some? then TakenDown(s, w) else s, w))
  }

  lemma ReconcileKeepsSafe(s: State, w: World, strict: bool)
    requires Safe(s, strict) && (strict ==> !LetsGoEarly(s, w))
    ensures Safe(Reconciled(s, w), strict) && LockOnStopped(Reconciled(s, w))
    ensures Reconciled(s, w).orders == s.orders
  {
    if s.subject.None? {
      CoverKeepsSafe(s, w, strict);
    } else if !LockKept(s, w) {
      TakeDownKeepsSafe(s, w, strict);
      CoverKeepsSafe(TakenDown(s, w), w, strict);
    }
  }

  lemma CoverOnDisk(s: State, w: World)
    requires s.orders.lockedOnDisk == s.orders.deviceLocked
    ensures OnDisk(Covered(s, w))
  {
  }

  lemma ReconcileOnDisk(s: State, w: World)
    requires s.orders.lockedOnDisk == s.orders.deviceLocked
    ensures OnDisk(Reconciled(s, w))
  {
    if s.subject.None? {
      CoverOnDisk(s, w);
    } else if !LockKept(s, w) {
      CoverOnDisk(TakenDown(s, w), w);
    }
  }

  // ---- Thaws ----

  lemma {:induction false} ThawAllKeepsSafe(s: State, users: seq<User>, strict: bool)
    requires Safe(s, strict)
    ensures var t := ThawAll(s, users);
      Safe(t, strict) && t.orders == s.orders && t.frozen <= s.frozen && forall u <- users :: u !in t.frozen
  {
    if users == [] {
    } else {
      var before, u := ThawAll(s, users[..|users| - 1]), users[|users| - 1];
      ThawAllKeepsSafe(s, users[..|users| - 1], strict);
      ActKeepsSafe(before.frozen, before.log, Thaw(u), strict);
    }
  }

  lemma RecoveryKeepsSafe(s: State, w: World, strict: bool)
    requires Safe(s, strict) && forall u <- s.frozen :: u in w.order
    ensures Safe(Recovered(s, w), strict) && Recovered(s, w).frozen == {}
    ensures Recovered(s, w).orders == Cleared(s.orders)
  {
    ThawAllKeepsSafe(s.(orders := Cleared(s.orders)), w.order, strict);
  }

  lemma {:induction false} ThawAllowedKeepsSafe(s: State, w: World, users: seq<User>, strict: bool)
    requires Safe(s, strict)
    ensures Safe(ThawAllowed(s, w, users), strict) && ThawAllowed(s, w, users).orders == s.orders
  {
    if users == [] {
    } else {
      var before, u := ThawAllowed(s, w, users[..|users| - 1]), users[|users| - 1];
      ThawAllowedKeepsSafe(s, w, users[..|users| - 1], strict);
      ActKeepsSafe(before.frozen, before.log, Thaw(u), strict);
    }
  }

  // ---- The tick ----

  /** The part of the tick before the freeze decision. */
  lemma ArmKeepsSafe(s: State, w: World, u: User, strict: bool)
    requires Safe(s, strict)
    ensures var t := Refrozen(s, w, u);
      && Safe(t, strict) && t.orders == s.orders && t.frozen == s.frozen
      && Safe(Disarmed(t, u), strict) && Disarmed(t, u).orders == s.orders && Disarmed(t, u).frozen == s.frozen
  {
    if u in s.frozen && u in w.loggedIn {
      assert s.frozen + {u} == s.frozen;
      ActKeepsSafe(s.frozen, s.log, Refreeze(u), strict);
    }
  }

  lemma TickUserKeepsSafe(s: State, w: World, u: User, strict: bool)
    requires Safe(s, strict)
    ensures Safe(TickUser(s, w, u), strict) && TickUser(s, w, u).orders == s.orders
  {
    ArmKeepsSafe(s, w, u, strict);
    var armed := if Stops(s, w, u) then Refrozen(s, w, u) else Disarmed(Refrozen(s, w, u), u);
    match DecideFreeze(Effective(s, w.now), Stops(s, w, u), u in s.frozen)
    case DoFreeze =>
      StopKeepsSafe(armed, w, u, strict);
      LockoutKeepsSafe(armed, w, u, strict);
    case DoUnfreeze =>
      ThawKeepsSafe(armed, u, strict);
    case DoNothing =>
  }

  lemma {:induction false} TickAllKeepsSafe(s: State, w: World, users: seq<User>, strict: bool)
    requires Safe(s, strict)
    ensures Safe(TickAll(s, w, users), strict) && TickAll(s, w, users).orders == s.orders
  {
    if users == [] {
    } else {
      TickAllKeepsSafe(s, w, users[..|users| - 1], strict);
      TickUserKeepsSafe(TickAll(s, w, users[..|users| - 1]), w, users[|users| - 1], strict);
    }
  }

  // ---- A new process ----

  /** Of `users`, those the kernel has frozen who have rules here, or have none. */
  function FrozenOf(kernel: set<User>, users: seq<User>, policies: set<User>, managed: bool): set<User> {
    set u | u in kernel && u in users && (u in policies <==> managed)
  }

  lemma FrozenOfMore(kernel: set<User>, users: seq<User>, policies: set<User>, managed: bool, u: User)
    ensures FrozenOf(kernel, users + [u], policies, managed)
         == FrozenOf(kernel, users, policies, managed) + (if u in kernel && (u in policies <==> managed) then {u} else {})
  {
  }

  /** Of those the kernel has frozen, the ones with rules here are adopted and the others thawed. */
  lemma {:induction false} AdoptMeans(s: State, kernel: set<User>, users: seq<User>, strict: bool)
    requires s.frozen == {} && Kernel(s.log) == kernel && LockFirst(s.log) && (strict ==> ThawFirst(s.log))
    ensures var t := Adopt(s, kernel, users);
      && t == s.(frozen := t.frozen, log := t.log)
      && t.frozen == FrozenOf(kernel, users, s.orders.policies, true)
      && Kernel(t.log) == kernel - FrozenOf(kernel, users, s.orders.policies, false)
      && Lost(t.log) <= Lost(s.log)
      && LockFirst(t.log) && (strict ==> ThawFirst(t.log))
  {
    if users == [] {
    } else {
      var rest, u := users[..|users| - 1], users[|users| - 1];
      assert users == rest + [u];
      AdoptMeans(s, kernel, rest, strict);
      FrozenOfMore(kernel, rest, s.orders.policies, true, u);
      FrozenOfMore(kernel, rest, s.orders.policies, false, u);
      var before := Adopt(s, kernel, rest);
      if u in kernel && u !in s.orders.policies {
        KernelOfLast(before.log, Thaw(u));
        LockFirstLast(before.log, Thaw(u));
        if strict {
          ThawFirstLast(before.log, Thaw(u));
        }
      }
    }
  }

  lemma RestartKeepsSafe(s: State, w: World, rebooted: bool, policies: set<User>, strict: bool)
    requires Safe(s, strict) && forall u <- Kernel(s.log) :: u in w.order
    ensures Safe(Restart(s, w, rebooted, policies), strict)
    ensures var t := Restart(s, w, rebooted, policies);
      && t.orders == Loaded(s, w.now, rebooted, policies).orders
      && t.pending == Loaded(s, w.now, rebooted, policies).pending
      && t.frozen == (if rebooted then {} else Kernel(s.log) * policies)
  {
    var loaded := Loaded(s, w.now, rebooted, policies);
    if rebooted {
      KernelOfLast(s.log, Reboot);
      LockFirstLast(s.log, Reboot);
      if strict {
        ThawFirstLast(s.log, Reboot);
      }
    }
    AdoptMeans(loaded, Kernel(loaded.log), w.order, strict);
  }

  lemma {:induction false} FreedMeans(s: State, users: seq<User>, strict: bool)
    requires LockFirst(s.log) && (strict ==> ThawFirst(s.log))
    ensures var t := Freed(s, users);
      && t == s.(log := t.log)
      && Kernel(t.log) <= Kernel(s.log) && (forall u <- users :: u !in Kernel(t.log)) && Lost(t.log) <= Lost(s.log)
      && LockFirst(t.log) && (strict ==> ThawFirst(t.log))
  {
    if users == [] {
    } else {
      var before, u := Freed(s, users[..|users| - 1]), users[|users| - 1];
      FreedMeans(s, users[..|users| - 1], strict);
      KernelOfLast(before.log, Thaw(u));
      LockFirstLast(before.log, Thaw(u));
      if strict {
        ThawFirstLast(before.log, Thaw(u));
      }
    }
  }

  /** Taking the lock down when nobody is frozen. */
  lemma ReleaseKeepsSafe(s: State, strict: bool)
    requires Kernel(s.log) == {} == s.frozen && Safe(s, strict)
    ensures var t := Released(s);
      Safe(t, strict) && t.subject.None? && t.frozen == {} && Kernel(t.log) == {} && t.orders == s.orders && t.pending == s.pending
  {
    if s.subject.Some? {
      ActKeepsSafe({}, s.log, Release(s.subject.value), strict);
      KernelOfLast(s.log, Release(s.subject.value));
    }
  }

  lemma RetireKeepsSafe(s: State, w: World, strict: bool)
    requires Safe(s, strict) && forall u <- Kernel(s.log) :: u in w.order
    ensures Sound(Retire(s, w), strict) && Retire(s, w).frozen == {} && Kernel(Retire(s, w).log) == {}
  {
    FreedMeans(s, w.order, strict);
    ReleaseKeepsSafe(Forgotten(Freed(s, w.order)), strict);
  }

  // ---- Every step, every run ----

  /** The step takes no lock down in front of someone still frozen. */
  ghost predicate Careful(s: State, step: Step) {
    var (e, w) := (step.event, step.world);
    !Ignored(s, e) ==>
      && (e.LockCommand? && e.grace == 0 ==> StopsCarefully(Paused(s, w, 0), w, w.order))
      && (LockFollows(e) ==> !LetsGoEarly(Acted(s, e, w), w))
  }

  lemma EngagedKeepsSafe(s: State, w: World, strict: bool)
    requires Safe(s, strict) && s.orders.lockedOnDisk == s.orders.deviceLocked && forall u <- s.frozen :: u in w.order
    ensures Safe(Engaged(s, w), strict) && Engaged(s, w).orders.lockedOnDisk == Engaged(s, w).orders.deviceLocked
  {
    if w.marker {
      RecoveryKeepsSafe(s, w, strict);
    }
  }

  lemma TickKeepsSafe(s: State, w: World, strict: bool)
    requires Sound(s, strict) && WalksAll(w, s)
    ensures var t := TickAll(Engaged(s, w), w, w.order);
      Safe(t, strict) && t.orders == Engaged(s, w).orders && t.orders.lockedOnDisk == t.orders.deviceLocked
  {
    EngagedKeepsSafe(s, w, strict);
    TickAllKeepsSafe(Engaged(s, w), w, w.order, strict);
  }

  lemma LockKeepsSafe(s: State, w: World, grace: nat, strict: bool)
    requires Safe(s, strict) && (strict && grace == 0 ==> StopsCarefully(Paused(s, w, 0), w, w.order))
    ensures Safe(Lock(s, w, grace), strict) && Lock(s, w, grace).orders.lockedOnDisk
    ensures Lock(s, w, grace).orders.deviceLocked
  {
    if grace == 0 {
      StopAllKeepsSafe(Paused(s, w, 0), w, w.order, strict);
    }
  }

  lemma UnlockKeepsSafe(s: State, w: World, strict: bool)
    requires Safe(s, strict)
    ensures Safe(Unlock(s, w), strict) && !Unlock(s, w).orders.lockedOnDisk && !Unlock(s, w).orders.deviceLocked
  {
    ThawAllowedKeepsSafe(Resumed(s), w, w.order, strict);
  }

  lemma SeatKeepsSafe(s: State, w: World, strict: bool)
    requires Safe(s, strict)
    ensures Safe(SeatChanged(s, w), strict) && SeatChanged(s, w).orders == s.orders
  {
    if w.onScreen.Some? && w.onScreen.value !in s.frozen {
      StopKeepsSafe(s, w, w.onScreen.value, strict);
      LockoutKeepsSafe(s, w, w.onScreen.value, strict);
    }
  }

  lemma CreditKeepsSafe(s: State, w: World, u: User, strict: bool)
    requires Safe(s, strict)
    ensures Safe(Credit(s, w, u), strict) && Credit(s, w, u).orders == s.orders
  {
    ThawKeepsSafe(Disarmed(s, u), u, strict);
  }

  lemma SnoozeKeepsSafe(s: State, w: World, selfSet: bool, waited: nat, used: nat, strict: bool)
    requires Safe(s, strict) && s.subject.Some?
    ensures Safe(Snooze(s, w, selfSet, waited, used), strict)
    ensures Snooze(s, w, selfSet, waited, used).orders == s.orders
  {
    ThawKeepsSafe(s, s.subject.value, strict);
  }

  lemma StartKeepsSafe(s: State, w: World, rebooted: bool, policies: set<User>, strict: bool)
    requires Sound(s, strict) && WalksAll(w, s)
    ensures var t := Restart(s, w, rebooted, policies);
      Safe(t, strict) && t.orders.lockedOnDisk == t.orders.deviceLocked
  {
    RestartKeepsSafe(s, w, rebooted, policies, strict);
  }

  lemma ActedKeepsSafe(s: State, e: Event, w: World, strict: bool)
    requires Sound(s, strict) && WalksAll(w, s) && !Ignored(s, e) && LockFollows(e)
    requires strict ==> Careful(s, Step(e, w))
    ensures Safe(Acted(s, e, w), strict)
    ensures Acted(s, e, w).orders.lockedOnDisk == Acted(s, e, w).orders.deviceLocked
  {
    match e
    case Ticked => TickKeepsSafe(s, w, strict);
    case LockCommand(grace) => LockKeepsSafe(s, w, grace, strict);
    case UnlockCommand => UnlockKeepsSafe(s, w, strict);
    case CreditCommand(u) => CreditKeepsSafe(s, w, u, strict);
    case OtherCommand =>
    case SnoozeRequest(selfSet, waited, used) => SnoozeKeepsSafe(s, w, selfSet, waited, used, strict);
    case CodeRequest(ok) =>
      if ok {
        RecoveryKeepsSafe(s, w, strict);
      }
    case AskRequest =>
    case SeatChange => SeatKeepsSafe(s, w, strict);
    case Restarted(rebooted, policies) => StartKeepsSafe(s, w, rebooted, policies, strict);
  }

  lemma SettledKeepsSound(acted: State, w: World, strict: bool)
    requires Safe(acted, strict) && acted.orders.lockedOnDisk == acted.orders.deviceLocked
    requires strict ==> !LetsGoEarly(acted, w)
    ensures Sound(Reconciled(acted, w), strict) && Sound(Seen(Reconciled(acted, w), w), strict)
  {
    ReconcileKeepsSafe(acted, w, strict);
    ReconcileOnDisk(acted, w);
  }

  lemma LeaveKeepsSound(s: State, u: User, strict: bool)
    requires Sound(s, strict)
    ensures Sound(Did(s, Gone(u)), strict)
  {
    ActKeepsSafe(s.frozen, s.log, Gone(u), strict);
  }

  lemma NextKeepsSound(s: State, step: Step, strict: bool)
    requires Sound(s, strict) && WalksAll(step.world, s) && (strict ==> Careful(s, step))
    ensures Sound(Next(s, step), strict)
  {
    var e, w := step.event, step.world;
    if Ignored(s, e) {
    } else if LockFollows(e) {
      ActedKeepsSafe(s, e, w, strict);
      SettledKeepsSound(Acted(s, e, w), w, strict);
    } else if e.Retirement? {
      RetireKeepsSafe(s, w, strict);
    } else if e.Left? {
      LeaveKeepsSound(s, e.user, strict);
    }
  }

  /**
   Over every run of ticks, commands, requests at the lock, VT changes, crashes and reboots: the
   kernel has frozen exactly whom the agent thinks it has, less those something else thawed since; a
   lock was shown before anyone on screen was frozen; the lock belongs to someone stopped; and the
   disk says what a restart needs.
   */
  lemma {:induction false} EveryRunIsSound(steps: seq<Step>)
    requires Walked(BLANK, steps)
    ensures Sound(Run(BLANK, steps), false)
  {
    if steps == [] {
    } else {
      EveryRunIsSound(steps[..|steps| - 1]);
      NextKeepsSound(Run(BLANK, steps[..|steps| - 1]), steps[|steps| - 1], false);
    }
  }

  /**
   Over every run the kernel has frozen exactly whom the agent thinks it has, less those whose freeze
   something else undid since it was last ordered; so the two sets are equal just while there are none.
   */
  lemma KernelIsFrozen(steps: seq<Step>)
    requires Walked(BLANK, steps)
    ensures var s := Run(BLANK, steps);
      && Kernel(s.log) == s.frozen - Lost(s.log)
      && (Kernel(s.log) == s.frozen <==> s.frozen !! Lost(s.log))
  {
    EveryRunIsSound(steps);
  }

  // ---- Where the protocol does not hold ----

  lemma {:induction false} LogOnlyGrows(log: seq<Act>, after: seq<Act>)
    requires log <= after && !ThawFirst(log)
    ensures !ThawFirst(after)
  {
    var i :| 0 <= i < |log| && log[i].Release? && log[i].user in Kernel(log[..i]);
    assert after[i] == log[i] && after[..i] == log[..i];
  }

  lemma CoverGivesUpBreaks(s: State, w: World)
    requires s.subject.None? && CoverGivesUp(s, w)
    ensures !ThawFirst(Covered(s, w).log)
  {
    var u := w.onScreenAfter.value;
    var log := s.log + [Present(u, false)] + [Release(u)];
    KernelOfLast(s.log, Present(u, false));
    assert log[|log| - 1] == Release(u) && log[..|log| - 1] == s.log + [Present(u, false)];
    assert !ThawFirst(log);
    LogOnlyGrows(log, Covered(s, w).log);
  }

  lemma LetsGoOfAnotherBreaks(s: State, w: World)
    requires LetsGoOfAnother(s, w)
    ensures !ThawFirst(TakenDown(s, w).log)
  {
    var u := Faced(s, w, s.subject.value);
    var who := Kept(s, w, u);
    KernelOfLast(s.log, Thaw(u));
    var log := s.log + [Thaw(u)] + [Release(who)];
    assert TakenDown(s, w).log == log;
    assert log[|log| - 1] == Release(who) && log[..|log| - 1] == s.log + [Thaw(u)];
  }

  /**
   Reconciling keeps thaw before release except in two cases: a lock that turned to another stopped
   person could not be kept, or one for the stopped person on screen could not be shown at all.
   */
  lemma ReleaseAfterThawIff(s: State, w: World)
    requires Safe(s, true)
    ensures ThawFirst(Reconciled(s, w).log) <==> !LetsGoEarly(s, w)
  {
    if !LetsGoEarly(s, w) {
      ReconcileKeepsSafe(s, w, true);
    } else if LetsGoOfAnother(s, w) {
      LetsGoOfAnotherBreaks(s, w);
      assert TakenDown(s, w).log <= Reconciled(s, w).log;
      LogOnlyGrows(TakenDown(s, w).log, Reconciled(s, w).log);
    } else {
      CoverGivesUpBreaks(if s.subject.Some? then TakenDown(s, w) else s, w);
    }
  }

  // ---- Over a step, and over every run ----

  lemma StopGrowsLog(s: State, w: World, u: User)
    ensures s.log <= StopUser(s, w, u).log
  {
  }

  lemma {:induction false} StopAllGrowsLog(s: State, w: World, users: seq<User>)
    ensures s.log <= StopAll(s, w, users).log
  {
    if users == [] {
    } else {
      StopAllGrowsLog(s, w, users[..|users| - 1]);
      StopGrowsLog(StopAll(s, w, users[..|users| - 1]), w, users[|users| - 1]);
    }
  }

  lemma TickUserGrowsLog(s: State, w: World, u: User)
    ensures s.log <= TickUser(s, w, u).log
  {
    var armed := if Stops(s, w, u) then Refrozen(s, w, u) else Disarmed(Refrozen(s, w, u), u);
    StopGrowsLog(armed, w, u);
    StopGrowsLog(Disarmed(armed, u), w, u);
  }

  lemma {:induction false} TickAllGrowsLog(s: State, w: World, users: seq<User>)
    ensures s.log <= TickAll(s, w, users).log
  {
    if users == [] {
    } else {
      TickAllGrowsLog(s, w, users[..|users| - 1]);
      TickUserGrowsLog(TickAll(s, w, users[..|users| - 1]), w, users[|users| - 1]);
    }
  }

  lemma {:induction false} ThawsGrowLog(s: State, w: World, users: seq<User>)
    ensures s.log <= ThawAll(s, users).log && s.log <= ThawAllowed(s, w, users).log && s.log <= Freed(s, users).log
  {
    if users == [] {
    } else {
      ThawsGrowLog(s, w, users[..|users| - 1]);
    }
  }

  lemma {:induction false} AdoptGrowsLog(s: State, kernel: set<User>, users: seq<User>)
    ensures s.log <= Adopt(s, kernel, users).log
  {
    if users == [] {
    } else {
      AdoptGrowsLog(s, kernel, users[..|users| - 1]);
    }
  }

  lemma ReconcileGrowsLog(s: State, w: World)
    ensures s.log <= Reconciled(s, w).log
  {
    if s.subject.Some? && !LockKept(s, w) {
      assert s.log <= TakenDown(s, w).log;
    }
  }

  lemma ActedGrowsLog(s: State, e: Event, w: World)
    requires !Ignored(s, e)
    ensures s.log <= Acted(s, e, w).log
  {
    match e
    case Ticked =>
      ThawsGrowLog(s.(orders := Cleared(s.orders)), w, w.order);
      TickAllGrowsLog(Engaged(s, w), w, w.order);
    case LockCommand(grace) => StopAllGrowsLog(Paused(s, w, 0), w, w.order);
    case UnlockCommand => ThawsGrowLog(Resumed(s), w, w.order);
    case CodeRequest(_) => ThawsGrowLog(s.(orders := Cleared(s.orders)), w, w.order);
    case SeatChange =>
      if w.onScreen.Some? {
        StopGrowsLog(s, w, w.onScreen.value);
        StopGrowsLog(Disarmed(s, w.onScreen.value), w, w.onScreen.value);
      }
    case Restarted(rebooted, policies) =>
      var loaded := Loaded(s, w.now, rebooted, policies);
      AdoptGrowsLog(loaded, Kernel(loaded.log), w.order);
    case Retirement => ThawsGrowLog(s, w, w.order);
    case _ =>
  }

  lemma NextGrowsLog(s: State, step: Step)
    ensures s.log <= Next(s, step).log
    ensures !Ignored(s, step.event) ==> Acted(s, step.event, step.world).log <= Next(s, step).log
  {
    if !Ignored(s, step.event) {
      ActedGrowsLog(s, step.event, step.world);
      ReconcileGrowsLog(Acted(s, step.event, step.world), step.world);
    }
  }

  lemma StopGivesUpBreaks(s: State, w: World, u: User)
    requires StopGivesUp(s, w, u)
    ensures !ThawFirst(StopUser(s, w, u).log)
  {
    var log := s.log + [Present(u, false)] + [Release(u)];
    KernelOfLast(s.log, Present(u, false));
    assert StopUser(s, w, u).log == log;
    assert log[|log| - 1] == Release(u) && log[..|log| - 1] == s.log + [Present(u, false)];
  }

  lemma {:induction false} StopsCarelesslyBreaks(s: State, w: World, users: seq<User>)
    requires !StopsCarefully(s, w, users)
    ensures !ThawFirst(StopAll(s, w, users).log)
  {
    var rest, u := users[..|users| - 1], users[|users| - 1];
    var before := StopAll(s, w, rest);
    if !StopsCarefully(s, w, rest) {
      StopsCarelesslyBreaks(s, w, rest);
      StopGrowsLog(before, w, u);
      LogOnlyGrows(before.log, StopAll(s, w, users).log);
    } else {
      StopGivesUpBreaks(before, w, u);
    }
  }

  /**
   A step keeps thaw before release exactly when it is careful: reconciling meets neither of the cases
   above, and a pause asks in vain for no lock in front of somebody frozen already.
   */
  lemma NextThawsFirstIff(s: State, step: Step)
    requires Sound(s, true) && WalksAll(step.world, s)
    ensures ThawFirst(Next(s, step).log) <==> Careful(s, step)
  {
    var e, w := step.event, step.world;
    if Careful(s, step) {
      NextKeepsSound(s, step, true);
    } else {
      NextGrowsLog(s, step);
      var acted := Acted(s, e, w);
      if e.LockCommand? && e.grace == 0 && !StopsCarefully(Paused(s, w, 0), w, w.order) {
        StopsCarelesslyBreaks(Paused(s, w, 0), w, w.order);
        assert acted.log == StopAll(Paused(s, w, 0), w, w.order).log;
      } else if ThawFirst(acted.log) {
        ActedKeepsSafe(s, e, w, false);
        ReleaseAfterThawIff(acted, w);
      }
      if !ThawFirst(acted.log) {
        LogOnlyGrows(acted.log, Next(s, step).log);
      }
    }
  }

  ghost predicate AllCareful(s: State, steps: seq<Step>) {
    steps != [] ==>
      var before := steps[..|steps| - 1];
      AllCareful(s, before) && Careful(Run(s, before), steps[|steps| - 1])
  }

  /** Over every run, the lock only ever came down for someone already thawed exactly when every step was careful. */
  lemma {:induction false} ReleasesAfterThawIff(steps: seq<Step>)
    requires Walked(BLANK, steps)
    ensures ThawFirst(Run(BLANK, steps).log) <==> AllCareful(BLANK, steps)
    ensures AllCareful(BLANK, steps) ==> Sound(Run(BLANK, steps), true)
  {
    if steps == [] {
    } else {
      var before, step := steps[..|steps| - 1], steps[|steps| - 1];
      ReleasesAfterThawIff(before);
      var mid := Run(BLANK, before);
      if AllCareful(BLANK, before) {
        NextThawsFirstIff(mid, step);
        EveryRunIsSound(steps);
      } else {
        NextGrowsLog(mid, step);
        LogOnlyGrows(mid.log, Next(mid, step).log);
      }
    }
  }

  // ---- It happens ----

  /** Ann, on screen, and Ben, behind her, are paused. */
  const PAUSING := QUIET.(order := ["ann", "ben"], loggedIn := {"ann", "ben"}, desktop := {"ann", "ben"},
                          front := {"ann"}, shows := {"ann"})

  const PAUSED_RUN := [Step(PolicyPull({"ann", "ben"}), QUIET), Step(LockCommand(0), PAUSING)]

  /** The first thing to happen here: rules arrive for some people. */
  function Pulled(people: set<User>): State {
    BLANK.(orders := BLANK.orders.(policies := people))
  }

  const PULLED := Pulled({"ann", "ben"})

  lemma PulledIsFirst(run: seq<Step>, people: set<User>)
    requires run != [] && run[0] == Step(PolicyPull(people), QUIET)
    ensures Walked(BLANK, run[..1]) && AllCareful(BLANK, run[..1]) && Run(BLANK, run[..1]) == Pulled(people)
    ensures Kernel(Pulled(people).log) == {}
  {
    var one := run[..1];
    assert one == [Step(PolicyPull(people), QUIET)] && one[..0] == [];
    assert Run(BLANK, []) == BLANK && Kernel(BLANK.log) == {};
    assert Walked(BLANK, one[..0]) && AllCareful(BLANK, one[..0]);
  }

  lemma PauseStopsBoth() returns (two: State)
    ensures StopsCarefully(Paused(PULLED, PAUSING, 0), PAUSING, PAUSING.order)
    ensures two == StopAll(Paused(PULLED, PAUSING, 0), PAUSING, PAUSING.order)
    ensures two.frozen == {"ann", "ben"} && two.subject == Some("ann") && Kernel(two.log) == {"ann", "ben"}
  {
    var locked := Paused(PULLED, PAUSING, 0);
    var both := PAUSING.order;
    assert both[..1] == ["ann"] && both[..1][..0] == [];
    assert StopAll(locked, PAUSING, []) == locked && StopsCarefully(locked, PAUSING, []);
    var one := StopAll(locked, PAUSING, both[..1]);
    assert one == Froze(Presented(locked, "ann", true), "ann", true);
    KernelOfLast([], Present("ann", true));
    KernelOfLast([] + [Present("ann", true)], Freeze("ann", true));
    assert one.log == [] + [Present("ann", true)] + [Freeze("ann", true)] && Kernel(one.log) == {"ann"};
    two := Froze(one, "ben", false);
    KernelOfLast(one.log, Freeze("ben", false));
  }

  lemma PausedRunReaches() returns (s: State)
    ensures Walked(BLANK, PAUSED_RUN) && AllCareful(BLANK, PAUSED_RUN) && s == Run(BLANK, PAUSED_RUN)
    ensures s.frozen == {"ann", "ben"} && s.subject == Some("ann") && Kernel(s.log) == {"ann", "ben"}
  {
    PulledIsFirst(PAUSED_RUN, {"ann", "ben"});
    var two := PauseStopsBoth();
    s := Next(PULLED, PAUSED_RUN[1]);
    assert Acted(PULLED, LockCommand(0), PAUSING) == Persisted(two);
    assert LockKept(Persisted(two), PAUSING);
    assert s == Persisted(Persisted(two).(subject := Some("ann")));
    assert Kernel(PULLED.log) == {};
  }

  /** It happens: Ben's session then comes under Ann's lock, the lock dies, and it comes down in front of him. */
  lemma LockTornDownInFrontOfFrozen() returns (crowded: World)
    ensures var s := Run(BLANK, PAUSED_RUN);
      && Walked(BLANK, PAUSED_RUN) && AllCareful(BLANK, PAUSED_RUN)
      && LetsGoOfAnother(s, crowded) && "ben" in s.frozen && !ThawFirst(Reconciled(s, crowded).log)
  {
    var s := PausedRunReaches();
    crowded := QUIET.(desktop := {"ann", "ben"}, holds := false, passing := Some("ben"));
    ReleasesAfterThawIff(PAUSED_RUN);
    ReleaseAfterThawIff(s, crowded);
  }

  /** Ben, whose desktop is behind another's, is paused. */
  const BEHIND := QUIET.(order := ["ben"], loggedIn := {"ben"})

  const BEHIND_RUN := [Step(PolicyPull({"ben"}), QUIET), Step(LockCommand(0), BEHIND)]

  lemma StopBen(s: State)
    requires s.subject == None && s.frozen == {} && s.log == [] && s.orders.policies == {"ben"}
    ensures StopAll(s, BEHIND, ["ben"]) == Froze(s, "ben", false) && StopsCarefully(s, BEHIND, ["ben"])
    ensures Kernel(Froze(s, "ben", false).log) == {"ben"}
  {
    assert ["ben"][..0] == [] && StopAll(s, BEHIND, []) == s && StopsCarefully(s, BEHIND, []);
    assert StopUser(s, BEHIND, "ben") == Froze(s, "ben", false);
    KernelOfLast([], Freeze("ben", false));
    assert [] + [Freeze("ben", false)] == Froze(s, "ben", false).log && Kernel([]) == {};
  }

  lemma PauseStopsBen() returns (one: State)
    ensures var locked := Paused(Pulled({"ben"}), BEHIND, 0);
      StopsCarefully(locked, BEHIND, BEHIND.order) && one == StopAll(locked, BEHIND, BEHIND.order)
    ensures one.frozen == {"ben"} && one.subject == None && Kernel(one.log) == {"ben"} && one.pending == map[]
    ensures one.orders.policies == {"ben"} && one.orders.deviceLocked
  {
    var locked := Paused(Pulled({"ben"}), BEHIND, 0);
    StopBen(locked);
    one := Froze(locked, "ben", false);
  }

  lemma BehindRunReaches() returns (s: State)
    ensures Walked(BLANK, BEHIND_RUN) && AllCareful(BLANK, BEHIND_RUN) && s == Run(BLANK, BEHIND_RUN)
    ensures s.frozen == {"ben"} && s.subject == None && Kernel(s.log) == {"ben"} && s.pending == map[]
    ensures s.orders.policies == {"ben"}
  {
    PulledIsFirst(BEHIND_RUN, {"ben"});
    var one := PauseStopsBen();
    s := Next(Pulled({"ben"}), BEHIND_RUN[1]);
    assert Acted(Pulled({"ben"}), LockCommand(0), BEHIND) == Persisted(one);
    assert s == Persisted(Persisted(one));
  }

  lemma BenIsLetGoEarly(s: State, w: World)
    requires s.subject.None? && "ben" in s.frozen && "ben" in Kernel(s.log)
    requires w.onScreenAfter == Some("ben") && !w.showsAfter
    ensures LetsGoEarly(s, w) && !LetsGoOfAnother(s, w) && !Careful(s, Step(OtherCommand, w))
  {
  }

  /** He comes on screen and no lock can be shown: it is taken down before he is thawed. */
  lemma LockThatNeverCameUp() returns (step: Step)
    ensures var s := Run(BLANK, BEHIND_RUN);
      && Walked(BLANK, BEHIND_RUN) && AllCareful(BLANK, BEHIND_RUN) && WalksAll(step.world, s)
      && step.event.OtherCommand? && LetsGoEarly(s, step.world) && !LetsGoOfAnother(s, step.world)
      && !ThawFirst(Next(s, step).log)
  {
    var s := BehindRunReaches();
    step := Step(OtherCommand, BEHIND.(onScreenAfter := Some("ben"), showsAfter := false));
    ReleasesAfterThawIff(BEHIND_RUN);
    BenIsLetGoEarly(s, step.world);
    NextThawsFirstIff(s, step);
  }

  lemma BenIsGivenUp(s: State, w: World)
    requires s.subject.None? && "ben" in Kernel(s.log) && s.orders.policies == {"ben"}
    requires w == BEHIND.(front := {"ben"})
    ensures !StopsCarefully(Paused(s, w, 0), w, w.order) && !Careful(s, Step(LockCommand(0), w))
  {
    var locked := Paused(s, w, 0);
    assert w.order[..0] == [] && StopAll(locked, w, []) == locked;
    assert StopGivesUp(locked, w, "ben");
  }

  /** Or he is on screen when a second pause comes and no lock can be shown: it is taken down and he stays frozen. */
  lemma PauseGivesUpInFrontOfFrozen() returns (step: Step)
    ensures var s := Run(BLANK, BEHIND_RUN);
      && Walked(BLANK, BEHIND_RUN) && AllCareful(BLANK, BEHIND_RUN) && WalksAll(step.world, s)
      && step.event == LockCommand(0) && !StopsCarefully(Paused(s, step.world, 0), step.world, step.world.order)
      && !ThawFirst(Next(s, step).log)
  {
    var s := BehindRunReaches();
    step := Step(LockCommand(0), BEHIND.(front := {"ben"}));
    ReleasesAfterThawIff(BEHIND_RUN);
    BenIsGivenUp(s, step.world);
    NextThawsFirstIff(s, step);
  }

  // ---- After the lock has followed ----

  /** The lock that is up cannot be kept in front of `u`. */
  predicate LockFails(s: State, w: World, u: User) {
    s.subject.Some? && u == Faced(s, w, s.subject.value) && u in s.frozen && u in w.desktop && !w.holds
  }

  /** With no lock up any more, none can be shown for `u`, who is on screen. */
  predicate ScreenFails(s: State, w: World, u: User) {
    !LockKept(s, w) && w.onScreenAfter == Some(u) && !w.showsAfter
  }

  lemma TakeDownLetsGoIff(s: State, w: World, u: User)
    requires s.subject.Some? && !LockKept(s, w)
    ensures u in TakenDown(s, w).frozen <==> u in s.frozen && !LockFails(s, w, u)
    ensures TakenDown(s, w).pending == s.pending && TakenDown(s, w).subject.None?
  {
  }

  lemma CoverLetsGoIff(s: State, w: World, u: User)
    requires s.subject.None?
    ensures u in Covered(s, w).frozen <==> u in s.frozen && !(w.onScreenAfter == Some(u) && !w.showsAfter)
    ensures Covered(s, w).pending == s.pending
  {
  }

  /** Reconciling stops nobody, and lets go only of whoever no lock can be shown for. */
  lemma ReconcileLetsGoIff(s: State, w: World, u: User)
    ensures u in Reconciled(s, w).frozen <==> u in s.frozen && !LockFails(s, w, u) && !ScreenFails(s, w, u)
    ensures Reconciled(s, w).pending == s.pending
  {
    if s.subject.None? {
      CoverLetsGoIff(s, w, u);
    } else if !LockKept(s, w) {
      TakeDownLetsGoIff(s, w, u);
      CoverLetsGoIff(TakenDown(s, w), w, u);
    }
  }

  /** The lock that should stand in front of `u` after the step can't. */
  predicate LockCannotShow(s: State, step: Step, u: User) {
    && !Ignored(s, step.event) && LockFollows(step.event)
    && var acted := Acted(s, step.event, step.world);
       LockFails(acted, step.world, u) || ScreenFails(acted, step.world, u)
  }

  /**
   Once reconciled, whoever is on screen and still stopped has the lock in front of them, or in front
   of whom else it found stopped on its screen.
   */
  lemma OnScreenIsLockedOrThawed(s: State, w: World, u: User)
    requires u in Reconciled(s, w).frozen
    requires if LockKept(s, w) then w.onScreen == Some(u) else w.onScreenAfter == Some(u)
    ensures var t := Reconciled(s, w);
      t.subject == Some(u) || (LockKept(s, w) && t.subject == w.passing && w.passing.value in t.frozen)
  {
  }
}
