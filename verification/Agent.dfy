/**
 The agent as it is written: fields updated in place, method by method, each tied to the function of
 Enforcement that says what it does.
 */
module Agent {
  import opened Options
  import opened Host
  import opened Enforcement

  class Agent {
    var policies: set<User>
    var frozen: set<User>
    var pending: map<User, int>
    var deviceLocked: bool
    var graceUntil: Option<int>
    var offline: bool
    var tamper: bool
    var subject: Option<User>
    var prevActive: Option<set<User>>
    var retired: bool
    var lockedOnDisk: bool
    var disk: Disk
    var log: seq<Act>

    function View(): State
      reads this
    {
      State(Orders(policies, deviceLocked, lockedOnDisk, graceUntil, offline, tamper, prevActive, retired),
            frozen, pending, subject, disk, log)
    }

    /** A new process, from what is on disk; the countdowns it finds there are already over. */
    constructor (disk: Disk, lockedOnDisk: bool, retired: bool, log: seq<Act>,
                 now: int, rebooted: bool, policies: set<User>)
      ensures View() == Loaded(
        BLANK.(orders := BLANK.orders.(lockedOnDisk := lockedOnDisk, retired := retired), disk := disk, log := log),
        now, rebooted, policies)
    {
      this.policies, frozen, pending := policies, {}, map u | u in disk.stopped :: now;
      deviceLocked, graceUntil, offline, tamper := lockedOnDisk, None, false, disk.tamper;
      subject := if rebooted then None else disk.shown;
      prevActive, this.retired, this.lockedOnDisk, this.disk := None, retired, lockedOnDisk, disk;
      this.log := if rebooted then log + [Reboot] else log;
    }

    method PersistFreezeState()
      modifies this`disk
      ensures View() == Persisted(old(View()))
    {
      disk := Disk(frozen + pending.Keys, subject, tamper);
    }

    predicate DeviceLockEffective(now: int)
      reads this
    {
      (deviceLocked && (graceUntil.None? || now >= graceUntil.value)) || offline || tamper
    }

    /** `user`'s apps run again. */
    method ThawUser(user: User)
      modifies this`frozen, this`log
      ensures View() == Thawed(old(View()), user)
    {
      log := log + [Thaw(user)];
      frozen := frozen - {user};
    }

    /** Asks the lock for `user`; `ok`: it is up and drawing. One that never came up is taken down again. */
    method PresentLock(user: User, ok: bool)
      modifies this`subject, this`log
      ensures View() == Presented(old(View()), user, ok)
    {
      log := log + [Present(user, ok)];
      if ok || subject.Some? {
        subject := Some(user);
      } else {
        log := log + [Release(user)];
      }
    }

    method ReleaseLock()
      modifies this`subject, this`log
      ensures View() == Released(old(View()))
    {
      if subject.Some? {
        log := log + [Release(subject.value)];
        subject := None;
      }
    }

    /** The lock first, the freeze after it; and no freeze for whom no lock can be shown. */
    method StopUser(user: User, w: World)
      modifies this
      ensures View() == Enforcement.StopUser(old(View()), w, user)
    {
      if user !in w.loggedIn {
        return;
      }
      var inFront := user in w.front || subject == Some(user);
      if inFront {
        PresentLock(user, user in w.shows);
        if user !in w.shows {
          return;
        }
      }
      log := log + [Freeze(user, inFront)];
      frozen := frozen + {user};
      PersistFreezeState();
    }

    method ScreenTimeLockout(user: User, w: World)
      modifies this
      ensures View() == Lockout(old(View()), w, user)
    {
      if user !in w.loggedIn {
        return;
      }
      if user !in pending {
        var behind := user in w.graphical && user !in w.front;
        var justLoggedIn := prevActive.Some? && user !in prevActive.value;
        var grace: nat := 0;
        if !(user in w.announced || justLoggedIn || behind) {
          grace := if WindDown(w, user) > FREEZE_GRACE then WindDown(w, user) else FREEZE_GRACE;
        }
        if grace == 0 {
          StopUser(user, w);
        } else {
          pending := pending[user := w.now + grace];
        }
      } else if pending[user] <= w.now {
        Disarm(user);
        StopUser(user, w);
      }
    }

    /** Nobody has a lock: whoever is on screen and stopped gets one, or is let go. */
    method CoverScreen(w: World)
      modifies this
      ensures View() == Covered(old(View()), w)
    {
      if w.onScreenAfter.Some? && w.onScreenAfter.value in frozen {
        var u := w.onScreenAfter.value;
        PresentLock(u, w.showsAfter);
        if !w.showsAfter {
          ThawUser(u);
        }
      }
      PersistFreezeState();
    }

    /** The lock goes; `subject` is whose it is once whoever is on screen and stopped is in front of it. */
    method TakeLockDown(w: World)
      requires subject.Some? && !LockKept(View(), w)
      modifies this
      ensures View() == TakenDown(old(View()), w)
    {
      var u := if w.onScreen.Some? && w.onScreen.value in frozen then w.onScreen.value else subject.value;
      if u !in frozen {
        subject := Some(u);
        ReleaseLock();
      } else if u !in w.desktop {
        log := log + [HandOver(u)];
        subject := None;
      } else {
        subject := Some(if w.passing.Some? && w.passing.value in frozen then w.passing.value else u);
        ThawUser(u);
        ReleaseLock();
      }
    }

    method ReconcileLock(w: World)
      modifies this
      ensures View() == Reconciled(old(View()), w)
    {
      if subject.Some? {
        var u := if w.onScreen.Some? && w.onScreen.value in frozen then w.onScreen.value else subject.value;
        if u in frozen && u in w.desktop && w.holds {
          subject := Some(if w.passing.Some? && w.passing.value in frozen then w.passing.value else u);
          PersistFreezeState();
          return;
        }
        TakeLockDown(w);
      }
      CoverScreen(w);
    }

    method ThawEveryone(users: seq<User>)
      modifies this`frozen, this`log
      ensures View() == ThawAll(old(View()), users)
    {
      for i := 0 to |users|
        invariant View() == ThawAll(old(View()), users[..i])
      {
        assert users[..i + 1][..i] == users[..i];
        if users[i] in frozen {
          ThawUser(users[i]);
        }
      }
      assert users[..|users|] == users;
    }

    /** Every whole-device stop is over. */
    method ClearDeviceStops()
      modifies this`deviceLocked, this`lockedOnDisk, this`graceUntil, this`offline, this`tamper
      ensures View() == old(View()).(orders := Cleared(old(View()).orders))
    {
      deviceLocked, lockedOnDisk, graceUntil, offline, tamper := false, false, None, false, false;
    }

    method LocalRecovery(w: World)
      modifies this
      ensures View() == Recovered(old(View()), w)
    {
      ClearDeviceStops();
      ThawEveryone(w.order);
      pending := map[];
      PersistFreezeState();
    }

    method RefreezeUser(user: User, w: World)
      modifies this`log
      ensures View() == Refrozen(old(View()), w, user)
    {
      if user in frozen && user in w.loggedIn {
        log := log + [Refreeze(user)];
      }
    }

    method Disarm(user: User)
      modifies this`pending
      ensures View() == Disarmed(old(View()), user)
    {
      pending := pending - {user};
    }

    /** One person's part of the tick. */
    method EnforceUser(user: User, w: World)
      modifies this
      ensures View() == TickUser(old(View()), w, user)
    {
      var currentlyFrozen := user in frozen;
      RefreezeUser(user, w);
      var stop := ShouldEvaluate(user in w.overridden, user in w.active || user in w.graphical,
                                 currentlyFrozen, user in w.clockRules) && user in w.reasons;
      if !stop {
        Disarm(user);
      }
      var locked := DeviceLockEffective(w.now);
      match DecideFreeze(locked, stop, currentlyFrozen)
      case DoFreeze =>
        if locked {
          StopUser(user, w);
        } else {
          ScreenTimeLockout(user, w);
        }
      case DoUnfreeze => ThawUser(user);
      case DoNothing =>
    }

    method EnforceEveryone(users: seq<User>, w: World)
      modifies this
      ensures View() == TickAll(old(View()), w, users)
    {
      var managed := policies;
      for i := 0 to |users|
        invariant View() == TickAll(old(View()), w, users[..i])
      {
        assert users[..i + 1][..i] == users[..i];
        if users[i] in managed {
          EnforceUser(users[i], w);
        }
      }
      assert users[..|users|] == users;
    }

    method EnforcementTick(w: World)
      modifies this
      ensures View() == Next(old(View()), Step(Ticked, w))
    {
      if retired {
        return;
      }
      if w.marker {
        LocalRecovery(w);
      }
      offline := w.offlineEngaged;
      if w.confirmed {
        tamper := true;
      }
      assert View() == Engaged(old(View()), w);
      EnforceEveryone(w.order, w);
      ReconcileLock(w);
      prevActive := Some(w.active);
      PersistFreezeState();
    }

    method StopEveryone(users: seq<User>, w: World)
      modifies this
      ensures View() == StopAll(old(View()), w, users)
    {
      var managed := policies;
      for i := 0 to |users|
        invariant View() == StopAll(old(View()), w, users[..i])
      {
        assert users[..i + 1][..i] == users[..i];
        if users[i] in managed {
          StopUser(users[i], w);
        }
      }
      assert users[..|users|] == users;
    }

    method Lock(grace: nat, w: World)
      modifies this
      ensures View() == Enforcement.Lock(old(View()), w, grace)
    {
      deviceLocked, lockedOnDisk := true, true;
      graceUntil := if grace > 0 then Some(w.now + grace) else None;
      if grace == 0 {
        StopEveryone(w.order, w);
      }
      PersistFreezeState();
    }

    method LockCommanded(grace: nat, w: World)
      modifies this
      ensures View() == Next(old(View()), Step(LockCommand(grace), w))
    {
      Lock(grace, w);
      ReconcileLock(w);
    }

    method ThawPermitted(users: seq<User>, w: World)
      modifies this`frozen, this`log
      ensures View() == ThawAllowed(old(View()), w, users)
    {
      for i := 0 to |users|
        invariant View() == ThawAllowed(old(View()), w, users[..i])
      {
        assert users[..i + 1][..i] == users[..i];
        if users[i] in frozen && users[i] !in w.reasons {
          ThawUser(users[i]);
        }
      }
      assert users[..|users|] == users;
    }

    method Resume()
      modifies this
      ensures View() == Resumed(old(View()))
    {
      LiftPause();
      pending := map[];
      PersistFreezeState();
    }

    method LiftPause()
      modifies this`deviceLocked, this`lockedOnDisk, this`graceUntil, this`tamper
      ensures View() == old(View()).(orders := old(View()).orders.(
        deviceLocked := false, lockedOnDisk := false, graceUntil := None, tamper := false))
    {
      deviceLocked, lockedOnDisk, graceUntil, tamper := false, false, None, false;
    }

    method Unlock(w: World)
      modifies this
      ensures View() == Enforcement.Unlock(old(View()), w)
    {
      Resume();
      ThawPermitted(w.order, w);
      PersistFreezeState();
    }

    method UnlockCommanded(w: World)
      modifies this
      ensures View() == Next(old(View()), Step(UnlockCommand, w))
    {
      Unlock(w);
      ReconcileLock(w);
    }

    method CreditCommanded(user: User, w: World)
      modifies this
      ensures View() == Next(old(View()), Step(CreditCommand(user), w))
    {
      if !(deviceLocked || offline || tamper) && user !in w.reasons {
        pending := pending - {user};
        if user in frozen {
          ThawUser(user);
          PersistFreezeState();
        }
      }
      ReconcileLock(w);
    }

    method Snooze(selfSet: bool, waited: nat, used: nat, w: World)
      requires subject.Some?
      modifies this`frozen, this`pending, this`log
      ensures View() == Enforcement.Snooze(old(View()), w, selfSet, waited, used)
    {
      var u := subject.value;
      var ownRules := !tamper && !offline && !deviceLocked && u in w.reasons;
      if SnoozeCheck(selfSet, ownRules, waited, used) {
        ThawUser(u);
        pending := pending - {u};
      }
    }

    method SnoozeFromLock(selfSet: bool, waited: nat, used: nat, w: World)
      modifies this
      ensures View() == Next(old(View()), Step(SnoozeRequest(selfSet, waited, used), w))
    {
      if subject.None? {
        return;
      }
      Snooze(selfSet, waited, used, w);
      ReconcileLock(w);
    }

    method CodeFromLock(ok: bool, w: World)
      modifies this
      ensures View() == Next(old(View()), Step(CodeRequest(ok), w))
    {
      if subject.None? {
        return;
      }
      if ok {
        LocalRecovery(w);
      }
      ReconcileLock(w);
    }

    method OnSeatChanged(w: World)
      modifies this
      ensures View() == Next(old(View()), Step(SeatChange, w))
    {
      if w.onScreen.Some? {
        var u := w.onScreen.value;
        if u in policies && u !in frozen && u !in pending && u !in w.overridden {
          if DeviceLockEffective(w.now) {
            StopUser(u, w);
          } else if u in w.reasons {
            ScreenTimeLockout(u, w);
          }
        }
      }
      ReconcileLock(w);
    }

    /** At start-up: whom the kernel still has frozen is adopted, or thawed if they have no rules here. */
    method AdoptFrozen(kernel: set<User>, w: World)
      modifies this
      ensures View() == Adopt(old(View()), kernel, w.order)
    {
      ghost var start := View();
      var users := policies;
      for i := 0 to |w.order|
        invariant View() == Adopt(start, kernel, w.order[..i]) && policies == users
      {
        assert w.order[..i + 1][..i] == w.order[..i];
        var u := w.order[i];
        if u in kernel {
          if u in policies {
            frozen := frozen + {u};
          } else {
            log := log + [Thaw(u)];
          }
        }
      }
      assert w.order[..|w.order|] == w.order;
    }

    method FreeEveryone(users: seq<User>)
      modifies this`log
      ensures View() == Freed(old(View()), users)
    {
      for i := 0 to |users|
        invariant View() == Freed(old(View()), users[..i])
      {
        assert users[..i + 1][..i] == users[..i];
        log := log + [Thaw(users[i])];
      }
      assert users[..|users|] == users;
    }

    method Retire(w: World)
      modifies this
      ensures View() == Next(old(View()), Step(Retirement, w))
    {
      if retired {
        return;
      }
      FreeEveryone(w.order);
      ForgetEveryone();
      ReleaseLock();
      PersistFreezeState();
    }

    method ForgetEveryone()
      modifies this
      ensures View() == Forgotten(old(View()))
    {
      ClearDeviceStops();
      retired, frozen, pending, policies := true, {}, map[], {};
    }
  }

  /** A crash or a reboot: a new agent takes over from what the old one left on disk and in the kernel. */
  method StartAgain(left: Agent, rebooted: bool, policies: set<User>, w: World) returns (agent: Agent)
    requires !left.retired
    ensures fresh(agent) && agent.View() == Next(left.View(), Step(Restarted(rebooted, policies), w))
  {
    agent := new Agent(left.disk, left.lockedOnDisk, left.retired, left.log, w.now, rebooted, policies);
    assert agent.View() == Loaded(left.View(), w.now, rebooted, policies);
    agent.AdoptFrozen(Kernel(agent.log), w);
    agent.ReconcileLock(w);
  }
}
