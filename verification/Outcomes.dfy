/**
 What each step comes to, case by case, in terms of what it found: who was announced, on screen,
 logged in, over their rules.
 */
module Outcomes {
  import opened Options
  import opened Host
  import opened Enforcement
  import opened LockProtocol
  import opened Walks
  import opened Grace
  import opened Freedom

  // ---- The lock, once it has followed ----

  /** `v` is whose lock it is: the stopped person on screen's, or else still the one's it was put up for. */
  predicate LockIsFor(s: State, w: World, v: User) {
    && s.subject.Some?
    && (if w.onScreen.Some? && w.onScreen.value in s.frozen then w.onScreen == Some(v) else s.subject == Some(v))
  }

  /** Nobody who is stopped is on screen once no lock is left up. */
  predicate ScreenIsFree(s: State, w: World) {
    w.onScreenAfter.None? || w.onScreenAfter.value !in s.frozen
  }

  /** A lock whose person was thawed comes down, back to their session. */
  lemma LockReleased(s: State, w: World, v: User)
    requires LockIsFor(s, w, v) && v !in s.frozen
    ensures var t := Reconciled(s, w);
      && s.log + [Release(v)] <= t.log
      && (ScreenIsFree(s, w) ==> t.subject == None && t.frozen == s.frozen && t.log == s.log + [Release(v)])
  {
  }

  /** A lock whose stopped person has no session left makes way for the login screen; they stay stopped. */
  lemma LockHandedOver(s: State, w: World, v: User)
    requires LockIsFor(s, w, v) && v in s.frozen && v !in w.desktop
    ensures var t := Reconciled(s, w);
      && s.log + [HandOver(v)] <= t.log
      && (w.onScreenAfter != Some(v) ==> v in t.frozen && t.subject != Some(v))
      && (ScreenIsFree(s, w) ==> t.subject == None && t.frozen == s.frozen && t.log == s.log + [HandOver(v)])
  {
  }

  /** A lock that can be kept stays, in front of its person or of who else is stopped on its screen, and nothing else happens. */
  lemma LockStays(s: State, w: World, v: User)
    requires LockIsFor(s, w, v) && v in s.frozen && v in w.desktop && w.holds
    ensures var t := Reconciled(s, w);
      && t.subject == (if w.passing.Some? && w.passing.value in s.frozen then w.passing else Some(v))
      && t.frozen == s.frozen && t.pending == s.pending && t.log == s.log
  {
  }

  /** One that cannot be kept: its person is thawed, then it comes down from in front of whoever it had turned to. */
  lemma LockLost(s: State, w: World, v: User)
    requires LockIsFor(s, w, v) && v in s.frozen && v in w.desktop && !w.holds
    ensures var (t, who) := (Reconciled(s, w), if w.passing.Some? && w.passing.value in s.frozen then w.passing.value else v);
      && s.log + [Thaw(v)] + [Release(who)] <= t.log && v !in t.frozen
      && (ScreenIsFree(s, w) || w.onScreenAfter == Some(v) ==>
            t.subject == None && t.frozen == s.frozen - {v} && t.log == s.log + [Thaw(v)] + [Release(who)])
  {
    var who := if w.passing.Some? && w.passing.value in s.frozen then w.passing.value else v;
    var down := TakenDown(s, w);
    assert down.log == s.log + [Thaw(v)] + [Release(who)] && down.frozen == s.frozen - {v} && down.subject == None;
    assert Reconciled(s, w) == Covered(down, w);
  }

  /** With no lock up, the stopped person on screen gets one, or is let go. */
  lemma ScreenCovered(s: State, w: World)
    requires s.subject.None?
    ensures var t := Reconciled(s, w);
      if ScreenIsFree(s, w) then t.subject == None && t.frozen == s.frozen && t.log == s.log
      else
        var u := w.onScreenAfter.value;
        if w.showsAfter then t.subject == Some(u) && t.frozen == s.frozen && t.log == s.log + [Present(u, true)]
        else t.subject == None && t.frozen == s.frozen - {u}
             && t.log == s.log + [Present(u, false)] + [Release(u)] + [Thaw(u)]
  {
  }

  /** However a lock came to be left up, it is in front of someone stopped whose session is there. */
  lemma LockHasSomeoneBehindIt(s: State, w: World)
    ensures var t := Reconciled(s, w);
      t.subject.Some? ==>
        && t.subject.value in t.frozen
        && (t.subject.value in w.desktop || t.subject == w.passing || t.subject == w.onScreenAfter)
  {
  }

  // ---- The first tick, or VT change, of a stop ----

  /** The rules of `u`, who is logged in, have just begun to stop them. */
  predicate Begins(s: State, w: World, u: User) {
    && u in s.orders.policies && u !in s.frozen && u !in s.pending
    && u in w.loggedIn && u in w.reasons && u !in w.overridden
  }

  /**
   The tick that first finds a stop, with no whole-device stop: whoever has nothing to save is stopped,
   if a lock can be shown where they are on screen; everyone else counts down.
   */
  lemma FirstTickOfAStop(s: State, w: World, u: User)
    requires !s.orders.retired && !w.marker && WalksAll(w, s) && !Effective(Engaged(s, w), w.now)
    requires Begins(s, w, u) && (u in w.active || u in w.graphical || u in w.clockRules)
    ensures var t := Next(s, Step(Ticked, w));
      if NothingToSave(s, w, u) then
        && u !in t.pending
        && (u in t.frozen <==> !StopCannotShow(s, w, u) && !LockCannotShow(s, Step(Ticked, w), u))
      else u !in t.frozen && u in t.pending && t.pending[u] == SaveUntil(w, u)
    ensures NothingToSave(s, w, u) && u in w.shows && w.holds && w.showsAfter ==> u in Next(s, Step(Ticked, w)).frozen
  {
    TickAllAt(Engaged(s, w), w, w.order, u);
    var x := WhenReached(Engaged(s, w), w, w.order, u);
    StopLeavesOthers(x, w, u, u);
    ReconcileLetsGoIff(Acted(s, Ticked, w), w, u);
  }

  /** A tick stops nobody who has no rules here or is not logged in, and of their countdown ends only one whose reason has gone. */
  lemma TickLeavesTheAway(s: State, w: World, u: User)
    requires !s.orders.retired && !w.marker && WalksAll(w, s) && u !in s.frozen
    requires u !in s.orders.policies || u !in w.loggedIn
    ensures var t := Next(s, Step(Ticked, w));
      var over := u in w.reasons && u !in w.overridden && (u in w.active || u in w.graphical || u in w.clockRules);
      && u !in t.frozen
      && (u in t.pending <==> u in s.pending && (u in s.orders.policies ==> over))
      && (u in t.pending ==> t.pending[u] == s.pending[u])
  {
    TickAllAt(Engaged(s, w), w, w.order, u);
    ReconcileLetsGoIff(Acted(s, Ticked, w), w, u);
  }

  /** Coming to someone free, whom neither a whole-device stop nor their rules stop, it orders nothing, and only ends their countdown. */
  lemma TickSparesTheFree(s: State, w: World, u: User)
    requires u !in s.frozen && !Effective(s, w.now)
    requires u !in w.reasons || u in w.overridden || (u !in w.active && u !in w.graphical && u !in w.clockRules)
    ensures TickUser(s, w, u) == s.(pending := s.pending - {u})
  {
  }

  /** So does the VT change that finds them on screen. */
  lemma FirstSightOfAStop(s: State, w: World, u: User)
    requires w.onScreen == Some(u) && !Effective(s, w.now) && Begins(s, w, u)
    ensures var (t, step) := (Next(s, Step(SeatChange, w)), Step(SeatChange, w));
      if NothingToSave(s, w, u) then
        && u !in t.pending
        && (u in t.frozen <==>
              (u in w.front || s.subject == Some(u) ==> u in w.shows) && !LockCannotShow(s, step, u))
      else u !in t.frozen && u in t.pending && t.pending[u] == SaveUntil(w, u)
  {
    StopLeavesOthers(s, w, u, u);
    ReconcileLetsGoIff(Acted(s, SeatChange, w), w, u);
  }

  /** A VT change stops at once whoever it finds on screen under a whole-device stop, countdown or override or not counting. */
  lemma SeatUnderDeviceStop(s: State, w: World, u: User)
    requires w.onScreen == Some(u) && Effective(s, w.now) && u in s.orders.policies
    requires u !in s.frozen && u !in s.pending && u !in w.overridden && u in w.loggedIn
    ensures var (t, step) := (Next(s, Step(SeatChange, w)), Step(SeatChange, w));
      u in t.frozen <==> (u in w.front || s.subject == Some(u) ==> u in w.shows) && !LockCannotShow(s, step, u)
  {
    StopLeavesOthers(s, w, u, u);
    ReconcileLetsGoIff(Acted(s, SeatChange, w), w, u);
  }

  /** It leaves alone whoever is not on screen, has no rules here, counts down, has an override, or is let by their rules. */
  lemma SeatLeavesAlone(s: State, w: World, u: User)
    requires || w.onScreen != Some(u) || u !in s.orders.policies || u in s.pending || u in w.overridden
             || (!Effective(s, w.now) && u !in w.reasons)
    ensures var (t, step) := (Next(s, Step(SeatChange, w)), Step(SeatChange, w));
      && (u in t.frozen <==> u in s.frozen && !LockCannotShow(s, step, u))
      && (u in t.pending <==> u in s.pending) && (u in s.pending ==> t.pending[u] == s.pending[u])
  {
    SeatLeavesOthers(s, w, u);
    ReconcileLetsGoIff(Acted(s, SeatChange, w), w, u);
  }

  // ---- A parent at the machine ----

  /** Nobody is stopped, counting down or frozen, nothing is locked, and the disk says so. */
  ghost predicate AllFree(s: State) {
    && s.frozen == {} && s.pending == map[] && Kernel(s.log) == {} && s.subject == None
    && !s.orders.deviceLocked && !s.orders.lockedOnDisk && s.orders.graceUntil == None
    && !s.orders.offline && !s.orders.tamper
    && s.disk == Disk({}, None, false)
  }

  /** A tick sets the lockdowns as it found them, a tamper lockdown standing, and takes down who is at the seat; no other order changes. */
  lemma TickSetsOrders(s: State, w: World)
    requires !s.orders.retired && !w.marker && WalksAll(w, s)
    ensures Next(s, Step(Ticked, w)).orders ==
      s.orders.(offline := w.offlineEngaged, tamper := s.orders.tamper || w.confirmed, prevActive := Some(w.active))
  {
    TickOrders(s, w);
  }

  lemma NobodyToCover(s: State, w: World)
    requires s.frozen == {}
    ensures Reconciled(s, w).frozen == {} && Reconciled(s, w).subject == None && Reconciled(s, w).pending == s.pending
    ensures Reconciled(s, w).orders == s.orders
  {
  }

  /** A code accepted at the lock frees everyone, takes the lock down and ends every whole-device stop, on disk too. */
  lemma AcceptedCodeFreesEveryone(s: State, w: World)
    requires Sound(s, false) && WalksAll(w, s) && s.subject.Some?
    ensures AllFree(Next(s, Step(CodeRequest(true), w)))
  {
    RecoveryKeepsSafe(s, w, false);
    NobodyToCover(Recovered(s, w), w);
    NextKeepsSound(s, Step(CodeRequest(true), w), false);
  }

  /** Nobody free is thawed when everyone is let go. */
  lemma {:induction false} RecoverySparesTheFree(s: State, users: seq<User>)
    requires forall u <- users :: u !in s.frozen
    ensures ThawAll(s, users) == s
  {
    if users == [] {
    } else {
      RecoverySparesTheFree(s, users[..|users| - 1]);
    }
  }

  /** A refused one, or one with no lock up, changes no order and no countdown, and lets go only whom no lock can be shown for. */
  lemma RefusedCodeFreesNobody(s: State, w: World, ok: bool, u: User)
    requires !ok || s.subject.None?
    ensures var (t, step) := (Next(s, Step(CodeRequest(ok), w)), Step(CodeRequest(ok), w));
      && t.orders == s.orders && t.pending == s.pending
      && (u in t.frozen <==> u in s.frozen && !LockCannotShow(s, step, u))
      && (s.subject.None? ==> t == s)
  {
    if !Ignored(s, CodeRequest(ok)) {
      ReconcileLetsGoIff(s, w, u);
      ReconcileKeepsOrders(s, w);
    }
  }

  /**
   After `ost unlock` the next tick ends every whole-device stop but one engaged in that very tick, and
   frees everyone whom neither that nor their own rules stop, with rules here or not.
   */
  lemma MarkedTickFrees(s: State, w: World, u: User)
    requires !s.orders.retired && w.marker && Sound(s, false) && WalksAll(w, s)
    ensures var (t, o) := (Next(s, Step(Ticked, w)), Next(s, Step(Ticked, w)).orders);
      && !o.deviceLocked && !o.lockedOnDisk && o.graceUntil == None
      && o.offline == w.offlineEngaged && o.tamper == w.confirmed && o.policies == s.orders.policies
      && (!w.offlineEngaged && !w.confirmed && (u !in s.orders.policies || u in w.overridden || u !in w.reasons) ==>
            u !in t.frozen && u !in t.pending && u !in Kernel(t.log))
  {
    RecoveryKeepsSafe(s, w, false);
    TickAllAt(Engaged(s, w), w, w.order, u);
    ReconcileLetsGoIff(Acted(s, Ticked, w), w, u);
    ReconcileKeepsOrders(Acted(s, Ticked, w), w);
    NextKeepsSound(s, Step(Ticked, w), false);
  }

  // ---- Commands ----

  /** A Resume: whoever their rules let go is free, everyone's countdown ends, and the pause and a tamper lockdown are over, on disk too. */
  lemma ResumeCommandFreesIff(s: State, w: World, u: User)
    requires Sound(s, false) && WalksAll(w, s)
    ensures var (t, step) := (Next(s, Step(UnlockCommand, w)), Step(UnlockCommand, w));
      && (u in t.frozen <==> u in s.frozen && u in w.reasons && !LockCannotShow(s, step, u))
      && (u !in t.frozen ==> t.subject != Some(u) && u !in Kernel(t.log))
      && t.pending == map[]
      && t.orders == s.orders.(deviceLocked := false, lockedOnDisk := false, graceUntil := None, tamper := false)
      && t.disk == Disk(t.frozen, t.subject, false)
  {
    ThawAllowedIff(Resumed(s), w, w.order, u);
    ReconcileLetsGoIff(Unlock(s, w), w, u);
    ReconcileKeepsOrders(Unlock(s, w), w);
    NextKeepsSound(s, Step(UnlockCommand, w), false);
  }

  /** Retirement frees everyone and leaves nobody with rules here, nor anything for a later start to find. */
  lemma RetirementFreesEveryone(s: State, w: World)
    requires Sound(s, false) && WalksAll(w, s) && !s.orders.retired
    ensures var t := Next(s, Step(Retirement, w));
      AllFree(t) && t.orders.retired && t.orders.policies == {}
  {
    RetireKeepsSafe(s, w, false);
  }

  /** A retired agent ticks, starts and retires no more; a request with no lock up is for nothing. */
  lemma NothingMore(s: State, w: World, rebooted: bool, policies: set<User>, selfSet: bool, waited: nat, used: nat, ok: bool)
    ensures s.orders.retired ==>
      && Next(s, Step(Ticked, w)) == s && Next(s, Step(Restarted(rebooted, policies), w)) == s
      && Next(s, Step(Retirement, w)) == s
    ensures s.subject.None? ==>
      && Next(s, Step(SnoozeRequest(selfSet, waited, used), w)) == s && Next(s, Step(CodeRequest(ok), w)) == s
      && Next(s, Step(AskRequest, w)) == s
  {
  }

  /** Time given ends a countdown, exactly when it would end a stop: no whole-device stop, and rules that let them go. */
  lemma CreditEndsCountdownIff(s: State, w: World, u: User, v: User)
    ensures var (t, held) :=
        (Next(s, Step(CreditCommand(u), w)), s.orders.deviceLocked || s.orders.offline || s.orders.tamper);
      && (v in t.pending <==> v in s.pending && !(v == u && !held && u !in w.reasons))
      && (v in t.pending ==> t.pending[v] == s.pending[v])
      && t.orders == s.orders
  {
    ReconcileLetsGoIff(Acted(s, CreditCommand(u), w), w, u);
    ReconcileKeepsOrders(Acted(s, CreditCommand(u), w), w);
  }

  /** Nothing is ordered of someone who was not stopped. */
  lemma CreditSparesTheFree(s: State, w: World, u: User)
    requires u !in s.frozen
    ensures var t := Acted(s, CreditCommand(u), w); t.log == s.log && t.frozen == s.frozen
  {
  }

  /** A snooze granted ends its person's countdown too; nobody else's. */
  lemma SnoozeEndsCountdownIff(s: State, w: World, selfSet: bool, waited: nat, used: nat, v: User)
    requires s.subject.Some?
    ensures var (t, u) := (Next(s, Step(SnoozeRequest(selfSet, waited, used), w)), s.subject.value);
      var granted := selfSet && used < 3 && waited >= 60 && u in w.reasons
                     && !s.orders.deviceLocked && !s.orders.offline && !s.orders.tamper;
      && (v in t.pending <==> v in s.pending && !(v == u && granted))
      && (v in t.pending ==> t.pending[v] == s.pending[v])
      && t.orders == s.orders
  {
    ReconcileLetsGoIff(Acted(s, SnoozeRequest(selfSet, waited, used), w), w, v);
    ReconcileKeepsOrders(Acted(s, SnoozeRequest(selfSet, waited, used), w), w);
  }

  /** A pause with a window stops nobody yet: it is in force, unless something else is, from the end of the window on. */
  lemma PauseWithWindow(s: State, w: World, grace: nat, u: User, at: int)
    requires grace > 0
    ensures var (t, step) := (Next(s, Step(LockCommand(grace), w)), Step(LockCommand(grace), w));
      && t.orders == s.orders.(deviceLocked := true, lockedOnDisk := true, graceUntil := Some(w.now + grace))
      && (Effective(t, at) <==> at >= w.now + grace || s.orders.offline || s.orders.tamper)
      && (u in t.frozen <==> u in s.frozen && !LockCannotShow(s, step, u)) && t.pending == s.pending
  {
    ReconcileLetsGoIff(Lock(s, w, grace), w, u);
    ReconcileKeepsOrders(Lock(s, w, grace), w);
  }

  lemma {:induction false} StopAllStopsOnly(s: State, w: World, users: seq<User>, u: User)
    ensures var t := StopAll(s, w, users);
      && (u in t.frozen ==> u in s.frozen || (u in users && u in s.orders.policies && u in w.loggedIn))
      && (u in users && u in s.orders.policies && u in w.loggedIn && u in w.shows ==> u in t.frozen)
  {
    if users == [] {
    } else {
      var rest, v := users[..|users| - 1], users[|users| - 1];
      StopAllStopsOnly(s, w, rest, u);
      StopLeavesOthers(StopAll(s, w, rest), w, v, u);
      assert u in users <==> u in rest || u == v;
    }
  }

  /** One without is in force at once, for good, and stops everyone with rules here who is logged in and can be shown a lock. */
  lemma PauseAtOnce(s: State, w: World, u: User, at: int)
    requires WalksAll(w, s)
    ensures var (t, step) := (Next(s, Step(LockCommand(0), w)), Step(LockCommand(0), w));
      && t.orders == s.orders.(deviceLocked := true, lockedOnDisk := true, graceUntil := None)
      && Effective(t, at) && t.pending == s.pending
      && (u in s.frozen && !LockCannotShow(s, step, u) ==> u in t.frozen)
      && (u in t.frozen ==> u in s.frozen || (u in s.orders.policies && u in w.loggedIn))
      && (u in s.orders.policies && u in w.loggedIn && u in w.shows && !LockCannotShow(s, step, u) ==> u in t.frozen)
  {
    StopAllLeaves(Paused(s, w, 0), w, w.order);
    StopAllStopsOnly(Paused(s, w, 0), w, w.order, u);
    ReconcileLetsGoIff(Lock(s, w, 0), w, u);
    ReconcileKeepsOrders(Lock(s, w, 0), w);
  }

  /** A policy pull changes who has rules here, and nothing else: nobody is stopped or let go by it. */
  lemma PullChangesRulesOnly(s: State, w: World, policies: set<User>)
    ensures Next(s, Step(PolicyPull(policies), w)) == s.(orders := s.orders.(policies := policies))
  {
  }

  /** A log-out, or a thaw by somebody else, undoes a freeze in the kernel; the agent learns nothing of it. */
  lemma GoneIsUndone(s: State, w: World, u: User)
    ensures var t := Next(s, Step(Left(u), w));
      && t == s.(log := t.log) && Kernel(t.log) == Kernel(s.log) - {u} && Lost(t.log) == Lost(s.log) + {u}
  {
    KernelOfLast(s.log, Gone(u));
  }

  // ---- A new process ----

  /**
   A new process holds to the pause and the tamper lockdown it finds on disk, with no window; forgets the
   offline lockdown and who was at the seat; takes over the lock of the same boot; and takes everyone it
   finds stopped on disk for due.
   */
  lemma StartReadsTheDisk(s: State, w: World, rebooted: bool, policies: set<User>)
    requires Safe(s, false) && WalksAll(w, s)
    ensures var t := Restart(s, w, rebooted, policies);
      && t.orders == Orders(policies, s.orders.lockedOnDisk, s.orders.lockedOnDisk, None, false, s.disk.tamper, None,
                            s.orders.retired)
      && t.pending == (map u | u in s.disk.stopped :: w.now)
      && t.subject == (if rebooted then None else s.disk.shown)
      && t.frozen == (if rebooted then {} else Kernel(s.log) * policies)
  {
    RestartKeepsSafe(s, w, rebooted, policies, false);
    var loaded := Loaded(s, w.now, rebooted, policies);
    AdoptMeans(loaded, Kernel(loaded.log), w.order, false);
  }
}
