/**
 Who gets free: the other half of a stop. Everyone whose rules let them go is let go, by the next
 tick, a Resume, time given, or a code; and whoever logs in into a stop meets the lock.
 */
module Freedom {
  import opened Options
  import opened Host
  import opened Enforcement
  import opened LockProtocol
  import opened Walks

  /**
   With no whole-device stop, a tick keeps someone stopped exactly while their rules stop them, no override
   holds these off and a lock can be shown; a countdown ends with its reason.
   */
  lemma TickFreesIff(s: State, w: World, u: User)
    requires !s.orders.retired && !w.marker && WalksAll(w, s) && u in s.orders.policies
    requires !Effective(Engaged(s, w), w.now) && u in s.frozen
    ensures var (t, acted) := (Next(s, Step(Ticked, w)), Acted(s, Ticked, w));
      && (u in t.frozen <==>
            u in w.reasons && u !in w.overridden && !LockFails(acted, w, u) && !ScreenFails(acted, w, u))
      && (u !in w.reasons || u in w.overridden ==> u !in t.pending)
  {
    assert u in w.order;
    TickAllAt(Engaged(s, w), w, w.order, u);
    StopLeavesOthers(WhenReached(Engaged(s, w), w, w.order, u), w, u, u);
    ReconcileLetsGoIff(Acted(s, Ticked, w), w, u);
  }

  /** Someone not stopped whose rules let them go is not stopped by a tick, and has no countdown after it. */
  lemma TickLeavesTheFreeFree(s: State, w: World, u: User)
    requires !s.orders.retired && !w.marker && WalksAll(w, s) && u in s.orders.policies
    requires !Effective(Engaged(s, w), w.now) && u !in s.frozen
    requires u !in w.reasons || u in w.overridden || (u !in w.active && u !in w.graphical && u !in w.clockRules)
    ensures var t := Next(s, Step(Ticked, w)); u !in t.frozen && u !in t.pending
  {
    assert u in w.order;
    TickAllAt(Engaged(s, w), w, w.order, u);
    ReconcileLetsGoIff(Acted(s, Ticked, w), w, u);
  }

  lemma {:induction false} ThawAllowedIff(s: State, w: World, users: seq<User>, u: User)
    ensures var t := ThawAllowed(s, w, users);
      && (u in t.frozen <==> u in s.frozen && !(u in users && u !in w.reasons))
      && t.orders == s.orders && t.pending == s.pending
  {
    if users == [] {
    } else {
      var rest, v := users[..|users| - 1], users[|users| - 1];
      ThawAllowedIff(s, w, rest, u);
      ThawAllowedIff(s, w, rest, v);
      assert u in users <==> u in rest || u == v;
    }
  }

  /** A Resume lets go exactly those whose own rules let them, ends every countdown, the pause and a tamper lockdown, and nothing else. */
  lemma ResumeFreesIff(s: State, w: World, u: User)
    requires WalksAll(w, s)
    ensures var t := Unlock(s, w);
      && (u in t.frozen <==> u in s.frozen && u in w.reasons)
      && t.pending == map[] && !t.orders.deviceLocked && !t.orders.tamper && !t.orders.lockedOnDisk
      && t.orders.offline == s.orders.offline && (Effective(t, w.now) <==> s.orders.offline)
  {
    ThawAllowedIff(Resumed(s), w, w.order, u);
  }

  /**
   Time given lets its person go, and takes the lock down from in front of them, exactly when no
   whole-device stop, not even one in its window, nor their rules hold them, or no lock can be shown
   for them any more. Nobody else is let go but whom no lock can be shown for.
   */
  lemma CreditFreesIff(s: State, w: World, u: User, v: User)
    requires Sound(s, false) && WalksAll(w, s) && u in s.frozen && v != u
    ensures var (step, held) := (Step(CreditCommand(u), w), s.orders.deviceLocked || s.orders.offline || s.orders.tamper);
      var t := Next(s, step);
      && (u !in t.frozen <==> (!held && u !in w.reasons) || LockCannotShow(s, step, u))
      && (u !in t.frozen ==> t.subject != Some(u))
      && (v in t.frozen <==> v in s.frozen && !LockCannotShow(s, step, v))
  {
    var acted := Acted(s, CreditCommand(u), w);
    ReconcileLetsGoIff(acted, w, u);
    ReconcileLetsGoIff(acted, w, v);
    NextKeepsSound(s, Step(CreditCommand(u), w), false);
  }

  /** So does a snooze, for someone who set their own limits and is stopped by those, after a minute's wait, three times a day. */
  lemma SnoozeFreesIff(s: State, w: World, selfSet: bool, waited: nat, used: nat, v: User)
    requires Sound(s, false) && WalksAll(w, s) && s.subject.Some? && v != s.subject.value
    ensures var (step, u) := (Step(SnoozeRequest(selfSet, waited, used), w), s.subject.value);
      var held := s.orders.deviceLocked || s.orders.offline || s.orders.tamper;
      var t := Next(s, step);
      && (u !in t.frozen <==>
            (selfSet && used < 3 && waited >= 60 && u in w.reasons && !held) || LockCannotShow(s, step, u))
      && (u !in t.frozen ==> t.subject != Some(u))
      && (v in t.frozen <==> v in s.frozen && !LockCannotShow(s, step, v))
  {
    var e := SnoozeRequest(selfSet, waited, used);
    ReconcileLetsGoIff(Acted(s, e, w), w, s.subject.value);
    ReconcileLetsGoIff(Acted(s, e, w), w, v);
    NextKeepsSound(s, Step(e, w), false);
  }

  /** A code accepted at the lock, or `ost unlock`, lets everyone go and leaves no whole-device stop, now or after a restart. */
  lemma RecoveryFreesEveryone(s: State, w: World, now: int)
    requires Sound(s, false) && WalksAll(w, s)
    ensures var t := Recovered(s, w);
      && t.frozen == {} && t.pending == map[] && !Effective(t, now)
      && t.disk.stopped == {} && !t.disk.tamper && !t.orders.lockedOnDisk
      && Kernel(t.log) == {}
  {
    RecoveryKeepsSafe(s, w, false);
  }

  /** Someone whose session comes on screen into a stop, with no countdown of their own running, is stopped at once behind the lock if they only just logged in. */
  lemma LoginIntoAStopMeetsTheLock(s: State, w: World, u: User)
    requires w.onScreen == Some(u) && u in s.orders.policies && u !in s.frozen && u !in s.pending && u !in w.overridden
    requires u in w.loggedIn && u in w.shows
    requires Effective(s, w.now) || (u in w.reasons && s.orders.prevActive.Some? && u !in s.orders.prevActive.value)
    ensures u in SeatChanged(s, w).frozen
    ensures u in w.desktop && w.holds && w.passing.None? && (s.subject.Some? || u in w.front) ==>
      var t := Next(s, Step(SeatChange, w)); u in t.frozen && t.subject == Some(u)
  {
    StopLeavesOthers(s, w, u, u);
  }
}
