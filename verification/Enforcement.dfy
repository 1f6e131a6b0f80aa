/**
 The enforcement state machine as functions on a state: who is stopped, who is counting down to a
 stop, the whole-device stops, the lock, and the copy of these on disk. One function per step.
 */
module Enforcement {
  import opened Options
  import opened Host

  const FREEZE_GRACE := 60
  const SNOOZES_PER_DAY := 3
  const SNOOZE_WAIT_SECS := 60

  /** The freeze-state file. */
  datatype Disk = Disk(stopped: set<User>, shown: Option<User>, tamper: bool)

  /** What stands over everyone: who has rules here, the whole-device stops, who was at the seat last tick. */
  datatype Orders = Orders(
    policies: set<User>,
    deviceLocked: bool,
    lockedOnDisk: bool,         // the device-lock file
    graceUntil: Option<int>,
    offline: bool,
    tamper: bool,
    prevActive: Option<set<User>>,
    retired: bool)

  datatype State = State(
    orders: Orders,
    frozen: set<User>,
    pending: map<User, int>,
    subject: Option<User>,
    disk: Disk,
    log: seq<Act>)

  /** All that one step finds outside the agent. */
  datatype World = World(
    now: int,                   // the monotonic clock
    order: seq<User>,           // everyone, in the order the agent's tables are walked
    loggedIn: set<User>,
    graphical: set<User>,       // have a desktop, on screen or not
    desktop: set<User>,         // have a session on the seat's screen
    front: set<User>,           // are the one on screen when the agent comes to stop them
    onScreen: Option<User>,     // who is, when the lock is reconciled
    onScreenAfter: Option<User>,// who is, once no lock is left up
    shows: set<User>,           // a lock can be shown for them when they are stopped
    showsAfter: bool,           // and for whoever is found on screen then
    holds: bool,                // the lock already up can be kept
    passing: Option<User>,      // whose session the lock finds on its screen meanwhile
    reasons: set<User>,         // their rules stop them now
    overridden: set<User>,      // an override holds their rules off
    clockRules: set<User>,      // have a bedtime or allowed hours
    active: set<User>,          // are at the seat
    announced: set<User>,       // their stop was announced just now
    windDown: map<User, nat>,   // what their bracket gets to save their work
    marker: bool,               // `ost unlock` was run since
    offlineEngaged: bool,       // the offline lockdown applies: too long without the server, a network, a way back
    confirmed: bool)            // an evasion attempt was confirmed

  // ---- Bookkeeping ----

  function Did(s: State, a: Act): State {
    s.(log := s.log + [a])
  }

  function Persisted(s: State): State {
    s.(disk := Disk(s.frozen + s.pending.Keys, s.subject, s.orders.tamper))
  }

  function Thawed(s: State, u: User): State {
    Did(s, Thaw(u)).(frozen := s.frozen - {u})
  }

  function Disarmed(s: State, u: User): State {
    s.(pending := s.pending - {u})
  }

  /**
   A lock was asked for in front of `u`. One already up for someone else turns to `u` either way; one
   that was not up and cannot be shown is taken down again.
   */
  function Presented(s: State, u: User, ok: bool): State {
    if ok || s.subject.Some? then Did(s, Present(u, ok)).(subject := Some(u))
    else Did(Did(s, Present(u, false)), Release(u))
  }

  function Released(s: State): State {
    if s.subject.Some? then Did(s, Release(s.subject.value)).(subject := None) else s
  }

  /** A whole-device stop in force at `now`: a pause once its window closed, or one of the lockdowns. */
  predicate Effective(s: State, now: int) {
    || (s.orders.deviceLocked && (s.orders.graceUntil.None? || now >= s.orders.graceUntil.value))
    || s.orders.offline
    || s.orders.tamper
  }

  // ---- Stopping ----

  function Froze(s: State, u: User, inFront: bool): State {
    Persisted(Did(s, Freeze(u, inFront)).(frozen := s.frozen + {u}))
  }

  function StopUser(s: State, w: World, u: User): State {
    if u !in w.loggedIn then s
    else if u !in w.front && s.subject != Some(u) then Froze(s, u, false)
    else if u in w.shows then Froze(Presented(s, u, true), u, true)
    else Presented(s, u, false)
  }

  function StopAll(s: State, w: World, users: seq<User>): State {
    if users == [] then s
    else
      var before, u := StopAll(s, w, users[..|users| - 1]), users[|users| - 1];
      if u in s.orders.policies then StopUser(before, w, u) else before
  }

  function WindDown(w: World, u: User): nat {
    if u in w.windDown then w.windDown[u] else 0
  }

  /** How long `u` gets to save their work when their rules stop them. */
  function Grace(s: State, w: World, u: User): nat {
    if || u in w.announced
       || (s.orders.prevActive.Some? && u !in s.orders.prevActive.value)
       || (u in w.graphical && u !in w.front)
    then 0
    else if WindDown(w, u) > FREEZE_GRACE then WindDown(w, u) else FREEZE_GRACE
  }

  /** `u`'s rules stop them: a countdown, and the stop when it is over. */
  function Lockout(s: State, w: World, u: User): State {
    if u !in w.loggedIn then s
    else if u !in s.pending then
      if Grace(s, w, u) == 0 then StopUser(s, w, u)
      else s.(pending := s.pending[u := w.now + Grace(s, w, u)])
    else if s.pending[u] <= w.now then StopUser(Disarmed(s, u), w, u)
    else s
  }

  // ---- The lock follows the freeze set ----

  /** Whose lock it is once whoever stopped came on screen is in front of it. */
  function Faced(s: State, w: World, first: User): User {
    if w.onScreen.Some? && w.onScreen.value in s.frozen then w.onScreen.value else first
  }

  /** Whom the lock ends up in front of while it is being kept up. */
  function Kept(s: State, w: World, subject: User): User {
    if w.passing.Some? && w.passing.value in s.frozen then w.passing.value else subject
  }

  /** No lock is up: whoever is on screen and stopped gets one, or is let go. */
  function Covered(s: State, w: World): State {
    Persisted(
      if w.onScreenAfter.None? || w.onScreenAfter.value !in s.frozen then s
      else
        var u := w.onScreenAfter.value;
        if w.showsAfter then Presented(s, u, true) else Thawed(Presented(s, u, false), u))
  }

  /** The lock that is up stays: its person is still stopped, still here, and it can be shown. */
  predicate LockKept(s: State, w: World) {
    && s.subject.Some?
    && var u := Faced(s, w, s.subject.value);
       u in s.frozen && u in w.desktop && w.holds
  }

  /** The lock goes: its person was thawed, or has no session left, or it cannot be kept and they are let go. */
  function TakenDown(s: State, w: World): State
    requires s.subject.Some?
  {
    var u := Faced(s, w, s.subject.value);
    if u !in s.frozen then Released(s.(subject := Some(u)))
    else if u !in w.desktop then Did(s, HandOver(u)).(subject := None)
    else Released(Thawed(s.(subject := Some(Kept(s, w, u))), u))
  }

  function Reconciled(s: State, w: World): State {
    if s.subject.None? then Covered(s, w)
    else if LockKept(s, w) then Persisted(s.(subject := Some(Kept(s, w, Faced(s, w, s.subject.value)))))
    else Covered(TakenDown(s, w), w)
  }

  // ---- Recovery ----

  /** Every whole-device stop is over, on disk too. */
  function Cleared(o: Orders): Orders {
    o.(deviceLocked := false, lockedOnDisk := false, graceUntil := None, offline := false, tamper := false)
  }

  function ThawAll(s: State, users: seq<User>): State {
    if users == [] then s
    else
      var before, u := ThawAll(s, users[..|users| - 1]), users[|users| - 1];
      if u in before.frozen then Thawed(before, u) else before
  }

  /** A parent proved themselves at the machine. */
  function Recovered(s: State, w: World): State {
    Persisted(ThawAll(s.(orders := Cleared(s.orders)), w.order).(pending := map[]))
  }

  // ---- The tick ----

  predicate ShouldEvaluate(inGrace: bool, active: bool, frozen: bool, clockRule: bool) {
    !inGrace && (active || frozen || clockRule)
  }

  datatype FreezeAction = DoFreeze | DoUnfreeze | DoNothing

  function DecideFreeze(deviceLocked: bool, stop: bool, frozen: bool): FreezeAction {
    if deviceLocked then if frozen then DoNothing else DoFreeze
    else if stop && !frozen then DoFreeze
    else if !stop && frozen then DoUnfreeze
    else DoNothing
  }

  /** Whether the tick finds that `u`'s rules stop them. */
  predicate Stops(s: State, w: World, u: User) {
    && ShouldEvaluate(u in w.overridden, u in w.active || u in w.graphical, u in s.frozen, u in w.clockRules)
    && u in w.reasons
  }

  /** Frozen means frozen: what `u` started since is frozen too. */
  function Refrozen(s: State, w: World, u: User): State {
    if u in s.frozen && u in w.loggedIn then Did(s, Refreeze(u)) else s
  }

  function TickUser(s: State, w: World, u: User): State {
    var stop := Stops(s, w, u);
    var armed := if stop then Refrozen(s, w, u) else Disarmed(Refrozen(s, w, u), u);
    match DecideFreeze(Effective(s, w.now), stop, u in s.frozen)
    case DoFreeze => if Effective(s, w.now) then StopUser(armed, w, u) else Lockout(armed, w, u)
    case DoUnfreeze => Thawed(armed, u)
    case DoNothing => armed
  }

  function TickAll(s: State, w: World, users: seq<User>): State {
    if users == [] then s
    else
      var before, u := TickAll(s, w, users[..|users| - 1]), users[|users| - 1];
      if u in s.orders.policies then TickUser(before, w, u) else before
  }

  /** The whole-device stops as the tick finds them. */
  function Engaged(s: State, w: World): State {
    var back := if w.marker then Recovered(s, w) else s;
    back.(orders := back.orders.(offline := w.offlineEngaged, tamper := back.orders.tamper || w.confirmed))
  }

  // ---- Commands ----

  /** The pause itself, before anyone is stopped by it. */
  function Paused(s: State, w: World, grace: nat): State {
    var until := if grace > 0 then Some(w.now + grace) else None;
    s.(orders := s.orders.(deviceLocked := true, lockedOnDisk := true, graceUntil := until))
  }

  function Lock(s: State, w: World, grace: nat): State {
    Persisted(if grace == 0 then StopAll(Paused(s, w, 0), w, w.order) else Paused(s, w, grace))
  }

  function ThawAllowed(s: State, w: World, users: seq<User>): State {
    if users == [] then s
    else
      var before, u := ThawAllowed(s, w, users[..|users| - 1]), users[|users| - 1];
      if u in before.frozen && u !in w.reasons then Thawed(before, u) else before
  }

  /** A Resume ends the pause and a tamper lockdown, and every countdown. */
  function Resumed(s: State): State {
    var lifted := s.orders.(deviceLocked := false, lockedOnDisk := false, graceUntil := None, tamper := false);
    Persisted(s.(orders := lifted, pending := map[]))
  }

  function Unlock(s: State, w: World): State {
    Persisted(ThawAllowed(Resumed(s), w, w.order))
  }

  /** Time was given to `u`: back at once if that lets them. */
  function Credit(s: State, w: World, u: User): State {
    if s.orders.deviceLocked || s.orders.offline || s.orders.tamper || u in w.reasons then s
    else if u !in s.frozen then Disarmed(s, u)
    else Persisted(Thawed(Disarmed(s, u), u))
  }

  // ---- The lock's requests ----

  function SnoozeCheck(selfSet: bool, ownRules: bool, waited: nat, used: nat): bool {
    selfSet && ownRules && used < SNOOZES_PER_DAY && waited >= SNOOZE_WAIT_SECS
  }

  /** What stops `u` is their own rules: no whole-device stop, not even one still in its window. */
  predicate OwnRules(s: State, w: World, u: User) {
    !s.orders.tamper && !s.orders.offline && !s.orders.deviceLocked && u in w.reasons
  }

  function Snooze(s: State, w: World, selfSet: bool, waited: nat, used: nat): State
    requires s.subject.Some?
  {
    var u := s.subject.value;
    if SnoozeCheck(selfSet, OwnRules(s, w, u), waited, used) then Disarmed(Thawed(s, u), u) else s
  }

  // ---- The screen, the policy, the process ----

  function SeatChanged(s: State, w: World): State {
    if w.onScreen.None? then s
    else
      var u := w.onScreen.value;
      if u !in s.orders.policies || u in s.frozen || u in s.pending || u in w.overridden then s
      else if Effective(s, w.now) then StopUser(s, w, u)
      else if u in w.reasons then Lockout(s, w, u)
      else s
  }

  function Adopt(s: State, kernel: set<User>, users: seq<User>): State {
    if users == [] then s
    else
      var before, u := Adopt(s, kernel, users[..|users| - 1]), users[|users| - 1];
      if u !in kernel then before
      else if u in s.orders.policies then before.(frozen := before.frozen + {u})
      else Did(before, Thaw(u))
  }

  /** What a new process makes of the disk, before it looks at the kernel. */
  function Loaded(s: State, now: int, rebooted: bool, policies: set<User>): State {
    State(
      Orders(policies, s.orders.lockedOnDisk, s.orders.lockedOnDisk, None, false, s.disk.tamper, None, s.orders.retired),
      {}, map u | u in s.disk.stopped :: now,
      if rebooted then None else s.disk.shown,
      s.disk,
      if rebooted then s.log + [Reboot] else s.log)
  }

  function Restart(s: State, w: World, rebooted: bool, policies: set<User>): State {
    var loaded := Loaded(s, w.now, rebooted, policies);
    Adopt(loaded, Kernel(loaded.log), w.order)
  }

  function Freed(s: State, users: seq<User>): State {
    if users == [] then s
    else Did(Freed(s, users[..|users| - 1]), Thaw(users[|users| - 1]))
  }

  /** Nobody has rules here any more. */
  function Forgotten(s: State): State {
    s.(orders := Cleared(s.orders).(policies := {}, retired := true), frozen := {}, pending := map[])
  }

  function Retire(s: State, w: World): State {
    Persisted(Released(Forgotten(Freed(s, w.order))))
  }

  // ---- Runs ----

  datatype Event =
    | Ticked
    | LockCommand(grace: nat)
    | UnlockCommand
    | CreditCommand(user: User)
    | OtherCommand
    | SnoozeRequest(selfSet: bool, waited: nat, used: nat)
    | CodeRequest(ok: bool)
    | AskRequest
    | SeatChange
    | PolicyPull(policies: set<User>)
    | Restarted(rebooted: bool, policies: set<User>)
    | Retirement
    | Left(user: User)

  datatype Step = Step(event: Event, world: World)

  /** A retired agent does nothing more on its own; a request comes from a lock that is up. */
  predicate Ignored(s: State, e: Event) {
    match e
    case Ticked => s.orders.retired
    case Restarted(_, _) => s.orders.retired
    case Retirement => s.orders.retired
    case SnoozeRequest(_, _, _) => s.subject.None?
    case CodeRequest(_) => s.subject.None?
    case AskRequest => s.subject.None?
    case _ => false
  }

  /** What a step does before the lock follows. */
  function Acted(s: State, e: Event, w: World): State
    requires !Ignored(s, e)
  {
    match e
    case Ticked => TickAll(Engaged(s, w), w, w.order)
    case LockCommand(grace) => Lock(s, w, grace)
    case UnlockCommand => Unlock(s, w)
    case CreditCommand(u) => Credit(s, w, u)
    case OtherCommand => s
    case SnoozeRequest(selfSet, waited, used) => Snooze(s, w, selfSet, waited, used)
    case CodeRequest(ok) => if ok then Recovered(s, w) else s
    case AskRequest => s
    case SeatChange => SeatChanged(s, w)
    case PolicyPull(policies) => s.(orders := s.orders.(policies := policies))
    case Restarted(rebooted, policies) => Restart(s, w, rebooted, policies)
    case Retirement => Retire(s, w)
    case Left(u) => Did(s, Gone(u))
  }

  /** After every tick, command, lock request, VT change and start-up the lock is reconciled. */
  predicate LockFollows(e: Event) {
    !e.PolicyPull? && !e.Retirement? && !e.Left?
  }

  function Seen(s: State, w: World): State {
    Persisted(s.(orders := s.orders.(prevActive := Some(w.active))))
  }

  function Next(s: State, step: Step): State {
    var w := step.world;
    if Ignored(s, step.event) then s
    else
      var acted := Acted(s, step.event, w);
      var settled := if LockFollows(step.event) then Reconciled(acted, w) else acted;
      if step.event.Ticked? then Seen(settled, w) else settled
  }

  function Run(s: State, steps: seq<Step>): State {
    if steps == [] then s else Next(Run(s, steps[..|steps| - 1]), steps[|steps| - 1])
  }

  /** A walk over everyone meets each person once. */
  predicate WalksAll(w: World, s: State) {
    && (forall i, j :: 0 <= i < j < |w.order| ==> w.order[i] != w.order[j])
    && (forall u <- s.orders.policies + s.frozen + s.pending.Keys + Kernel(s.log) :: u in w.order)
  }

  /** Every step of the run walks everyone there is. */
  ghost predicate Walked(s: State, steps: seq<Step>) {
    steps != [] ==>
      var before := steps[..|steps| - 1];
      Walked(s, before) && WalksAll(steps[|steps| - 1].world, Run(s, before))
  }

  /** A process that has never run here. */
  const BLANK := State(Orders({}, false, false, None, false, false, None, false), {}, map[], None, Disk({}, None, false), [])

  /** Nobody here, and nothing going on. */
  const QUIET := World(0, [], {}, {}, {}, {}, None, None, {}, true, true, None, {}, {}, {}, {}, {}, map[], false, false, false)
}
