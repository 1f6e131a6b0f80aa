/**
 Notifications on their way from the agent to one person's companion: a bounded ring,
 published in that person's status file, read by a companion that polls and keeps a
 high-water mark.
 */
module Notifications {
  import opened Options

  const NOTIFY_QUEUE_CAP := 16

  /** `user` is `None` for everyone on this computer. */
  datatype Note = Note(id: nat, user: Option<string>, text: string)

  predicate IsFor(n: Note, me: string) {
    n.user.None? || n.user.value == me
  }

  // ---- The agent ----

  /** The newest `NOTIFY_QUEUE_CAP` notes. */
  function Newest(ring: seq<Note>): seq<Note> {
    if |ring| > NOTIFY_QUEUE_CAP then ring[|ring| - NOTIFY_QUEUE_CAP..] else ring
  }

  class Publisher {
    var notifications: seq<Note>
    var notifSeq: nat

    /** Ids go on rising across restarts: they start at the milliseconds since the epoch. */
    constructor (epochMs: nat)
      ensures notifications == [] && notifSeq == epochMs
    {
      notifications, notifSeq := [], epochMs;
    }

    method Publish(user: Option<string>, text: string)
      modifies this
      ensures notifSeq == old(notifSeq) + 1
      ensures notifications == Newest(old(notifications) + [Note(notifSeq, user, text)])
    {
      notifSeq := notifSeq + 1;
      notifications := notifications + [Note(notifSeq, user, text)];
      ghost var all, dropped := notifications, 0;
      while |notifications| > NOTIFY_QUEUE_CAP
        invariant notifSeq == old(notifSeq) + 1
        invariant 0 <= dropped <= |all| && notifications == all[dropped..]
        invariant dropped == 0 || |notifications| >= NOTIFY_QUEUE_CAP
      {
        notifications := notifications[1..];
        dropped := dropped + 1;
      }
    }
  }

  /** The selections made of a list of notes. */
  datatype Pick = ForAll | Own(me: string) | New(me: string, mark: nat)

  predicate Picks(pick: Pick, n: Note) {
    match pick
    case ForAll => n.user.None?
    case Own(me) => n.user == Some(me)
    case New(me, mark) => n.id > mark && IsFor(n, me)
  }

  function Filter(notes: seq<Note>, pick: Pick): seq<Note> {
    if notes == [] then []
    else
      var rest, last := Filter(notes[..|notes| - 1], pick), notes[|notes| - 1];
      if Picks(pick, last) then rest + [last] else rest
  }

  /** What a person's status file carries: everyone's notes first, then their own. */
  function View(ring: seq<Note>, me: string): seq<Note> {
    Filter(ring, ForAll) + Filter(ring, Own(me))
  }

  // ---- The companion ----

  function Max(a: nat, b: nat): nat {
    if a < b then b else a
  }

  function High(file: seq<Note>, mark: nat): nat {
    if file == [] then mark else Max(High(file[..|file| - 1], mark), file[|file| - 1].id)
  }

  function Unseen(file: seq<Note>, me: string, mark: nat): seq<Note> {
    Filter(file, New(me, mark))
  }

  method SelectNotifications(me: string, file: seq<Note>, mark: nat) returns (show: seq<Note>, high: nat)
    ensures show == Unseen(file, me, mark) && high == High(file, mark)
  {
    show, high := [], mark;
    for i := 0 to |file|
      invariant show == Unseen(file[..i], me, mark) && high == High(file[..i], mark)
    {
      assert file[..i + 1][..i] == file[..i];
      high := Max(high, file[i].id);
      if file[i].id > mark && IsFor(file[i], me) {
        show := show + [file[i]];
      }
    }
    assert file[..|file|] == file;
  }

  // ---- The interleaved protocol ----

  datatype Step =
    | Publish(user: Option<string>, text: string)
    | Tick               // the agent writes the status file again
    | Restart(epochMs: nat)
    | Poll

  /** The agent's ring and last id, the status file, the companion's mark, and what it showed. */
  datatype State = State(ring: seq<Note>, last: nat, file: seq<Note>, mark: nat, shown: seq<Note>)

  function Next(s: State, step: Step, me: string): State {
    match step
    case Publish(user, text) =>
      var ring := Newest(s.ring + [Note(s.last + 1, user, text)]);
      s.(ring := ring, last := s.last + 1, file := View(ring, me))
    case Tick => s.(file := View(s.ring, me))
    case Restart(epochMs) => s.(ring := [], last := epochMs)
    case Poll => s.(mark := High(s.file, s.mark), shown := s.shown + Unseen(s.file, me, s.mark))
  }

  function Run(s: State, steps: seq<Step>, me: string): State {
    if steps == [] then s else Next(Run(s, steps[..|steps| - 1], me), steps[|steps| - 1], me)
  }

  /** The companion starts, primed with whatever its first read finds. */
  function Primed(s: State): State {
    s.(mark := High(s.file, 0), shown := [])
  }

  /** Restarted agents start above every id they ever gave out. */
  predicate RisingIds(s: State, steps: seq<Step>, me: string)
    decreases |steps|
  {
    steps != [] ==>
      var before := steps[..|steps| - 1];
      RisingIds(s, before, me)
      && (steps[|steps| - 1].Restart? ==> steps[|steps| - 1].epochMs >= Run(s, before, me).last)
  }

  /** How often a note is in a list: how often it was shown, say. */
  function Times(notes: seq<Note>, n: Note): nat {
    if notes == [] then 0
    else Times(notes[..|notes| - 1], n) + if notes[|notes| - 1] == n then 1 else 0
  }

  /** Ids are consecutive along the ring, up to the last one given out. */
  ghost predicate ValidRing(ring: seq<Note>, last: nat) {
    && |ring| <= NOTIFY_QUEUE_CAP
    && (forall i :: 0 <= i < |ring| ==> ring[i].id == last + 1 + i - |ring|)
  }

  ghost predicate ValidFile(file: seq<Note>, last: nat, me: string) {
    forall n <- file :: n.id <= last && IsFor(n, me) && Times(file, n) == 1
  }

  /** The file is the ring's view, or what a restarted agent left; nothing above the mark was shown. */
  ghost predicate Valid(s: State, me: string) {
    && ValidRing(s.ring, s.last) && ValidFile(s.file, s.last, me)
    && (s.file == View(s.ring, me) || s.ring == [])
    && s.mark <= s.last
    && (forall n <- s.shown :: n.id <= s.mark)
  }

  // ---- Facts about the view and the selection ----

  lemma {:induction false} TimesIn(notes: seq<Note>, n: Note)
    ensures n in notes <==> Times(notes, n) > 0
  {
    if notes == [] {
    } else {
      TimesIn(notes[..|notes| - 1], n);
      assert notes == notes[..|notes| - 1] + [notes[|notes| - 1]];
    }
  }

  lemma {:induction false} TimesConcat(a: seq<Note>, b: seq<Note>, n: Note)
    ensures Times(a + b, n) == Times(a, n) + Times(b, n)
  {
    if b == [] {
      assert a + b == a;
    } else {
      TimesConcat(a, b[..|b| - 1], n);
      assert (a + b)[..|a + b| - 1] == a + b[..|b| - 1];
    }
  }

  lemma TimesOfLast(notes: seq<Note>, last: Note, n: Note)
    ensures Times(notes + [last], n) == Times(notes, n) + if last == n then 1 else 0
  {
    assert (notes + [last])[..|notes|] == notes;
  }

  lemma {:induction false} FilterCounts(notes: seq<Note>, pick: Pick, n: Note)
    ensures Times(Filter(notes, pick), n) == if Picks(pick, n) then Times(notes, n) else 0
  {
    if notes == [] {
    } else {
      var before, last := notes[..|notes| - 1], notes[|notes| - 1];
      FilterCounts(before, pick, n);
      TimesOfLast(Filter(before, pick), last, n);
    }
  }

  lemma ViewCounts(ring: seq<Note>, me: string, n: Note)
    ensures Times(View(ring, me), n) == if IsFor(n, me) then Times(ring, n) else 0
  {
    FilterCounts(ring, ForAll, n);
    FilterCounts(ring, Own(me), n);
    TimesConcat(Filter(ring, ForAll), Filter(ring, Own(me)), n);
  }

  lemma {:induction false} RingOnce(ring: seq<Note>, last: int, n: Note)
    requires forall i :: 0 <= i < |ring| ==> ring[i].id == last + 1 + i - |ring|
    ensures Times(ring, n) <= 1
  {
    if ring == [] {
    } else {
      var rest := ring[..|ring| - 1];
      RingOnce(rest, last - 1, n);
      if ring[|ring| - 1] == n {
        TimesIn(rest, n);
      }
    }
  }

  lemma {:induction false} HighBound(file: seq<Note>, mark: nat, bound: nat)
    requires mark <= bound && forall n <- file :: n.id <= bound
    ensures mark <= High(file, mark) <= bound
    ensures forall n <- file :: n.id <= High(file, mark)
  {
    if file == [] {
    } else {
      assert file == file[..|file| - 1] + [file[|file| - 1]];
      HighBound(file[..|file| - 1], mark, bound);
    }
  }

  lemma InView(ring: seq<Note>, last: nat, me: string, n: Note)
    requires ValidRing(ring, last)
    ensures n in View(ring, me) <==> n in ring && IsFor(n, me)
    ensures n in View(ring, me) ==> n.id <= last && Times(View(ring, me), n) == 1
  {
    ViewCounts(ring, me, n);
    RingOnce(ring, last, n);
    TimesIn(ring, n);
    TimesIn(View(ring, me), n);
  }

  lemma ViewIsValid(ring: seq<Note>, last: nat, me: string)
    requires ValidRing(ring, last)
    ensures ValidFile(View(ring, me), last, me)
  {
    forall n | n in View(ring, me)
      ensures n.id <= last && IsFor(n, me) && Times(View(ring, me), n) == 1
    {
      InView(ring, last, me, n);
    }
  }

  lemma PublishKeepsRing(ring: seq<Note>, last: nat, n: Note)
    requires ValidRing(ring, last) && n.id == last + 1
    ensures ValidRing(Newest(ring + [n]), last + 1)
  {
  }

  lemma InNewest(ring: seq<Note>, n: Note, m: Note)
    requires m in Newest(ring + [n])
    ensures m in ring || m == n
  {
    assert m in ring + [n];
  }

  // ---- The protocol keeps its promise ----

  lemma PollShows(s: State, me: string, n: Note)
    ensures Times(Next(s, Poll, me).shown, n)
         == Times(s.shown, n) + if n.id > s.mark && IsFor(n, me) then Times(s.file, n) else 0
  {
    FilterCounts(s.file, New(me, s.mark), n);
    TimesConcat(s.shown, Unseen(s.file, me, s.mark), n);
  }

  lemma PollKeepsValid(s: State, me: string)
    requires Valid(s, me)
    ensures Valid(Next(s, Poll, me), me)
  {
    var unseen := Unseen(s.file, me, s.mark);
    HighBound(s.file, s.mark, s.last);
    forall m | m in unseen
      ensures m in s.file
    {
      TimesIn(unseen, m);
      FilterCounts(s.file, New(me, s.mark), m);
      TimesIn(s.file, m);
    }
  }

  /** The agent writes the file from a ring it has. */
  lemma RewriteKeepsValid(s: State, ring: seq<Note>, last: nat, me: string)
    requires Valid(s, me) && ValidRing(ring, last) && s.last <= last
    ensures Valid(s.(ring := ring, last := last, file := View(ring, me)), me)
  {
    ViewIsValid(ring, last, me);
  }

  lemma PublishKeepsValid(s: State, user: Option<string>, text: string, me: string)
    requires Valid(s, me)
    ensures Valid(Next(s, Publish(user, text), me), me)
  {
    var n := Note(s.last + 1, user, text);
    var ring := Newest(s.ring + [n]);
    assert Next(s, Publish(user, text), me) == s.(ring := ring, last := s.last + 1, file := View(ring, me));
    assert Valid(s.(ring := ring, last := s.last + 1, file := View(ring, me)), me) by {
      PublishKeepsRing(s.ring, s.last, n);
      RewriteKeepsValid(s, ring, s.last + 1, me);
    }
  }

  lemma TickKeepsValid(s: State, me: string)
    requires Valid(s, me)
    ensures Valid(Next(s, Tick, me), me)
  {
    RewriteKeepsValid(s, s.ring, s.last, me);
  }

  lemma RestartKeepsValid(s: State, epochMs: nat, me: string)
    requires Valid(s, me) && epochMs >= s.last
    ensures Valid(Next(s, Restart(epochMs), me), me)
  {
  }

  lemma StepKeepsValid(s: State, step: Step, me: string)
    requires Valid(s, me) && (step.Restart? ==> step.epochMs >= s.last)
    ensures Valid(Next(s, step, me), me)
  {
    match step
    case Publish(user, text) => PublishKeepsValid(s, user, text, me);
    case Tick => TickKeepsValid(s, me);
    case Restart(epochMs) => RestartKeepsValid(s, epochMs, me);
    case Poll => PollKeepsValid(s, me);
  }

  lemma {:induction false} RunKeepsValid(s: State, steps: seq<Step>, me: string)
    requires Valid(s, me) && RisingIds(s, steps, me)
    ensures Valid(Run(s, steps, me), me)
  {
    if steps == [] {
    } else {
      RunKeepsValid(s, steps[..|steps| - 1], me);
      StepKeepsValid(Run(s, steps[..|steps| - 1], me), steps[|steps| - 1], me);
    }
  }

  /** A note once at or below the mark, or gone from ring and file, is never shown again. */
  ghost predicate Settled(s: State, n: Note) {
    n.id <= s.last && (n.id <= s.mark || (n !in s.file && n !in s.ring))
  }

  lemma SettledStep(s: State, step: Step, me: string, n: Note)
    requires Valid(s, me) && Settled(s, n) && (step.Restart? ==> step.epochMs >= s.last)
    ensures Settled(Next(s, step, me), n) && Times(Next(s, step, me).shown, n) == Times(s.shown, n)
  {
    match step
    case Publish(user, text) =>
      var m := Note(s.last + 1, user, text);
      PublishKeepsRing(s.ring, s.last, m);
      InView(Newest(s.ring + [m]), s.last + 1, me, n);
      if n in Newest(s.ring + [m]) {
        InNewest(s.ring, m, n);
      }
    case Tick => InView(s.ring, s.last, me, n);
    case Restart(epochMs) =>
    case Poll =>
      PollShows(s, me, n);
      TimesIn(s.file, n);
      HighBound(s.file, s.mark, s.last);
  }

  lemma {:induction false} SettledStays(s: State, steps: seq<Step>, me: string, n: Note)
    requires Valid(s, me) && RisingIds(s, steps, me) && Settled(s, n)
    ensures Settled(Run(s, steps, me), n) && Times(Run(s, steps, me).shown, n) == Times(s.shown, n)
  {
    if steps == [] {
    } else {
      var before := steps[..|steps| - 1];
      SettledStays(s, before, me, n);
      RunKeepsValid(s, before, me);
      SettledStep(Run(s, before, me), steps[|steps| - 1], me, n);
    }
  }

  predicate NoPoll(steps: seq<Step>) {
    forall step <- steps :: !step.Poll?
  }

  lemma {:induction false} MarkWaits(s: State, steps: seq<Step>, me: string)
    requires NoPoll(steps)
    ensures Run(s, steps, me).mark == s.mark && Run(s, steps, me).shown == s.shown
  {
    if steps == [] {
    } else {
      assert steps[|steps| - 1] in steps;
      assert forall step <- steps[..|steps| - 1] :: step in steps;
      MarkWaits(s, steps[..|steps| - 1], me);
    }
  }

  lemma NeverShown(s: State, n: Note, me: string)
    requires Valid(s, me) && n.id > s.last
    ensures Times(s.shown, n) == 0
  {
    TimesIn(s.shown, n);
  }

  /** A note that is not for this person is never in their file. */
  lemma {:induction false} SettledOrForeign(s: State, steps: seq<Step>, me: string, n: Note)
    requires Valid(s, me) && RisingIds(s, steps, me) && n.id <= s.last
    requires Settled(s, n) || !IsFor(n, me)
    ensures Times(Run(s, steps, me).shown, n) == Times(s.shown, n)
  {
    if IsFor(n, me) {
      SettledStays(s, steps, me, n);
    } else if steps != [] {
      var before := steps[..|steps| - 1];
      SettledOrForeign(s, before, me, n);
      RunKeepsValid(s, before, me);
      if steps[|steps| - 1].Poll? {
        PollShows(Run(s, before, me), me, n);
      }
    }
  }

  lemma ReadOrNot(read: State, mark: nat, n: Note, later: seq<Step>, me: string)
    requires Valid(read, me) && read.mark == mark && mark < n.id <= read.last
    requires RisingIds(Next(read, Poll, me), later, me)
    ensures Times(Run(Next(read, Poll, me), later, me).shown, n)
         == Times(read.shown, n) + if n in read.file then 1 else 0
  {
    PollShows(read, me, n);
    PollKeepsValid(read, me);
    TimesIn(read.file, n);
    HighBound(read.file, read.mark, read.last);
    InView(read.ring, read.last, me, n);
    SettledOrForeign(Next(read, Poll, me), later, me, n);
  }

  lemma {:induction false} LastRises(s: State, steps: seq<Step>, me: string)
    requires RisingIds(s, steps, me)
    ensures Run(s, steps, me).last >= s.last
  {
    if steps == [] {
    } else {
      LastRises(s, steps[..|steps| - 1], me);
    }
  }

  /**
   Exactly once: a note for this person is shown once and never again when it is still in
   the status file at the next poll, and never otherwise.
   */
  lemma {:induction false} ShownExactlyIfRead(s: State, user: Option<string>, text: string,
                                              meantime: seq<Step>, later: seq<Step>, me: string)
    requires Valid(s, me) && NoPoll(meantime)
    requires var s1 := Next(s, Publish(user, text), me);
      RisingIds(s1, meantime, me) && RisingIds(Next(Run(s1, meantime, me), Poll, me), later, me)
    ensures var (n, s1) := (Note(s.last + 1, user, text), Next(s, Publish(user, text), me));
      var read := Run(s1, meantime, me);
      Times(Run(Next(read, Poll, me), later, me).shown, n) == if n in read.file then 1 else 0
  {
    var n, s1 := Note(s.last + 1, user, text), Next(s, Publish(user, text), me);
    var read := Run(s1, meantime, me);
    StepKeepsValid(s, Publish(user, text), me);
    RunKeepsValid(s1, meantime, me);
    MarkWaits(s1, meantime, me);
    LastRises(s1, meantime, me);
    ReadOrNot(read, s.mark, n, later, me);
    NeverShown(s, n, me);
  }

  function Published(steps: seq<Step>): nat {
    if steps == [] then 0
    else Published(steps[..|steps| - 1]) + if steps[|steps| - 1].Publish? then 1 else 0
  }

  predicate AnyRestart(steps: seq<Step>) {
    steps != [] && (steps[|steps| - 1].Restart? || AnyRestart(steps[..|steps| - 1]))
  }

  /** The file was written again after the agent restarted, from a ring that then held only what came since. */
  predicate Rewritten(steps: seq<Step>) {
    steps != []
    && var (before, step) := (steps[..|steps| - 1], steps[|steps| - 1]);
       Rewritten(before) || (AnyRestart(before) && (step.Publish? || step.Tick?))
  }

  /** `newer` notes came after `n`: it is that far from the ring's end, or has fallen out. */
  ghost predicate Place(t: State, n: Note, newer: nat, me: string) {
    && ValidRing(t.ring, t.last) && t.file == View(t.ring, me) && n.id + newer == t.last
    && (newer < NOTIFY_QUEUE_CAP ==> newer < |t.ring| && t.ring[|t.ring| - 1 - newer] == n)
    && (newer >= NOTIFY_QUEUE_CAP ==> |t.ring| == NOTIFY_QUEUE_CAP && n !in t.ring)
  }

  lemma MovesDown(ring: seq<Note>, n: Note, m: Note, newer: nat)
    requires newer < NOTIFY_QUEUE_CAP - 1 && newer < |ring| <= NOTIFY_QUEUE_CAP
    requires ring[|ring| - 1 - newer] == n
    ensures var t := Newest(ring + [m]); newer + 1 < |t| && t[|t| - 2 - newer] == n
  {
  }

  lemma FallsOut(ring: seq<Note>, last: nat, n: Note, m: Note, newer: nat)
    requires ValidRing(Newest(ring + [m]), last + 1) && |ring| == NOTIFY_QUEUE_CAP
    requires n.id + newer == last && newer >= NOTIFY_QUEUE_CAP - 1
    ensures |Newest(ring + [m])| == NOTIFY_QUEUE_CAP && n !in Newest(ring + [m])
  {
  }

  lemma PlaceAfterPublish(t: State, n: Note, newer: nat, m: Note, me: string)
    requires Place(t, n, newer, me) && m.id == t.last + 1
    ensures Place(Next(t, Publish(m.user, m.text), me), n, newer + 1, me)
  {
    PublishKeepsRing(t.ring, t.last, m);
    if newer >= NOTIFY_QUEUE_CAP - 1 {
      FallsOut(t.ring, t.last, n, m, newer);
    } else {
      MovesDown(t.ring, n, m, newer);
    }
  }

  lemma {:induction false} PlaceInRing(s: State, n: Note, meantime: seq<Step>, me: string)
    requires Place(s, n, 0, me) && NoPoll(meantime) && !AnyRestart(meantime)
    ensures Place(Run(s, meantime, me), n, Published(meantime), me)
  {
    if meantime == [] {
    } else {
      var before, step := meantime[..|meantime| - 1], meantime[|meantime| - 1];
      assert step in meantime && forall x <- before :: x in meantime;
      PlaceInRing(s, n, before, me);
      var mid := Run(s, before, me);
      if step.Publish? {
        PlaceAfterPublish(mid, n, Published(before), Note(mid.last + 1, step.user, step.text), me);
      }
    }
  }

  lemma PlacedIsRead(t: State, n: Note, newer: nat, me: string)
    requires Place(t, n, newer, me)
    ensures n in t.file <==> IsFor(n, me) && newer < 16
  {
    InView(t.ring, t.last, me, n);
  }

  /** After a restart the file is the old agent's, until it is written again; then a note of the old agent is in neither. */
  ghost predicate Fate(t: State, n: Note, meantime: seq<Step>, me: string) {
    if !AnyRestart(meantime) then Place(t, n, Published(meantime), me)
    else if !Rewritten(meantime) then
      t.ring == [] && (n in t.file <==> IsFor(n, me) && Published(meantime) < 16)
    else n !in t.ring && n !in t.file
  }

  lemma NewRingWithout(t: State, n: Note, step: Step, me: string)
    requires Valid(t, me) && n.id <= t.last && n !in t.ring && (step.Publish? || step.Tick?)
    ensures var u := Next(t, step, me); n !in u.ring && n !in u.file
  {
    if step.Publish? {
      var m := Note(t.last + 1, step.user, step.text);
      PublishKeepsRing(t.ring, t.last, m);
      InView(Newest(t.ring + [m]), t.last + 1, me, n);
      if n in Newest(t.ring + [m]) {
        InNewest(t.ring, m, n);
      }
    } else {
      InView(t.ring, t.last, me, n);
    }
  }

  lemma FateStep(t: State, n: Note, before: seq<Step>, step: Step, me: string)
    requires Valid(t, me) && n.id <= t.last && AnyRestart(before) && !step.Poll? && Fate(t, n, before, me)
    ensures Fate(Next(t, step, me), n, before + [step], me)
  {
    assert (before + [step])[..|before|] == before;
    if step.Publish? || step.Tick? {
      NewRingWithout(t, n, step, me);
    }
  }

  lemma {:induction false} NotRewritten(steps: seq<Step>)
    requires !AnyRestart(steps)
    ensures !Rewritten(steps)
  {
    if steps == [] {
    } else {
      NotRewritten(steps[..|steps| - 1]);
    }
  }

  lemma {:induction false} FateOfNote(s: State, n: Note, meantime: seq<Step>, me: string)
    requires Place(s, n, 0, me) && Valid(s, me) && NoPoll(meantime) && RisingIds(s, meantime, me)
    ensures Fate(Run(s, meantime, me), n, meantime, me)
  {
    if !AnyRestart(meantime) {
      PlaceInRing(s, n, meantime, me);
    } else {
      var before, step := meantime[..|meantime| - 1], meantime[|meantime| - 1];
      assert meantime == before + [step] && step in meantime && forall x <- before :: x in meantime;
      FateOfNote(s, n, before, me);
      var mid := Run(s, before, me);
      RunKeepsValid(s, before, me);
      LastRises(s, before, me);
      if AnyRestart(before) {
        FateStep(mid, n, before, step, me);
      } else {
        NotRewritten(before);
        PlacedIsRead(mid, n, Published(before), me);
      }
    }
  }

  /**
   A note for this person is in the file at the next poll exactly when fewer than sixteen came after
   it and the agent, if it restarted, has not written the file again since.
   */
  lemma ReadExactlyIfRecent(s: State, user: Option<string>, text: string, meantime: seq<Step>, me: string)
    requires Valid(s, me) && NoPoll(meantime) && RisingIds(Next(s, Publish(user, text), me), meantime, me)
    ensures var (n, s1) := (Note(s.last + 1, user, text), Next(s, Publish(user, text), me));
      n in Run(s1, meantime, me).file
      <==> (user.None? || user == Some(me)) && Published(meantime) < 16 && !Rewritten(meantime)
  {
    var n, s1 := Note(s.last + 1, user, text), Next(s, Publish(user, text), me);
    PublishKeepsRing(s.ring, s.last, n);
    StepKeepsValid(s, Publish(user, text), me);
    FateOfNote(s1, n, meantime, me);
    if !AnyRestart(meantime) {
      NotRewritten(meantime);
      PlacedIsRead(Run(s1, meantime, me), n, Published(meantime), me);
    }
  }

  /**
   Exactly once: over any run, restarts included, a note for this person is shown once and never again
   when by the next poll fewer than sixteen came after it and no restarted agent wrote the file, and
   otherwise never.
   */
  lemma ShownExactlyOnceIff(s: State, user: Option<string>, text: string,
                            meantime: seq<Step>, later: seq<Step>, me: string)
    requires Valid(s, me) && NoPoll(meantime)
    requires var s1 := Next(s, Publish(user, text), me);
      RisingIds(s1, meantime, me) && RisingIds(Next(Run(s1, meantime, me), Poll, me), later, me)
    ensures var (n, s1) := (Note(s.last + 1, user, text), Next(s, Publish(user, text), me));
      Times(Run(Next(Run(s1, meantime, me), Poll, me), later, me).shown, n)
      == if (user.None? || user == Some(me)) && Published(meantime) < 16 && !Rewritten(meantime) then 1 else 0
  {
    ShownExactlyIfRead(s, user, text, meantime, later, me);
    ReadExactlyIfRecent(s, user, text, meantime, me);
  }

  /** In particular a restart loses what nobody polled, once the file is written again. */
  lemma RestartLosesUnread(s: State, user: Option<string>, text: string,
                           meantime: seq<Step>, later: seq<Step>, me: string)
    requires Valid(s, me) && NoPoll(meantime) && Rewritten(meantime)
    requires var s1 := Next(s, Publish(user, text), me);
      RisingIds(s1, meantime, me) && RisingIds(Next(Run(s1, meantime, me), Poll, me), later, me)
    ensures var (n, s1) := (Note(s.last + 1, user, text), Next(s, Publish(user, text), me));
      Times(Run(Next(Run(s1, meantime, me), Poll, me), later, me).shown, n) == 0
  {
    ShownExactlyOnceIff(s, user, text, meantime, later, me);
  }

  lemma {:induction false} NoneNew(file: seq<Note>, me: string, mark: nat)
    requires forall n <- file :: n.id <= mark
    ensures Unseen(file, me, mark) == []
  {
    if file == [] {
    } else {
      assert file[|file| - 1] in file;
      NoneNew(file[..|file| - 1], me, mark);
    }
  }

  /** A companion that could read the file when it started shows none of what was in it. */
  lemma PrimedReplaysNothing(s: State, me: string)
    requires Valid(s, me)
    ensures Next(Primed(s), Poll, me).shown == []
  {
    HighBound(s.file, 0, s.last);
    NoneNew(s.file, me, High(s.file, 0));
  }

  lemma {:induction false} AllNew(file: seq<Note>, me: string)
    requires forall n <- file :: n.id > 0 && IsFor(n, me)
    ensures Unseen(file, me, 0) == file
  {
    if file == [] {
    } else {
      assert file[|file| - 1] in file;
      AllNew(file[..|file| - 1], me);
    }
  }

  /** One that could not read it starts at mark 0, and its first poll replays the backlog. */
  lemma UnprimedReplaysAll(s: State, me: string)
    requires Valid(s, me) && s.mark == 0 && s.shown == [] && forall n <- s.file :: n.id > 0
    ensures Next(s, Poll, me).shown == s.file
  {
    AllNew(s.file, me);
  }
}
