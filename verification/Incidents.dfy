/**
 What is told of the signals a tick sees: each incident once, when it starts, and a sustained
 evasion attempt once it has repeated.
 */
module Incidents {
  import opened Options

  const REPEAT_AFTER := 3600
  const BOOT_GRACE := 120

  /** (event type, kind). */
  type Key = (string, string)

  datatype Signal = Signal(key: Key, message: string)

  /** What is remembered of one key: seen last tick, and when it was last reported. */
  datatype Memory = Memory(seen: bool, last: Option<int>)

  /** A signal worth nothing: its incident is still on, or it was reported within the hour. */
  predicate Quiet(m: Memory, now: int) {
    m.seen || (m.last.Some? && now - m.last.value < REPEAT_AFTER)
  }

  function Remember(m: Memory, seen: bool, now: int): Memory {
    Memory(seen, if seen && !Quiet(m, now) then Some(now) else m.last)
  }

  predicate SeenIn(observed: seq<Signal>, k: Key) {
    observed != [] && (SeenIn(observed[..|observed| - 1], k) || observed[|observed| - 1].key == k)
  }

  function Recall(open: set<Key>, reported: map<Key, int>, k: Key): Memory {
    Memory(k in open, if k in reported then Some(reported[k]) else None)
  }

  /** The first signal of each key that is not quiet, in order. */
  function Worth(observed: seq<Signal>, open: set<Key>, reported: map<Key, int>, now: int): seq<Signal> {
    if observed == [] then []
    else
      var before, e := observed[..|observed| - 1], observed[|observed| - 1];
      Worth(before, open, reported, now)
      + (if SeenIn(before, e.key) || Quiet(Recall(open, reported, e.key), now) then [] else [e])
  }

  function Reports(signals: seq<Signal>, k: Key): nat {
    if signals == [] then 0
    else Reports(signals[..|signals| - 1], k) + (if signals[|signals| - 1].key == k then 1 else 0)
  }

  lemma ReportsOfLast(signals: seq<Signal>, e: Signal, k: Key)
    ensures Reports(signals + [e], k) == Reports(signals, k) + (if e.key == k then 1 else 0)
  {
    assert (signals + [e])[..|signals|] == signals;
  }

  /** One report for each key seen that is not quiet, whatever else the tick saw and however often. */
  lemma {:induction false} OneReportPerKey(observed: seq<Signal>, open: set<Key>, reported: map<Key, int>, now: int, k: Key)
    ensures Reports(Worth(observed, open, reported, now), k) ==
      if SeenIn(observed, k) && !Quiet(Recall(open, reported, k), now) then 1 else 0
  {
    if observed == [] {
    } else {
      var before, e := observed[..|observed| - 1], observed[|observed| - 1];
      OneReportPerKey(before, open, reported, now, k);
      var worth := Worth(before, open, reported, now);
      if SeenIn(before, e.key) || Quiet(Recall(open, reported, e.key), now) {
        assert Worth(observed, open, reported, now) == worth;
      } else {
        ReportsOfLast(worth, e, k);
      }
    }
  }

  class Incidents {
    var open: set<Key>
    var reported: map<Key, int>

    constructor ()
      ensures open == {} && reported == map[]
    {
      open, reported := {}, map[];
    }

    /** Of one tick's signals, the ones worth reporting; every key is remembered as Remember says. */
    method ReportAt(observed: seq<Signal>, now: int) returns (out: seq<Signal>)
      modifies this
      ensures out == Worth(observed, old(open), old(reported), now)
      ensures forall k ::
        Recall(open, reported, k) == Remember(Recall(old(open), old(reported), k), SeenIn(observed, k), now)
    {
      out := [];
      var seen: set<Key> := {};
      for i := 0 to |observed|
        invariant open == old(open)
        invariant out == Worth(observed[..i], old(open), old(reported), now)
        invariant forall k :: k in seen <==> SeenIn(observed[..i], k)
        invariant forall k ::
          Recall(open, reported, k).last
          == Remember(Recall(old(open), old(reported), k), SeenIn(observed[..i], k), now).last
      {
        assert observed[..i + 1][..i] == observed[..i];
        var e := observed[i];
        assert forall k :: SeenIn(observed[..i + 1], k) <==> SeenIn(observed[..i], k) || e.key == k;
        if e.key !in seen {
          seen := seen + {e.key};
          assert Recall(open, reported, e.key) == Recall(old(open), old(reported), e.key);
          var quiet := e.key in open || (e.key in reported && now - reported[e.key] < REPEAT_AFTER);
          if !quiet {
            reported := reported[e.key := now];
            out := out + [e];
          }
        }
      }
      assert observed[..|observed|] == observed;
      open := seen;
    }
  }

  // ---- One key over a whole history ----

  /** One tick as one key finds it. */
  datatype Sighting = Sighting(seen: bool, now: int)

  function Remembered(h: seq<Sighting>): Memory {
    if h == [] then Memory(false, None)
    else Remember(Remembered(h[..|h| - 1]), h[|h| - 1].seen, h[|h| - 1].now)
  }

  /** The key is reported at tick `i`. */
  predicate ReportedAt(h: seq<Sighting>, i: nat)
    requires i < |h|
  {
    h[i].seen && !Quiet(Remembered(h[..i]), h[i].now)
  }

  ghost predicate InTime(h: seq<Sighting>) {
    forall i, j :: 0 <= i <= j < |h| ==> h[i].now <= h[j].now
  }

  predicate StartsAt(h: seq<Sighting>, i: nat)
    requires i < |h|
  {
    h[i].seen && (i == 0 || !h[i - 1].seen)
  }

  /** The memory of a key is whether it was seen last, and the time of its latest report. */
  lemma {:induction false} MemoryMeans(h: seq<Sighting>) returns (latest: int)
    requires InTime(h)
    ensures var m := Remembered(h);
      && (m.seen <==> h != [] && h[|h| - 1].seen)
      && (m.last.Some? ==> 0 <= latest < |h| && ReportedAt(h, latest) && m.last.value == h[latest].now)
      && (forall j :: 0 <= j < |h| && ReportedAt(h, j) ==> m.last.Some? && j <= latest)
  {
    latest := -1;
    if h == [] {
    } else {
      var before, n := h[..|h| - 1], |h| - 1;
      latest := MemoryMeans(before);
      forall j | 0 <= j < n
        ensures ReportedAt(h, j) <==> ReportedAt(before, j)
      {
        assert before[..j] == h[..j];
      }
      if ReportedAt(h, n) {
        latest := n;
      }
    }
  }

  /**
   Over any history a key is reported exactly when an episode of it starts that comes no sooner than
   an hour after each earlier report of it.
   */
  lemma ReportedIff(h: seq<Sighting>, i: nat)
    requires InTime(h) && i < |h|
    ensures ReportedAt(h, i) <==>
      StartsAt(h, i) && forall j :: 0 <= j < i && ReportedAt(h, j) ==> h[i].now - h[j].now >= 3600
  {
    var before := h[..i];
    var latest := MemoryMeans(before);
    forall j | 0 <= j < i
      ensures ReportedAt(h, j) <==> ReportedAt(before, j)
    {
      assert before[..j] == h[..j];
    }
  }

  /** So never twice within an hour, never twice in one unbroken episode, and the first sighting always. */
  lemma NeverTwice(h: seq<Sighting>, i: nat, j: nat)
    requires InTime(h) && i < j < |h| && ReportedAt(h, i) && ReportedAt(h, j)
    ensures h[j].now - h[i].now >= 3600
    ensures exists k :: i < k < j && !h[k].seen
  {
    ReportedIff(h, i);
    ReportedIff(h, j);
    assert j - 1 != i && !h[j - 1].seen;
  }

  lemma FirstSightingIsReported(h: seq<Sighting>, i: nat)
    requires InTime(h) && i < |h| && h[i].seen && forall j :: 0 <= j < i ==> !h[j].seen
    ensures ReportedAt(h, i)
  {
    ReportedIff(h, i);
  }

  /** An episode that starts too soon is never told of, however long it then lasts. */
  lemma QuietEpisodeStaysQuiet(h: seq<Sighting>, start: nat, i: nat)
    requires InTime(h) && start <= i < |h| && !ReportedAt(h, start)
    requires forall k :: start <= k <= i ==> h[k].seen
    ensures !ReportedAt(h, i)
  {
    ReportedIff(h, i);
  }

  // ---- Every key over a whole history ----

  /** One tick: what it saw and when, what was remembered after it, and what it reported. */
  datatype Tick = Tick(observed: seq<Signal>, now: int, open: set<Key>, reported: map<Key, int>, out: seq<Signal>)

  /** What is remembered of `k` after these ticks. */
  function RecallAfter(ticks: seq<Tick>, k: Key): Memory {
    if ticks == [] then Recall({}, map[], k) else Recall(ticks[|ticks| - 1].open, ticks[|ticks| - 1].reported, k)
  }

  /** Each tick went as ReportAt promises. */
  ghost predicate WentRight(ticks: seq<Tick>) {
    ticks != [] ==>
      var before, t := ticks[..|ticks| - 1], ticks[|ticks| - 1];
      && WentRight(before)
      && t.out == (if before == [] then Worth(t.observed, {}, map[], t.now)
                   else Worth(t.observed, before[|before| - 1].open, before[|before| - 1].reported, t.now))
      && forall k :: Recall(t.open, t.reported, k) == Remember(RecallAfter(before, k), SeenIn(t.observed, k), t.now)
  }

  /** The ticks as one key finds them. */
  function SightingsOf(ticks: seq<Tick>, k: Key): (h: seq<Sighting>)
    ensures |h| == |ticks|
  {
    seq(|ticks|, i requires 0 <= i < |ticks| => Sighting(SeenIn(ticks[i].observed, k), ticks[i].now))
  }

  lemma {:induction false} RecallIsRemembered(ticks: seq<Tick>, k: Key)
    requires WentRight(ticks)
    ensures RecallAfter(ticks, k) == Remembered(SightingsOf(ticks, k))
  {
    if ticks == [] {
    } else {
      var before := ticks[..|ticks| - 1];
      RecallIsRemembered(before, k);
      assert SightingsOf(ticks, k)[..|ticks| - 1] == SightingsOf(before, k);
    }
  }

  /** Over any history every key is told of, whatever other keys do, exactly in the ticks ReportedIff says, and once in each. */
  lemma {:induction false} TickReports(ticks: seq<Tick>, k: Key)
    requires WentRight(ticks) && ticks != []
    ensures Reports(ticks[|ticks| - 1].out, k) == if ReportedAt(SightingsOf(ticks, k), |ticks| - 1) then 1 else 0
  {
    var before, t := ticks[..|ticks| - 1], ticks[|ticks| - 1];
    RecallIsRemembered(before, k);
    assert SightingsOf(ticks, k)[..|ticks| - 1] == SightingsOf(before, k);
    if before == [] {
      OneReportPerKey(t.observed, {}, map[], t.now, k);
    } else {
      OneReportPerKey(t.observed, before[|before| - 1].open, before[|before| - 1].reported, t.now, k);
    }
  }

  lemma {:induction false} SeenInMeans(observed: seq<Signal>, k: Key)
    ensures SeenIn(observed, k) <==> exists i :: 0 <= i < |observed| && observed[i].key == k
  {
    if observed == [] {
    } else {
      SeenInMeans(observed[..|observed| - 1], k);
    }
  }

  /** What is reported of a key is the first signal of it, with its message. */
  lemma {:induction false} FirstIsReported(observed: seq<Signal>, open: set<Key>, reported: map<Key, int>, now: int, e: Signal)
    requires e in Worth(observed, open, reported, now)
    ensures exists i :: 0 <= i < |observed| && observed[i] == e && forall j :: 0 <= j < i ==> observed[j].key != e.key
  {
    var before, last := observed[..|observed| - 1], observed[|observed| - 1];
    if e in Worth(before, open, reported, now) {
      FirstIsReported(before, open, reported, now, e);
      var i :| 0 <= i < |before| && before[i] == e && forall j :: 0 <= j < i ==> before[j].key != e.key;
      assert observed[i] == e && forall j :: 0 <= j < i ==> observed[j] == before[j];
    } else {
      SeenInMeans(before, last.key);
      assert forall j :: 0 <= j < |before| ==> observed[j] == before[j];
    }
  }

  // ---- Confirmed evasion ----

  const NFT_FLUSH := "nft_flush"
  const MONITORED := [NFT_FLUSH]

  function ConfirmThreshold(kind: string): Option<nat> {
    if kind == NFT_FLUSH then Some(2) else None
  }

  /** A sighting counts from two minutes after the start. */
  predicate CountsAt(started: int, s: Sighting) {
    s.seen && s.now - started >= BOOT_GRACE
  }

  /** One more tick of a kind's streak: the new count, and whether it was just confirmed. */
  function Strike(n: nat, threshold: nat, counts: bool): (nat, bool) {
    if !counts then (0, false)
    else if n < threshold then (n + 1, n + 1 == threshold)
    else (n, false)
  }

  class TamperMonitor {
    var strikes: map<string, nat>
    const started: int

    constructor (now: int)
      ensures strikes == map[] && started == now
    {
      strikes := map[];
      started := now;
    }

    function Strikes(kind: string): nat
      reads this
    {
      if kind in strikes then strikes[kind] else 0
    }

    /** The kinds that crossed their threshold with this tick. */
    method Observe(kinds: set<string>, now: int) returns (confirmed: seq<string>)
      modifies this
      ensures var (n, crossed) := Strike(old(Strikes(NFT_FLUSH)), 2, CountsAt(started, Sighting(NFT_FLUSH in kinds, now)));
        Strikes(NFT_FLUSH) == n && confirmed == (if crossed then [NFT_FLUSH] else [])
      ensures forall kind :: kind != NFT_FLUSH ==> Strikes(kind) == old(Strikes(kind))
    {
      confirmed := [];
      var booting := now - started < BOOT_GRACE;
      for i := 0 to |MONITORED|
        invariant i == 0 ==> strikes == old(strikes) && confirmed == []
        invariant i == 1 ==>
          var (n, crossed) := Strike(old(Strikes(NFT_FLUSH)), 2, CountsAt(started, Sighting(NFT_FLUSH in kinds, now)));
          Strikes(NFT_FLUSH) == n && confirmed == (if crossed then [NFT_FLUSH] else [])
        invariant forall kind :: kind != NFT_FLUSH ==> Strikes(kind) == old(Strikes(kind))
      {
        var kind := MONITORED[i];
        var threshold := ConfirmThreshold(kind);
        if threshold.Some? {
          if kind in kinds && !booting {
            var n := Strikes(kind);
            if n < threshold.value {
              n := n + 1;
              if n == threshold.value {
                confirmed := confirmed + [kind];
              }
            }
            strikes := strikes[kind := n];
          } else {
            strikes := strikes - {kind};
          }
        }
      }
    }
  }

  function StrikesAfter(h: seq<Sighting>, started: int, threshold: nat): nat {
    if h == [] then 0
    else Strike(StrikesAfter(h[..|h| - 1], started, threshold), threshold, CountsAt(started, h[|h| - 1])).0
  }

  predicate ConfirmedAt(h: seq<Sighting>, started: int, threshold: nat, i: nat)
    requires i < |h|
  {
    Strike(StrikesAfter(h[..i], started, threshold), threshold, CountsAt(started, h[i])).1
  }

  /** Seen, two minutes or more after the start. */
  predicate Counted(started: int, s: Sighting) {
    s.seen && s.now >= started + 120
  }

  /** How many ticks in a row, up to the last of `h`, counted. */
  function Streak(h: seq<Sighting>, started: int): nat {
    if h == [] || !Counted(started, h[|h| - 1]) then 0 else 1 + Streak(h[..|h| - 1], started)
  }

  lemma {:induction false} StrikesAreStreak(h: seq<Sighting>, started: int, threshold: nat)
    ensures StrikesAfter(h, started, threshold) ==
      if Streak(h, started) < threshold then Streak(h, started) else threshold
  {
    if h == [] {
    } else {
      StrikesAreStreak(h[..|h| - 1], started, threshold);
    }
  }

  /**
   An attempt is confirmed at exactly the threshold-th of consecutive sightings after the boot grace,
   and so once per streak.
   */
  lemma ConfirmedIff(h: seq<Sighting>, started: int, threshold: nat, i: nat)
    requires i < |h| && threshold > 0
    ensures ConfirmedAt(h, started, threshold, i) <==> Streak(h[..i + 1], started) == threshold
  {
    StrikesAreStreak(h[..i], started, threshold);
    assert h[..i + 1][..i] == h[..i];
  }

  lemma StreakAt(h: seq<Sighting>, started: int, i: nat)
    requires i < |h|
    ensures Streak(h[..i + 1], started) == if Counted(started, h[i]) then 1 + Streak(h[..i], started) else 0
  {
    assert h[..i + 1][..i] == h[..i];
  }

  /** A flushed firewall is the one kind that is confirmed: at its second sighting in a row, and not again until a tick without. */
  lemma FlushIsConfirmed(h: seq<Sighting>, started: int, kind: string, i: nat)
    requires i < |h|
    ensures kind in MONITORED && ConfirmThreshold(kind).Some? <==> kind == "nft_flush"
    ensures kind == "nft_flush" ==>
      (ConfirmedAt(h, started, ConfirmThreshold(kind).value, i) <==>
        && i > 0 && Counted(started, h[i]) && Counted(started, h[i - 1])
        && (i > 1 ==> !Counted(started, h[i - 2])))
  {
    if kind == "nft_flush" {
      ConfirmedIff(h, started, 2, i);
      StreakAt(h, started, i);
      if i > 0 {
        StreakAt(h, started, i - 1);
      }
      if i > 1 {
        StreakAt(h, started, i - 2);
      }
    }
  }

  lemma {:induction false} StreakGrows(h: seq<Sighting>, started: int, i: nat, j: nat)
    requires i <= j < |h| && forall k :: i < k < j ==> Counted(started, h[k])
    requires Counted(started, h[j])
    ensures i < j ==> Streak(h[..j + 1], started) == j - i + Streak(h[..i + 1], started)
  {
    if i < j {
      assert h[..j + 1][..j] == h[..j];
      if i < j - 1 {
        StreakGrows(h, started, i, j - 1);
      }
    }
  }

  /** Between two confirmations the signal was gone for a tick, or not counted. */
  lemma ConfirmedOncePerStreak(h: seq<Sighting>, started: int, threshold: nat, i: nat, j: nat)
    requires i < j < |h| && threshold > 0
    requires ConfirmedAt(h, started, threshold, i) && ConfirmedAt(h, started, threshold, j)
    ensures exists k :: i < k < j && !Counted(started, h[k])
  {
    ConfirmedIff(h, started, threshold, i);
    ConfirmedIff(h, started, threshold, j);
    if forall k :: i < k < j ==> Counted(started, h[k]) {
      StreakGrows(h, started, i, j);
    }
  }
}
