/**
 Whether an app's seconds count: at once for one somebody opened, and for one the session bus
 started on its own only when it has stayed longer than a minute, then from its start.
 */
module AppCredit {
  import opened Options

  const SERVICE_GRACE_SECS := 60

  datatype Seen = Holding(secs: int) | Counting

  /** One walk that finds the app: what is remembered of it, and what it is credited. */
  function Sighted(seen: Option<Seen>, launched: bool, tick: int): (Seen, int) {
    if seen == Some(Counting) then (Counting, tick)
    else
      var soFar := (if seen.Some? then seen.value.secs else 0) + tick;
      if launched || soFar > SERVICE_GRACE_SECS then (Counting, soFar) else (Holding(soFar), 0)
  }

  /** What one tick shows of one (user, app): nobody looked, not running, or running. */
  datatype Sight = Unwalked | Absent | Present(launched: bool, tick: int)

  function Next(seen: Option<Seen>, sight: Sight): (Option<Seen>, int) {
    match sight
    case Unwalked => (seen, 0)
    case Absent => (None, 0)
    case Present(launched, tick) => var (after, credit) := Sighted(seen, launched, tick); (Some(after), credit)
  }

  predicate ValidSights(h: seq<Sight>) {
    forall i :: 0 <= i < |h| && h[i].Present? ==> h[i].tick > 0
  }

  function SeenAfter(h: seq<Sight>): Option<Seen> {
    if h == [] then None else Next(SeenAfter(h[..|h| - 1]), h[|h| - 1]).0
  }

  function Credited(h: seq<Sight>): int {
    if h == [] then 0
    else Credited(h[..|h| - 1]) + Next(SeenAfter(h[..|h| - 1]), h[|h| - 1]).1
  }

  // ---- What it should be, from the history alone ----

  /** Seconds the app has been seen for since it appeared. */
  function Stayed(h: seq<Sight>): int {
    if h == [] then 0
    else match h[|h| - 1]
      case Unwalked => Stayed(h[..|h| - 1])
      case Absent => 0
      case Present(_, tick) => Stayed(h[..|h| - 1]) + tick
  }

  /** Somebody opened it since it appeared. */
  predicate Opened(h: seq<Sight>) {
    h != [] && match h[|h| - 1]
      case Unwalked => Opened(h[..|h| - 1])
      case Absent => false
      case Present(launched, _) => launched || Opened(h[..|h| - 1])
  }

  predicate Counts(h: seq<Sight>) {
    Opened(h) || Stayed(h) > 60
  }

  /** What the stays that are over deserved. */
  function Earlier(h: seq<Sight>): int
    decreases h, 0
  {
    if h == [] then 0
    else if h[|h| - 1].Absent? then Deserved(h[..|h| - 1])
    else Earlier(h[..|h| - 1])
  }

  /** Every stay deserves all of its seconds or none of them. */
  function Deserved(h: seq<Sight>): int
    decreases h, 1
  {
    Earlier(h) + if Counts(h) then Stayed(h) else 0
  }

  /**
   The held/counting machine credits exactly what each stay deserves: all its seconds once it
   counts, and until then nothing, with all of them held.
   */
  lemma {:induction false} CreditIsDeserved(h: seq<Sight>)
    requires ValidSights(h)
    ensures Credited(h) == Deserved(h)
    ensures SeenAfter(h) == if Stayed(h) == 0 then None
                            else if Counts(h) then Some(Counting) else Some(Holding(Stayed(h)))
    ensures Stayed(h) >= 0 && (Opened(h) ==> Stayed(h) > 0)
  {
    if h == [] {
    } else {
      CreditIsDeserved(h[..|h| - 1]);
    }
  }

  lemma {:induction false} NothingEarlier(h: seq<Sight>)
    requires forall i :: 0 <= i <= |h| ==> !Counts(h[..i])
    ensures Earlier(h) == 0
  {
    if h == [] {
    } else {
      var rest := h[..|h| - 1];
      assert forall i :: 0 <= i <= |rest| ==> rest[..i] == h[..i];
      assert rest[..|rest|] == rest;
      NothingEarlier(rest);
    }
  }

  /** A bus-started app that always leaves within the grace never counts. */
  lemma {:induction false} SearchProvidersNeverCount(h: seq<Sight>)
    requires ValidSights(h)
    requires forall i :: 0 <= i <= |h| ==> !Counts(h[..i])
    ensures Credited(h) == 0
  {
    assert h[..|h|] == h;
    NothingEarlier(h);
    CreditIsDeserved(h);
  }

  // ---- Many processes ----

  /** A process under somebody's login, if it is an app. */
  datatype Process = Process(uid: nat, app: Option<string>, busStarted: bool)

  /** (user, app). */
  type Key = (string, string)

  predicate Runs(p: Process, byUid: map<nat, string>, k: Key) {
    p.uid in byUid && byUid[p.uid] == k.0 && p.app == Some(k.1)
  }

  /** The apps running, and whether any process of each is someone opening it. */
  function Running(procs: seq<Process>, byUid: map<nat, string>): map<Key, bool> {
    if procs == [] then map[]
    else
      var rest, p := Running(procs[..|procs| - 1], byUid), procs[|procs| - 1];
      if p.uid in byUid && p.app.Some? then
        var k := (byUid[p.uid], p.app.value);
        rest[k := (k in rest && rest[k]) || !p.busStarted]
      else rest
  }

  /** Only whether some process runs it, and whether some such process was opened, matter. */
  lemma {:induction false} RunningMeans(procs: seq<Process>, byUid: map<nat, string>, k: Key)
    ensures k in Running(procs, byUid) <==> exists p <- procs :: Runs(p, byUid, k)
    ensures k in Running(procs, byUid) ==>
              (Running(procs, byUid)[k] <==> exists p <- procs :: Runs(p, byUid, k) && !p.busStarted)
  {
    if procs == [] {
    } else {
      var rest, last := procs[..|procs| - 1], procs[|procs| - 1];
      RunningMeans(rest, byUid, k);
      assert procs == rest + [last];
      if p :| p in rest && Runs(p, byUid, k) {
        assert p in procs;
      }
      if p :| p in rest && Runs(p, byUid, k) && !p.busStarted {
        assert p in procs;
      }
      assert last in procs;
    }
  }

  /** The order of the processes, and how many there are of each, change nothing. */
  lemma {:induction false} OrderAndNumberDoNotMatter(procs: seq<Process>, others: seq<Process>, byUid: map<nat, string>)
    requires forall p :: p in procs <==> p in others
    ensures Running(procs, byUid) == Running(others, byUid)
  {
    forall k
      ensures k in Running(procs, byUid) <==> k in Running(others, byUid)
      ensures k in Running(procs, byUid) ==> Running(procs, byUid)[k] == Running(others, byUid)[k]
    {
      RunningMeans(procs, byUid, k);
      RunningMeans(others, byUid, k);
    }
  }

  function Seeing(seen: map<Key, Seen>, k: Key): Option<Seen> {
    if k in seen then Some(seen[k]) else None
  }

  /** What one walk shows of `k`. */
  function SightOf(running: map<Key, bool>, walked: set<string>, k: Key, tick: int): Sight {
    if k in running then Present(running[k], tick)
    else if k.0 in walked then Absent
    else Unwalked
  }

  /** A walk shows an app as running if some process of it is, as gone if none is and its person was walked, and else nothing. */
  lemma SightMeans(procs: seq<Process>, byUid: map<nat, string>, walked: set<string>, k: Key, tick: int)
    ensures var sight := SightOf(Running(procs, byUid), walked, k, tick);
      if exists p <- procs :: Runs(p, byUid, k)
      then sight == Present(exists p <- procs :: Runs(p, byUid, k) && !p.busStarted, tick)
      else sight == if k.0 in walked then Absent else Unwalked
  {
    RunningMeans(procs, byUid, k);
  }
}
