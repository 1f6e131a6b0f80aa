/**
 The attribution sampler: it walks processes and tails the query log into one bounded table of
 slices, which is drained for posting and put back when a post fails.
 */
module Attrib {
  import opened Options
  import opened Tally
  import opened AppCredit
  import opened LogTail
  import opened Names
  import Slices

  const MAX_BLOCKED := 256

  function SiteKey(site: string, hour: string): Slices.SliceKey {
    Slices.SliceKey("", hour, Slices.Site, site)
  }

  function AppKey(k: Key, hour: string): Slices.SliceKey {
    Slices.SliceKey(k.0, hour, Slices.App, k.1)
  }

  function HitOf(fact: Fact, hour: string): seq<Slices.Slice> {
    if fact.Visit? then [Entry(SiteKey(fact.site, hour), 1)] else []
  }

  function BlockOf(fact: Fact): seq<Entry<string>> {
    if fact.Blocked? then [Entry(fact.name, 1)] else []
  }

  /** The hits in some lines. */
  function Hits(lines: seq<string>, read: Reader, hour: string): seq<Slices.Slice> {
    if lines == [] then []
    else Hits(lines[..|lines| - 1], read, hour) + HitOf(read(lines[|lines| - 1]), hour)
  }

  /** The blocked answers in some lines. */
  function Blocks(lines: seq<string>, read: Reader): seq<Entry<string>> {
    if lines == [] then []
    else Blocks(lines[..|lines| - 1], read) + BlockOf(read(lines[|lines| - 1]))
  }

  /** `seen` and `credits` hold for `k` what AppCredit.Next makes of what `was` and the sight were. */
  ghost predicate CreditedAs(was: map<Key, Seen>, sight: Sight, seen: map<Key, Seen>, credits: seq<Slices.Slice>,
                             k: Key, hour: string) {
    && Seeing(seen, k) == Next(Seeing(was, k), sight).0
    && Total(credits, AppKey(k, hour)) == Next(Seeing(was, k), sight).1
  }

  /** What a walk starts from: what was remembered, the apps running, and the people walked. */
  datatype Walk = Walk(was: map<Key, Seen>, now: map<Key, bool>, walked: set<string>, tick: int, hour: string)

  /** What is held for `j` with `keys` still to come: what it was, or what the walk makes of it. */
  ghost predicate HeldFor(w: Walk, keys: set<Key>, seen: map<Key, Seen>, credits: seq<Slices.Slice>, j: Key) {
    if j in keys then Seeing(seen, j) == Seeing(w.was, j) && Total(credits, AppKey(j, w.hour)) == 0
    else CreditedAs(w.was, SightOf(w.now, w.walked, j, w.tick), seen, credits, j, w.hour)
  }

  ghost predicate CreditedSoFar(w: Walk, keys: set<Key>, seen: map<Key, Seen>, credits: seq<Slices.Slice>) {
    forall j :: HeldFor(w, keys, seen, credits, j)
  }

  /** Crediting one more key settles it and leaves the others as they are. */
  lemma CreditsKey(w: Walk, keys: set<Key>, seen: map<Key, Seen>, credits: seq<Slices.Slice>, k: Key, j: Key)
    requires k in w.now && k in keys
    requires HeldFor(w, keys, seen, credits, k) && HeldFor(w, keys, seen, credits, j)
    ensures var (after, amount) := Sighted(Seeing(seen, k), w.now[k], w.tick);
      HeldFor(w, keys - {k}, seen[k := after],
        if after == Counting then credits + [Entry(AppKey(k, w.hour), amount)] else credits, j)
  {
    var (after, amount) := Sighted(Seeing(seen, k), w.now[k], w.tick);
    TotalLast(credits, Entry(AppKey(k, w.hour), amount), AppKey(j, w.hour));
    if j != k {
      assert Seeing(seen[k := after], j) == Seeing(seen, j);
    }
  }

  lemma CreditsOne(w: Walk, keys: set<Key>, seen: map<Key, Seen>, credits: seq<Slices.Slice>, k: Key)
    requires k in w.now && k in keys && CreditedSoFar(w, keys, seen, credits)
    ensures var (after, amount) := Sighted(Seeing(seen, k), w.now[k], w.tick);
      CreditedSoFar(w, keys - {k}, seen[k := after],
        if after == Counting then credits + [Entry(AppKey(k, w.hour), amount)] else credits)
  {
    assert HeldFor(w, keys, seen, credits, k);
    var (after, amount) := Sighted(Seeing(seen, k), w.now[k], w.tick);
    var next := if after == Counting then credits + [Entry(AppKey(k, w.hour), amount)] else credits;
    var left, held := keys - {k}, seen[k := after];
    forall j
      ensures HeldFor(w, left, held, next, j)
    {
      assert HeldFor(w, keys, seen, credits, j);
      CreditsKey(w, keys, seen, credits, k, j);
    }
  }

  lemma CreditsAll(w: Walk, seen: map<Key, Seen>, credits: seq<Slices.Slice>, k: Key)
    requires CreditedSoFar(w, {}, seen, credits)
    ensures CreditedAs(w.was, SightOf(w.now, w.walked, k, w.tick), seen, credits, k, w.hour)
  {
    assert HeldFor(w, {}, seen, credits, k);
  }

  /** A walk starts by forgetting what is gone. */
  lemma CreditsNone(w: Walk)
    requires forall k <- w.now :: k.0 in w.walked
    ensures CreditedSoFar(w, w.now.Keys, map k | k in w.was && (k.0 !in w.walked || k in w.now) :: w.was[k], [])
  {
  }

  /** The apps running now, each with whether any process of it is someone opening it. */
  method AppsOf(procs: seq<Process>, byUid: map<nat, string>) returns (now: map<Key, bool>)
    ensures now == Running(procs, byUid)
  {
    now := map[];
    for i := 0 to |procs|
      invariant now == Running(procs[..i], byUid)
    {
      assert procs[..i + 1][..i] == procs[..i];
      var p := procs[i];
      if p.uid in byUid && p.app.Some? {
        var k := (byUid[p.uid], p.app.value);
        now := now[k := (k in now && now[k]) || !p.busStarted];
      }
    }
    assert procs[..|procs|] == procs;
  }

  /** Counting one more line adds what it says. */
  lemma HitsOfMore(m: Slices.Pending, lines: seq<string>, i: nat, read: Reader, hour: string)
    requires i < |lines|
    ensures AddedAll(m, Slices.MAX_PENDING, Hits(lines[..i + 1], read, hour))
         == AddedAll(AddedAll(m, Slices.MAX_PENDING, Hits(lines[..i], read, hour)), Slices.MAX_PENDING, HitOf(read(lines[i]), hour))
  {
    assert lines[..i + 1][..i] == lines[..i];
    InTwoGoes(m, Slices.MAX_PENDING, Hits(lines[..i], read, hour), HitOf(read(lines[i]), hour));
  }

  lemma BlocksOfMore(m: Table<string>, lines: seq<string>, i: nat, read: Reader)
    requires i < |lines|
    ensures AddedAll(m, MAX_BLOCKED, Blocks(lines[..i + 1], read))
         == AddedAll(AddedAll(m, MAX_BLOCKED, Blocks(lines[..i], read)), MAX_BLOCKED, BlockOf(read(lines[i])))
  {
    assert lines[..i + 1][..i] == lines[..i];
    InTwoGoes(m, MAX_BLOCKED, Blocks(lines[..i], read), BlockOf(read(lines[i])));
  }

  /** How this computer reads its log; `own` tells the lookups no person made. */
  function LogReader(own: string -> bool): Reader {
    line => ReadLine(line, own)
  }

  lemma {:induction false} RunningIsWalked(procs: seq<Process>, byUid: map<nat, string>)
    ensures forall k <- Running(procs, byUid) :: k.0 in byUid.Values
  {
    if procs == [] {
    } else {
      RunningIsWalked(procs[..|procs| - 1], byUid);
    }
  }

  class Attrib {
    var pending: Slices.Pending
    var seen: map<Key, Seen>
    var blocked: Table<string>
    var tail: Tail

    ghost predicate Valid()
      reads this
    {
      |pending| <= Slices.MAX_PENDING && |blocked| <= MAX_BLOCKED
    }

    constructor ()
      ensures Valid() && pending == map[] && seen == map[] && blocked == map[] && tail == Tail(false, 0)
    {
      pending, seen, blocked, tail := map[], map[], map[], Tail(false, 0);
    }

    method Bump(e: Slices.Slice)
      requires Valid()
      modifies this`pending
      ensures Valid() && pending == Added(old(pending), Slices.MAX_PENDING, e)
    {
      AddKeepsBound(pending, Slices.MAX_PENDING, e);
      if |pending| >= Slices.MAX_PENDING && e.key !in pending {
        return;
      }
      pending := pending[e.key := Amount(pending, e.key) + e.amount];
    }

    /**
     One walk. Every app a walked person runs is remembered and credited as AppCredit.Next says,
     one that is gone is forgotten, and everything else is left alone; `credits` is what was added to
     the table, in the order it was added.
     */
    method CountApps(procs: seq<Process>, byUid: map<nat, string>, walked: set<string>, tick: int, hour: string)
      returns (ghost credits: seq<Slices.Slice>)
      requires Valid() && byUid.Values <= walked
      modifies this`pending, this`seen
      ensures Valid() && pending == AddedAll(old(pending), Slices.MAX_PENDING, credits)
      ensures forall k ::
        CreditedAs(old(seen), SightOf(Running(procs, byUid), walked, k, tick), seen, credits, k, hour)
    {
      var now := AppsOf(procs, byUid);
      RunningIsWalked(procs, byUid);
      ghost var was := seen;
      seen := map k | k in seen && (k.0 !in walked || k in now) :: seen[k];
      credits := [];
      var keys := now.Keys;
      ghost var walk := Walk(was, now, walked, tick, hour);
      CreditsNone(walk);
      while keys != {}
        invariant Valid() && keys <= now.Keys
        invariant pending == AddedAll(old(pending), Slices.MAX_PENDING, credits)
        invariant CreditedSoFar(walk, keys, seen, credits)
        decreases |keys|
      {
        var k :| k in keys;
        var (after, amount) := Sighted(Seeing(seen, k), now[k], tick);
        CreditsOne(walk, keys, seen, credits, k);
        if after == Counting {
          var e := Entry(AppKey(k, hour), amount);
          Bump(e);
          AddedLast(old(pending), Slices.MAX_PENDING, credits, e);
          credits := credits + [e];
        }
        seen := seen[k := after];
        keys := keys - {k};
      }
      forall k
        ensures CreditedAs(was, SightOf(now, walked, k, tick), seen, credits, k, hour)
      {
        CreditsAll(walk, seen, credits, k);
      }
    }

    /** What one line says is counted. */
    method CountFact(fact: Fact, hour: string)
      requires Valid()
      modifies this`pending, this`blocked
      ensures Valid()
      ensures pending == AddedAll(old(pending), Slices.MAX_PENDING, HitOf(fact, hour))
      ensures blocked == AddedAll(old(blocked), MAX_BLOCKED, BlockOf(fact))
    {
      match fact
      case Visit(site) =>
        AddedLast(pending, Slices.MAX_PENDING, [], Entry(SiteKey(site, hour), 1));
        Bump(Entry(SiteKey(site, hour), 1));
      case Blocked(name) =>
        AddKeepsBound(blocked, MAX_BLOCKED, Entry(name, 1));
        AddedLast(blocked, MAX_BLOCKED, [], Entry(name, 1));
        if |blocked| < MAX_BLOCKED || name in blocked {
          blocked := blocked[name := Amount(blocked, name) + 1];
        }
      case Nothing =>
    }

    /** The lines of `text`: a hit for every site looked up, and which names were answered as blocked. */
    method IngestLines(text: string, own: string -> bool, hour: string)
      requires Valid()
      modifies this`pending, this`blocked
      ensures Valid()
      ensures pending == AddedAll(old(pending), Slices.MAX_PENDING, Hits(Lines(text), LogReader(own), hour))
      ensures blocked == AddedAll(old(blocked), MAX_BLOCKED, Blocks(Lines(text), LogReader(own)))
    {
      var lines := Lines(text);
      for i := 0 to |lines|
        invariant Valid()
        invariant pending == AddedAll(old(pending), Slices.MAX_PENDING, Hits(lines[..i], LogReader(own), hour))
        invariant blocked == AddedAll(old(blocked), MAX_BLOCKED, Blocks(lines[..i], LogReader(own)))
      {
        HitsOfMore(old(pending), lines, i, LogReader(own), hour);
        BlocksOfMore(old(blocked), lines, i, LogReader(own));
        CountFact(LogReader(own)(lines[i]), hour);
      }
      assert lines[..|lines|] == lines;
    }

    /** The text next after the offset, which moves past it; `cut`: the file grew too big and starts again. */
    method TakeChunk(tick: Tick) returns (chunk: string, cut: bool)
      modifies this`tail
      ensures (tail, chunk) == Read(old(tail), tick)
      ensures cut <==> chunk != "" && |tick.file| > TRUNCATE_AT
    {
      chunk, cut := "", false;
      var len := |tick.file|;
      if !tail.primed {
        tail := Tail(true, len);
        return;
      }
      if len < tail.offset {
        tail := tail.(offset := 0);
      }
      if len == tail.offset {
        return;
      }
      var toRead := Min(len - tail.offset, READ_CAP);
      var buf := tick.file[tail.offset..][..Min(tick.ready, toRead)];
      var n := Consume(buf, toRead);
      if n == 0 {
        return;
      }
      tail := tail.(offset := tail.offset + n);
      chunk := buf[..n];
      if len > TRUNCATE_AT {
        cut := true;
        tail := tail.(offset := 0);
      }
    }

    /** One tick of the log. */
    method IngestDnsLogAt(tick: Tick, own: string -> bool, hour: string) returns (cut: bool)
      requires Valid()
      modifies this`pending, this`blocked, this`tail
      ensures Valid()
      ensures var (after, chunk) := Read(old(tail), tick);
        && tail == after
        && pending == AddedAll(old(pending), Slices.MAX_PENDING, Hits(Lines(chunk), LogReader(own), hour))
        && blocked == AddedAll(old(blocked), MAX_BLOCKED, Blocks(Lines(chunk), LogReader(own)))
        && (cut <==> chunk != "" && |tick.file| > TRUNCATE_AT)
    {
      var chunk;
      chunk, cut := TakeChunk(tick);
      if chunk != "" {
        IngestLines(chunk, own, hour);
      }
    }

    /** Up to `cap` slices leave the table for posting. */
    method Drain(cap: nat) returns (batch: seq<Slices.Slice>)
      requires Valid()
      modifies this`pending
      ensures Valid() && Slices.DrainedFrom(old(pending), batch)
      ensures pending == Slices.Without(old(pending), KeysOf(batch))
      ensures |batch| == if |old(pending)| < cap then |old(pending)| else cap
    {
      batch := [];
      ghost var was := pending;
      while |batch| < cap && pending != map[]
        invariant Valid() && |batch| <= cap && |batch| + |pending| == |was|
        invariant Slices.DrainedFrom(was, batch)
        invariant pending == Slices.Without(was, KeysOf(batch))
        decreases |pending|
      {
        var k :| k in pending;
        var e := Entry(k, pending[k]);
        pending := pending - {k};
        Slices.DrainsOne(was, batch, e);
        batch := batch + [e];
      }
    }

    /** A batch whose post failed goes back. */
    method Requeue(batch: seq<Slices.Slice>)
      requires Valid()
      modifies this`pending
      ensures Valid() && pending == AddedAll(old(pending), Slices.MAX_PENDING, batch)
    {
      for i := 0 to |batch|
        invariant Valid() && pending == AddedAll(old(pending), Slices.MAX_PENDING, batch[..i])
      {
        assert batch[..i + 1][..i] == batch[..i];
        var e := batch[i];
        AddKeepsBound(pending, Slices.MAX_PENDING, e);
        if |pending| < Slices.MAX_PENDING || e.key in pending {
          pending := pending[e.key := Amount(pending, e.key) + e.amount];
        }
      }
      assert batch[..|batch|] == batch;
    }

    /** The blocked names so far, which are forgotten. */
    method TakeBlocked() returns (taken: Table<string>)
      requires Valid()
      modifies this`blocked
      ensures Valid() && taken == old(blocked) && blocked == map[]
    {
      taken := blocked;
      blocked := map[];
    }
  }

  // ---- What tailing counts is what one pass counts ----

  lemma HitsOfLast(lines: seq<string>, last: string, read: Reader, hour: string)
    ensures Hits(lines + [last], read, hour) == Hits(lines, read, hour) + HitOf(read(last), hour)
  {
    assert (lines + [last])[..|lines|] == lines;
  }

  lemma BlocksOfLast(lines: seq<string>, last: string, read: Reader)
    ensures Blocks(lines + [last], read) == Blocks(lines, read) + BlockOf(read(last))
  {
    assert (lines + [last])[..|lines|] == lines;
  }

  lemma {:induction false} HitsOfParts(a: seq<string>, b: seq<string>, read: Reader, hour: string)
    ensures Hits(a + b, read, hour) == Hits(a, read, hour) + Hits(b, read, hour)
  {
    if b == [] {
      assert a + b == a;
    } else {
      var rest, last := b[..|b| - 1], b[|b| - 1];
      assert a + b == (a + rest) + [last] && b == rest + [last];
      HitsOfLast(a + rest, last, read, hour);
      HitsOfParts(a, rest, read, hour);
      Regroup(Hits(a, read, hour), Hits(rest, read, hour), HitOf(read(last), hour));
    }
  }

  lemma {:induction false} BlocksOfParts(a: seq<string>, b: seq<string>, read: Reader)
    ensures Blocks(a + b, read) == Blocks(a, read) + Blocks(b, read)
  {
    if b == [] {
      assert a + b == a;
    } else {
      var rest, last := b[..|b| - 1], b[|b| - 1];
      assert a + b == (a + rest) + [last] && b == rest + [last];
      BlocksOfLast(a + rest, last, read);
      BlocksOfParts(a, rest, read);
      Regroup(Blocks(a, read), Blocks(rest, read), BlockOf(read(last)));
    }
  }

  // ---- What the walks come to ----

  /** One walk, with what is remembered after it, what it credited, and the hour it was. */
  datatype Walked = Walked(sight: Sight, seen: map<Key, Seen>, credits: seq<Slices.Slice>, hour: string)

  function Sights(walks: seq<Walked>): (h: seq<Sight>)
    ensures |h| == |walks|
  {
    if walks == [] then [] else Sights(walks[..|walks| - 1]) + [walks[|walks| - 1].sight]
  }

  function Remembered(walks: seq<Walked>): map<Key, Seen> {
    if walks == [] then map[] else walks[|walks| - 1].seen
  }

  /** Each walk went as CountApps promises, for `k`. */
  ghost predicate WentRight(walks: seq<Walked>, k: Key) {
    walks != [] ==>
      var before, w := walks[..|walks| - 1], walks[|walks| - 1];
      WentRight(before, k) && CreditedAs(Remembered(before), w.sight, w.seen, w.credits, k, w.hour)
  }

  /** All that `k` was credited, in whatever hours. */
  function AllCredited(walks: seq<Walked>, k: Key): int {
    if walks == [] then 0
    else AllCredited(walks[..|walks| - 1], k) + Total(walks[|walks| - 1].credits, AppKey(k, walks[|walks| - 1].hour))
  }

  lemma {:induction false} WalksCredit(walks: seq<Walked>, k: Key)
    requires WentRight(walks, k)
    ensures AllCredited(walks, k) == Credited(Sights(walks)) && Seeing(Remembered(walks), k) == SeenAfter(Sights(walks))
  {
    if walks == [] {
    } else {
      var before := walks[..|walks| - 1];
      WalksCredit(before, k);
      assert Sights(walks)[..|walks| - 1] == Sights(before);
    }
  }

  /** Over any run of walks every app of every person is credited what its stays deserve, whatever else runs. */
  lemma {:induction false} WalksCreditWhatIsDeserved(walks: seq<Walked>, k: Key)
    requires WentRight(walks, k) && ValidSights(Sights(walks))
    ensures AllCredited(walks, k) == Deserved(Sights(walks))
  {
    WalksCredit(walks, k);
    CreditIsDeserved(Sights(walks));
  }

  // ---- What the lines of a log come to ----

  /** How many lines look up a name of `site`, a site with a dot, for a person. */
  function LookedUp(lines: seq<string>, own: string -> bool, site: string): nat {
    if lines == [] then 0
    else
      var name := Queried(lines[|lines| - 1]);
      LookedUp(lines[..|lines| - 1], own, site)
      + if name.Some? && !own(TrimDots(name.value)) && Registrable(name.value) == site && '.' in site then 1 else 0
  }

  /** How many lines look no name up and answer `n` as blocked, to a person's lookup. */
  ghost function AnsweredBlocked(lines: seq<string>, own: string -> bool, n: string): nat {
    if lines == [] then 0
    else
      var line := lines[|lines| - 1];
      AnsweredBlocked(lines[..|lines| - 1], own, n)
      + if Queried(line).None? && CountsAsBlock(Words(line), own, n) then 1 else 0
  }

  lemma HitOfLine(line: string, own: string -> bool, site: string, hour: string)
    ensures Total(HitOf(ReadLine(line, own), hour), Slices.SliceKey("", hour, Slices.Site, site)) == LookedUp([line], own, site)
  {
    var one := HitOf(ReadLine(line, own), hour);
    assert LookedUp([], own, site) == 0 && [line][..0] == [];
    if one != [] {
      TotalLast([], one[0], Slices.SliceKey("", hour, Slices.Site, site));
    }
    if Queried(line).None? {
      BlockIsCountedIff(line, Words(line), own, "");
    } else {
      QueriedIsRead(line, Queried(line).value, own);
    }
  }

  lemma BlockOfLine(line: string, own: string -> bool, n: string)
    ensures Total(BlockOf(ReadLine(line, own)), n) == AnsweredBlocked([line], own, n)
  {
    var fact := ReadLine(line, own);
    assert AnsweredBlocked([], own, n) == 0 && [line][..0] == [];
    if fact.Blocked? {
      TotalLast([], Entry(fact.name, 1), n);
    }
    if Queried(line).None? {
      BlockIsCountedIff(line, Words(line), own, n);
    } else {
      QueriedIsRead(line, Queried(line).value, own);
    }
  }

  lemma {:induction false} TotalOfParts<K>(a: seq<Entry<K>>, b: seq<Entry<K>>, k: K)
    ensures Total(a + b, k) == Total(a, k) + Total(b, k)
  {
    if b == [] {
      assert a + b == a;
    } else {
      var n := |b| - 1;
      assert (a + b)[..|a| + n] == a + b[..n] && (a + b)[|a| + n] == b[n];
      TotalOfParts(a, b[..n], k);
    }
  }

  /** Each line that looks a site up for a person adds one to the site in that hour; nothing else adds to a site. */
  lemma {:induction false} HitsAreLookups(lines: seq<string>, own: string -> bool, site: string, hour: string)
    ensures Total(Hits(lines, LogReader(own), hour), Slices.SliceKey("", hour, Slices.Site, site)) == LookedUp(lines, own, site)
  {
    if lines == [] {
    } else {
      var rest, last := lines[..|lines| - 1], lines[|lines| - 1];
      HitsAreLookups(rest, own, site, hour);
      HitOfLine(last, own, site, hour);
      assert [last][..0] == [] && LookedUp([], own, site) == 0;
      TotalOfParts(Hits(rest, LogReader(own), hour), HitOf(ReadLine(last, own), hour), Slices.SliceKey("", hour, Slices.Site, site));
    }
  }

  /** Each line that answers a person's lookup of a name as blocked adds one to the name; nothing else does. */
  lemma {:induction false} BlocksAreAnswers(lines: seq<string>, own: string -> bool, n: string)
    ensures Total(Blocks(lines, LogReader(own)), n) == AnsweredBlocked(lines, own, n)
  {
    if lines == [] {
    } else {
      var rest, last := lines[..|lines| - 1], lines[|lines| - 1];
      BlocksAreAnswers(rest, own, n);
      BlockOfLine(last, own, n);
      assert [last][..0] == [] && AnsweredBlocked([], own, n) == 0;
      TotalOfParts(Blocks(rest, LogReader(own)), BlockOf(ReadLine(last, own)), n);
    }
  }

  /**
   The text of a tick: every blocked name gains the lines that block it, unless it was absent from a
   full table of 256; and with room for them all, each does.
   */
  lemma BlockedGains(table: Table<string>, text: string, own: string -> bool, n: string)
    requires |table| <= 256
    ensures var (lines, after) := (Lines(text), AddedAll(table, MAX_BLOCKED, Blocks(Lines(text), LogReader(own))));
      && (|| Amount(after, n) == Amount(table, n) + AnsweredBlocked(lines, own, n)
          || (n !in table && n !in after && |after| == 256))
      && (|table.Keys + KeysOf(Blocks(lines, LogReader(own)))| <= 256 ==>
            Amount(after, n) == Amount(table, n) + AnsweredBlocked(lines, own, n))
  {
    var all := Blocks(Lines(text), LogReader(own));
    AllOrNothing(table, MAX_BLOCKED, all, n);
    WholeIffFits(table, MAX_BLOCKED, all, n);
    BlocksAreAnswers(Lines(text), own, n);
  }

  /** So does a site's slice of the hour gain the lines that look it up, but for a slice absent from a full table. */
  lemma HitsGain(table: Table<Slices.SliceKey>, text: string, own: string -> bool, site: string, hour: string)
    requires |table| <= 2000
    ensures var (after, k) := (AddedAll(table, Slices.MAX_PENDING, Hits(Lines(text), LogReader(own), hour)),
                               Slices.SliceKey("", hour, Slices.Site, site));
      || Amount(after, k) == Amount(table, k) + LookedUp(Lines(text), own, site)
      || (k !in table && k !in after && |after| == 2000)
  {
    AllOrNothing(table, Slices.MAX_PENDING, Hits(Lines(text), LogReader(own), hour),
                 Slices.SliceKey("", hour, Slices.Site, site));
    HitsAreLookups(Lines(text), own, site, hour);
  }

  /** The hits of a site, however the ticks fall over the hours. */
  function HitsOn(lines: seq<string>, read: Reader, site: string): int {
    Total(Hits(lines, read, ""), SiteKey(site, ""))
  }

  function HitsTicked(chunks: seq<string>, read: Reader, site: string): int {
    if chunks == [] then 0
    else HitsTicked(chunks[..|chunks| - 1], read, site) + HitsOn(Lines(chunks[|chunks| - 1]), read, site)
  }

  /** The blocked names after ticks that pass on `chunks`, nothing being taken meanwhile. */
  function BlockedTicked(chunks: seq<string>, read: Reader): Table<string> {
    if chunks == [] then map[]
    else AddedAll(BlockedTicked(chunks[..|chunks| - 1], read), MAX_BLOCKED, Blocks(Lines(chunks[|chunks| - 1]), read))
  }

  lemma {:induction false} TickedIsAllLines(chunks: seq<string>, read: Reader, site: string)
    ensures HitsTicked(chunks, read, site) == HitsOn(LinesOf(chunks), read, site)
    ensures BlockedTicked(chunks, read) == AddedAll(map[], MAX_BLOCKED, Blocks(LinesOf(chunks), read))
  {
    if chunks == [] {
    } else {
      var rest, last := chunks[..|chunks| - 1], chunks[|chunks| - 1];
      TickedIsAllLines(rest, read, site);
      HitsOfParts(LinesOf(rest), Lines(last), read, "");
      TotalOfParts(Hits(LinesOf(rest), read, ""), Hits(Lines(last), read, ""), SiteKey(site, ""));
      BlocksOfParts(LinesOf(rest), Lines(last), read);
      InTwoGoes(map[], MAX_BLOCKED, Blocks(LinesOf(rest), read), Blocks(Lines(last), read));
    }
  }

  /**
   Over any appends, short reads and ticks, with every line shorter than a read: each site's hits are
   those of one pass over the text, and so are the blocked names, whose counts are exact while they
   are within the bound.
   */
  lemma TailingCountsOnePass(ticks: seq<Tick>, read: Reader, site: string, name: string)
    requires ticks != [] && AppendOnly(ticks)
    requires var (t, start, file) := (TailAfter(ticks), |ticks[0].file|, ticks[|ticks| - 1].file);
      start <= t.offset <= |file| ==> NoOverlong(file[start..t.offset])
    ensures var (t, start, file) := (TailAfter(ticks), |ticks[0].file|, ticks[|ticks| - 1].file);
      start <= t.offset <= |file| &&
      var lines := Lines(file[start..t.offset]);
      && HitsTicked(Chunks(ticks), read, site) == HitsOn(lines, read, site)
      && BlockedTicked(Chunks(ticks), read) == AddedAll(map[], MAX_BLOCKED, Blocks(lines, read))
      && (|KeysOf(Blocks(lines, read))| <= MAX_BLOCKED
          ==> Amount(BlockedTicked(Chunks(ticks), read), name) == Total(Blocks(lines, read), name))
  {
    TailingIsOnePass(ticks);
    TickedIsAllLines(Chunks(ticks), read, site);
    var all := Blocks(LinesOf(Chunks(ticks)), read);
    var none: Table<string> := map[];
    WholeIffFits(none, MAX_BLOCKED, all, name);
    assert none.Keys + KeysOf(all) == KeysOf(all);
  }
}
