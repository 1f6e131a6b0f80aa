/**
 What the console is told of the parts of the computer that aren't being enforced: one incident for
 an area when its first gap appears, none while it lasts, restarts included.
 */
module Gaps {
  import opened Strings

  datatype Gap = Gap(kind: string, detail: string)

  datatype Degraded = Degraded(kind: string, kinds: seq<string>, details: seq<string>)

  const AREAS := [("dns_", "dns"), ("firewall_", "firewall"), ("vpn_", "vpn")]

  function AreaAmong(kind: string, areas: seq<(string, string)>): string {
    if areas == [] then kind
    else if areas[0].0 <= kind then areas[0].1
    else AreaAmong(kind, areas[1..])
  }

  /** The part of the computer a gap is about. */
  function AreaOf(kind: string): string {
    AreaAmong(kind, AREAS)
  }

  /** Whatever fails of the resolver is one area, of the firewall another, of the tunnels a third; any other gap is its own. */
  lemma AreaMeans(kind: string)
    ensures AreaOf(kind) ==
      if "dns_" <= kind then "dns" else if "firewall_" <= kind then "firewall" else if "vpn_" <= kind then "vpn" else kind
  {
    var two, one := AREAS[1..], AREAS[2..];
    assert two[1..] == one && one[1..] == [];
    assert AreaAmong(kind, []) == kind;
    assert AreaAmong(kind, one) == if "vpn_" <= kind then "vpn" else kind;
    assert AreaAmong(kind, two) == if "firewall_" <= kind then "firewall" else AreaAmong(kind, one);
  }

  predicate Stands(now: seq<Gap>, area: string) {
    now != [] && (Stands(now[..|now| - 1], area) || AreaOf(now[|now| - 1].kind) == area)
  }

  /** The gaps of one area, in order. */
  function Within(now: seq<Gap>, area: string): seq<Gap> {
    if now == [] then []
    else
      var rest, g := Within(now[..|now| - 1], area), now[|now| - 1];
      if AreaOf(g.kind) == area then rest + [g] else rest
  }

  function Kinds(gaps: seq<Gap>): seq<string> {
    seq(|gaps|, i requires 0 <= i < |gaps| => gaps[i].kind)
  }

  function Details(gaps: seq<Gap>): seq<string> {
    seq(|gaps|, i requires 0 <= i < |gaps| => gaps[i].detail)
  }

  function Report(now: seq<Gap>, kind: string): Degraded {
    var within := Within(now, AreaOf(kind));
    Degraded(kind, Kinds(within), Details(within))
  }

  /** The incidents that start with the gaps `walked` so far, of all those standing `now`. */
  function Incidents(walked: seq<Gap>, now: seq<Gap>, reported: seq<string>): seq<Degraded> {
    if walked == [] then []
    else
      var before, kind := walked[..|walked| - 1], walked[|walked| - 1].kind;
      Incidents(before, now, reported)
      + (if Stands(before, AreaOf(kind)) || AreaOf(kind) in reported then [] else [Report(now, kind)])
  }

  method GapsWithin(now: seq<Gap>, area: string) returns (gaps: seq<Gap>)
    ensures gaps == Within(now, area)
  {
    gaps := [];
    for i := 0 to |now|
      invariant gaps == Within(now[..i], area)
    {
      assert now[..i + 1][..i] == now[..i];
      if AreaOf(now[i].kind) == area {
        gaps := gaps + [now[i]];
      }
    }
    assert now[..|now|] == now;
  }

  function AreasOf(now: seq<Gap>): seq<string> {
    if now == [] then [] else AreasOf(now[..|now| - 1]) + [AreaOf(now[|now| - 1].kind)]
  }

  function OpenAreas(now: seq<Gap>): seq<string> {
    Arranged(AreasOf(now))
  }

  lemma {:induction false} AreasOfStanding(now: seq<Gap>, area: string)
    ensures area in AreasOf(now) <==> Stands(now, area)
  {
    if now == [] {
    } else {
      AreasOfStanding(now[..|now| - 1], area);
    }
  }

  lemma OpenAreasMean(now: seq<Gap>)
    ensures Ordered(OpenAreas(now)) && forall a :: a in OpenAreas(now) <==> Stands(now, a)
  {
    ArrangedMeans(AreasOf(now));
    forall a
      ensures a in AreasOf(now) <==> Stands(now, a)
    {
      AreasOfStanding(now, a);
    }
  }

  lemma OpenIsOpenAreas(open: seq<string>, now: seq<Gap>)
    requires Ordered(open) && forall a :: a in open <==> Stands(now, a)
    ensures open == OpenAreas(now)
  {
    OpenAreasMean(now);
    OrderedIsUnique(open, OpenAreas(now));
  }

  /** The incidents worth telling of, and the areas now open: exactly those with a gap, sorted, each once. */
  method GapIncidents(reported: seq<string>, now: seq<Gap>) returns (events: seq<Degraded>, open: seq<string>)
    ensures events == Incidents(now, now, reported)
    ensures Ordered(open) && forall a :: a in open <==> Stands(now, a)
    ensures open == OpenAreas(now)
  {
    events, open := [], [];
    for i := 0 to |now|
      invariant events == Incidents(now[..i], now, reported)
      invariant forall a :: a in open <==> Stands(now[..i], a)
    {
      assert now[..i + 1][..i] == now[..i];
      var area := AreaOf(now[i].kind);
      if area !in open {
        open := open + [area];
        if area !in reported {
          var gaps := GapsWithin(now, area);
          events := events + [Degraded(now[i].kind, Kinds(gaps), Details(gaps))];
        }
      }
    }
    assert now[..|now|] == now;
    ArrangedMeans(open);
    open := Arranged(open);
    OpenIsOpenAreas(open, now);
  }

  // ---- What the incidents of one apply are ----

  function EventsOf(events: seq<Degraded>, area: string): nat {
    if events == [] then 0
    else EventsOf(events[..|events| - 1], area) + (if AreaOf(events[|events| - 1].kind) == area then 1 else 0)
  }

  lemma EventsOfLast(events: seq<Degraded>, e: Degraded, area: string)
    ensures EventsOf(events + [e], area) == EventsOf(events, area) + (if AreaOf(e.kind) == area then 1 else 0)
  {
    assert (events + [e])[..|events|] == events;
  }

  /** One for each area with a gap that was not already reported, and none for any other. */
  lemma {:induction false} OnePerNewArea(walked: seq<Gap>, now: seq<Gap>, reported: seq<string>, area: string)
    ensures EventsOf(Incidents(walked, now, reported), area) == if Stands(walked, area) && area !in reported then 1 else 0
  {
    if walked == [] {
    } else {
      var before, kind := walked[..|walked| - 1], walked[|walked| - 1].kind;
      OnePerNewArea(before, now, reported, area);
      var sent := Incidents(before, now, reported);
      if Stands(before, AreaOf(kind)) || AreaOf(kind) in reported {
        assert Incidents(walked, now, reported) == sent;
      } else {
        EventsOfLast(sent, Report(now, kind), area);
      }
    }
  }

  lemma {:induction false} StandsMeans(now: seq<Gap>, area: string)
    ensures Stands(now, area) <==> exists i :: 0 <= i < |now| && AreaOf(now[i].kind) == area
  {
    if now == [] {
    } else {
      StandsMeans(now[..|now| - 1], area);
    }
  }

  /** An event is named after the first gap of its area. */
  lemma {:induction false} NamedAfterTheFirst(walked: seq<Gap>, now: seq<Gap>, reported: seq<string>, e: Degraded)
    requires e in Incidents(walked, now, reported)
    ensures exists i :: 0 <= i < |walked| && walked[i].kind == e.kind
                        && forall j :: 0 <= j < i ==> AreaOf(walked[j].kind) != AreaOf(e.kind)
  {
    var before := walked[..|walked| - 1];
    if e in Incidents(before, now, reported) {
      NamedAfterTheFirst(before, now, reported, e);
      var i :| 0 <= i < |before| && before[i].kind == e.kind
               && forall j :: 0 <= j < i ==> AreaOf(before[j].kind) != AreaOf(e.kind);
      assert walked[i].kind == e.kind && forall j :: 0 <= j < i ==> walked[j] == before[j];
    } else {
      StandsMeans(before, AreaOf(e.kind));
      assert forall j :: 0 <= j < |before| ==> walked[j] == before[j];
    }
  }

  function Occurs(gaps: seq<Gap>, g: Gap): nat {
    if gaps == [] then 0 else Occurs(gaps[..|gaps| - 1], g) + (if gaps[|gaps| - 1] == g then 1 else 0)
  }

  lemma {:induction false} OccursWithin(now: seq<Gap>, area: string, g: Gap)
    ensures Occurs(Within(now, area), g) == if AreaOf(g.kind) == area then Occurs(now, g) else 0
  {
    if now == [] {
    } else {
      var rest, last := Within(now[..|now| - 1], area), now[|now| - 1];
      OccursWithin(now[..|now| - 1], area, g);
      assert (rest + [last])[..|rest|] == rest;
    }
  }

  /** How often an event lists `g`: its kind and, at the same place, its detail. */
  function Listed(kinds: seq<string>, details: seq<string>, g: Gap): nat
    requires |kinds| == |details|
  {
    if kinds == [] then 0
    else
      var n := |kinds| - 1;
      Listed(kinds[..n], details[..n], g) + (if kinds[n] == g.kind && details[n] == g.detail then 1 else 0)
  }

  lemma {:induction false} ListedOf(gaps: seq<Gap>, g: Gap)
    ensures Listed(Kinds(gaps), Details(gaps), g) == Occurs(gaps, g)
  {
    if gaps == [] {
    } else {
      var n := |gaps| - 1;
      ListedOf(gaps[..n], g);
      assert Kinds(gaps)[..n] == Kinds(gaps[..n]) && Details(gaps)[..n] == Details(gaps[..n]);
    }
  }

  lemma {:induction false} EventIsReport(walked: seq<Gap>, now: seq<Gap>, reported: seq<string>, e: Degraded)
    requires e in Incidents(walked, now, reported)
    ensures e == Report(now, e.kind)
  {
    if e in Incidents(walked[..|walked| - 1], now, reported) {
      EventIsReport(walked[..|walked| - 1], now, reported, e);
    }
  }

  /** Each event of an apply lists the gaps of its area as often as they stand, and no others. */
  lemma ListsWholeArea(now: seq<Gap>, reported: seq<string>, e: Degraded, g: Gap)
    requires e in Incidents(now, now, reported)
    ensures |e.kinds| == |e.details|
    ensures Listed(e.kinds, e.details, g) == if AreaOf(g.kind) == AreaOf(e.kind) then Occurs(now, g) else 0
  {
    EventIsReport(now, now, reported, e);
    ListedOf(Within(now, AreaOf(e.kind)), g);
    OccursWithin(now, AreaOf(e.kind), g);
  }

  // ---- Over a whole history, restarts included ----

  /** The network rules applied, with the gaps they leave; or a restart, which reads back what was reported. */
  datatype Step = Apply(now: seq<Gap>) | Restart

  /** What was reported so far: kept on disk, so the same after a restart. */
  function Reported(h: seq<Step>): seq<string> {
    if h == [] then []
    else match h[|h| - 1]
      case Restart => Reported(h[..|h| - 1])
      case Apply(now) => OpenAreas(now)
  }

  /** The gaps that stood when the rules were last applied. */
  function LastApplied(h: seq<Step>): seq<Gap> {
    if h == [] then []
    else match h[|h| - 1]
      case Restart => LastApplied(h[..|h| - 1])
      case Apply(now) => now
  }

  lemma {:induction false} ReportedIsStanding(h: seq<Step>, area: string)
    ensures area in Reported(h) <==> Stands(LastApplied(h), area)
  {
    if h == [] {
    } else {
      ReportedIsStanding(h[..|h| - 1], area);
      if h[|h| - 1].Apply? {
        OpenAreasMean(h[|h| - 1].now);
      }
    }
  }

  /**
   However often the agent restarts, an apply sends one event for an area exactly when the area has a
   gap now and had none when the rules were applied before: a rising edge.
   */
  lemma OneEventPerRisingEdge(h: seq<Step>, now: seq<Gap>, area: string)
    ensures EventsOf(Incidents(now, now, Reported(h)), area)
      == if Stands(now, area) && !Stands(LastApplied(h), area) then 1 else 0
  {
    OnePerNewArea(now, now, Reported(h), area);
    ReportedIsStanding(h, area);
  }
}
