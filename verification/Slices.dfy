/**
 The bounded table of where-the-time-goes slices, with the batches that are drained from it,
 posted, and put back when the post fails.
 */
module Slices {
  import opened Tally

  const MAX_PENDING := 2000

  datatype Kind = App | Site

  /** `user` is empty for the whole device; `hour` names the UTC hour. */
  datatype SliceKey = SliceKey(user: string, hour: string, kind: Kind, key: string)

  type Slice = Entry<SliceKey>

  type Pending = Table<SliceKey>

  /** A batch drained from `m`: its keys are the table's, each once, with the table's amounts. */
  ghost predicate DrainedFrom(m: Pending, batch: seq<Slice>) {
    && (forall i, j :: 0 <= i < j < |batch| ==> batch[i].key != batch[j].key)
    && (forall i :: 0 <= i < |batch| ==> batch[i].key in m && batch[i].amount == m[batch[i].key])
  }

  function Without(m: Pending, keys: set<SliceKey>): Pending {
    m - keys
  }

  lemma KeysOfLast(batch: seq<Slice>, e: Slice)
    ensures KeysOf(batch + [e]) == KeysOf(batch) + {e.key}
  {
    assert (batch + [e])[..|batch|] == batch;
  }

  lemma {:induction false} KeyOf(batch: seq<Slice>, i: nat)
    requires i < |batch|
    ensures batch[i].key in KeysOf(batch)
  {
    if i < |batch| - 1 {
      KeyOf(batch[..|batch| - 1], i);
    }
  }

  /** One more slice leaves the table. */
  lemma DrainsOne(m: Pending, batch: seq<Slice>, e: Slice)
    requires DrainedFrom(m, batch) && e.key in Without(m, KeysOf(batch)) && e.amount == m[e.key]
    ensures DrainedFrom(m, batch + [e])
    ensures Without(m, KeysOf(batch + [e])) == Without(m, KeysOf(batch)) - {e.key}
  {
    forall i | 0 <= i < |batch|
      ensures batch[i].key != e.key
    {
      KeyOf(batch, i);
    }
    KeysOfLast(batch, e);
  }

  lemma {:induction false} BatchAmount(m: Pending, batch: seq<Slice>, k: SliceKey)
    requires DrainedFrom(m, batch)
    ensures Total(batch, k) == if k in KeysOf(batch) then Amount(m, k) else 0
  {
    if batch == [] {
    } else {
      var rest, last := batch[..|batch| - 1], batch[|batch| - 1];
      BatchAmount(m, rest, k);
      if last.key == k {
        NotAmong(rest, k);
      }
    }
  }

  // ---- Sampling, draining and posting, interleaved ----

  datatype Step =
    | Bump(slice: Slice)
    | Drain(batch: seq<Slice>)
    | Posted
    | Failed

  /** The table, the batch in flight, and what became of one watched key. */
  datatype State = State(pending: Pending, flight: seq<Slice>, accepted: int, posted: int, lost: int)

  const EMPTY := State(map[], [], 0, 0, 0)

  /** One poster: a batch is drained only when none is in flight. */
  ghost predicate Enabled(s: State, step: Step) {
    match step
    case Drain(batch) => s.flight == [] && DrainedFrom(s.pending, batch)
    case _ => true
  }

  function Next(s: State, step: Step, k: SliceKey): State {
    match step
    case Bump(slice) =>
      s.(pending := Added(s.pending, MAX_PENDING, slice),
         accepted := s.accepted + if slice.key == k && Takes(s.pending, MAX_PENDING, k) then slice.amount else 0)
    case Drain(batch) => s.(pending := Without(s.pending, KeysOf(batch)), flight := batch)
    case Posted => s.(flight := [], posted := s.posted + Total(s.flight, k))
    case Failed =>
      var back := AddedAll(s.pending, MAX_PENDING, s.flight);
      s.(pending := back, flight := [],
         lost := s.lost + Amount(s.pending, k) + Total(s.flight, k) - Amount(back, k))
  }

  function Run(steps: seq<Step>, k: SliceKey): State {
    if steps == [] then EMPTY else Next(Run(steps[..|steps| - 1], k), steps[|steps| - 1], k)
  }

  ghost predicate AllEnabled(steps: seq<Step>, k: SliceKey) {
    forall i :: 0 <= i < |steps| ==> Enabled(Run(steps[..i], k), steps[i])
  }

  /** Every accepted second and hit is pending, in flight, posted, or was lost going back. */
  lemma {:induction false} SlicesAreConserved(steps: seq<Step>, k: SliceKey)
    requires AllEnabled(steps, k)
    ensures var s := Run(steps, k);
      && Amount(s.pending, k) + Total(s.flight, k) + s.posted + s.lost == s.accepted
      && |s.pending| <= 2000
  {
    if steps == [] {
    } else {
      var before, step := steps[..|steps| - 1], steps[|steps| - 1];
      assert forall i :: 0 <= i < |before| ==> before[..i] == steps[..i];
      SlicesAreConserved(before, k);
      var s := Run(before, k);
      assert Enabled(Run(steps[..|before|], k), steps[|before|]);
      match step
      case Bump(slice) => AddKeepsBound(s.pending, MAX_PENDING, slice);
      case Drain(batch) =>
        BatchAmount(s.pending, batch, k);
        Smaller(Without(s.pending, KeysOf(batch)).Keys, s.pending.Keys);
      case Posted =>
      case Failed => KeepsBound(s.pending, MAX_PENDING, s.flight);
    }
  }

  /** And it is lost only by a failed post, for a key that found a full table without it. */
  lemma {:induction false} LossNeedsFullTable(steps: seq<Step>, step: Step, k: SliceKey)
    requires AllEnabled(steps + [step], k)
    ensures var (s, t) := (Run(steps, k), Run(steps + [step], k));
      t.lost != s.lost ==>
        step.Failed? && k in KeysOf(s.flight) && k !in s.pending && k !in t.pending && |t.pending| == 2000
  {
    var all := steps + [step];
    assert all[..|steps|] == steps;
    assert forall i :: 0 <= i < |steps| ==> all[..i] == steps[..i] && all[i] == steps[i];
    SlicesAreConserved(steps, k);
    var s := Run(steps, k);
    if step.Failed? {
      AllOrNothing(s.pending, MAX_PENDING, s.flight, k);
    }
  }

  // ---- Within the bound nothing is refused or lost ----

  function BumpedKeys(steps: seq<Step>): set<SliceKey> {
    if steps == [] then {}
    else
      BumpedKeys(steps[..|steps| - 1])
      + if steps[|steps| - 1].Bump? then {steps[|steps| - 1].slice.key} else {}
  }

  /** All that was sampled for `k`. */
  function Bumped(steps: seq<Step>, k: SliceKey): int {
    if steps == [] then 0
    else
      var step := steps[|steps| - 1];
      Bumped(steps[..|steps| - 1], k) + if step.Bump? && step.slice.key == k then step.slice.amount else 0
  }

  lemma {:induction false} KeysOfDrained(m: Pending, batch: seq<Slice>)
    requires DrainedFrom(m, batch)
    ensures KeysOf(batch) <= m.Keys
  {
    if batch == [] {
    } else {
      KeysOfDrained(m, batch[..|batch| - 1]);
    }
  }

  lemma BumpFits(m: Pending, slice: Slice, all: set<SliceKey>)
    requires m.Keys <= all && slice.key in all && |all| <= 2000
    ensures Takes(m, MAX_PENDING, slice.key)
  {
    if slice.key !in m {
      Smaller(m.Keys + {slice.key}, all);
    }
  }

  function Held(s: State, k: SliceKey): int {
    Amount(s.pending, k) + Total(s.flight, k) + s.posted
  }

  lemma BumpWithin(s: State, slice: Slice, k: SliceKey, all: set<SliceKey>)
    requires s.pending.Keys <= all && |all| <= 2000 && slice.key in all
    ensures var t := Next(s, Bump(slice), k);
      t.pending.Keys <= all && Held(t, k) == Held(s, k) + if slice.key == k then slice.amount else 0
  {
    Smaller(s.pending.Keys, all);
    BumpFits(s.pending, slice, all);
    AddKeepsBound(s.pending, MAX_PENDING, slice);
  }

  lemma DrainWithin(s: State, batch: seq<Slice>, k: SliceKey)
    requires Enabled(s, Drain(batch))
    ensures var t := Next(s, Drain(batch), k);
      t.pending.Keys <= s.pending.Keys && KeysOf(t.flight) <= s.pending.Keys && Held(t, k) == Held(s, k)
  {
    BatchAmount(s.pending, batch, k);
    KeysOfDrained(s.pending, batch);
  }

  lemma FailWithin(s: State, k: SliceKey, all: set<SliceKey>)
    requires s.pending.Keys + KeysOf(s.flight) <= all && |all| <= 2000
    ensures var t := Next(s, Failed, k); t.pending.Keys <= all && Held(t, k) == Held(s, k)
  {
    Smaller(s.pending.Keys, all);
    Smaller(s.pending.Keys + KeysOf(s.flight), all);
    WholeIffFits(s.pending, MAX_PENDING, s.flight, k);
    KeepsBound(s.pending, MAX_PENDING, s.flight);
  }

  /** While no more than 2000 different slices were ever sampled, all that was sampled is pending, in flight or posted. */
  lemma {:induction false} NothingIsLostWithinTheBound(steps: seq<Step>, k: SliceKey)
    requires AllEnabled(steps, k) && |BumpedKeys(steps)| <= 2000
    ensures var s := Run(steps, k);
      && Amount(s.pending, k) + Total(s.flight, k) + s.posted == Bumped(steps, k)
      && s.pending.Keys + KeysOf(s.flight) <= BumpedKeys(steps)
  {
    if steps == [] {
    } else {
      var before, step := steps[..|steps| - 1], steps[|steps| - 1];
      assert forall i :: 0 <= i < |before| ==> before[..i] == steps[..i];
      Smaller(BumpedKeys(before), BumpedKeys(steps));
      NothingIsLostWithinTheBound(before, k);
      var s := Run(before, k);
      assert Held(s, k) == Bumped(before, k);
      assert Enabled(Run(steps[..|before|], k), steps[|before|]);
      match step
      case Bump(slice) => BumpWithin(s, slice, k, BumpedKeys(steps));
      case Drain(batch) => DrainWithin(s, batch, k);
      case Posted =>
      case Failed => FailWithin(s, k, BumpedKeys(steps));
    }
  }

  /** A batch whose post goes through leaves the table and is posted whole; one whose post fails at once is back as it was. */
  lemma RoundPostsOrPutsBack(s: State, batch: seq<Slice>, k: SliceKey)
    requires s.flight == [] && DrainedFrom(s.pending, batch) && |s.pending| <= 2000
    ensures var t := Next(Next(s, Drain(batch), k), Posted, k);
      if k in KeysOf(batch)
      then t.flight == [] && k !in t.pending && t.posted == s.posted + Amount(s.pending, k)
      else t.flight == [] && Amount(t.pending, k) == Amount(s.pending, k) && t.posted == s.posted
    ensures var t := Next(Next(s, Drain(batch), k), Failed, k);
      t.flight == [] && Amount(t.pending, k) == Amount(s.pending, k) && t.posted == s.posted && t.lost == s.lost
  {
    BatchAmount(s.pending, batch, k);
    KeysOfDrained(s.pending, batch);
    var out := Next(s, Drain(batch), k);
    assert out.pending.Keys + KeysOf(batch) == s.pending.Keys;
    Smaller(out.pending.Keys, s.pending.Keys);
    WholeIffFits(out.pending, MAX_PENDING, batch, k);
  }
}
