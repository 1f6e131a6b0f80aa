/**
 The retry buffer of undelivered events: the tick, the commands and the lock produce into
 it, one flusher takes batches out, posts them without holding the agent, and puts a failed
 batch back in front.
 */
module EventQueue {
  import opened Options

  const PENDING_EVENTS_CAP := 512
  const EVENT_BATCH_MAX := 100

  /** The newest `PENDING_EVENTS_CAP` events. */
  function Capped<T>(events: seq<T>): seq<T> {
    if |events| > PENDING_EVENTS_CAP then events[|events| - PENDING_EVENTS_CAP..] else events
  }

  function BatchSize(n: nat): nat {
    if n < EVENT_BATCH_MAX then n else EVENT_BATCH_MAX
  }

  class Buffer<T> {
    var pending: seq<T>

    constructor (first: seq<T>)
      ensures pending == first
    {
      pending := first;
    }

    method CapPending()
      modifies this
      ensures pending == Capped(old(pending))
    {
      if |pending| > PENDING_EVENTS_CAP {
        var excess := |pending| - PENDING_EVENTS_CAP;
        pending := pending[excess..];
      }
    }

    method QueueEvents(events: seq<T>)
      modifies this
      ensures pending == Capped(old(pending) + events)
    {
      pending := pending + events;
      CapPending();
    }

    /** The lock's and the commands' own events are pushed as they are. */
    method Push(event: T)
      modifies this
      ensures pending == old(pending) + [event]
    {
      pending := pending + [event];
    }

    /** The first half of a flush; nothing to send gives an empty batch. */
    method TakeBatch() returns (batch: seq<T>)
      modifies this
      ensures batch + pending == Capped(old(pending))
      ensures |batch| == BatchSize(|Capped(old(pending))|)
    {
      CapPending();
      var take := BatchSize(|pending|);
      batch, pending := pending[..take], pending[take..];
    }

    /** The second half of a flush whose post failed. */
    method PutBack(batch: seq<T>)
      modifies this
      ensures pending == Capped(batch + old(pending))
    {
      var rest := pending;
      pending := batch;
      pending := pending + rest;
      CapPending();
    }
  }

  // ---- The interleaved protocol ----

  /** One step of a producer or of the flusher. */
  datatype Step<T> =
    | Queue(events: seq<T>)
    | PushOne(event: T)
    | Begin
    | Posted
    | Failed

  /** Everything produced so far, what waits, the batch in flight, and what was delivered. */
  datatype State<T> = State(produced: seq<T>, pending: seq<T>, flight: Option<seq<T>>, delivered: seq<T>)

  function Next<T>(s: State<T>, step: Step<T>): State<T> {
    match step
    case Queue(events) =>
      s.(produced := s.produced + events, pending := Capped(s.pending + events))
    case PushOne(event) =>
      s.(produced := s.produced + [event], pending := s.pending + [event])
    case Begin =>
      var all := Capped(s.pending);
      var take := BatchSize(|all|);
      if s.flight.Some? then s
      else if all == [] then s.(pending := all)
      else s.(flight := Some(all[..take]), pending := all[take..])
    case Posted =>
      if s.flight.None? then s else s.(flight := None, delivered := s.delivered + s.flight.value)
    case Failed =>
      if s.flight.None? then s else s.(flight := None, pending := Capped(s.flight.value + s.pending))
  }

  function Run<T>(s: State<T>, steps: seq<Step<T>>): State<T> {
    if steps == [] then s else Next(Run(s, steps[..|steps| - 1]), steps[|steps| - 1])
  }

  /** The agent's start: whatever it already had to say is waiting. */
  function Started<T>(first: seq<T>): State<T> {
    State(first, first, None, [])
  }

  // ---- Where every event is ----

  /**
   Positions in `produced`: of the delivered events, of the batch in flight (`from..to`), and
   of the waiting ones (from `start` on).
   */
  datatype Places = Places(sent: seq<nat>, from: nat, to: nat, start: nat)

  predicate Held(w: Places, k: nat) {
    k >= w.start || w.from <= k < w.to || k in w.sent
  }

  /**
   The buffer is a suffix of everything produced; delivered, in flight and waiting are in
   the order they were produced in; what was dropped while a batch was in flight left a full
   buffer; and an event nobody holds has a full buffer's worth of newer ones.
   */
  ghost predicate Placed<T>(s: State<T>, w: Places) {
    && w.from <= w.to <= w.start <= |s.produced|
    && s.pending == s.produced[w.start..]
    && (forall i, j :: 0 <= i < j < |w.sent| ==> w.sent[i] < w.sent[j])
    && (forall i :: 0 <= i < |w.sent| ==> w.sent[i] < w.from)
    && |w.sent| == |s.delivered|
    && (forall i :: 0 <= i < |w.sent| ==> s.delivered[i] == s.produced[w.sent[i]])
    && (s.flight.None? ==> w.from == w.to)
    && (s.flight.Some? ==> s.flight.value == s.produced[w.from..w.to])
    && (s.flight.Some? ==> 0 < |s.flight.value| <= 100)
    && (s.flight.Some? ==> w.to == w.start || |s.pending| >= 512)
    && (forall k: nat :: k < |s.produced| && !Held(w, k) ==> k + 512 < |s.produced|)
  }

  /** Dropping from the front keeps a suffix a suffix. */
  lemma CappedSuffix<T>(all: seq<T>, start: nat) returns (from: nat)
    requires start <= |all|
    ensures start <= from <= |all| && Capped(all[start..]) == all[from..]
    ensures from == start || |all| - from == PENDING_EVENTS_CAP
  {
    from := if |all| - start > PENDING_EVENTS_CAP then |all| - PENDING_EVENTS_CAP else start;
  }

  lemma CapKeepsPlaces<T>(s: State<T>, w: Places) returns (v: Places)
    requires Placed(s, w)
    ensures Placed(s.(pending := Capped(s.pending)), v)
  {
    var start := CappedSuffix(s.produced, w.start);
    v := w.(start := start);
    forall k: nat | k < |s.produced| && !Held(v, k)
      ensures k + PENDING_EVENTS_CAP < |s.produced|
    {
      if k < w.start {
        assert !Held(w, k);
      }
    }
  }

  lemma ProduceKeepsPlaces<T>(s: State<T>, w: Places, events: seq<T>)
    requires Placed(s, w)
    ensures Placed(s.(produced := s.produced + events, pending := s.pending + events), w)
  {
    assert s.pending + events == (s.produced + events)[w.start..];
    forall k: nat | k < |s.produced + events| && !Held(w, k)
      ensures k + PENDING_EVENTS_CAP < |s.produced + events|
    {
      assert k < |s.produced|;
    }
  }

  lemma BeginKeepsPlaces<T>(s: State<T>, w: Places) returns (v: Places)
    requires Placed(s, w) && s.flight.None?
    ensures Placed(Next(s, Begin), v)
  {
    var u := CapKeepsPlaces(s, w);
    var take := BatchSize(|s.produced| - u.start);
    v := Places(u.sent, u.start, u.start + take, u.start + take);
    assert Next(s, Begin).pending == s.produced[v.start..];
    forall k: nat | k < |s.produced| && !Held(v, k)
      ensures k + PENDING_EVENTS_CAP < |s.produced|
    {
      assert !Held(u, k);
    }
  }

  lemma PostedKeepsPlaces<T>(s: State<T>, w: Places) returns (v: Places)
    requires Placed(s, w) && s.flight.Some?
    ensures Placed(Next(s, Posted), v)
  {
    var batch := seq(w.to - w.from, i => w.from + i);
    v := Places(w.sent + batch, w.to, w.to, w.start);
    forall k: nat | Held(w, k)
      ensures Held(v, k)
    {
      if w.from <= k < w.to {
        assert v.sent[|w.sent| + (k - w.from)] == k;
      }
    }
  }

  /** Nothing was dropped meanwhile: the batch goes back where it was, and the oldest go over the cap. */
  lemma PutBackWhole<T>(s: State<T>, w: Places) returns (v: Places)
    requires Placed(s, w) && s.flight.Some? && w.to == w.start
    ensures Placed(Next(s, Failed), v)
  {
    assert s.flight.value + s.pending == s.produced[w.from..];
    var from := CappedSuffix(s.produced, w.from);
    v := Places(w.sent, from, from, from);
    forall k: nat | k < |s.produced| && !Held(v, k)
      ensures k + PENDING_EVENTS_CAP < |s.produced|
    {
      if k < w.from {
        assert !Held(w, k);
      }
    }
  }

  /** Something was dropped meanwhile: the whole batch goes the same way. */
  lemma PutBackNothing<T>(s: State<T>, w: Places) returns (v: Places)
    requires Placed(s, w) && s.flight.Some? && w.to < w.start
    ensures Placed(Next(s, Failed), v)
  {
    var batch := s.flight.value;
    var from := CappedSuffix(s.produced, w.start);
    assert |batch + s.pending| - PENDING_EVENTS_CAP >= |batch|;
    assert Capped(batch + s.pending) == Capped(s.pending) == s.produced[from..];
    v := Places(w.sent, from, from, from);
    forall k: nat | k < |s.produced| && !Held(v, k)
      ensures k + PENDING_EVENTS_CAP < |s.produced|
    {
      if k < w.from || w.to <= k < w.start {
        assert !Held(w, k);
      }
    }
  }

  lemma FailedKeepsPlaces<T>(s: State<T>, w: Places) returns (v: Places)
    requires Placed(s, w) && s.flight.Some?
    ensures Placed(Next(s, Failed), v)
  {
    if w.to == w.start {
      v := PutBackWhole(s, w);
    } else {
      v := PutBackNothing(s, w);
    }
  }

  /** Whatever producers and the flusher do, and however posts end, every event is placed. */
  lemma {:induction false} AlwaysPlaced<T>(first: seq<T>, steps: seq<Step<T>>)
    ensures exists w :: Placed(Run(Started(first), steps), w)
  {
    if steps == [] {
      assert first == first[0..];
      assert Placed(Run(Started(first), steps), Places([], 0, 0, 0));
    } else {
      var n := |steps| - 1;
      AlwaysPlaced(first, steps[..n]);
      var s := Run(Started(first), steps[..n]);
      var w :| Placed(s, w);
      var v := w;
      match steps[n] {
        case Queue(events) =>
          ProduceKeepsPlaces(s, w, events);
          v := CapKeepsPlaces(s.(produced := s.produced + events, pending := s.pending + events), w);
        case PushOne(event) => ProduceKeepsPlaces(s, w, [event]);
        case Begin => if s.flight.None? { v := BeginKeepsPlaces(s, w); }
        case Posted => if s.flight.Some? { v := PostedKeepsPlaces(s, w); }
        case Failed => if s.flight.Some? { v := FailedKeepsPlaces(s, w); }
      }
      assert Placed(Run(Started(first), steps), v);
    }
  }

  /** What a reader wants of it: a suffix waits, batches fit, and only old events are lost. */
  lemma {:induction false} BufferIsASuffix<T>(first: seq<T>, steps: seq<Step<T>>)
    ensures var s := Run(Started(first), steps);
      && |s.pending| <= |s.produced| && s.pending == s.produced[|s.produced| - |s.pending|..]
      && (s.flight.Some? ==> 0 < |s.flight.value| <= 100)
  {
    AlwaysPlaced(first, steps);
    var s := Run(Started(first), steps);
    var w :| Placed(s, w);
  }

  /** All that the producers of a run queued or pushed, in order. */
  function Made<T>(steps: seq<Step<T>>): seq<T> {
    if steps == [] then []
    else
      Made(steps[..|steps| - 1])
      + match steps[|steps| - 1]
        case Queue(events) => events
        case PushOne(event) => [event]
        case _ => []
  }

  /** What is accounted for is everything there was to say at the start and everything made since. */
  lemma {:induction false} ProducedIsAllMade<T>(first: seq<T>, steps: seq<Step<T>>)
    ensures Run(Started(first), steps).produced == first + Made(steps)
  {
    if steps == [] {
      assert first + [] == first;
    } else {
      ProducedIsAllMade(first, steps[..|steps| - 1]);
    }
  }

  /** A flush with nothing in flight takes a hundred of what waits, or all of less; queueing and putting back leave at most 512. */
  lemma StepsAreBounded<T>(s: State<T>, events: seq<T>)
    ensures |Next(s, Queue(events)).pending| <= 512
    ensures s.flight.Some? ==> |Next(s, Failed).pending| <= 512 && Next(s, Begin) == s
    ensures s.flight.None? && s.pending != [] ==>
      var t := Next(s, Begin);
      t.flight.Some? && |t.flight.value| == (if |s.pending| < 100 then |s.pending| else 100) && |t.pending| <= 412
  {
  }

  /** A post that goes through: a batch taken and delivered. */
  function Round<T>(s: State<T>): State<T> {
    Next(Next(s, Begin), Posted)
  }

  /** While nothing is produced, a round delivers the oldest hundred of what waits. */
  lemma RoundDelivers<T>(s: State<T>)
    requires s.flight.None? && |s.pending| <= 512
    ensures var take := BatchSize(|s.pending|);
      Round(s) == s.(pending := s.pending[take..], delivered := s.delivered + s.pending[..take])
  {
    if s.pending == [] {
      assert s.delivered + s.pending[..0] == s.delivered;
    }
  }

  /** A flush of `rounds` posts that all go through. */
  function Flushed<T>(s: State<T>, rounds: nat): State<T>
    decreases rounds
  {
    if rounds == 0 then s else Flushed(Round(s), rounds - 1)
  }

  /** The buffer drains in order and completely, a hundred a post: a full one in six. */
  lemma {:induction false} DrainsInOrder<T>(s: State<T>, rounds: nat)
    requires s.flight.None? && |s.pending| <= 100 * rounds
    requires |s.pending| <= 512
    ensures Flushed(s, rounds) == s.(pending := [], delivered := s.delivered + s.pending)
    decreases rounds
  {
    if rounds == 0 {
      assert s.delivered + s.pending == s.delivered;
    } else {
      var take := BatchSize(|s.pending|);
      RoundDelivers(s);
      var t := Round(s);
      DrainsInOrder(t, rounds - 1);
      assert t.delivered + t.pending == s.delivered + s.pending by {
        assert s.pending == s.pending[..take] + s.pending[take..];
      }
    }
  }
}
