/**
 Tailing the DNS query log: each tick reads what was appended, up to a cap, and consumes whole
 lines, so that the chunks read tick by tick say what one pass over the file would.
 */
module LogTail {
  import opened Options

  const READ_CAP := 2 * 1024 * 1024
  const TRUNCATE_AT := 20 * 1024 * 1024

  const NEWLINE: char := '\n'
  const RETURN: char := '\r'

  /** Where the tailer is, once the first tick has put it at the end of the file. */
  datatype Tail = Tail(primed: bool, offset: nat)

  /** One tick: the file as it stands, and how many bytes a read is ready to return. */
  datatype Tick = Tick(file: string, ready: nat)

  function Min(a: nat, b: nat): nat {
    if a < b then a else b
  }

  function LastNewline(s: string): (i: Option<nat>)
    ensures i.Some? ==> i.value < |s| && s[i.value] == NEWLINE
  {
    if s == [] then None
    else if s[|s| - 1] == NEWLINE then Some(|s| - 1)
    else LastNewline(s[..|s| - 1])
  }

  /** How much of `buf`, read when `toRead` was asked for, is consumed. */
  function Consume(buf: string, toRead: nat): (n: nat)
    ensures n <= |buf|
  {
    match LastNewline(buf)
    case Some(i) => i + 1
    case None => if |buf| == toRead == READ_CAP then |buf| else 0
  }

  /** One tick of the tailer, with the text it passes on. */
  function Read(t: Tail, tick: Tick): (Tail, string) {
    if !t.primed then (Tail(true, |tick.file|), "")
    else
      var from := if |tick.file| < t.offset then 0 else t.offset;
      if |tick.file| == from then (Tail(true, from), "")
      else
        var toRead := Min(|tick.file| - from, READ_CAP);
        var buf := tick.file[from..][..Min(tick.ready, toRead)];
        var n := Consume(buf, toRead);
        if n == 0 then (Tail(true, from), "")
        else (Tail(true, if |tick.file| > TRUNCATE_AT then 0 else from + n), buf[..n])
  }

  function TailAfter(ticks: seq<Tick>): Tail {
    if ticks == [] then Tail(false, 0) else Read(TailAfter(ticks[..|ticks| - 1]), ticks[|ticks| - 1]).0
  }

  /** The texts passed on, tick by tick. */
  function Chunks(ticks: seq<Tick>): (c: seq<string>)
    ensures |c| == |ticks|
  {
    if ticks == [] then []
    else Chunks(ticks[..|ticks| - 1]) + [Read(TailAfter(ticks[..|ticks| - 1]), ticks[|ticks| - 1]).1]
  }

  function Joined(chunks: seq<string>): string {
    if chunks == [] then "" else Joined(chunks[..|chunks| - 1]) + chunks[|chunks| - 1]
  }

  /** The writer only appends, and the file stays below the size at which it is cut. */
  ghost predicate AppendOnly(ticks: seq<Tick>) {
    && (forall i, j :: 0 <= i <= j < |ticks| ==> ticks[i].file <= ticks[j].file)
    && (forall i :: 0 <= i < |ticks| ==> |ticks[i].file| <= TRUNCATE_AT)
  }

  // ---- Nothing is missed and nothing read twice ----

  /** One tick takes the text next after the offset, and moves the offset past it. */
  lemma ReadTakesNext(t: Tail, tick: Tick)
    requires t.primed && t.offset <= |tick.file| <= TRUNCATE_AT
    ensures var (after, chunk) := Read(t, tick);
      && after.primed && after.offset == t.offset + |chunk| <= |tick.file|
      && chunk == tick.file[t.offset..after.offset] && |chunk| <= READ_CAP
  {
    if |tick.file| > t.offset {
      var toRead := Min(|tick.file| - t.offset, READ_CAP);
      var buf := tick.file[t.offset..][..Min(tick.ready, toRead)];
      var n := Consume(buf, toRead);
      assert buf[..n] == tick.file[t.offset..t.offset + n];
    }
  }

  /** There is no end of line in `s` from `i` on. */
  predicate NoneFrom(s: string, i: nat) {
    forall j :: i <= j < |s| ==> s[j] != '\n'
  }

  lemma {:induction false} LastNewlineIsLast(s: string)
    ensures match LastNewline(s)
      case Some(i) => NoneFrom(s, i + 1)
      case None => NoneFrom(s, 0)
  {
    if s == [] {
    } else if s[|s| - 1] != NEWLINE {
      LastNewlineIsLast(s[..|s| - 1]);
      assert forall j :: 0 <= j < |s| - 1 ==> s[..|s| - 1][j] == s[j];
    }
  }

  /**
   What a tick takes of the text it gets to see, which is at most two megabytes from where the last one
   stopped, or from the start of a file that shrank: all up to the last end of line in it. Without one it
   takes two megabytes whole, and nothing of less. A file over twenty megabytes starts again after that.
   */
  lemma TickTakes(t: Tail, tick: Tick, from: nat, got: string)
    requires t.primed && from == if |tick.file| < t.offset then 0 else t.offset
    requires got == tick.file[from..][..Min(tick.ready, Min(|tick.file| - from, 2_097_152))]
    ensures var (after, chunk) := Read(t, tick);
      && after.primed && chunk <= got
      && (NoneFrom(got, 0) ==> chunk == if |got| == 2_097_152 then got else "")
      && (!NoneFrom(got, 0) ==> chunk != "" && chunk[|chunk| - 1] == '\n' && NoneFrom(got, |chunk|))
      && after.offset == if chunk != "" && |tick.file| > 20_971_520 then 0 else from + |chunk|
  {
    LastNewlineIsLast(got);
    if |tick.file| > from {
      var n := Consume(got, Min(|tick.file| - from, READ_CAP));
      assert |got| == 2_097_152 ==> got[..|got|] == got;
      assert n > 0 ==> got[..n][n - 1] == got[n - 1];
    }
  }

  /** The first tick takes nothing of what was there before it. */
  lemma FirstTickSkips(t: Tail, tick: Tick)
    requires !t.primed
    ensures Read(t, tick) == (Tail(true, |tick.file|), "")
  {
  }

  /** One that gets to see all there is, less than two megabytes of it up to an end of line, catches up. */
  lemma CatchesUp(t: Tail, tick: Tick)
    requires t.primed && t.offset < |tick.file| <= 20_971_520 && tick.file[|tick.file| - 1] == '\n'
    requires |tick.file| - t.offset <= 2_097_152 && tick.ready >= |tick.file| - t.offset
    ensures Read(t, tick) == (Tail(true, |tick.file|), tick.file[t.offset..])
  {
    var got := tick.file[t.offset..];
    assert got[..|got|] == got && got[|got| - 1] == '\n';
    TickTakes(t, tick, t.offset, got);
  }

  lemma SlicesMeet(old_file: string, file: string, i: nat, j: nat, k: nat)
    requires old_file <= file && i <= j <= |old_file| && j <= k <= |file|
    ensures old_file[i..j] + file[j..k] == file[i..k]
  {
  }

  lemma JoinedLast(ticks: seq<Tick>)
    requires ticks != []
    ensures var before := ticks[..|ticks| - 1];
      Joined(Chunks(ticks)) == Joined(Chunks(before)) + Read(TailAfter(before), ticks[|ticks| - 1]).1
  {
    var all := Chunks(ticks);
    assert all[..|all| - 1] == Chunks(ticks[..|ticks| - 1]);
  }

  /**
   Whatever the appends, the read sizes and the partial lines, the chunks put together are the file
   from where the tailer was primed to its offset.
   */
  lemma {:induction false} ChunksAreTheFile(ticks: seq<Tick>)
    requires ticks != [] && AppendOnly(ticks)
    ensures var (t, start, file) := (TailAfter(ticks), |ticks[0].file|, ticks[|ticks| - 1].file);
      t.primed && start <= t.offset <= |file| && Joined(Chunks(ticks)) == file[start..t.offset]
  {
    var n := |ticks| - 1;
    if n == 0 {
      assert Chunks(ticks) == [""] && Joined([""]) == "";
    } else {
      ChunksAreTheFile(ticks[..n]);
      var was := TailAfter(ticks[..n]);
      ReadTakesNext(was, ticks[n]);
      JoinedLast(ticks);
      SlicesMeet(ticks[n - 1].file, ticks[n].file, |ticks[0].file|, was.offset, TailAfter(ticks).offset);
    }
  }

  // ---- Chunks are whole lines, exactly when no line is too long ----

  predicate EndsLine(s: string) {
    s == "" || s[|s| - 1] == NEWLINE
  }

  /** READ_CAP bytes from `p` on hold no end of line. */
  ghost predicate Overlong(s: string, p: nat) {
    p + READ_CAP <= |s| && forall j :: p <= j < p + READ_CAP ==> s[j] != NEWLINE
  }

  lemma {:induction false} NoNewline(s: string, j: nat)
    requires LastNewline(s).None? && j < |s|
    ensures s[j] != NEWLINE
  {
    if j < |s| - 1 {
      NoNewline(s[..|s| - 1], j);
    }
  }

  /** A chunk that is not whole lines is a full read with no end of line in it. */
  lemma ReadEndsLine(t: Tail, tick: Tick)
    requires t.primed && t.offset <= |tick.file| <= TRUNCATE_AT
    ensures var chunk := Read(t, tick).1; EndsLine(chunk) <==> !Overlong(chunk, 0)
  {
    ReadTakesNext(t, tick);
    if |tick.file| > t.offset {
      var toRead := Min(|tick.file| - t.offset, READ_CAP);
      var buf := tick.file[t.offset..][..Min(tick.ready, toRead)];
      var n := Consume(buf, toRead);
      var chunk := Read(t, tick).1;
      if LastNewline(buf).Some? {
        assert chunk == buf[..n] && chunk[|chunk| - 1] == NEWLINE;
      } else if n != 0 {
        assert chunk == buf;
        forall j | 0 <= j < |buf|
          ensures buf[j] != NEWLINE
        {
          NoNewline(buf, j);
        }
      }
    }
  }

  lemma {:induction false} ChunkOf(ticks: seq<Tick>, i: nat)
    requires AppendOnly(ticks) && i < |ticks|
    ensures var chunk := Chunks(ticks)[i]; |chunk| <= READ_CAP && (EndsLine(chunk) <==> !Overlong(chunk, 0))
  {
    var before, tick := ticks[..|ticks| - 1], ticks[|ticks| - 1];
    if i < |before| {
      ChunkOf(before, i);
    } else if before != [] {
      ChunksAreTheFile(before);
      assert before[|before| - 1].file <= tick.file;
      ReadTakesNext(TailAfter(before), tick);
      ReadEndsLine(TailAfter(before), tick);
    }
  }

  lemma {:induction false} InJoined(chunks: seq<string>, i: nat, j: nat)
    requires i < |chunks| && j < |chunks[i]|
    ensures |Joined(chunks[..i])| + j < |Joined(chunks)|
    ensures Joined(chunks)[|Joined(chunks[..i])| + j] == chunks[i][j]
  {
    var rest := chunks[..|chunks| - 1];
    if i < |rest| {
      InJoined(rest, i, j);
      assert rest[..i] == chunks[..i];
    }
  }

  /** Where position `p` of the whole lies among the pieces. */
  lemma {:induction false} PieceAt(chunks: seq<string>, p: nat) returns (i: nat, j: nat)
    requires p < |Joined(chunks)|
    ensures i < |chunks| && j < |chunks[i]| && |Joined(chunks[..i])| + j == p
  {
    var rest := chunks[..|chunks| - 1];
    if p < |Joined(rest)| {
      i, j := PieceAt(rest, p);
      assert rest[..i] == chunks[..i];
    } else {
      i, j := |rest|, p - |Joined(rest)|;
    }
  }

  /** A gap of READ_CAP bytes without an end of line runs into the end of the chunk it starts in. */
  lemma GapSplitsALine(chunks: seq<string>, p: nat) returns (c: string)
    requires Overlong(Joined(chunks), p) && forall c <- chunks :: |c| <= READ_CAP
    ensures c in chunks && !EndsLine(c)
  {
    var i, j := PieceAt(chunks, p);
    c := chunks[i];
    assert c in chunks;
    var last := |chunks[i]| - 1;
    InJoined(chunks, i, last);
    var q := |Joined(chunks[..i])| + last;
    assert p <= q < p + READ_CAP;
    assert Joined(chunks)[q] != NEWLINE;
  }

  lemma PieceIsGap(chunks: seq<string>, i: nat)
    requires i < |chunks| && Overlong(chunks[i], 0)
    ensures Overlong(Joined(chunks), |Joined(chunks[..i])|)
  {
    var start := |Joined(chunks[..i])|;
    InJoined(chunks, i, READ_CAP - 1);
    forall q | start <= q < start + READ_CAP
      ensures Joined(chunks)[q] != NEWLINE
    {
      InJoined(chunks, i, q - start);
    }
  }

  ghost predicate AllWholeLines(chunks: seq<string>) {
    forall c <- chunks :: EndsLine(c)
  }

  /** No READ_CAP bytes of `s` lack an end of line. */
  ghost predicate NoOverlong(s: string) {
    forall p: nat :: !Overlong(s, p)
  }

  lemma WholeIfNoOverlong(ticks: seq<Tick>)
    requires AppendOnly(ticks) && NoOverlong(Joined(Chunks(ticks)))
    ensures AllWholeLines(Chunks(ticks))
  {
    var chunks := Chunks(ticks);
    forall c | c in chunks
      ensures EndsLine(c)
    {
      var i :| 0 <= i < |chunks| && chunks[i] == c;
      ChunkOf(ticks, i);
      if !EndsLine(c) {
        PieceIsGap(chunks, i);
      }
    }
  }

  lemma NoOverlongIfWhole(ticks: seq<Tick>, p: nat)
    requires AppendOnly(ticks) && AllWholeLines(Chunks(ticks))
    ensures !Overlong(Joined(Chunks(ticks)), p)
  {
    var chunks := Chunks(ticks);
    if Overlong(Joined(chunks), p) {
      forall c | c in chunks
        ensures |c| <= READ_CAP
      {
        var i :| 0 <= i < |chunks| && chunks[i] == c;
        ChunkOf(ticks, i);
      }
      var c := GapSplitsALine(chunks, p);
    }
  }

  /**
   Over any run, every chunk passed on is whole lines if and only if no READ_CAP bytes of what was
   consumed lack an end of line.
   */
  lemma WholeLinesIff(ticks: seq<Tick>)
    requires AppendOnly(ticks)
    ensures AllWholeLines(Chunks(ticks)) <==> NoOverlong(Joined(Chunks(ticks)))
  {
    if NoOverlong(Joined(Chunks(ticks))) {
      WholeIfNoOverlong(ticks);
    }
    if AllWholeLines(Chunks(ticks)) {
      forall p: nat
        ensures !Overlong(Joined(Chunks(ticks)), p)
      {
        NoOverlongIfWhole(ticks, p);
      }
    }
  }

  // ---- Chunk by chunk or in one pass ----

  function FirstNewline(s: string): (i: nat)
    ensures i <= |s| && (i < |s| ==> s[i] == NEWLINE)
    ensures forall j :: 0 <= j < i ==> s[j] != NEWLINE
  {
    if s == [] || s[0] == NEWLINE then 0 else 1 + FirstNewline(s[1..])
  }

  function Trimmed(line: string): string {
    if line != [] && line[|line| - 1] == RETURN then line[..|line| - 1] else line
  }

  /** The lines of a text, each without its end; a last line without one counts. */
  function Lines(s: string): seq<string>
    decreases |s|
  {
    if s == [] then []
    else
      var i := FirstNewline(s);
      if i == |s| then [s] else [Trimmed(s[..i])] + Lines(s[i + 1..])
  }

  lemma {:induction false} FirstNewlineIs(s: string, i: nat)
    requires i < |s| && s[i] == NEWLINE && forall j :: 0 <= j < i ==> s[j] != NEWLINE
    ensures FirstNewline(s) == i
  {
  }

  /** A line ends at `\n`, with or without `\r` before it; what comes after the last end is a line if there is anything. */
  lemma LinesMean(line: string, rest: string)
    requires NoneFrom(line, 0)
    ensures Lines(line + "\n" + rest) ==
      [if line != "" && line[|line| - 1] == '\r' then line[..|line| - 1] else line] + Lines(rest)
    ensures Lines(line) == if line == "" then [] else [line]
  {
    var s := line + "\n" + rest;
    FirstNewlineIs(s, |line|);
    assert s[..|line|] == line && s[|line| + 1..] == rest;
  }

  lemma LineInFront(s: string, i: nat)
    requires i < |s| && s[i] == NEWLINE && forall j :: 0 <= j < i ==> s[j] != NEWLINE
    ensures Lines(s) == [Trimmed(s[..i])] + Lines(s[i + 1..])
  {
    FirstNewlineIs(s, i);
  }

  /** The first line of a text is still its first when more comes after. */
  lemma FirstLineStays(a: string, b: string, i: nat)
    requires i < |a| && a[i] == NEWLINE && forall j :: 0 <= j < i ==> a[j] != NEWLINE
    ensures Lines(a + b) == [Trimmed(a[..i])] + Lines(a[i + 1..] + b)
  {
    var s := a + b;
    assert s[..i] == a[..i];
    assert s[i + 1..] == a[i + 1..] + b;
    LineInFront(s, i);
  }

  lemma FirstLine(a: string, b: string) returns (first: seq<string>, rest: string)
    requires EndsLine(a) && a != ""
    ensures |rest| < |a| && EndsLine(rest)
    ensures Lines(a) == first + Lines(rest) && Lines(a + b) == first + Lines(rest + b)
  {
    var i := FirstNewline(a);
    assert a[|a| - 1] == NEWLINE;
    first, rest := [Trimmed(a[..i])], a[i + 1..];
    LineInFront(a, i);
    FirstLineStays(a, b, i);
  }

  lemma Regroup<T>(a: seq<T>, b: seq<T>, c: seq<T>)
    ensures (a + b) + c == a + (b + c)
  {
  }

  /** Text cut at an end of line has the lines of its two parts. */
  lemma {:induction false} LinesOfParts(a: string, b: string)
    requires EndsLine(a)
    ensures Lines(a + b) == Lines(a) + Lines(b)
    decreases |a|
  {
    if a == "" {
      assert a + b == b;
    } else {
      var first, rest := FirstLine(a, b);
      LinesOfParts(rest, b);
      Regroup(first, Lines(rest), Lines(b));
    }
  }

  /** The lines the ticks pass on, one chunk after another. */
  function LinesOf(chunks: seq<string>): seq<string> {
    if chunks == [] then [] else LinesOf(chunks[..|chunks| - 1]) + Lines(chunks[|chunks| - 1])
  }

  lemma EndsLineOfParts(a: string, b: string)
    requires EndsLine(a) && EndsLine(b)
    ensures EndsLine(a + b)
  {
    if b == "" {
      assert a + b == a;
    }
  }

  lemma {:induction false} JoinedEndsLine(chunks: seq<string>)
    requires AllWholeLines(chunks)
    ensures EndsLine(Joined(chunks)) && LinesOf(chunks) == Lines(Joined(chunks))
  {
    if chunks == [] {
    } else {
      var rest, last := chunks[..|chunks| - 1], chunks[|chunks| - 1];
      forall c | c in rest
        ensures c in chunks
      {
      }
      assert last in chunks;
      JoinedEndsLine(rest);
      LinesOfParts(Joined(rest), last);
      EndsLineOfParts(Joined(rest), last);
    }
  }

  /**
   Reading the log as it grows gives the lines that one pass gives over the text from where the
   tailer was primed to where it is: so the same hits and the same blocked names, in the same order.
   */
  lemma {:induction false} TailingIsOnePass(ticks: seq<Tick>)
    requires ticks != [] && AppendOnly(ticks)
    requires var (t, start, file) := (TailAfter(ticks), |ticks[0].file|, ticks[|ticks| - 1].file);
      start <= t.offset <= |file| ==> NoOverlong(file[start..t.offset])
    ensures var (t, start, file) := (TailAfter(ticks), |ticks[0].file|, ticks[|ticks| - 1].file);
      start <= t.offset <= |file| && LinesOf(Chunks(ticks)) == Lines(file[start..t.offset])
  {
    ChunksAreTheFile(ticks);
    WholeLinesIff(ticks);
    JoinedEndsLine(Chunks(ticks));
  }

  /**
   A line too long for one read is passed on in pieces, each taken for a whole line, although
   lines 818-819 of attrib.rs say the fragment is not parsed.
   */
  lemma OverlongIsPassedOn(t: Tail, tick: Tick)
    requires t.primed && |tick.file| <= TRUNCATE_AT && tick.ready >= READ_CAP
    requires Overlong(tick.file, t.offset)
    ensures var (after, chunk) := Read(t, tick);
      chunk == tick.file[t.offset..t.offset + READ_CAP] && Lines(chunk) == [chunk] && !EndsLine(chunk)
  {
    var buf := tick.file[t.offset..][..READ_CAP];
    assert forall j :: 0 <= j < |buf| ==> buf[j] == tick.file[t.offset + j];
    assert buf == tick.file[t.offset..t.offset + READ_CAP] && buf[..|buf|] == buf;
    assert FirstNewline(buf) == |buf|;
  }
}
