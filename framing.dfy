/** Event framing of `EventStream.start`: the decoded chunks of the camera's
    long-lived response are appended to an accumulation buffer; whenever
    the buffer ends with the end marker, the record starting at the first
    begin tag is cut out, the buffer is cleared and the record is handed to
    the handler before the next chunk is read. */
module Framing {
  import opened Wrappers
  import opened Text

  const BeginTag: string := "<EventNotificationAlert"
  const EndTag: string := "</EventNotificationAlert>"

  /** The record cut out of a complete buffer: the suffix from the FIRST
      begin tag on. When the begin tag is absent, `find` yields -1 and the
      slice keeps only the buffer's last character. */
  function Record(buffer: string): (r: string)
    ensures EndsWith(buffer, r)
    ensures Find(buffer, BeginTag) != -1 ==>
              StartsWith(r, BeginTag) &&
              forall i :: 0 <= i < |buffer| - |r| ==> !OccursAt(buffer, BeginTag, i)
    ensures Find(buffer, BeginTag) == -1 ==> |r| == (if buffer == [] then 0 else 1)
  {
    var k := Find(buffer, BeginTag);
    var r := SliceFrom(buffer, k);
    assert k != -1 ==> r == buffer[k..] && r[..|BeginTag|] == buffer[k..k + |BeginTag|];
    r
  }

  /** The buffer after one chunk, and the record it completes, if any. */
  datatype Fed = Fed(buffer: string, emitted: Option<string>)

  function Feed(buffer: string, chunk: string): Fed {
    var joined := buffer + chunk;
    if EndsWith(joined, EndTag) then Fed([], Some(Record(joined))) else Fed(joined, None)
  }

  /** One pass of the loop: a buffer that now ends with the end marker
      yields the record cut at the first begin tag and becomes empty;
      otherwise nothing is emitted and the chunk is kept. */
  lemma FeedStep(buffer: string, chunk: string)
    ensures var f := Feed(buffer, chunk);
      && (f.emitted.Some? <==> EndsWith(buffer + chunk, EndTag))
      && (f.emitted.Some? ==>
            && f.buffer == []
            && EndsWith(buffer + chunk, f.emitted.value)
            && (Find(buffer + chunk, BeginTag) != -1 ==>
                  && StartsWith(f.emitted.value, BeginTag)
                  && forall i :: 0 <= i < |buffer + chunk| - |f.emitted.value| ==> !OccursAt(buffer + chunk, BeginTag, i)))
      && (f.emitted.None? ==> f.buffer == buffer + chunk)
  {
  }

  /** What the reader does, in order: read a chunk, or hand a record to the
      handler. */
  datatype Step = Read(chunk: string) | Dispatch(record: string)

  function Reads(trace: seq<Step>): seq<string> {
    if trace == [] then []
    else (if trace[0].Read? then [trace[0].chunk] else []) + Reads(trace[1..])
  }

  function Records(trace: seq<Step>): seq<string> {
    if trace == [] then []
    else (if trace[0].Dispatch? then [trace[0].record] else []) + Records(trace[1..])
  }

  /** Every record is handed over right after the chunk that completed it,
      before the next chunk is read. */
  predicate DispatchesFollowReads(trace: seq<Step>) {
    forall i :: 0 <= i < |trace| && trace[i].Dispatch? ==> 0 < i && trace[i - 1].Read?
  }

  lemma ReadsAppend(a: seq<Step>, b: seq<Step>)
    ensures Reads(a + b) == Reads(a) + Reads(b)
    ensures Records(a + b) == Records(a) + Records(b)
  {
    ReadsOfAppend(a, b);
    RecordsOfAppend(a, b);
  }

  lemma {:induction false} ReadsOfAppend(a: seq<Step>, b: seq<Step>)
    ensures Reads(a + b) == Reads(a) + Reads(b)
  {
    if a == [] {
      assert a + b == b;
    } else {
      assert (a + b)[0] == a[0];
      assert (a + b)[1..] == a[1..] + b;
      ReadsOfAppend(a[1..], b);
    }
  }

  lemma {:induction false} RecordsOfAppend(a: seq<Step>, b: seq<Step>)
    ensures Records(a + b) == Records(a) + Records(b)
  {
    if a == [] {
      assert a + b == b;
    } else {
      assert (a + b)[0] == a[0];
      assert (a + b)[1..] == a[1..] + b;
      RecordsOfAppend(a[1..], b);
    }
  }

  /** The steps taken for one chunk: its read, then the hand-over of the
      record it completes, if any. */
  function StepsFor(chunk: string, f: Fed): seq<Step> {
    [Read(chunk)] + (if f.emitted.Some? then [Dispatch(f.emitted.value)] else [])
  }

  /** The framing loop over a finite prefix of the stream, from a given
      buffer: the buffer left at the end and the trace of reads and
      hand-overs. */
  function Frame(buffer: string, chunks: seq<string>): (r: (string, seq<Step>))
    decreases |chunks|
  {
    if chunks == [] then (buffer, [])
    else
      var f := Feed(buffer, chunks[0]);
      var rest := Frame(f.buffer, chunks[1..]);
      (rest.0, StepsFor(chunks[0], f) + rest.1)
  }

  /** The trace reads exactly the given chunks, in order, and hands every
      record over right after the chunk that completed it. */
  lemma {:induction false} FrameTraceShape(buffer: string, chunks: seq<string>)
    ensures Reads(Frame(buffer, chunks).1) == chunks
    ensures DispatchesFollowReads(Frame(buffer, chunks).1)
    decreases |chunks|
  {
    if chunks != [] {
      var f := Feed(buffer, chunks[0]);
      var rest := Frame(f.buffer, chunks[1..]);
      var here := StepsFor(chunks[0], f);
      FrameTraceShape(f.buffer, chunks[1..]);
      ReadsAppend(here, rest.1);
      assert Reads(here) == [chunks[0]] by {
        assert here[1..] == (if f.emitted.Some? then [Dispatch(f.emitted.value)] else []);
      }
      assert [chunks[0]] + chunks[1..] == chunks;
      assert |rest.1| > 0 ==> rest.1[0].Read?;
      var t := here + rest.1;
      forall i | 0 <= i < |t| && t[i].Dispatch?
        ensures 0 < i && t[i - 1].Read?
      {
        if i >= |here| {
          assert t[i] == rest.1[i - |here|];
          if i > |here| {
            assert t[i - 1] == rest.1[i - 1 - |here|];
          }
        }
      }
    }
  }

  /** The steps for one chunk read that chunk and hand over the record it
      completes, if any. */
  lemma StepsForCounts(chunk: string, f: Fed)
    ensures Reads(StepsFor(chunk, f)) == [chunk]
    ensures Records(StepsFor(chunk, f)) == (if f.emitted.Some? then [f.emitted.value] else [])
  {
    var here := StepsFor(chunk, f);
    if f.emitted.Some? {
      var d := [Dispatch(f.emitted.value)];
      assert here == [Read(chunk)] + d && here[1..] == d && d[1..] == [];
      assert Reads(d) == [] + Reads(d[1..]);
      assert Records(d) == [f.emitted.value] + Records(d[1..]);
    } else {
      assert here[1..] == [];
    }
  }

  /** The framing loop together with the handler's outcome for each record
      it is handed, in order (`true`: the handler raises; records past the
      end of the script are handled without error). A raise leaves the loop
      at once, after the buffer has been cleared and before any further
      chunk is read; the last component says whether the loop raised. */
  function FrameHandled(buffer: string, chunks: seq<string>, fails: seq<bool>): (string, seq<Step>, bool)
    decreases |chunks|
  {
    if chunks == [] then (buffer, [], false)
    else
      var f := Feed(buffer, chunks[0]);
      var here := StepsFor(chunks[0], f);
      if f.emitted.Some? && fails != [] && fails[0] then (f.buffer, here, true)
      else
        var rest := FrameHandled(f.buffer, chunks[1..], Consumed(f, fails));
        (rest.0, here + rest.1, rest.2)
  }

  /** The handler outcomes left once a chunk has been fed. */
  function Consumed(f: Fed, fails: seq<bool>): seq<bool> {
    if f.emitted.Some? && fails != [] then fails[1..] else fails
  }

  /** The handler decides only where the loop stops: its trace is a prefix
      of the framing trace, the whole of it when nothing raised, and a raise
      happens right after a hand-over, with the buffer cleared. */
  lemma {:induction false} HandledIsFramePrefix(buffer: string, chunks: seq<string>, fails: seq<bool>)
    ensures var h := FrameHandled(buffer, chunks, fails);
      && h.1 <= Frame(buffer, chunks).1
      && (!h.2 ==> h.0 == Frame(buffer, chunks).0 && h.1 == Frame(buffer, chunks).1)
      && (h.2 ==> h.0 == [] && h.1 != [] && h.1[|h.1| - 1].Dispatch?)
    decreases |chunks|
  {
    if chunks != [] {
      var f := Feed(buffer, chunks[0]);
      var here := StepsFor(chunks[0], f);
      var full := Frame(f.buffer, chunks[1..]);
      assert Frame(buffer, chunks).1 == here + full.1;
      if f.emitted.Some? && fails != [] && fails[0] {
        assert here[|here| - 1] == Dispatch(f.emitted.value);
      } else {
        HandledIsFramePrefix(f.buffer, chunks[1..], Consumed(f, fails));
        var rest := FrameHandled(f.buffer, chunks[1..], Consumed(f, fails));
        assert full.1 == rest.1 + full.1[|rest.1|..];
        assert here + full.1 == (here + rest.1) + full.1[|rest.1|..];
        if rest.2 {
          assert (here + rest.1)[|here + rest.1| - 1] == rest.1[|rest.1| - 1];
        }
      }
    }
  }

  /** With n records handed over, the loop raised exactly when the n-th
      outcome is a raise, and every earlier one was handled without error. */
  predicate OutcomesMatch(fails: seq<bool>, n: nat, raised: bool) {
    && (raised ==> 0 < n <= |fails| && fails[n - 1])
    && (forall j :: 0 <= j < |fails| && j < (if raised then n - 1 else n) ==> !fails[j])
  }

  lemma OutcomesShift(fails: seq<bool>, n: nat, raised: bool)
    requires fails != [] && !fails[0] && OutcomesMatch(fails[1..], n, raised)
    ensures OutcomesMatch(fails, n + 1, raised)
  {
    forall j | 1 <= j < |fails| ensures fails[j] == fails[1..][j - 1] { }
  }

  /** Which hand-over raised: the outcomes agree with the number of records
      handed over and with whether the loop raised. */
  lemma {:induction false} HandledOutcomes(buffer: string, chunks: seq<string>, fails: seq<bool>)
    ensures OutcomesMatch(fails, |Records(FrameHandled(buffer, chunks, fails).1)|, FrameHandled(buffer, chunks, fails).2)
    decreases |chunks|
  {
    if chunks != [] {
      var f := Feed(buffer, chunks[0]);
      var here := StepsFor(chunks[0], f);
      StepsForCounts(chunks[0], f);
      if !(f.emitted.Some? && fails != [] && fails[0]) {
        var left := Consumed(f, fails);
        HandledOutcomes(f.buffer, chunks[1..], left);
        var rest := FrameHandled(f.buffer, chunks[1..], left);
        assert FrameHandled(buffer, chunks, fails) == (rest.0, here + rest.1, rest.2);
        RecordsOfAppend(here, rest.1);
        if f.emitted.Some? && fails != [] {
          assert |Records(here + rest.1)| == |Records(rest.1)| + 1;
          OutcomesShift(fails, |Records(rest.1)|, rest.2);
        } else if f.emitted.None? {
          assert |Records(here + rest.1)| == |Records(rest.1)|;
        } else {
          assert !rest.2;
        }
      }
    }
  }

  /** A handler that never raises leaves the framing loop unchanged. */
  lemma HandlerWithoutErrors(buffer: string, chunks: seq<string>, fails: seq<bool>)
    requires forall j :: 0 <= j < |fails| ==> !fails[j]
    ensures FrameHandled(buffer, chunks, fails) == (Frame(buffer, chunks).0, Frame(buffer, chunks).1, false)
  {
    HandledIsFramePrefix(buffer, chunks, fails);
    HandledOutcomes(buffer, chunks, fails);
  }

  /** The chunks read before the loop stops are a prefix of the stream. */
  lemma HandledReadsPrefix(buffer: string, chunks: seq<string>, fails: seq<bool>)
    ensures Reads(FrameHandled(buffer, chunks, fails).1) <= chunks
  {
    var h := FrameHandled(buffer, chunks, fails);
    var t := Frame(buffer, chunks).1;
    HandledIsFramePrefix(buffer, chunks, fails);
    FrameTraceShape(buffer, chunks);
    assert t == h.1 + t[|h.1|..];
    ReadsOfAppend(h.1, t[|h.1|..]);
  }

  /** A handler that raises on a record ends the loop: the chunk after the
      one that completed the record is never read. */
  lemma HandlerRaiseStopsReading(later: string)
    ensures FrameHandled([], [EndTag, later], [true]).2
    ensures Reads(FrameHandled([], [EndTag, later], [true]).1) == [EndTag]
    ensures Reads(Frame([], [EndTag, later]).1) == [EndTag, later]
  {
    assert [] + EndTag == EndTag;
    assert EndsWith(EndTag, EndTag);
    var f := Feed([], EndTag);
    assert f.emitted.Some?;
    StepsForCounts(EndTag, f);
    FrameTraceShape([], [EndTag, later]);
  }

  /** What is left of the loop once `trace` has been produced, with
      `buffer` and the outcomes `fails` still to come. */
  ghost function Resume(trace: seq<Step>, buffer: string, chunks: seq<string>, fails: seq<bool>): (string, seq<Step>, bool) {
    var h := FrameHandled(buffer, chunks, fails);
    (h.0, trace + h.1, h.2)
  }

  lemma ResumeStep(trace: seq<Step>, buffer: string, chunks: seq<string>, i: nat, fails: seq<bool>)
    requires i < |chunks|
    ensures var f := Feed(buffer, chunks[i]);
      Resume(trace, buffer, chunks[i..], fails)
        == if f.emitted.Some? && fails != [] && fails[0] then (f.buffer, trace + StepsFor(chunks[i], f), true)
           else Resume(trace + StepsFor(chunks[i], f), f.buffer, chunks[i + 1..], Consumed(f, fails))
  {
    assert chunks[i..][0] == chunks[i] && chunks[i..][1..] == chunks[i + 1..];
    var f := Feed(buffer, chunks[i]);
    var later := FrameHandled(f.buffer, chunks[i + 1..], Consumed(f, fails));
    assert trace + (StepsFor(chunks[i], f) + later.1) == (trace + StepsFor(chunks[i], f)) + later.1;
  }

  /** `EventStream.start` after a successful connection, over the chunks the
      response delivers and the handler's outcome for each record; its
      trace, buffer and raise are the framing function's. */
  method Start(chunks: seq<string>, handlerFails: seq<bool>) returns (trace: seq<Step>, buffer: string, raised: bool)
    ensures (buffer, trace, raised) == FrameHandled([], chunks, handlerFails)
  {
    buffer := [];
    trace := [];
    raised := false;
    ghost var goal := FrameHandled([], chunks, handlerFails);
    var script := handlerFails;
    var i := 0;
    assert chunks[0..] == chunks;
    assert [] + goal.1 == goal.1;
    while i < |chunks|
      invariant 0 <= i <= |chunks|
      invariant goal == Resume(trace, buffer, chunks[i..], script)
    {
      ghost var f := Feed(buffer, chunks[i]);
      ghost var next := trace + StepsFor(chunks[i], f);
      ResumeStep(trace, buffer, chunks, i, script);
      trace := trace + [Read(chunks[i])];
      buffer := buffer + chunks[i];
      if EndsWith(buffer, EndTag) {
        var record := Record(buffer);
        buffer := [];
        trace := trace + [Dispatch(record)];
        if script != [] && script[0] {
          raised := true;
          assert trace == next;
          return;
        }
        if script != [] {
          script := script[1..];
        }
      }
      assert buffer == f.buffer && trace == next;
      i := i + 1;
    }
    assert chunks[i..] == [];
    assert trace + [] == trace;
  }

  /** The chunks joined in order. */
  function Concat(chunks: seq<string>): string {
    if chunks == [] then [] else chunks[0] + Concat(chunks[1..])
  }

  /** A text that ends with the end marker and in which no shorter prefix
      does: one complete notification. */
  predicate SingleRecord(r: string) {
    EndsWith(r, EndTag) && forall k :: 0 <= k < |r| ==> !EndsWith(r[..k], EndTag)
  }

  /** A record that begins with the begin tag is emitted unchanged. */
  lemma WholeRecordIsKept(r: string)
    requires StartsWith(r, BeginTag)
    ensures Record(r) == r
  {
    assert OccursAt(r, BeginTag, 0);
  }

  /** The edge case of the `find` at src/utils.py:81: without a begin tag the
      emitted "record" is the single character '>'. */
  lemma RecordWithoutBeginTag(buffer: string)
    requires EndsWith(buffer, EndTag) && Find(buffer, BeginTag) == -1
    ensures Record(buffer) == ">"
  {
    var r := Record(buffer);
    assert r == buffer[|buffer| - 1..];
    assert buffer[|buffer| - 1] == EndTag[|EndTag| - 1];
  }

  /** Chunks that add up to nothing emit nothing and leave the buffer empty. */
  lemma {:induction false} EmptyChunksEmitNothing(chunks: seq<string>)
    requires Concat(chunks) == []
    ensures Frame([], chunks).0 == [] && Records(Frame([], chunks).1) == []
    decreases |chunks|
  {
    if chunks != [] {
      assert chunks[0] == [];
      assert [] + chunks[0] == [];
      assert !EndsWith([], EndTag);
      EmptyChunksEmitNothing(chunks[1..]);
      var rest := Frame([], chunks[1..]);
      ReadsAppend([Read(chunks[0])], rest.1);
    }
  }

  lemma {:induction false} FramePrefixOfRecord(buffer: string, chunks: seq<string>, r: string)
    requires SingleRecord(r) && chunks != []
    requires buffer + Concat(chunks) == r && |buffer| < |r|
    ensures Frame(buffer, chunks).0 == [] && Records(Frame(buffer, chunks).1) == [Record(r)]
    decreases |chunks|
  {
    var joined := buffer + chunks[0];
    assert r == joined + Concat(chunks[1..]);
    var f := Feed(buffer, chunks[0]);
    var rest := Frame(f.buffer, chunks[1..]);
    var here := StepsFor(chunks[0], f);
    ReadsAppend(here, rest.1);
    ReadsAppend([Read(chunks[0])], here[1..]);
    assert [Read(chunks[0])] + here[1..] == here;
    if |joined| == |r| {
      assert joined == r;
      assert Concat(chunks[1..]) == [];
      EmptyChunksEmitNothing(chunks[1..]);
      assert f == Fed([], Some(Record(r)));
    } else {
      assert joined == r[..|joined|];
      assert !EndsWith(joined, EndTag);
      assert f == Fed(joined, None);
      assert Concat(chunks[1..]) != [];
      FramePrefixOfRecord(joined, chunks[1..], r);
    }
  }

  /** However one complete notification is split into chunks - including a
      split inside the end marker - exactly one record is emitted, the
      buffer ends empty, and a record beginning with the begin tag is
      emitted unchanged. */
  lemma OneRecordAnyChunking(chunks: seq<string>, r: string)
    requires SingleRecord(r) && Concat(chunks) == r
    ensures Frame([], chunks).0 == []
    ensures Records(Frame([], chunks).1) == [Record(r)]
    ensures StartsWith(r, BeginTag) ==> Records(Frame([], chunks).1) == [r]
  {
    assert chunks != [];
    assert [] + Concat(chunks) == r;
    FramePrefixOfRecord([], chunks, r);
    if StartsWith(r, BeginTag) {
      WholeRecordIsKept(r);
    }
  }

  /** Framing a stream in two pieces is framing the first and carrying its
      buffer over into the second. */
  lemma {:induction false} FrameAppend(buffer: string, a: seq<string>, b: seq<string>)
    ensures Frame(buffer, a + b).0 == Frame(Frame(buffer, a).0, b).0
    ensures Frame(buffer, a + b).1 == Frame(buffer, a).1 + Frame(Frame(buffer, a).0, b).1
    decreases |a|
  {
    if a == [] {
      assert a + b == b;
    } else {
      assert (a + b)[0] == a[0];
      assert (a + b)[1..] == a[1..] + b;
      var f := Feed(buffer, a[0]);
      var here := StepsFor(a[0], f);
      FrameAppend(f.buffer, a[1..], b);
      var mid := Frame(f.buffer, a[1..]);
      var tail := Frame(mid.0, b);
      assert Frame(buffer, a) == (mid.0, here + mid.1);
      assert Frame(buffer, a + b) == (tail.0, here + (mid.1 + tail.1));
      assert here + (mid.1 + tail.1) == (here + mid.1) + tail.1;
    }
  }

  function Flatten(parts: seq<seq<string>>): seq<string> {
    if parts == [] then [] else parts[0] + Flatten(parts[1..])
  }

  /** A stream of notifications, each split into chunks in any way, is handed
      over record by record, in stream order: each notification as the record
      cut from it. */
  lemma {:induction false} RecordsInStreamOrder(parts: seq<seq<string>>, rs: seq<string>)
    requires |parts| == |rs|
    requires forall i :: 0 <= i < |rs| ==> SingleRecord(rs[i]) && Concat(parts[i]) == rs[i]
    ensures Frame([], Flatten(parts)).0 == []
    ensures Records(Frame([], Flatten(parts)).1) == seq(|rs|, i requires 0 <= i < |rs| => Record(rs[i]))
    decreases |parts|
  {
    if parts != [] {
      var first := Frame([], parts[0]);
      var later := Frame([], Flatten(parts[1..]));
      OneRecordAnyChunking(parts[0], rs[0]);
      RecordsInStreamOrder(parts[1..], rs[1..]);
      FrameAppend([], parts[0], Flatten(parts[1..]));
      assert Frame([], Flatten(parts)).1 == first.1 + later.1;
      ReadsAppend(first.1, later.1);
      CutsCons(rs);
    }
  }

  lemma CutsCons(rs: seq<string>)
    requires rs != []
    ensures seq(|rs|, i requires 0 <= i < |rs| => Record(rs[i]))
            == [Record(rs[0])] + seq(|rs[1..]|, i requires 0 <= i < |rs[1..]| => Record(rs[1..][i]))
  {
    var all := seq(|rs|, i requires 0 <= i < |rs| => Record(rs[i]));
    var rest := seq(|rs[1..]|, i requires 0 <= i < |rs[1..]| => Record(rs[1..][i]));
    var joined := [Record(rs[0])] + rest;
    assert |all| == |joined|;
    forall k | 0 <= k < |all|
      ensures all[k] == joined[k]
    {
      if k > 0 {
        assert joined[k] == rest[k - 1] == Record(rs[1..][k - 1]);
        assert rs[1..][k - 1] == rs[k];
      }
    }
  }

  /** Two complete notifications that arrive in ONE chunk are handed over as a
      single record holding both: the end marker is only looked for at the
      end of the buffer, and the cut starts at the first begin tag. */
  lemma TwoRecordsInOneChunk(r1: string, r2: string)
    requires StartsWith(r1, BeginTag) && EndsWith(r2, EndTag)
    ensures Records(Frame([], [r1 + r2]).1) == [r1 + r2]
  {
    var joined := r1 + r2;
    JoinKeepsEnds(r1, r2);
    WholeRecordIsKept(joined);
    assert [] + joined == joined;
    var f := Feed([], joined);
    assert f == Fed([], Some(joined));
    OneChunk([], joined);
    RecordsOfStepsFor(joined, f);
  }

  lemma JoinKeepsEnds(r1: string, r2: string)
    requires StartsWith(r1, BeginTag) && EndsWith(r2, EndTag)
    ensures StartsWith(r1 + r2, BeginTag) && EndsWith(r1 + r2, EndTag)
  {
    var joined := r1 + r2;
    assert joined[|joined| - |EndTag|..] == r2[|r2| - |EndTag|..];
    assert joined[..|BeginTag|] == r1[..|BeginTag|];
  }

  /** Framing a single chunk is one step. */
  lemma OneChunk(buffer: string, chunk: string)
    ensures Frame(buffer, [chunk]).1 == StepsFor(chunk, Feed(buffer, chunk))
  {
    var chunks := [chunk];
    assert chunks[1..] == [];
    assert StepsFor(chunk, Feed(buffer, chunk)) + [] == StepsFor(chunk, Feed(buffer, chunk));
  }

  lemma RecordsOfStepsFor(chunk: string, f: Fed)
    ensures Records(StepsFor(chunk, f)) == if f.emitted.Some? then [f.emitted.value] else []
  {
    var here := StepsFor(chunk, f);
    assert here[1..] == (if f.emitted.Some? then [Dispatch(f.emitted.value)] else []);
    assert Records(here) == Records(here[1..]);
    if f.emitted.Some? {
      var tail := here[1..];
      assert tail[0] == Dispatch(f.emitted.value) && tail[1..] == [];
      assert Records(tail) == [f.emitted.value] + Records([]);
    }
  }
}
