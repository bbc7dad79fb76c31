/** The rewindable writer: a requested rewind is applied lazily, by the next write, flush or drop. */
module Rewind {
  import opened Base

  newtype byte = n: int | 0 <= n < 256

  type Bytes = seq<byte>

  const NEWLINE: byte := 10

  /** Everything up to and including the last newline. */
  function CompleteLines(s: Bytes): (kept: Bytes)
    ensures kept <= s
    ensures kept != [] ==> kept[|kept| - 1] == NEWLINE
    ensures kept == [] <==> NEWLINE !in s
    ensures NEWLINE !in s[|kept|..]
  {
    if s == [] || s[|s| - 1] == NEWLINE then s
    else
      var kept := CompleteLines(s[..|s| - 1]);
      assert s[|kept|..] == s[..|s| - 1][|kept|..] + [s[|s| - 1]];
      assert s == s[..|s| - 1] + [s[|s| - 1]];
      kept
  }

  /** A rewind to the last newline; without one there is nothing to rewind to. */
  function Cut(s: Bytes): Bytes {
    if NEWLINE in s then CompleteLines(s) else s
  }

  lemma CompleteLinesUnique(s: Bytes, n: nat)
    requires n <= |s| && (n > 0 ==> s[n - 1] == NEWLINE) && NEWLINE !in s[n..]
    ensures CompleteLines(s) == s[..n]
  {
    var kept := CompleteLines(s);
    assert forall i :: |kept| <= i < |s| ==> s[i] == s[|kept|..][i - |kept|];
    assert forall i :: n <= i < |s| ==> s[i] == s[n..][i - n];
    assert |kept| == n;
  }

  lemma CutTwice(s: Bytes)
    ensures Cut(Cut(s)) == Cut(s)
  {
    if NEWLINE in s {
      var kept := CompleteLines(s);
      assert NEWLINE in kept;
      CompleteLinesUnique(kept, |kept|);
    }
  }

  lemma CompleteLinesOfCut(s: Bytes)
    ensures CompleteLines(Cut(s)) == CompleteLines(s)
  {
    if NEWLINE in s {
      var kept := CompleteLines(s);
      CompleteLinesUnique(kept, |kept|);
    }
  }

  lemma CompleteLinesGrow(s: Bytes, t: Bytes)
    ensures CompleteLines(s) <= CompleteLines(s + t)
    ensures CompleteLines(s + t) == if NEWLINE in t then s + CompleteLines(t) else CompleteLines(s)
  {
    hide CompleteLines;
    var k := if NEWLINE in t then |s| + |CompleteLines(t)| else |CompleteLines(s)|;
    if NEWLINE in t {
      assert (s + t)[k..] == t[|CompleteLines(t)|..];
      assert (s + t)[..k] == s + CompleteLines(t);
    } else {
      assert (s + t)[k..] == s[k..] + t;
      assert (s + t)[..k] == CompleteLines(s);
    }
    CompleteLinesUnique(s + t, k);
  }

  // ---- the writer ----------------------------------------------------------------------------

  datatype RewindTo = Nowhere | LastNewline

  class Buffer {
    var bytes: Bytes

    constructor (bytes: Bytes)
      ensures this.bytes == bytes
    {
      this.bytes := bytes;
    }
  }

  class RewindState {
    var active: bool
    var rewindTo: RewindTo

    constructor ()
      ensures !active && rewindTo.Nowhere?
    {
      active, rewindTo := false, Nowhere;
    }

    /** A second writer on an active state panics. */
    method Activate(buffer: Buffer) returns (writer: RewindableWriter)
      requires !active
      modifies this
      ensures active && rewindTo.Nowhere?
      ensures fresh(writer) && writer.out == buffer && writer.state == this
    {
      active := true;
      rewindTo := Nowhere;
      writer := new RewindableWriter(buffer, this);
    }

    method Request(to: RewindTo)
      requires active
      modifies this`rewindTo
      ensures rewindTo == to
    {
      rewindTo := to;
    }
  }

  /** What the buffer amounts to once the pending rewind is applied. */
  function Settled(bytes: Bytes, pending: RewindTo): Bytes {
    if pending.LastNewline? then Cut(bytes) else bytes
  }

  class RewindableWriter {
    const out: Buffer
    const state: RewindState

    constructor (out: Buffer, state: RewindState)
      ensures this.out == out && this.state == state
    {
      this.out := out;
      this.state := state;
    }

    method ApplyRewind()
      modifies out, state`rewindTo
      ensures out.bytes == Settled(old(out.bytes), old(state.rewindTo)) && state.rewindTo.Nowhere?
    {
      var to := state.rewindTo;
      state.rewindTo := Nowhere;
      if to.LastNewline? {
        var i := |out.bytes|;
        while i > 0 && out.bytes[i - 1] != NEWLINE
          invariant 0 <= i <= |out.bytes|
          invariant NEWLINE !in out.bytes[i..]
        {
          i := i - 1;
        }
        if i > 0 {
          CompleteLinesUnique(out.bytes, i);
          out.bytes := out.bytes[..i];
        } else {
          assert out.bytes[0..] == out.bytes;
        }
      }
    }

    method Write(bytes: Bytes)
      modifies out, state`rewindTo
      ensures out.bytes == Settled(old(out.bytes), old(state.rewindTo)) + bytes && state.rewindTo.Nowhere?
    {
      ApplyRewind();
      out.bytes := out.bytes + bytes;
    }

    method Flush()
      modifies out, state`rewindTo
      ensures out.bytes == Settled(old(out.bytes), old(state.rewindTo)) && state.rewindTo.Nowhere?
    {
      ApplyRewind();
    }

    method Drop()
      modifies out, state
      ensures out.bytes == Settled(old(out.bytes), old(state.rewindTo)) && state.rewindTo.Nowhere? && !state.active
    {
      ApplyRewind();
      state.active := false;
      state.rewindTo := Nowhere;
    }
  }

  // ---- lazy against eager ------------------------------------------------------------------------

  datatype Op = WriteOp(bytes: Bytes) | FlushOp | RewindOp

  /** Truncating at once at every request. */
  function Eager(buffer: Bytes, ops: seq<Op>): Bytes {
    if ops == [] then buffer
    else
      var before := Eager(buffer, ops[..|ops| - 1]);
      match ops[|ops| - 1]
      case WriteOp(bytes) => before + bytes
      case FlushOp => before
      case RewindOp => Cut(before)
  }

  /** Step by step: bytes are appended, a flush does nothing, and a rewind takes off what follows the last newline. */
  lemma EagerIs(lines: Bytes, partial: Bytes)
    requires lines != [] && lines[|lines| - 1] == 10 && 10 !in partial
    ensures Eager(lines, []) == lines
    ensures Eager(lines, [WriteOp(partial)]) == lines + partial
    ensures Eager(lines + partial, [FlushOp]) == lines + partial
    ensures Eager(lines + partial, [RewindOp]) == lines
    ensures Eager(partial, [RewindOp]) == partial
  {
    var write, flush, rewind := [WriteOp(partial)], [FlushOp], [RewindOp];
    assert write[..0] == [] && flush[..0] == [] && rewind[..0] == [];
    var s := lines + partial;
    assert s[|lines| - 1] == NEWLINE && s[|lines|..] == partial && s[..|lines|] == lines;
    CompleteLinesUnique(s, |lines|);
  }

  /** Any run of one activated writer leaves the buffer that eager rewinding would. */
  method RunWriter(state: RewindState, buffer: Buffer, ops: seq<Op>)
    requires !state.active
    modifies state, buffer
    ensures buffer.bytes == Eager(old(buffer.bytes), ops)
    ensures !state.active && state.rewindTo.Nowhere?
  {
    var writer := state.Activate(buffer);
    for i := 0 to |ops|
      invariant state.active
      invariant Settled(buffer.bytes, state.rewindTo) == Eager(old(buffer.bytes), ops[..i])
    {
      assert ops[..i + 1][..i] == ops[..i];
      CutTwice(buffer.bytes);
      match ops[i]
      case WriteOp(bytes) => writer.Write(bytes);
      case FlushOp => writer.Flush();
      case RewindOp => state.Request(LastNewline);
    }
    assert ops[..|ops|] == ops;
    writer.Drop();
  }

  lemma {:induction false} EagerAppend(buffer: Bytes, a: seq<Op>, b: seq<Op>)
    ensures Eager(buffer, a + b) == Eager(Eager(buffer, a), b)
  {
    if b == [] {
      assert a + b == a;
    } else {
      EagerAppend(buffer, a, b[..|b| - 1]);
      assert (a + b)[..|a + b| - 1] == a + b[..|b| - 1];
    }
  }

  /** Asking again before the next write changes nothing. */
  lemma RepeatedRequestsCountOnce(buffer: Bytes, a: seq<Op>, b: seq<Op>)
    ensures Eager(buffer, a + [RewindOp, RewindOp] + b) == Eager(buffer, a + [RewindOp] + b)
  {
    var once, twice := a + [RewindOp], a + [RewindOp, RewindOp];
    assert once[..|a|] == a && twice[..|a| + 1] == once;
    CutTwice(Eager(buffer, a));
    EagerAppend(buffer, once, b);
    EagerAppend(buffer, twice, b);
  }

  /** Lines complete at any moment of a run are never taken back. */
  lemma {:induction false} CompleteLinesSurvive(buffer: Bytes, a: seq<Op>, b: seq<Op>)
    ensures CompleteLines(Eager(buffer, a)) <= CompleteLines(Eager(buffer, a + b))
  {
    if b == [] {
      assert a + b == a;
    } else {
      var last, before := b[|b| - 1], b[..|b| - 1];
      CompleteLinesSurvive(buffer, a, before);
      assert (a + b)[..|a + b| - 1] == a + before;
      var reached := Eager(buffer, a + before);
      CompleteLinesOfCut(reached);
      if last.WriteOp? {
        CompleteLinesGrow(reached, last.bytes);
      }
    }
  }

  /** What was in the buffer stays, if it was empty or ended a line. */
  lemma OriginalBytesSurvive(buffer: Bytes, ops: seq<Op>)
    requires buffer == [] || buffer[|buffer| - 1] == NEWLINE
    ensures buffer <= Eager(buffer, ops)
  {
    CompleteLinesSurvive(buffer, [], ops);
    assert [] + ops == ops;
  }

  /** A rewind leaves no partial line exactly when there is a complete one, or nothing at all. */
  lemma RewindLeavesNoPartialLine(s: Bytes)
    ensures Cut(s) == CompleteLines(s) <==> NEWLINE in s || s == []
  {
  }

  // ---- metrics that fail to encode --------------------------------------------------------------------

  /** What was written for one metric, its descriptor lines included, and whether its encoding then failed. */
  datatype Encoded = Encoded(written: Bytes, failed: bool)

  function OwnOps(m: Encoded): seq<Op> {
    if m.failed then [WriteOp(m.written), RewindOp] else [WriteOp(m.written)]
  }

  function OwnBytes(m: Encoded): Bytes {
    if m.failed then CompleteLines(m.written) else m.written
  }

  function OpsOf(metrics: seq<Encoded>): seq<Op> {
    if metrics == [] then [] else OpsOf(metrics[..|metrics| - 1]) + OwnOps(metrics[|metrics| - 1])
  }

  /** The complete lines of the metrics that failed, and all of the others. */
  function CleanBytes(metrics: seq<Encoded>): Bytes {
    if metrics == [] then [] else CleanBytes(metrics[..|metrics| - 1]) + OwnBytes(metrics[|metrics| - 1])
  }

  ghost predicate EndsLine(s: Bytes) { s == [] || s[|s| - 1] == NEWLINE }

  lemma OwnOpsRun(reached: Bytes, m: Encoded)
    ensures Eager(reached, OwnOps(m)) == if m.failed then Cut(reached + m.written) else reached + m.written
  {
    hide Cut;
    var write := [WriteOp(m.written)];
    assert write[..0] == [];
    assert Eager(reached, write) == reached + m.written;
    assert m.failed ==> OwnOps(m)[..1] == write;
  }

  lemma CutAfterLine(reached: Bytes, t: Bytes)
    requires EndsLine(reached) && (reached != [] || NEWLINE in t)
    ensures Cut(reached + t) == reached + CompleteLines(t)
  {
    hide CompleteLines;
    CompleteLinesGrow(reached, t);
    AlreadyComplete(reached);
    if NEWLINE !in t {
      assert CompleteLines(t) == [] && reached + [] == reached;
      assert (reached + t)[|reached| - 1] == NEWLINE;
    }
  }

  lemma AlreadyComplete(s: Bytes)
    requires EndsLine(s)
    ensures CompleteLines(s) == s
  {
  }

  lemma OneMetric(reached: Bytes, m: Encoded)
    requires EndsLine(reached)
    requires if m.failed then reached != [] || NEWLINE in m.written else EndsLine(m.written)
    ensures Eager(reached, OwnOps(m)) == reached + OwnBytes(m) && EndsLine(reached + OwnBytes(m))
  {
    hide Eager, OwnOps, Cut, CompleteLines;
    OwnOpsRun(reached, m);
    if m.failed {
      CutAfterLine(reached, m.written);
    }
    assert reached + [] == reached;
  }

  // ---- when garbage stays -----------------------------------------------------------------------------

  /** A failed metric wrote part of a line, and there is no line before it to go back to. */
  ghost predicate Strands(before: Bytes, m: Encoded) {
    m.failed && before == [] && m.written != [] && NEWLINE !in m.written
  }

  /** No failed metric leaves part of a line before the first newline. */
  ghost predicate NothingStranded(buffer: Bytes, metrics: seq<Encoded>) {
    forall i :: 0 <= i < |metrics| ==> !Strands(buffer + CleanBytes(metrics[..i]), metrics[i])
  }

  /** The metrics that succeed end their lines. */
  ghost predicate SuccessesEndLines(metrics: seq<Encoded>) {
    forall i :: 0 <= i < |metrics| && !metrics[i].failed ==> EndsLine(metrics[i].written)
  }

  lemma NotStrandedStep(reached: Bytes, m: Encoded)
    requires EndsLine(reached) && !Strands(reached, m) && (!m.failed ==> EndsLine(m.written))
    ensures Eager(reached, OwnOps(m)) == reached + OwnBytes(m) && EndsLine(reached + OwnBytes(m))
  {
    if m.failed && reached == [] && m.written == [] {
      OwnOpsRun(reached, m);
    } else {
      OneMetric(reached, m);
    }
  }

  /** Part of a line with no newline before it. */
  ghost predicate IsGarbage(s: Bytes) { s != [] && NEWLINE !in s }

  lemma StrandedStep(reached: Bytes, m: Encoded)
    requires Strands(reached, m)
    ensures Eager(reached, OwnOps(m)) == m.written && IsGarbage(m.written) && OwnBytes(m) == []
  {
    OwnOpsRun(reached, m);
    assert reached + m.written == m.written;
  }

  /** Garbage, or lines after garbage, never get shorter again. */
  lemma GarbageStep(reached: Bytes, m: Encoded)
    requires IsGarbage(reached) || EndsLine(reached)
    requires !m.failed ==> EndsLine(m.written)
    ensures var after := Eager(reached, OwnOps(m));
            (IsGarbage(after) || EndsLine(after)) && |after| >= |reached| + |OwnBytes(m)|
  {
    hide Eager, OwnOps, CompleteLines, Cut, IsGarbage, EndsLine;
    OwnOpsRun(reached, m);
    if !m.failed {
      StillEnds(reached, m.written);
    } else if NEWLINE in m.written {
      EndedStep(reached, m.written);
    } else {
      UnendedStep(reached, m.written);
      GarbageOrEnded(reached, m.written);
    }
  }

  lemma StillEnds(reached: Bytes, t: Bytes)
    requires (IsGarbage(reached) || EndsLine(reached)) && EndsLine(t)
    ensures IsGarbage(reached + t) || EndsLine(reached + t)
  {
    var after := reached + t;
    assert t != [] ==> after[|after| - 1] == t[|t| - 1];
    assert t == [] ==> after == reached;
  }

  lemma EndedStep(reached: Bytes, t: Bytes)
    requires NEWLINE in t
    ensures Cut(reached + t) == reached + CompleteLines(t) && EndsLine(reached + CompleteLines(t))
  {
    hide CompleteLines, EndsLine;
    CompleteLinesGrow(reached, t);
    EndsStill(reached, CompleteLines(t));
  }

  lemma EndsStill(reached: Bytes, kept: Bytes)
    requires kept != [] && kept[|kept| - 1] == NEWLINE
    ensures EndsLine(reached + kept)
  {
  }

  lemma GarbageOrEnded(reached: Bytes, t: Bytes)
    requires (IsGarbage(reached) || EndsLine(reached)) && NEWLINE !in t
    ensures IsGarbage(reached) || reached == [] ==> IsGarbage(reached + t) || EndsLine(reached + t)
  {
    if (IsGarbage(reached) || reached == []) && reached + t != [] {
      assert NEWLINE !in reached + t;
    }
  }

  lemma UnendedStep(reached: Bytes, t: Bytes)
    requires (IsGarbage(reached) || EndsLine(reached)) && NEWLINE !in t
    ensures Cut(reached + t) == if IsGarbage(reached) || reached == [] then reached + t else reached
    ensures CompleteLines(t) == []
  {
    if IsGarbage(reached) || reached == [] {
      assert NEWLINE !in reached + t;
    } else {
      CutAfterLine(reached, t);
      assert CompleteLines(t) == [] && reached + [] == reached;
    }
  }

  /** As long as nothing is stranded the buffer is exactly the clean bytes, and ends a line. */
  lemma {:induction false} CleanSoFar(buffer: Bytes, metrics: seq<Encoded>)
    requires EndsLine(buffer) && SuccessesEndLines(metrics) && NothingStranded(buffer, metrics)
    ensures Eager(buffer, OpsOf(metrics)) == buffer + CleanBytes(metrics) && EndsLine(buffer + CleanBytes(metrics))
  {
    hide OwnOps, OwnBytes, EndsLine, Strands;
    if metrics == [] {
      assert buffer + [] == buffer;
    } else {
      var before, last := metrics[..|metrics| - 1], metrics[|metrics| - 1];
      assert forall i :: 0 <= i < |before| ==> metrics[..i] == before[..i] && metrics[i] == before[i];
      assert NothingStranded(buffer, before);
      CleanSoFar(buffer, before);
      NotStrandedStep(buffer + CleanBytes(before), last);
      EagerAppend(buffer, OpsOf(before), OwnOps(last));
      ConcatAssoc(buffer, CleanBytes(before), OwnBytes(last));
    }
  }

  lemma StrandedByLast(buffer: Bytes, metrics: seq<Encoded>)
    requires !NothingStranded(buffer, metrics)
    ensures metrics != []
    ensures var before, last := metrics[..|metrics| - 1], metrics[|metrics| - 1];
            !NothingStranded(buffer, before) || Strands(buffer + CleanBytes(before), last)
  {
    hide Strands, CleanBytes;
    var before := metrics[..|metrics| - 1];
    assert forall i :: 0 <= i < |before| ==> metrics[..i] == before[..i] && metrics[i] == before[i];
  }

  /** Once something was stranded the buffer stays longer than the clean bytes. */
  lemma {:induction false} StrandedStays(buffer: Bytes, metrics: seq<Encoded>)
    requires EndsLine(buffer) && SuccessesEndLines(metrics) && !NothingStranded(buffer, metrics)
    ensures var after := Eager(buffer, OpsOf(metrics));
            (IsGarbage(after) || EndsLine(after)) && |after| > |buffer + CleanBytes(metrics)|
  {
    hide OwnOps, OwnBytes, EndsLine, Strands, IsGarbage, NothingStranded;
    StrandedByLast(buffer, metrics);
    var before, last := metrics[..|metrics| - 1], metrics[|metrics| - 1];
    EagerAppend(buffer, OpsOf(before), OwnOps(last));
    var reached := Eager(buffer, OpsOf(before));
    if NothingStranded(buffer, before) {
      CleanSoFar(buffer, before);
      StrandedStep(reached, last);
      StrandedIsLonger(reached, last);
    } else {
      StrandedStays(buffer, before);
      GarbageStep(reached, last);
    }
  }

  lemma StrandedIsLonger(reached: Bytes, m: Encoded)
    requires Strands(reached, m)
    ensures reached == [] && m.written != []
  {
  }

  /**
   Metrics that fail to encode leave exactly their complete lines, and the others
   all of theirs, if and only if no failed metric leaves part of a line before
   the first newline in the buffer.
   */
  lemma FailuresLeaveNoGarbage(buffer: Bytes, metrics: seq<Encoded>)
    requires EndsLine(buffer) && SuccessesEndLines(metrics)
    ensures Eager(buffer, OpsOf(metrics)) == buffer + CleanBytes(metrics) <==> NothingStranded(buffer, metrics)
    ensures NothingStranded(buffer, metrics) ==> EndsLine(buffer + CleanBytes(metrics))
  {
    if NothingStranded(buffer, metrics) {
      CleanSoFar(buffer, metrics);
    } else {
      StrandedStays(buffer, metrics);
    }
  }

  /** Where every failed metric got as far as a newline, as after a descriptor line, nothing is stranded. */
  lemma DescriptorsPreventStranding(buffer: Bytes, metrics: seq<Encoded>)
    requires EndsLine(buffer) && SuccessesEndLines(metrics)
    requires forall i :: 0 <= i < |metrics| && metrics[i].failed ==> NEWLINE in metrics[i].written
    ensures NothingStranded(buffer, metrics)
    ensures Eager(buffer, OpsOf(metrics)) == buffer + CleanBytes(metrics)
  {
    CleanSoFar(buffer, metrics);
  }

  /** A metric that fails in its first line, in an empty buffer: the rewind finds no newline and its byte stays. */
  lemma StrandedByte(b: byte)
    requires b != NEWLINE
    ensures var metrics := [Encoded([b], true)];
            !NothingStranded([], metrics) && Eager([], OpsOf(metrics)) == [b] && CleanBytes(metrics) == []
  {
    var m := Encoded([b], true);
    var metrics := [m];
    assert metrics[..0] == [];
    assert CleanBytes([]) == [] && [] + CleanBytes(metrics[..0]) == [];
    StrandedStep([], m);
    assert OpsOf(metrics) == [] + OwnOps(m) == OwnOps(m);
    assert CleanBytes(metrics) == [] + OwnBytes(m);
    assert Strands([] + CleanBytes(metrics[..0]), metrics[0]);
  }

  // ---- registries, one after the other -------------------------------------------------------------

  /** `# EOF` and a newline. */
  const EOF_MARKER: Bytes := [35, 32, 69, 79, 70, 10]

  /** The bytes of the text encoder's last line. */
  lemma MarkerSpells()
    ensures |EOF_MARKER| == |"# EOF\n"|
    ensures forall i :: 0 <= i < |EOF_MARKER| ==> EOF_MARKER[i] as int == "# EOF\n"[i] as int
    ensures NEWLINE as int == '\n' as int
  {
  }

  /** Gives back what stood before the marker, or what there was. */
  method TruncateEof(buffer: Buffer)
    modifies buffer
    ensures old(buffer.bytes) == buffer.bytes + EOF_MARKER || old(buffer.bytes) == buffer.bytes
    ensures buffer.bytes == old(buffer.bytes) ==> forall before :: buffer.bytes != before + EOF_MARKER
  {
    var n := |buffer.bytes| - |EOF_MARKER|;
    if n >= 0 && buffer.bytes[n..] == EOF_MARKER {
      assert buffer.bytes == buffer.bytes[..n] + EOF_MARKER;
      buffer.bytes := buffer.bytes[..n];
    } else {
      forall before ensures buffer.bytes != before + EOF_MARKER {
        assert (before + EOF_MARKER)[|before|..] == EOF_MARKER;
      }
    }
  }

  lemma {:induction false} OpsOfAppend(a: seq<Encoded>, b: seq<Encoded>)
    ensures OpsOf(a + b) == OpsOf(a) + OpsOf(b) && CleanBytes(a + b) == CleanBytes(a) + CleanBytes(b)
  {
    if b == [] {
      assert a + b == a;
    } else {
      var init, last := b[..|b| - 1], b[|b| - 1];
      OpsOfAppend(a, init);
      assert (a + b)[..|a + b| - 1] == a + init && (a + b)[|a + b| - 1] == last;
      ConcatAssoc(OpsOf(a), OpsOf(init), OwnOps(last));
      ConcatAssoc(CleanBytes(a), CleanBytes(init), OwnBytes(last));
    }
  }

  /** A registry encodes its metrics and ends with the marker, which is taken off again. */
  method EncodeRegistry(state: RewindState, buffer: Buffer, metrics: seq<Encoded>)
    requires !state.active
    modifies state, buffer
    ensures buffer.bytes == Eager(old(buffer.bytes), OpsOf(metrics)) && !state.active
  {
    ghost var before := buffer.bytes;
    var ops := OpsOf(metrics) + [WriteOp(EOF_MARKER)];
    RunWriter(state, buffer, ops);
    assert ops[..|ops| - 1] == OpsOf(metrics);
    ghost var reached := Eager(before, OpsOf(metrics));
    assert buffer.bytes == reached + EOF_MARKER;
    TruncateEof(buffer);
    assert (reached + EOF_MARKER)[..|reached|] == reached;
    assert (buffer.bytes + EOF_MARKER)[..|buffer.bytes|] == buffer.bytes;
  }

  /**
   The registries in turn: one document with no marker in between, clean exactly
   when no failed metric of any of them leaves part of a line before the first newline.
   */
  method EncodeRegistries(state: RewindState, buffer: Buffer, registries: seq<seq<Encoded>>)
    requires !state.active
    modifies state, buffer
    ensures !state.active
    ensures buffer.bytes == Eager(old(buffer.bytes), OpsOf(Flatten(registries)))
    ensures EndsLine(old(buffer.bytes)) && SuccessesEndLines(Flatten(registries)) ==>
      (buffer.bytes == old(buffer.bytes) + CleanBytes(Flatten(registries))
       <==> NothingStranded(old(buffer.bytes), Flatten(registries)))
  {
    hide OpsOf, Eager, CleanBytes;
    ghost var before := buffer.bytes;
    NoOps(before);
    for r := 0 to |registries|
      invariant !state.active
      invariant buffer.bytes == Eager(before, OpsOf(Flatten(registries[..r])))
    {
      ghost var done := Flatten(registries[..r]);
      EncodeRegistry(state, buffer, registries[r]);
      assert registries[..r + 1] == registries[..r] + [registries[r]];
      FlattenAppend(registries[..r], [registries[r]]);
      assert [registries[r]][1..] == [];
      assert Flatten([registries[r]]) == registries[r];
      OpsOfAppend(done, registries[r]);
      EagerAppend(before, OpsOf(done), OpsOf(registries[r]));
    }
    assert registries[..|registries|] == registries;
    if EndsLine(before) && SuccessesEndLines(Flatten(registries)) {
      FailuresLeaveNoGarbage(before, Flatten(registries));
    }
  }

  lemma NoOps(buffer: Bytes)
    ensures Eager(buffer, OpsOf(Flatten([]))) == buffer
  {
  }
}
