// What the stream delimiter guarantees about whole streams.
module StreamLaws {
  import opened Bytes
  import opened Crc
  import opened Protocol
  import opened StreamScan
  import opened Runs

  // ----- chunking ---------------------------------------------------------------------

  /** A codec being fed chunks and drained after each: its buffer, the frames
      emitted so far, and the bytes it has accepted. */
  datatype Session = Session(capacity: nat, buffer: seq<byte>, emitted: seq<seq<byte>>, accepted: seq<byte>)

  /** An overflowing chunk is refused whole. */
  function FeedAndDrain(s: Session, chunk: seq<byte>): Session {
    if |s.buffer| + |chunk| > s.capacity then s
    else
      var scanned := Scan(s.buffer + chunk);
      s.(buffer := scanned.residue, emitted := s.emitted + scanned.frames, accepted := s.accepted + chunk)
  }

  function FeedAll(capacity: nat, chunks: seq<seq<byte>>): Session {
    Run((s, c) => FeedAndDrain(s, c), Session(capacity, [], [], []), chunks)
  }

  predicate InStep(s: Session) {
    Scan(s.accepted) == Scanned(s.emitted, s.buffer)
  }

  /** However a stream is cut into chunks, what has been emitted is the scan of
      the accepted bytes, and what is buffered is less than one frame. */
  lemma ChunkingIrrelevant(capacity: nat, chunks: seq<seq<byte>>)
    ensures var s := FeedAll(capacity, chunks);
      && s.emitted == Scan(s.accepted).frames
      && s.buffer == Scan(s.accepted).residue
      && |s.buffer| < MAX_FRAME_LEN
  {
    var step := (s: Session, c: seq<byte>) => FeedAndDrain(s, c);
    forall s: Session, chunk: seq<byte> | InStep(s)
      ensures InStep(step(s, chunk))
    {
      ScanResumes(s.accepted, chunk);
    }
    assert Scan([]) == Scanned([], []);
    RunKeeps(step, (s: Session) => InStep(s), (c: seq<byte>) => true, Session(capacity, [], [], []), chunks);
    ResidueShort(FeedAll(capacity, chunks).accepted);
  }

  function Concat(chunks: seq<seq<byte>>): seq<byte> {
    if chunks == [] then [] else chunks[0] + Concat(chunks[1..])
  }

  /** Chunks that leave room for an unfinished frame are never refused. */
  lemma {:induction false} NothingRefused(s: Session, chunks: seq<seq<byte>>)
    requires |s.buffer| < MAX_FRAME_LEN
    requires forall c :: c in chunks ==> |c| + MAX_FRAME_LEN <= s.capacity + 1
    ensures Run((s, c) => FeedAndDrain(s, c), s, chunks).accepted == s.accepted + Concat(chunks)
    decreases |chunks|
  {
    hide Scan, Classify;
    if chunks != [] {
      assert chunks[0] in chunks;
      var next := FeedAndDrain(s, chunks[0]);
      ResidueShort(s.buffer + chunks[0]);
      NothingRefused(next, chunks[1..]);
      assert s.accepted + chunks[0] + Concat(chunks[1..]) == s.accepted + Concat(chunks);
    }
  }

  /** Two ways of cutting one stream that fit the codec emit the same frames. */
  lemma SameStreamSameFrames(capacity: nat, a: seq<seq<byte>>, b: seq<seq<byte>>)
    requires forall c :: c in a || c in b ==> |c| + MAX_FRAME_LEN <= capacity + 1
    requires Concat(a) == Concat(b)
    ensures FeedAll(capacity, a).emitted == FeedAll(capacity, b).emitted == Scan(Concat(a)).frames
    ensures FeedAll(capacity, a).buffer == FeedAll(capacity, b).buffer
  {
    NothingRefused(Session(capacity, [], [], []), a);
    NothingRefused(Session(capacity, [], [], []), b);
    assert [] + Concat(a) == Concat(a);
    ChunkingIrrelevant(capacity, a);
    ChunkingIrrelevant(capacity, b);
  }

  // ----- the frames emitted are the leftmost ones ---------------------------------------

  datatype Span = Span(start: nat, length: nat)

  /** Where the scan finds its frames, in positions of the stream. */
  function Spans(t: seq<byte>, base: nat): seq<Span>
    decreases |t|
  {
    match Classify(t)
    case Pending => []
    case Noise => Spans(t[1..], base + 1)
    case Complete(n) => [Span(base, n)] + Spans(t[n..], base + n)
  }

  /** A complete checksummed frame lies at `i` in the stream. */
  predicate FrameAt(s: seq<byte>, i: nat, n: nat) {
    i + n <= |s| && IsFrame(s[i..i + n])
  }

  predicate Inside(p: Span, i: nat) {
    p.start < i < p.start + p.length
  }

  predicate AllFrames(s: seq<byte>, from: nat, undecided: int, spans: seq<Span>) {
    forall k :: 0 <= k < |spans| ==>
      FrameAt(s, spans[k].start, spans[k].length) && from <= spans[k].start
        && spans[k].start + spans[k].length <= undecided
  }

  predicate Apart(spans: seq<Span>) {
    forall j, k :: 0 <= j < k < |spans| ==> spans[j].start + spans[j].length <= spans[k].start
  }

  predicate Emitted(spans: seq<Span>, i: nat, n: nat) {
    Span(i, n) in spans || exists k :: 0 <= k < |spans| && Inside(spans[k], i)
  }

  ghost predicate Covers(s: seq<byte>, from: nat, undecided: int, spans: seq<Span>) {
    forall i: nat, n: nat :: from <= i < undecided && FrameAt(s, i, n) ==> Emitted(spans, i, n)
  }

  /** The emitted frames are frames of the stream, in order and apart; and every
      frame before the undecided tail is emitted unless it starts inside an
      emitted one. */
  ghost predicate Leftmost(s: seq<byte>, from: nat, undecided: int, spans: seq<Span>) {
    AllFrames(s, from, undecided, spans) && Apart(spans) && Covers(s, from, undecided, spans)
  }

  lemma LeftmostAfterNoise(s: seq<byte>, from: nat, undecided: int, spans: seq<Span>)
    requires Leftmost(s, from + 1, undecided, spans)
    requires forall n: nat :: !FrameAt(s, from, n)
    ensures Leftmost(s, from, undecided, spans)
  {
    hide FrameAt, Emitted;
  }

  lemma FramesAfterFrame(s: seq<byte>, p: Span, undecided: int, rest: seq<Span>)
    requires FrameAt(s, p.start, p.length) && p.start + p.length <= undecided
    requires AllFrames(s, p.start + p.length, undecided, rest) && Apart(rest)
    ensures AllFrames(s, p.start, undecided, [p] + rest) && Apart([p] + rest)
  {
    hide FrameAt;
    var spans := [p] + rest;
    forall k | 0 <= k < |spans|
      ensures FrameAt(s, spans[k].start, spans[k].length) && p.start <= spans[k].start
      ensures spans[k].start + spans[k].length <= undecided && (k > 0 ==> p.start + p.length <= spans[k].start)
    {
      assert k > 0 ==> spans[k] == rest[k - 1];
    }
    forall j, k | 0 <= j < k < |spans|
      ensures spans[j].start + spans[j].length <= spans[k].start
    {
      assert spans[k] == rest[k - 1] && (j > 0 ==> spans[j] == rest[j - 1]);
    }
  }

  lemma EmittedAfterFrame(p: Span, rest: seq<Span>, i: nat, n: nat)
    requires Emitted(rest, i, n)
    ensures Emitted([p] + rest, i, n)
  {
    var spans := [p] + rest;
    if Span(i, n) !in rest {
      var k :| 0 <= k < |rest| && Inside(rest[k], i);
      assert Inside(spans[k + 1], i);
    }
  }

  lemma LeftmostAfterFrame(s: seq<byte>, p: Span, undecided: int, rest: seq<Span>)
    requires FrameAt(s, p.start, p.length) && p.start + p.length <= undecided
    requires Leftmost(s, p.start + p.length, undecided, rest)
    requires forall n: nat :: FrameAt(s, p.start, n) ==> n == p.length
    ensures Leftmost(s, p.start, undecided, [p] + rest)
  {
    hide FrameAt, AllFrames, Apart;
    FramesAfterFrame(s, p, undecided, rest);
    var spans := [p] + rest;
    forall i: nat, n: nat | p.start <= i < undecided && FrameAt(s, i, n)
      ensures Emitted(spans, i, n)
    {
      if i < p.start + p.length {
        assert spans[0] == p;
        assert i != p.start ==> Inside(spans[0], i);
      } else {
        hide Emitted;
        EmittedAfterFrame(p, rest, i, n);
      }
    }
  }

  lemma {:induction false} SpansLeftmost(s: seq<byte>, from: nat)
    requires from <= |s|
    ensures Leftmost(s, from, |s| - |Scan(s[from..]).residue|, Spans(s[from..], from))
    ensures from <= |s| - |Scan(s[from..]).residue|
    decreases |s| - from
  {
    hide Classify, IsFrame, Leftmost;
    var t := s[from..];
    ClassifyBounds(t);
    ResidueShort(t);
    var undecided := |s| - |Scan(t).residue|;
    forall n: nat
      ensures FrameAt(s, from, n) <==> Classify(t) == Complete(n)
    {
      ClassifyBounds(t);
      if from + n <= |s| {
        assert s[from..from + n] == t[..n];
        CompleteIsFrame(t, n);
      }
    }
    match Classify(t)
    case Pending =>
      NothingLeftmost(s, from);
    case Noise =>
      assert t[1..] == s[from + 1..];
      SpansLeftmost(s, from + 1);
      LeftmostAfterNoise(s, from, undecided, Spans(t, from));
    case Complete(length) =>
      assert t[length..] == s[from + length..];
      SpansLeftmost(s, from + length);
      LeftmostAfterFrame(s, Span(from, length), undecided, Spans(t[length..], from + length));
  }

  lemma NothingLeftmost(s: seq<byte>, from: nat)
    ensures Leftmost(s, from, from, [])
  {
  }

  function Cut(s: seq<byte>, p: Span): seq<byte>
    requires p.start + p.length <= |s|
  {
    s[p.start..p.start + p.length]
  }

  lemma {:induction false} FramesAreSpans(s: seq<byte>, from: nat)
    requires from <= |s|
    ensures var spans, frames := Spans(s[from..], from), Scan(s[from..]).frames;
      |frames| == |spans| &&
      forall k :: 0 <= k < |spans| ==> spans[k].start + spans[k].length <= |s| && frames[k] == Cut(s, spans[k])
    decreases |s| - from
  {
    hide Classify;
    var t := s[from..];
    ClassifyBounds(t);
    match Classify(t)
    case Pending =>
    case Noise =>
      assert t[1..] == s[from + 1..];
      FramesAreSpans(s, from + 1);
    case Complete(length) =>
      assert t[length..] == s[from + length..];
      assert t[..length] == Cut(s, Span(from, length));
      FramesAreSpans(s, from + length);
  }

  /** The scan emits exactly the leftmost non-overlapping frames of the stream. */
  lemma ScanIsLeftmost(s: seq<byte>)
    ensures var spans := Spans(s, 0);
      && Leftmost(s, 0, |s| - |Scan(s).residue|, spans)
      && |Scan(s).frames| == |spans|
      && forall k :: 0 <= k < |spans| ==> Scan(s).frames[k] == Cut(s, spans[k])
  {
    hide Leftmost, Classify, Scan, Spans;
    assert s[0..] == s;
    SpansLeftmost(s, 0);
    FramesAreSpans(s, 0);
  }

  lemma CoveredSpan(s: seq<byte>, from: nat, undecided: int, spans: seq<Span>, i: nat, n: nat)
    requires Leftmost(s, from, undecided, spans) && FrameAt(s, i, n) && from <= i < undecided
    requires forall p :: p in spans ==> !Inside(p, i)
    ensures Span(i, n) in spans
  {
    hide FrameAt, AllFrames, Apart;
    assert Emitted(spans, i, n);
  }

  /** A frame that does not start inside an emitted one is emitted as soon as the
      stream is a maximal frame longer than its start. */
  lemma FrameEmitted(s: seq<byte>, i: nat, n: nat)
    requires FrameAt(s, i, n) && i + MAX_FRAME_LEN <= |s|
    requires forall p :: p in Spans(s, 0) ==> !Inside(p, i)
    ensures Span(i, n) in Spans(s, 0)
    ensures s[i..i + n] in Scan(s).frames
  {
    hide Classify, Scan, Spans, IsFrame, Leftmost, Inside;
    ScanIsLeftmost(s);
    ResidueShort(s);
    var spans := Spans(s, 0);
    CoveredSpan(s, 0, |s| - |Scan(s).residue|, spans, i, n);
    var k :| 0 <= k < |spans| && spans[k] == Span(i, n);
    assert Scan(s).frames[k] == s[i..i + n];
  }

  /** The leftmost frames are unique: no other list of spans has their properties. */
  lemma {:induction false} LeftmostUnique(s: seq<byte>, from: nat, undecided: int, a: seq<Span>, b: seq<Span>)
    requires Leftmost(s, from, undecided, a) && Leftmost(s, from, undecided, b)
    ensures a == b
    decreases |a|
  {
    hide Leftmost, FrameAt;
    EmptyTogether(s, from, undecided, a, b);
    EmptyTogether(s, from, undecided, b, a);
    if a != [] {
      SameStart(s, from, undecided, a, b);
      SameStart(s, from, undecided, b, a);
      HeadIsFrame(s, from, undecided, a);
      HeadIsFrame(s, from, undecided, b);
      FrameLengthUnique(s, a[0].start, a[0].length, b[0].length);
      LeftmostTail(s, from, undecided, a);
      LeftmostTail(s, from, undecided, b);
      LeftmostUnique(s, a[0].start + a[0].length, undecided, a[1..], b[1..]);
      assert a == [a[0]] + a[1..] && b == [b[0]] + b[1..];
    }
  }

  lemma HeadIsFrame(s: seq<byte>, from: nat, undecided: int, a: seq<Span>)
    requires Leftmost(s, from, undecided, a) && a != []
    ensures FrameAt(s, a[0].start, a[0].length) && from <= a[0].start < undecided
  {
    FrameNotEmpty(s, a[0]);
  }

  lemma EmptyTogether(s: seq<byte>, from: nat, undecided: int, a: seq<Span>, b: seq<Span>)
    requires Leftmost(s, from, undecided, a) && Leftmost(s, from, undecided, b)
    ensures a == [] ==> b == []
  {
    if b != [] {
      HeadIsFrame(s, from, undecided, b);
      assert Emitted(a, b[0].start, b[0].length);
    }
  }

  lemma FrameNotEmpty(s: seq<byte>, p: Span)
    requires FrameAt(s, p.start, p.length)
    ensures p.length >= HEADER_LEN
  {
    hide U16Of, LeWord, Crc32c, U32Of;
  }

  lemma SameStart(s: seq<byte>, from: nat, undecided: int, a: seq<Span>, b: seq<Span>)
    requires Leftmost(s, from, undecided, a) && Leftmost(s, from, undecided, b) && a != [] && b != []
    ensures b[0].start <= a[0].start
  {
    hide FrameAt;
    FrameNotEmpty(s, a[0]);
    FrameNotEmpty(s, b[0]);
    var p := a[0];
    assert Emitted(b, p.start, p.length);
    if Span(p.start, p.length) in b {
      var k :| 0 <= k < |b| && b[k] == p;
    } else {
      var k :| 0 <= k < |b| && Inside(b[k], p.start);
    }
  }

  lemma FrameLengthUnique(s: seq<byte>, i: nat, m: nat, n: nat)
    requires FrameAt(s, i, m) && FrameAt(s, i, n)
    ensures m == n
  {
    hide Classify, IsFrame;
    assert s[i..i + m] == s[i..][..m] && s[i..i + n] == s[i..][..n];
    CompleteIsFrame(s[i..], m);
    CompleteIsFrame(s[i..], n);
  }

  lemma LeftmostTail(s: seq<byte>, from: nat, undecided: int, a: seq<Span>)
    requires Leftmost(s, from, undecided, a) && a != []
    ensures Leftmost(s, a[0].start + a[0].length, undecided, a[1..])
  {
    hide IsFrame, FrameAt;
    var next := a[0].start + a[0].length;
    var tail := a[1..];
    forall i: nat, n: nat | next <= i < undecided && FrameAt(s, i, n)
      ensures Emitted(tail, i, n)
    {
      assert Emitted(a, i, n);
      if Span(i, n) in a {
        var k :| 0 <= k < |a| && a[k] == Span(i, n);
        FrameNotEmpty(s, a[0]);
        assert tail[k - 1] == Span(i, n);
      } else {
        var k :| 0 <= k < |a| && Inside(a[k], i);
        assert Inside(tail[k - 1], i);
      }
    }
  }
}
