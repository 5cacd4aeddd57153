// Delimiting frames in a byte stream: crates/transport-adapter/src/lib.rs.
module StreamScan {
  import opened Prelude
  import opened Bytes
  import opened Crc
  import opened Protocol

  const D: byte := 0x44
  const R: byte := 0x52

  /** What the bytes at the front of a buffer can be. */
  datatype Status =
    | Pending
    | Noise
    | Complete(length: nat)

  predicate KnownType(t: byte) {
    1 <= t <= 4
  }

  function Classify(t: seq<byte>): Status {
    if |t| == 0 then Pending
    else if t[0] != D then Noise
    else if |t| == 1 then Pending
    else if t[1] != R then Noise
    else if |t| < HEADER_LEN then Pending
    else
      var payloadLen := U16Of(t[8..10]);
      if !(t[2] == PROTOCOL_VERSION && KnownType(t[3]) && payloadLen <= MAX_PAYLOAD_LEN) then Noise
      else
        var frameLen := HEADER_LEN + payloadLen + CHECKSUM_LEN;
        if |t| < frameLen then Pending
        else if LeWord(t[frameLen - 4..frameLen]) != Crc32c(t[2..frameLen - 4]) then Noise
        else Complete(frameLen)
  }

  /** A buffer scanned to its end: the frames found and the bytes kept. */
  datatype Scanned = Scanned(frames: seq<seq<byte>>, residue: seq<byte>)

  function Scan(t: seq<byte>): Scanned
    decreases |t|
  {
    match Classify(t)
    case Pending => Scanned([], t)
    case Noise => Scan(t[1..])
    case Complete(n) =>
      var rest := Scan(t[n..]);
      Scanned([t[..n]] + rest.frames, rest.residue)
  }

  /** The first frame of a buffer, if one is complete, and the bytes after it. */
  function Next(t: seq<byte>): (Option<seq<byte>>, seq<byte>)
    decreases |t|
  {
    match Classify(t)
    case Pending => (None, t)
    case Noise => Next(t[1..])
    case Complete(n) => (Some(t[..n]), t[n..])
  }

  lemma {:induction false} ScanByNext(t: seq<byte>)
    ensures var (frame, rest) := Next(t);
      && (frame.None? ==> Scan(t) == Scanned([], rest))
      && (frame.Some? ==> |rest| < |t| && Scan(t) == Scanned([frame.value] + Scan(rest).frames, Scan(rest).residue))
    decreases |t|
  {
    hide Classify;
    ClassifyBounds(t);
    if Classify(t) == Noise {
      ScanByNext(t[1..]);
    }
  }

  lemma ClassifyBounds(t: seq<byte>)
    ensures Classify(t) == Noise ==> |t| > 0
    ensures Classify(t) == Pending ==> |t| < MAX_FRAME_LEN
    ensures Classify(t).Complete? ==> HEADER_LEN + CHECKSUM_LEN <= Classify(t).length <= MAX_FRAME_LEN
                                      && Classify(t).length <= |t|
  {
    hide U16Of, LeWord, Crc32c;
  }

  // ----- frames and the decoders -------------------------------------------------------

  /** A complete checksummed frame, as the decoders delimit it. */
  predicate IsFrame(b: seq<byte>) {
    |b| >= 4 && KnownType(b[3]) && Delimit(b, b[3]).Ok?
  }

  /** The front of a buffer is complete exactly when some prefix of it is a frame. */
  lemma CompleteIsFrame(t: seq<byte>, n: nat)
    requires n <= |t|
    ensures IsFrame(t[..n]) <==> Classify(t) == Complete(n)
  {
    hide U16Of, LeWord, Crc32c, U32Of;
    var b := t[..n];
    if n >= HEADER_LEN {
      assert b[8..10] == t[8..10];
      assert b[..2] == MAGIC <==> t[0] == D && t[1] == R;
      var frameLen := HEADER_LEN + U16Of(t[8..10]) + CHECKSUM_LEN;
      if frameLen == n {
        assert b[n - 4..] == t[n - 4..n];
        assert b[2..n - 4] == t[2..n - 4];
      }
    }
  }

  /** Noise stays noise whatever follows, and complete frames stay complete. */
  lemma ClassifyStable(t: seq<byte>, u: seq<byte>)
    requires Classify(t) != Pending
    ensures Classify(t + u) == Classify(t)
  {
    hide U16Of, LeWord, Crc32c, KnownType;
    if |t| >= HEADER_LEN {
      assert (t + u)[8..10] == t[8..10];
      var frameLen := HEADER_LEN + U16Of(t[8..10]) + CHECKSUM_LEN;
      if frameLen <= |t| {
        assert (t + u)[frameLen - 4..frameLen] == t[frameLen - 4..frameLen];
        assert (t + u)[2..frameLen - 4] == t[2..frameLen - 4];
      }
    }
  }

  /** Scanning can stop at any byte and resume with what was kept. */
  lemma {:induction false} ScanResumes(t: seq<byte>, u: seq<byte>)
    ensures var first := Scan(t);
      var second := Scan(first.residue + u);
      Scan(t + u) == Scanned(first.frames + second.frames, second.residue)
    decreases |t|
  {
    hide Classify;
    ClassifyBounds(t);
    match Classify(t)
    case Pending =>
      assert [] + Scan(t + u).frames == Scan(t + u).frames;
    case Noise =>
      ClassifyStable(t, u);
      assert (t + u)[1..] == t[1..] + u;
      ScanResumes(t[1..], u);
    case Complete(n) =>
      ClassifyStable(t, u);
      assert (t + u)[n..] == t[n..] + u && (t + u)[..n] == t[..n];
      ScanResumes(t[n..], u);
      var rest := Scan(t[n..]);
      var second := Scan(rest.residue + u);
      assert [t[..n]] + (rest.frames + second.frames) == ([t[..n]] + rest.frames) + second.frames;
  }

  lemma {:induction false} ResidueShort(t: seq<byte>)
    ensures |Scan(t).residue| < MAX_FRAME_LEN && |Scan(t).residue| <= |t|
    ensures Scan(t).residue == t[|t| - |Scan(t).residue|..]
    decreases |t|
  {
    hide Classify;
    ClassifyBounds(t);
    match Classify(t)
    case Pending =>
    case Noise =>
      ResidueShort(t[1..]);
    case Complete(n) =>
      ResidueShort(t[n..]);
  }

  // ----- the codec as it runs -----------------------------------------------------------

  predicate MagicAt(t: seq<byte>, i: int) {
    0 <= i < |t| - 1 && t[i] == D && t[i + 1] == R
  }

  ghost predicate NoMagic(t: seq<byte>) {
    forall i :: !MagicAt(t, i)
  }

  /** Bytes before the first magic are all noise. */
  lemma {:induction false} SkipToMagic(t: seq<byte>, pos: nat)
    requires MagicAt(t, pos) && forall i :: 0 <= i < pos ==> !MagicAt(t, i)
    ensures Next(t) == Next(t[pos..]) && Scan(t) == Scan(t[pos..])
    decreases pos
  {
    if pos == 0 {
      assert t[0..] == t;
    } else {
      assert !MagicAt(t, 0);
      assert Classify(t) == Noise;
      forall i | 0 <= i < pos - 1
        ensures !MagicAt(t[1..], i)
      {
        assert !MagicAt(t, i + 1);
      }
      SkipToMagic(t[1..], pos - 1);
      assert t[1..][pos - 1..] == t[pos..];
    }
  }

  /** Without a magic only a last byte that may begin one is kept. */
  lemma {:induction false} NothingToFind(t: seq<byte>)
    requires NoMagic(t)
    ensures var kept := if |t| > 0 && t[|t| - 1] == D then [D] else [];
      Next(t) == (None, kept) && Scan(t) == Scanned([], kept)
    decreases |t|
  {
    if |t| > 1 {
      assert !MagicAt(t, 0);
      assert Classify(t) == Noise;
      forall i
        ensures !MagicAt(t[1..], i)
      {
        assert !MagicAt(t, i + 1);
      }
      NothingToFind(t[1..]);
    } else if |t| == 1 && t[0] != D {
      assert t[1..] == [];
    } else if |t| == 1 {
      assert t == [D];
    }
  }

  datatype FrameCodecError = BufferOverflow(capacity: nat)

  class FrameCodec {
    var buffer: seq<byte>
    const maxCapacity: nat

    constructor (maxCapacity: nat)
      ensures buffer == [] && this.maxCapacity == maxCapacity
    {
      this.maxCapacity := maxCapacity;
      buffer := [];
    }

    method Feed(data: seq<byte>) returns (r: Result<(), FrameCodecError>)
      modifies this
      ensures if old(|buffer|) + |data| > maxCapacity
              then r == Err(BufferOverflow(maxCapacity)) && buffer == old(buffer)
              else r == Ok(()) && buffer == old(buffer) + data
    {
      if |buffer| + |data| > maxCapacity {
        return Err(BufferOverflow(maxCapacity));
      }
      buffer := buffer + data;
      r := Ok(());
    }

    /** Position of the first magic in the buffer. */
    method FindMagic() returns (pos: Option<nat>)
      ensures pos.Some? ==> MagicAt(buffer, pos.value) && forall i :: 0 <= i < pos.value ==> !MagicAt(buffer, i)
      ensures pos.None? ==> NoMagic(buffer)
    {
      var i := 0;
      while i + 1 < |buffer|
        invariant forall j :: 0 <= j < i ==> !MagicAt(buffer, j)
      {
        if buffer[i] == D && buffer[i + 1] == R {
          return Some(i);
        }
        i := i + 1;
      }
      pos := None;
    }

    /** Drain the next complete frame, resynchronising past noise and damage. */
    method NextFrame() returns (frame: Option<seq<byte>>)
      modifies this
      ensures (frame, buffer) == Next(old(buffer))
    {
      hide U16Of, LeWord, Crc32c;
      while true
        invariant Next(buffer) == Next(old(buffer))
        decreases |buffer|
      {
        var magic := FindMagic();
        if magic.None? {
          NothingToFind(buffer);
          if |buffer| > 0 && buffer[|buffer| - 1] == D {
            assert buffer[|buffer| - 1..] == [D];
            buffer := buffer[|buffer| - 1..];
          } else {
            buffer := [];
          }
          return None;
        } else if magic.value > 0 {
          SkipToMagic(buffer, magic.value);
          buffer := buffer[magic.value..];
        } else {
          if |buffer| < HEADER_LEN {
            return None;
          }
          var payloadLen := U16Of(buffer[8..10]);
          if !(buffer[2] == PROTOCOL_VERSION && KnownType(buffer[3]) && payloadLen <= MAX_PAYLOAD_LEN) {
            buffer := buffer[1..];
            continue;
          }
          var frameLen := HEADER_LEN + payloadLen + CHECKSUM_LEN;
          if |buffer| < frameLen {
            return None;
          }
          var payloadEnd := HEADER_LEN + payloadLen;
          var encoded := LeWord(buffer[payloadEnd..payloadEnd + 4]);
          var computed := ComputeCrc32c(buffer[2..payloadEnd]);
          if encoded != computed {
            buffer := buffer[1..];
            continue;
          }
          frame := Some(buffer[..frameLen]);
          buffer := buffer[frameLen..];
          return;
        }
      }
    }

    /** The drain loop of a stream reader after a successful feed. */
    method Drain() returns (frames: seq<seq<byte>>)
      modifies this
      ensures Scanned(frames, buffer) == Scan(old(buffer))
    {
      hide Classify;
      frames := [];
      while true
        invariant Scan(old(buffer)) == Scanned(frames + Scan(buffer).frames, Scan(buffer).residue)
        decreases |buffer|
      {
        ghost var before := buffer;
        ScanByNext(buffer);
        var frame := NextFrame();
        if frame.None? {
          break;
        }
        frames := frames + [frame.value];
      }
    }
  }
}
