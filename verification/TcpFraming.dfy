/** Length-prefixed frames over a byte stream, and their incremental reassembly. */
module TcpFraming {
  import opened Wrappers
  import opened Endec

  const TCP_MAX_PAYLOAD: nat := 512 * 1024
  const LENGTH_HEADER: nat := 4

  /** A frame on the stream; the length field is 32 bits wide. */
  function LengthPrefixed(inner: Bytes): Bytes {
    WriteU32Le(|inner| % (U32_MAX + 1)) + inner
  }

  function Stream(frames: seq<Bytes>): Bytes {
    if frames == [] then [] else LengthPrefixed(frames[0]) + Stream(frames[1..])
  }

  predicate Fits(frame: Bytes) { |frame| <= 524_288 }

  predicate AllFit(frames: seq<Bytes>) { forall f :: f in frames ==> Fits(f) }

  /** A header is there and announces too much. */
  predicate Oversized(buf: Bytes) {
    |buf| >= LENGTH_HEADER && ReadU32Le(buf) > TCP_MAX_PAYLOAD
  }

  /** The next frame is not complete yet. */
  predicate Pending(buf: Bytes) {
    |buf| < LENGTH_HEADER || (!Oversized(buf) && |buf| < LENGTH_HEADER + ReadU32Le(buf))
  }

  datatype Split = Split(frames: seq<Bytes>, rest: Bytes)

  /** The only way to read `input`: whole frames, then a rest that is incomplete or oversized. */
  function Read(input: Bytes): (r: Split)
    ensures input == Stream(r.frames) + r.rest && AllFit(r.frames)
    ensures Pending(r.rest) || Oversized(r.rest)
    decreases |input|
  {
    if Pending(input) || Oversized(input) then Split([], input)
    else
      var end := LENGTH_HEADER + ReadU32Le(input);
      var tail := Read(input[end..]);
      var frame := input[LENGTH_HEADER..end];
      HeadOf(input);
      ConsFrame(input, frame, tail.frames, tail.rest);
      Split([frame] + tail.frames, tail.rest)
  }

  lemma HeaderBytes(input: Bytes, frame: Bytes)
    requires |input| >= LENGTH_HEADER + |frame| && |frame| <= U32_MAX
    requires WriteU32Le(|frame|) == input[..LENGTH_HEADER]
    requires frame == input[LENGTH_HEADER..LENGTH_HEADER + |frame|]
    ensures input == LengthPrefixed(frame) + input[LENGTH_HEADER + |frame|..]
  {
    var end := LENGTH_HEADER + |frame|;
    PrefixOf(frame, input[..LENGTH_HEADER]);
    ThreeParts(input, LENGTH_HEADER, end);
  }

  lemma PrefixOf(frame: Bytes, head: Bytes)
    requires |frame| <= U32_MAX && WriteU32Le(|frame|) == head
    ensures LengthPrefixed(frame) == head + frame
  {
    assert |frame| % (U32_MAX + 1) == |frame|;
  }

  lemma HeadOf(input: Bytes)
    requires |input| >= LENGTH_HEADER
    ensures WriteU32Le(ReadU32Le(input)) == input[..LENGTH_HEADER]
  {
    ToLeFromLe(input[..4]);
  }

  lemma ThreeParts(b: Bytes, i: nat, j: nat)
    requires i <= j <= |b|
    ensures b == b[..i] + b[i..j] + b[j..]
  {
  }

  lemma Regroup(a: Bytes, ra: Bytes, more: Bytes, b: Bytes, rb: Bytes)
    requires ra + more == b + rb
    ensures a + ra + more == a + b + rb
  {
    assert a + ra + more == a + (ra + more);
    assert a + b + rb == a + (b + rb);
  }

  lemma ConsFrame(input: Bytes, frame: Bytes, frames: seq<Bytes>, rest: Bytes)
    requires |input| >= LENGTH_HEADER + |frame| && |frame| <= U32_MAX
    requires WriteU32Le(|frame|) == input[..LENGTH_HEADER]
    requires frame == input[LENGTH_HEADER..LENGTH_HEADER + |frame|]
    requires input[LENGTH_HEADER + |frame|..] == Stream(frames) + rest
    ensures input == Stream([frame] + frames) + rest
  {
    HeaderBytes(input, frame);
    assert ([frame] + frames)[1..] == frames;
    assert LengthPrefixed(frame) + (Stream(frames) + rest) == LengthPrefixed(frame) + Stream(frames) + rest;
  }

  class FrameReassembler {
    var buf: Bytes

    constructor ()
      ensures buf == []
    {
      buf := [];
    }

    method Feed(chunk: Bytes) returns (r: Result<seq<Bytes>, string>)
      modifies this
      ensures var read := Read(old(buf) + chunk);
              if Oversized(read.rest) then r.Err? && buf == []
              else r == Ok(read.frames) && buf == read.rest
    {
      buf := buf + chunk;
      ghost var all := Read(buf);
      var frames: seq<Bytes> := [];
      while true
        invariant frames + Read(buf).frames == all.frames && Read(buf).rest == all.rest
        decreases |buf|
      {
        if |buf| < LENGTH_HEADER { break; }
        var len := ReadU32Le(buf);
        if len > TCP_MAX_PAYLOAD {
          assert Read(buf).rest == buf;
          buf := [];
          return Err("frame too large");
        }
        if |buf| < LENGTH_HEADER + len { break; }
        ReadFirst(buf, frames);
        var frame := buf[LENGTH_HEADER..LENGTH_HEADER + len];
        buf := buf[LENGTH_HEADER + len..];
        frames := frames + [frame];
      }
      assert Read(buf) == Split([], buf) by { assert Pending(buf); }
      assert frames == all.frames && buf == all.rest && !Oversized(buf);
      return Ok(frames);
    }
  }

  lemma ReadFirst(buf: Bytes, frames: seq<Bytes>)
    requires !Pending(buf) && !Oversized(buf)
    ensures var end := LENGTH_HEADER + ReadU32Le(buf);
            && Read(buf).rest == Read(buf[end..]).rest
            && frames + Read(buf).frames == frames + [buf[LENGTH_HEADER..end]] + Read(buf[end..]).frames
  {
    var end := LENGTH_HEADER + ReadU32Le(buf);
    var frame, tail := buf[LENGTH_HEADER..end], Read(buf[end..]);
    assert Read(buf) == Split([frame] + tail.frames, tail.rest);
    Associate(frames, [frame], tail.frames);
  }

  lemma Associate<T>(a: seq<T>, b: seq<T>, c: seq<T>)
    ensures a + (b + c) == a + b + c
  {
  }

  // ---------- laws ----------

  /** Four bytes of length, the first counting least, and the frame. */
  lemma PrefixLayout(frame: Bytes)
    requires Fits(frame)
    ensures var b := LengthPrefixed(frame);
            && |b| == 4 + |frame| && b[4..] == frame
            && |frame| == FourBytes(b[0], b[1], b[2], b[3])
  {
    var b := LengthPrefixed(frame);
    PrefixReads(frame, []);
    assert b + [] == b;
    ReadU32Is(b);
  }

  lemma PrefixReads(frame: Bytes, tail: Bytes)
    requires Fits(frame)
    ensures var input := LengthPrefixed(frame) + tail;
            && |input| >= LENGTH_HEADER + |frame| && ReadU32Le(input) == |frame|
            && input[LENGTH_HEADER..LENGTH_HEADER + |frame|] == frame
            && input[LENGTH_HEADER + |frame|..] == tail
  {
    var head := WriteU32Le(|frame|);
    PartsOf(head, frame, tail);
    PrefixOf(frame, head);
    Associate(head, frame, tail);
    ReadHead(|frame|, frame + tail);
  }

  lemma ReadHead(n: u32, rest: Bytes)
    ensures ReadU32Le(WriteU32Le(n) + rest) == n
  {
    var head := WriteU32Le(n);
    assert (head + rest)[..4] == head[..4];
  }

  lemma PartsOf(a: Bytes, b: Bytes, c: Bytes)
    ensures var all, i := a + b + c, |a|;
            var j := i + |b|;
            all[..i] == a && all[i..j] == b && all[j..] == c
  {
  }

  /** Reading is forced: no other split of the same bytes exists. */
  lemma {:induction false} ReadIsUnique(frames: seq<Bytes>, rest: Bytes)
    requires AllFit(frames) && (Pending(rest) || Oversized(rest))
    ensures Read(Stream(frames) + rest) == Split(frames, rest)
    decreases |frames|
  {
    if frames == [] {
      assert Stream(frames) + rest == rest;
    } else {
      var tail := Stream(frames[1..]) + rest;
      assert Stream(frames) + rest == LengthPrefixed(frames[0]) + tail;
      PrefixReads(frames[0], tail);
      ReadIsUnique(frames[1..], rest);
      assert [frames[0]] + frames[1..] == frames;
    }
  }

  lemma {:induction false} StreamAppend(a: seq<Bytes>, b: seq<Bytes>)
    ensures Stream(a + b) == Stream(a) + Stream(b)
    decreases |a|
  {
    if a == [] {
      assert a + b == b;
    } else {
      assert (a + b)[1..] == a[1..] + b;
      StreamAppend(a[1..], b);
    }
  }

  lemma Splice(a: seq<Bytes>, ra: Bytes, more: Bytes, b: seq<Bytes>, rb: Bytes)
    requires ra + more == Stream(b) + rb
    ensures Stream(a) + ra + more == Stream(a + b) + rb
  {
    StreamAppend(a, b);
    Regroup(Stream(a), ra, more, Stream(b), rb);
  }

  /** Reading can stop anywhere and go on later with the rest. */
  lemma ReadInSteps(input: Bytes, more: Bytes)
    ensures var first := Read(input);
            var second := Read(first.rest + more);
            Read(input + more) == Split(first.frames + second.frames, second.rest)
  {
    var Split(a, ra) := Read(input);
    var Split(b, rb) := Read(ra + more);
    Splice(a, ra, more, b, rb);
    ReadIsUnique(a + b, rb);
  }

  function Concat(chunks: seq<Bytes>): Bytes {
    if chunks == [] then [] else Concat(chunks[..|chunks| - 1]) + chunks[|chunks| - 1]
  }

  /** Successive calls of `Feed` on a new reassembler: the frames delivered and the buffer, or an error. */
  function FeedAll(chunks: seq<Bytes>): Result<Split, string> {
    if chunks == [] then Ok(Split([], []))
    else
      match FeedAll(chunks[..|chunks| - 1])
      case Err(e) => Err(e)
      case Ok(so) =>
        var read := Read(so.rest + chunks[|chunks| - 1]);
        if Oversized(read.rest) then Err("frame too large")
        else Ok(Split(so.frames + read.frames, read.rest))
  }

  lemma OversizedStays(input: Bytes, more: Bytes)
    requires Oversized(Read(input).rest)
    ensures Oversized(Read(input + more).rest)
  {
    ReadInSteps(input, more);
    OversizedGrows(Read(input).rest, more);
  }

  lemma OversizedGrows(rest: Bytes, more: Bytes)
    requires Oversized(rest)
    ensures Read(rest + more) == Split([], rest + more) && Oversized(rest + more)
  {
    assert (rest + more)[..4] == rest[..4];
  }

  /** How a stream is cut into chunks makes no difference. */
  lemma {:induction false} ChunkingIsInvisible(chunks: seq<Bytes>)
    ensures var read := Read(Concat(chunks));
            if Oversized(read.rest) then FeedAll(chunks).Err? else FeedAll(chunks) == Ok(read)
  {
    if chunks != [] {
      var earlier, last := chunks[..|chunks| - 1], chunks[|chunks| - 1];
      ChunkingIsInvisible(earlier);
      if Oversized(Read(Concat(earlier)).rest) {
        OversizedStays(Concat(earlier), last);
      } else {
        ReadInSteps(Concat(earlier), last);
      }
    }
  }

  /** Whatever the chunks, the frames that were written come back, and nothing is left over. */
  lemma ReassemblyRoundTrip(frames: seq<Bytes>, chunks: seq<Bytes>)
    requires AllFit(frames) && Concat(chunks) == Stream(frames)
    ensures FeedAll(chunks) == Ok(Split(frames, []))
  {
    ChunkingIsInvisible(chunks);
    ReadIsUnique(frames, []);
    assert Stream(frames) + [] == Stream(frames);
  }

  /** The buffer stays small: after every successful call it holds less than one full frame. */
  lemma BufferBound(chunks: seq<Bytes>)
    requires FeedAll(chunks).Ok?
    ensures |FeedAll(chunks).value.rest| < 4 + 524_288
  {
    ChunkingIsInvisible(chunks);
  }

  /** An oversized header fails the very call that completes its fourth byte, and none before. */
  lemma OversizedHeaderFails(frames: seq<Bytes>, header: Bytes, tail: Bytes, chunks: seq<Bytes>)
    requires AllFit(frames) && |header| == LENGTH_HEADER && Oversized(header)
    requires Concat(chunks) <= Stream(frames) + header + tail
    ensures FeedAll(chunks).Err? <==> |Concat(chunks)| >= |Stream(frames)| + LENGTH_HEADER
  {
    ChunkingIsInvisible(chunks);
    ReadOfOversized(frames, header, tail, Concat(chunks));
  }

  lemma ReadOfOversized(frames: seq<Bytes>, header: Bytes, tail: Bytes, input: Bytes)
    requires AllFit(frames) && |header| == LENGTH_HEADER && Oversized(header)
    requires input <= Stream(frames) + header + tail
    ensures Oversized(Read(input).rest) <==> |input| >= |Stream(frames)| + LENGTH_HEADER
  {
    if |input| >= |Stream(frames)| + LENGTH_HEADER {
      PrefixParts(Stream(frames), header, tail, input);
      HeaderIsReached(frames, header, input[|Stream(frames)| + LENGTH_HEADER..]);
    } else {
      ShortPrefix(Stream(frames) + header, tail, input);
      CutIsHarmless(frames, header, input);
    }
  }

  lemma ShortPrefix(a: Bytes, b: Bytes, input: Bytes)
    requires input <= a + b && |input| <= |a|
    ensures input <= a
  {
  }

  lemma HeaderIsReached(frames: seq<Bytes>, header: Bytes, more: Bytes)
    requires AllFit(frames) && Oversized(header)
    ensures Oversized(Read(Stream(frames) + (header + more)).rest)
  {
    OversizedGrows(header, more);
    ReadIsUnique(frames, header + more);
  }

  lemma PrefixParts(a: Bytes, b: Bytes, c: Bytes, input: Bytes)
    requires input <= a + b + c && |input| >= |a| + |b|
    ensures input == a + (b + input[|a| + |b|..])
  {
    assert input[..|a| + |b|] == (a + b + c)[..|a| + |b|] == a + b;
  }

  /** A proper prefix of good frames and an unfinished header is never taken for oversized. */
  lemma {:induction false} CutIsHarmless(frames: seq<Bytes>, header: Bytes, input: Bytes)
    requires AllFit(frames) && |header| == LENGTH_HEADER
    requires |input| < |Stream(frames)| + LENGTH_HEADER
    requires input <= Stream(frames) + header
    ensures !Oversized(Read(input).rest)
    decreases |frames|
  {
    if frames != [] && |input| >= LENGTH_HEADER {
      var tail := Stream(frames[1..]) + header;
      Associate(LengthPrefixed(frames[0]), Stream(frames[1..]), header);
      CutInFrame(frames[0], tail, input);
      var end := LENGTH_HEADER + |frames[0]|;
      if |input| >= end { CutIsHarmless(frames[1..], header, input[end..]); }
    }
  }

  lemma CutInFrame(frame: Bytes, tail: Bytes, input: Bytes)
    requires Fits(frame) && |input| >= LENGTH_HEADER && input <= LengthPrefixed(frame) + tail
    ensures ReadU32Le(input) == |frame|
    ensures var end := LENGTH_HEADER + |frame|;
            |input| >= end ==> input[end..] <= tail
  {
    var all, end := LengthPrefixed(frame) + tail, LENGTH_HEADER + |frame|;
    PrefixReads(frame, tail);
    assert input[..4] == all[..4];
    if |input| >= end { assert input[end..] == all[end..][..|input| - end]; }
  }
}
