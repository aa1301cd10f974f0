/** Frames on a byte stream: a four-byte length in network order, then the data. */
module Framing {
  import opened Wrappers

  type Byte = b: nat | b < 256

  const U32_RANGE: nat := 0x1_0000_0000

  function U32(n: nat): (bytes: seq<Byte>)
    requires n < U32_RANGE
    ensures |bytes| == 4
  {
    [n / 0x100_0000, n / 0x1_0000 % 256, n / 0x100 % 256, n % 256]
  }

  function FromU32(bytes: seq<Byte>): (n: nat)
    requires |bytes| == 4
    ensures n < U32_RANGE
  {
    var a: nat, b: nat, c: nat, d: nat := bytes[0], bytes[1], bytes[2], bytes[3];
    a * 0x100_0000 + b * 0x1_0000 + c * 0x100 + d
  }

  lemma U32RoundTrip(n: nat)
    requires n < U32_RANGE
    ensures FromU32(U32(n)) == n
  {
    var a, b := n / 0x100, n / 0x1_0000;
    assert n == 0x100 * a + n % 256 && a == 0x100 * b + a % 256;
    assert b == n / 0x1_0000 == a / 0x100 && n / 0x100_0000 == b / 0x100;
  }

  /** Network order, the most significant byte first: prefixes compare as numbers the way they compare byte by byte. */
  lemma NetworkOrder(a: seq<Byte>, b: seq<Byte>, k: nat)
    requires |a| == |b| == 4 && k < 4 && a[..k] == b[..k] && a[k] < b[k]
    ensures FromU32(a) < FromU32(b)
  {
    assert forall i | 0 <= i < k :: a[i] == a[..k][i] == b[i];
  }

  /** Prefixes that differ are read as different numbers. */
  lemma DifferentPrefixes(a: seq<Byte>, b: seq<Byte>)
    requires |a| == |b| == 4 && a != b
    ensures FromU32(a) != FromU32(b)
  {
    var k: nat :| k < 4 && a[..k] == b[..k] && a[k] != b[k];
    if a[k] < b[k] {
      NetworkOrder(a, b, k);
    } else {
      NetworkOrder(b, a, k);
    }
  }

  /** Every prefix is that of exactly one number, so the order above leaves only one reading of it. */
  lemma PrefixRoundTrip(bytes: seq<Byte>)
    requires |bytes| == 4
    ensures U32(FromU32(bytes)) == bytes
  {
    U32RoundTrip(FromU32(bytes));
    if U32(FromU32(bytes)) != bytes {
      DifferentPrefixes(U32(FromU32(bytes)), bytes);
    }
  }

  /** What writing a frame puts on the stream; the length is cut to thirty-two bits. */
  function Written(data: seq<Byte>): seq<Byte> {
    U32(|data| % U32_RANGE) + data
  }

  /** A frame and what follows it, an unexpected end, or a reader that waits forever for bytes that will not come. */
  datatype Outcome = Frame(data: seq<Byte>, rest: seq<Byte>) | EndOfFile | Stalled

  function Parse(bytes: seq<Byte>): Outcome {
    if |bytes| < 4 then EndOfFile
    else
      var size := FromU32(bytes[..4]);
      if |bytes| < 4 + size then Stalled else Frame(bytes[4..4 + size], bytes[4 + size..])
  }

  /** A frame comes back up to its length modulo 2^32; the rest of it is left on the stream. */
  lemma FrameComesBack(data: seq<Byte>, rest: seq<Byte>)
    ensures var size := |data| % U32_RANGE;
            Parse(Written(data) + rest) == Frame(data[..size], data[size..] + rest)
  {
    var size, bytes := |data| % U32_RANGE, Written(data) + rest;
    U32RoundTrip(size);
    assert bytes[..4] == U32(size);
    assert bytes[4..] == data + rest;
    assert bytes[4..4 + size] == bytes[4..][..size] == data[..size];
    assert bytes[4 + size..] == bytes[4..][size..] == data[size..] + rest;
  }

  /** A frame round-trips exactly when its length fits the prefix. */
  lemma FrameRoundTrip(data: seq<Byte>, rest: seq<Byte>)
    ensures Parse(Written(data) + rest) == Frame(data, rest) <==> |data| < U32_RANGE
  {
    FrameComesBack(data, rest);
    if |data| < U32_RANGE {
      assert data[..|data|] == data && data[|data|..] + rest == rest;
    }
  }

  /** A frame that is cut off is never taken for a whole one. */
  lemma CutFrameIsNoFrame(data: seq<Byte>, k: nat)
    requires |data| < U32_RANGE && k < |Written(data)|
    ensures Parse(Written(data)[..k]) == if k < 4 then EndOfFile else Stalled
  {
    var cut := Written(data)[..k];
    if k >= 4 {
      U32RoundTrip(|data|);
      assert cut[..4] == U32(|data|);
    }
  }

  // ------------------------------------------------------------------ many frames

  function WrittenAll(frames: seq<seq<Byte>>): seq<Byte> {
    if frames == [] then [] else Written(frames[0]) + WrittenAll(frames[1..])
  }

  function ParseMany(bytes: seq<Byte>, n: nat): Option<(seq<seq<Byte>>, seq<Byte>)> {
    if n == 0 then Some(([], bytes))
    else
      match Parse(bytes)
      case Frame(data, rest) =>
        (match ParseMany(rest, n - 1)
         case Some((frames, left)) => Some(([data] + frames, left))
         case None => None)
      case _ => None
  }

  /** The first of several frames, and then the others. */
  lemma FirstThenOthers(first: seq<Byte>, more: seq<Byte>, n: nat)
    requires |first| < U32_RANGE
    ensures ParseMany(Written(first) + more, n + 1) ==
            match ParseMany(more, n)
            case Some((frames, left)) => Some(([first] + frames, left))
            case None => None
  {
    FrameRoundTrip(first, more);
  }

  lemma TooLongComesBackShort(first: seq<Byte>, more: seq<Byte>, n: nat)
    requires |first| >= U32_RANGE
    ensures var parsed := ParseMany(Written(first) + more, n + 1); parsed.Some? ==> |parsed.value.0[0]| < |first|
  {
    FrameComesBack(first, more);
    assert |first[..|first| % U32_RANGE]| < U32_RANGE;
  }

  /** Any list of frames comes back whole, with nothing left over, exactly when each of them fits the prefix. */
  lemma {:induction false} FramesRoundTrip(frames: seq<seq<Byte>>, rest: seq<Byte>)
    ensures ParseMany(WrittenAll(frames) + rest, |frames|) == Some((frames, rest))
            <==> forall frame | frame in frames :: |frame| < U32_RANGE
  {
    if frames == [] {
      assert WrittenAll(frames) + rest == rest;
    } else {
      var first, others := frames[0], frames[1..];
      var more := WrittenAll(others) + rest;
      assert WrittenAll(frames) + rest == Written(first) + more;
      if |first| >= U32_RANGE {
        TooLongComesBackShort(first, more, |others|);
        assert first in frames;
      } else {
        FirstThenOthers(first, more, |others|);
        FramesRoundTrip(others, rest);
        assert frames == [first] + others;
        HeadAndTail(first, others);
      }
    }
  }

  lemma HeadAndTail(first: seq<Byte>, others: seq<seq<Byte>>)
    ensures forall frames: seq<seq<Byte>> :: [first] + frames == [first] + others ==> frames == others
  {
    forall frames: seq<seq<Byte>> | [first] + frames == [first] + others
      ensures frames == others
    {
      assert ([first] + frames)[1..] == frames && ([first] + others)[1..] == others;
    }
  }

  // ------------------------------------------------------------------ the stream

  class Stream {
    var bytes: seq<Byte>

    constructor (bytes: seq<Byte>)
      ensures this.bytes == bytes
    {
      this.bytes := bytes;
    }

    method WriteAll(data: seq<Byte>)
      modifies this
      ensures bytes == old(bytes) + data
    {
      bytes := bytes + data;
    }

    method ReadU32() returns (n: Option<nat>)
      modifies this
      ensures if |old(bytes)| < 4 then n == None && bytes == []
              else n == Some(FromU32(old(bytes)[..4])) && bytes == old(bytes)[4..]
    {
      if |bytes| < 4 {
        bytes := [];
        return None;
      }
      n := Some(FromU32(bytes[..4]));
      bytes := bytes[4..];
    }

    /** Some bytes that have arrived, at most `room` of them; none only when there are none. */
    method ReadSome(room: nat) returns (chunk: seq<Byte>)
      requires room > 0
      modifies this
      ensures chunk + bytes == old(bytes) && |chunk| <= room
      ensures chunk == [] ==> old(bytes) == []
    {
      if bytes == [] {
        return [];
      }
      var n :| 1 <= n <= |bytes| && n <= room;
      chunk := bytes[..n];
      bytes := bytes[n..];
    }
  }

  method ToStream(data: seq<Byte>, stream: Stream)
    modifies stream
    ensures stream.bytes == old(stream.bytes) + Written(data)
  {
    stream.WriteAll(U32(|data| % U32_RANGE));
    stream.WriteAll(data);
  }

  /** However the bytes are split up on arrival, the outcome is the one of parsing them at once. */
  method FromStream(stream: Stream) returns (outcome: Outcome)
    modifies stream
    ensures outcome == Parse(old(stream.bytes))
    ensures stream.bytes == if outcome.Frame? then outcome.rest else []
  {
    var prefix := stream.ReadU32();
    if prefix == None {
      return EndOfFile;
    }
    ghost var before := old(stream.bytes)[4..];
    var size := prefix.value;
    var data := [];
    while |data| < size
      invariant data + stream.bytes == before && |data| <= size
      decreases |stream.bytes|
    {
      var chunk := stream.ReadSome(size - |data|);
      if chunk == [] {
        // Nothing more will come: here the original asks again and again.
        return Stalled;
      }
      data := data + chunk;
    }
    outcome := Frame(data, stream.bytes);
    assert data == before[..size] && stream.bytes == before[size..];
    assert old(stream.bytes)[4..4 + size] == before[..size];
    assert old(stream.bytes)[4 + size..] == before[size..];
  }

  /** Frame after frame over one stream. */
  method ReadFrames(stream: Stream, n: nat) returns (frames: Option<seq<seq<Byte>>>)
    modifies stream
    ensures match ParseMany(old(stream.bytes), n)
            case None => frames == None
            case Some((all, rest)) => frames == Some(all) && stream.bytes == rest
  {
    if n == 0 {
      return Some([]);
    }
    var outcome := FromStream(stream);
    if !outcome.Frame? {
      return None;
    }
    var others := ReadFrames(stream, n - 1);
    frames := if others == None then None else Some([outcome.data] + others.value);
  }
}
