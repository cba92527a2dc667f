/**
  The byte format of the session socket: a frame is a 32-bit count followed by
  that many samples of one size. The reader rejects frames of more than 1000.
 */
module Framing {

  type byte = n: int | 0 <= n < 256

  type Sample = seq<byte>

  const COUNT_BYTES := 4
  const COUNT_LIMIT := 0x1_0000_0000
  const MAX_COUNT := 1000

  // ---------- Encoding ----------

  function EncodeCount(n: nat): (r: seq<byte>)
    requires n < COUNT_LIMIT
    ensures |r| == COUNT_BYTES
  {
    [n % 256, n / 256 % 256, n / 65536 % 256, n / 16777216]
  }

  function DecodeCount(b: seq<byte>): nat
    requires |b| == COUNT_BYTES
  {
    b[0] as int + 256 * b[1] as int + 65536 * b[2] as int + 16777216 * b[3] as int
  }

  lemma CountRoundTrip(n: nat)
    requires n < COUNT_LIMIT
    ensures DecodeCount(EncodeCount(n)) == n
  {
    assert n / 65536 == n / 256 / 256 && n / 16777216 == n / 65536 / 256;
  }

  /** The low byte comes first: counts below 256 are in it, and a shift by eight bits moves the others up by one. */
  lemma CountBytes(n: nat)
    requires n < COUNT_LIMIT
    ensures n < 256 ==> EncodeCount(n) == [n, 0, 0, 0]
    ensures n < COUNT_LIMIT / 256 ==> EncodeCount(256 * n) == [0] + EncodeCount(n)[..3]
  {
    assert n / 65536 == n / 256 / 256 && n / 16777216 == n / 256 / 256 / 256;
  }

  ghost function Payload(samples: seq<Sample>): seq<byte> {
    if samples == [] then [] else Payload(samples[..|samples| - 1]) + samples[|samples| - 1]
  }

  ghost predicate OfSize(samples: seq<Sample>, size: nat) {
    forall s :: s in samples ==> |s| == size
  }

  /** The frame that carries `samples`. */
  ghost function Encode(samples: seq<Sample>): seq<byte>
    requires |samples| < COUNT_LIMIT
  {
    EncodeCount(|samples|) + Payload(samples)
  }

  /** The bytes that `count` samples take. */
  function Span(count: nat, size: nat): nat {
    if count == 0 then 0 else Span(count - 1, size) + size
  }

  lemma {:induction false} SpanIsProduct(count: nat, size: nat)
    ensures Span(count, size) == size * count
  {
    if count > 0 {
      SpanIsProduct(count - 1, size);
      assert size * count == size * (count - 1) + size;
    }
  }

  lemma {:induction false} SpanMonotone(a: nat, b: nat, size: nat)
    requires a <= b
    ensures Span(a, size) <= Span(b, size)
    decreases b
  {
    if a < b {
      SpanMonotone(a, b - 1, size);
    }
  }

  /** The first `count` samples of size `size` in `bytes`. */
  function Samples(bytes: seq<byte>, size: nat, count: nat): (r: seq<Sample>)
    requires Span(count, size) <= |bytes|
    ensures |r| == count
    decreases count
  {
    if count == 0 then []
    else Samples(bytes, size, count - 1) + [bytes[Span(count - 1, size)..Span(count, size)]]
  }

  lemma {:induction false} SamplesOfPrefix(bytes: seq<byte>, longer: seq<byte>, size: nat, count: nat)
    requires Span(count, size) <= |bytes| && Span(count, size) <= |longer|
    requires bytes[..Span(count, size)] == longer[..Span(count, size)]
    ensures Samples(bytes, size, count) == Samples(longer, size, count)
    decreases count
  {
    if count > 0 {
      var p, q := Span(count - 1, size), Span(count, size);
      assert bytes[..p] == bytes[..q][..p] == longer[..q][..p] == longer[..p];
      assert bytes[p..q] == bytes[..q][p..] == longer[..q][p..] == longer[p..q];
      SamplesOfPrefix(bytes, longer, size, count - 1);
    }
  }

  /** Cutting and joining are inverse. */
  lemma PayloadOfSamples(bytes: seq<byte>, size: nat, count: nat)
    requires Span(count, size) <= |bytes|
    ensures Payload(Samples(bytes, size, count)) == bytes[..Span(count, size)]
    ensures OfSize(Samples(bytes, size, count), size)
  {
    CutAndJoined(bytes, size, count);
    SamplesHaveSize(bytes, size, count);
  }

  lemma {:induction false} CutAndJoined(bytes: seq<byte>, size: nat, count: nat)
    requires Span(count, size) <= |bytes|
    ensures Payload(Samples(bytes, size, count)) == bytes[..Span(count, size)]
    decreases count
  {
    if count > 0 {
      var (p, q) := (Span(count - 1, size), Span(count, size));
      CutAndJoined(bytes, size, count - 1);
      PayloadAppend(Samples(bytes, size, count - 1), bytes[p..q]);
      PrefixGrows(bytes, p, q);
    }
  }

  lemma PrefixGrows<T>(s: seq<T>, p: nat, q: nat)
    requires p <= q <= |s|
    ensures s[..p] + s[p..q] == s[..q]
  {
  }

  lemma {:induction false} SamplesHaveSize(bytes: seq<byte>, size: nat, count: nat)
    requires Span(count, size) <= |bytes|
    ensures OfSize(Samples(bytes, size, count), size)
    decreases count
  {
    if count > 0 {
      SamplesHaveSize(bytes, size, count - 1);
    }
  }

  lemma PayloadAppend(samples: seq<Sample>, s: Sample)
    ensures Payload(samples + [s]) == Payload(samples) + s
  {
    assert (samples + [s])[..|samples|] == samples;
  }

  lemma {:induction false} PayloadLength(samples: seq<Sample>, size: nat)
    requires OfSize(samples, size)
    ensures |Payload(samples)| == Span(|samples|, size)
    decreases |samples|
  {
    if samples != [] {
      PayloadLength(samples[..|samples| - 1], size);
      assert samples[|samples| - 1] in samples;
    }
  }

  lemma {:induction false} SamplesOfPayload(samples: seq<Sample>, size: nat)
    requires OfSize(samples, size) && |Payload(samples)| == Span(|samples|, size)
    ensures Samples(Payload(samples), size, |samples|) == samples
    decreases |samples|
  {
    if samples != [] {
      var front, last := samples[..|samples| - 1], samples[|samples| - 1];
      PayloadLength(front, size);
      SamplesOfPayload(front, size);
      assert last in samples;
      var flat := Payload(samples);
      assert flat[..|Payload(front)|] == Payload(front) && flat[|Payload(front)|..] == last;
      LastSample(flat, size, |front|);
      assert front + [last] == samples;
    }
  }

  lemma LastSample(bytes: seq<byte>, size: nat, count: nat)
    requires |bytes| == Span(count + 1, size)
    ensures Samples(bytes, size, count + 1)
         == Samples(bytes[..Span(count, size)], size, count) + [bytes[Span(count, size)..]]
  {
    var n := Span(count, size);
    assert bytes[..n][..n] == bytes[..n] && bytes[n..|bytes|] == bytes[n..];
    SamplesOfPrefix(bytes, bytes[..n], size, count);
  }

  // ---------- Decoding ----------

  datatype Frame = NoFrame | Frame(samples: seq<Sample>, rest: seq<byte>)

  /** What a reader of samples of `size` bytes makes of the bytes in the socket. */
  function ReadFrame(bytes: seq<byte>, size: nat): Frame {
    if |bytes| < COUNT_BYTES then NoFrame
    else
      var count := DecodeCount(bytes[..COUNT_BYTES]);
      if count > MAX_COUNT || Span(count, size) == 0 then NoFrame
      else if |bytes| - COUNT_BYTES < Span(count, size) then NoFrame
      else Frame(Samples(bytes[COUNT_BYTES..], size, count), bytes[COUNT_BYTES + Span(count, size)..])
  }

  /** The reader gets a frame back exactly when it holds between 1 and 1000 samples. */
  lemma ReadsFrameIff(samples: seq<Sample>, size: nat, rest: seq<byte>)
    requires |samples| < COUNT_LIMIT && OfSize(samples, size) && size > 0
    ensures ReadFrame(Encode(samples) + rest, size) == Frame(samples, rest) <==> 0 < |samples| <= 1000
  {
    var n, head, body := |samples|, EncodeCount(|samples|), Payload(samples);
    CountRoundTrip(n);
    PayloadLength(samples, size);
    Parts(head, body, rest);
    assert ReadFrame(head + body + rest, size) ==
           if n > MAX_COUNT || n == 0 then NoFrame else Frame(Samples(body + rest, size, n), rest);
    SamplesOfPrefix(body + rest, body, size, n);
    SamplesOfPayload(samples, size);
  }

  lemma Parts(head: seq<byte>, body: seq<byte>, rest: seq<byte>)
    ensures var bytes := head + body + rest;
      bytes[..|head|] == head && bytes[|head|..] == body + rest && bytes[|head| + |body|..] == rest
    ensures (body + rest)[..|body|] == body[..|body|]
  {
  }

  /** All samples that a reader takes out of `bytes`, frame by frame. */
  ghost function ReadAll(bytes: seq<byte>, size: nat): seq<Sample>
    decreases |bytes|
  {
    match ReadFrame(bytes, size)
    case NoFrame => []
    case Frame(samples, rest) => samples + ReadAll(rest, size)
  }

  /** Frames of any size, one after the other on the wire. */
  ghost function EncodeAll(frames: seq<seq<Sample>>): seq<byte>
    requires forall f :: f in frames ==> |f| < COUNT_LIMIT
  {
    if frames == [] then [] else Encode(frames[0]) + EncodeAll(frames[1..])
  }

  ghost function Joined(frames: seq<seq<Sample>>): seq<Sample> {
    if frames == [] then [] else frames[0] + Joined(frames[1..])
  }

  /** The frames before the first that the reader rejects. */
  ghost function Accepted(frames: seq<seq<Sample>>): seq<seq<Sample>> {
    if frames == [] || |frames[0]| > MAX_COUNT then [] else [frames[0]] + Accepted(frames[1..])
  }

  ghost predicate Writable(frames: seq<seq<Sample>>, size: nat) {
    forall f :: f in frames ==> 0 < |f| < COUNT_LIMIT && OfSize(f, size)
  }

  /** The reader gets the samples of all frames up to the first oversize one, at which it drops everything. */
  lemma {:induction false} ReadAllFrames(frames: seq<seq<Sample>>, size: nat)
    requires size > 0 && Writable(frames, size)
    ensures ReadAll(EncodeAll(frames), size) == Joined(Accepted(frames))
  {
    if frames != [] {
      assert frames[0] in frames;
      if |frames[0]| > MAX_COUNT {
        RejectsFrame(frames[0], size, EncodeAll(frames[1..]));
      } else {
        ReadsFrameIff(frames[0], size, EncodeAll(frames[1..]));
        ReadAllFrames(frames[1..], size);
        assert Accepted(frames)[1..] == Accepted(frames[1..]);
      }
    }
  }

  lemma RejectsFrame(samples: seq<Sample>, size: nat, rest: seq<byte>)
    requires MAX_COUNT < |samples| < COUNT_LIMIT
    ensures ReadFrame(Encode(samples) + rest, size) == NoFrame
  {
    CountRoundTrip(|samples|);
    Parts(EncodeCount(|samples|), Payload(samples), rest);
  }

  ghost predicate SomeOversize(frames: seq<seq<Sample>>) {
    exists f :: f in frames && |f| > MAX_COUNT
  }

  /** Everything is read back exactly if no frame is oversize; otherwise the samples read are fewer. */
  lemma {:induction false} AllAcceptedIff(frames: seq<seq<Sample>>)
    requires forall f :: f in frames ==> |f| > 0
    ensures if SomeOversize(frames) then |Joined(Accepted(frames))| < |Joined(frames)| else Accepted(frames) == frames
  {
    if frames != [] {
      assert frames[0] in frames;
      assert forall f :: f in frames <==> f == frames[0] || f in frames[1..];
      AllAcceptedIff(frames[1..]);
      if |frames[0]| <= MAX_COUNT {
        assert Accepted(frames)[1..] == Accepted(frames[1..]);
        assert frames == [frames[0]] + frames[1..];
      }
    }
  }
}
