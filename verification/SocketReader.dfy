/** The client's end of a session socket. */
module SocketReader {
  import opened Framing

  const RETRIES := 100

  datatype Outcome = Outcome(ok: bool, data: seq<byte>, left: seq<byte>)

  /**
    Reads until `size` bytes have come, asking for `size` bytes every time;
    `arrivals` are the bytes that come in before each further attempt.
   */
  function ReadLoop(incoming: seq<byte>, arrivals: seq<seq<byte>>, size: nat, data: seq<byte>, retry: nat): Outcome
    decreases if |data| < size then size - |data| else 0, retry
  {
    if |data| >= size then Outcome(|data| > 0, data, incoming)
    else
      var (here, later) := Arrive(incoming, arrivals);
      var n := if |here| < size then |here| else size;
      if n > 0 then ReadLoop(here[n..], later, size, data + here[..n], retry)
      else if retry == 0 then Outcome(false, data, here)
      else ReadLoop(here, later, size, data, retry - 1)
  }

  function Arrive(incoming: seq<byte>, arrivals: seq<seq<byte>>): (seq<byte>, seq<seq<byte>>) {
    if arrivals == [] then (incoming, []) else (incoming + arrivals[0], arrivals[1..])
  }

  ghost function Stream(pieces: seq<seq<byte>>): seq<byte> {
    if pieces == [] then [] else pieces[0] + Stream(pieces[1..])
  }

  /** No byte is lost or reordered, even when too many are taken. */
  lemma {:induction false} ReadLoopConserves(incoming: seq<byte>, arrivals: seq<seq<byte>>, size: nat,
                                             data: seq<byte>, retry: nat) returns (used: nat)
    ensures used <= |arrivals|
    ensures var r := ReadLoop(incoming, arrivals, size, data, retry);
      r.data + r.left == data + (incoming + Stream(arrivals[..used]))
    decreases if |data| < size then size - |data| else 0, retry
  {
    used := 0;
    if |data| < size {
      var (here, later) := Arrive(incoming, arrivals);
      var n := if |here| < size then |here| else size;
      if n > 0 {
        used := ReadLoopConserves(here[n..], later, size, data + here[..n], retry);
        Regroup(data, here, n, Stream(later[..used]));
      } else if retry > 0 {
        used := ReadLoopConserves(here, later, size, data, retry - 1);
      }
      ArriveConserves(incoming, arrivals, used);
      used := if arrivals == [] then used else used + 1;
    }
  }

  lemma Regroup(data: seq<byte>, here: seq<byte>, n: nat, stream: seq<byte>)
    requires n <= |here|
    ensures (data + here[..n]) + (here[n..] + stream) == data + (here + stream)
  {
  }

  lemma ArriveConserves(incoming: seq<byte>, arrivals: seq<seq<byte>>, used: nat)
    requires used <= |Arrive(incoming, arrivals).1|
    ensures var (here, later) := Arrive(incoming, arrivals);
      here + Stream(later[..used]) == incoming + Stream(arrivals[..if arrivals == [] then used else used + 1])
  {
    if arrivals != [] {
      var taken := arrivals[..used + 1];
      assert taken[0] == arrivals[0] && taken[1..] == arrivals[1..][..used];
    }
  }

  /** The number of bytes in the first `k` arrivals. */
  function Come(arrivals: seq<seq<byte>>, k: nat): nat
    requires k <= |arrivals|
  {
    if k == 0 then 0 else |arrivals[0]| + Come(arrivals[1..], k - 1)
  }

  /** The number of empty ones among the first `k` arrivals. */
  function Waits(arrivals: seq<seq<byte>>, k: nat): nat
    requires k <= |arrivals|
  {
    if k == 0 then 0 else (if arrivals[0] == [] then 1 else 0) + Waits(arrivals[1..], k - 1)
  }

  /** With `got` bytes there at first, some but too few are there after `k` arrivals, and too many after the next. */
  predicate Crosses(arrivals: seq<seq<byte>>, got: nat, size: nat, retry: nat, k: nat) {
    && k < |arrivals|
    && 0 < got + Come(arrivals, k) < size < got + Come(arrivals, k + 1)
    && Waits(arrivals, k) <= retry
  }

  ghost predicate SomeCrosses(arrivals: seq<seq<byte>>, got: nat, size: nat, retry: nat) {
    exists k: nat :: Crosses(arrivals, got, size, retry, k)
  }

  lemma CrossesLater(arrivals: seq<seq<byte>>, got: nat, size: nat, retry: nat)
    requires arrivals != [] && (arrivals[0] == [] ==> retry > 0)
    ensures SomeCrosses(arrivals, got, size, retry) <==>
            0 < got < size < got + |arrivals[0]| ||
            SomeCrosses(arrivals[1..], got + |arrivals[0]|, size, if arrivals[0] == [] then retry - 1 else retry)
  {
    var rest, more, next := arrivals[1..], got + |arrivals[0]|, if arrivals[0] == [] then retry - 1 else retry;
    assert Come(arrivals, 1) == |arrivals[0]| + Come(rest, 0) == |arrivals[0]|;
    assert Crosses(arrivals, got, size, retry, 0) <==> 0 < got < size < more;
    if k: nat :| Crosses(arrivals, got, size, retry, k) && k > 0 {
      assert Crosses(rest, more, size, next, k - 1);
    }
    if k: nat :| Crosses(rest, more, size, next, k) {
      assert Crosses(arrivals, got, size, retry, k + 1);
    }
  }

  lemma NoRetriesLeft(arrivals: seq<seq<byte>>, got: nat, size: nat)
    requires arrivals != [] && arrivals[0] == []
    ensures !SomeCrosses(arrivals, got, size, 0)
  {
    forall k: nat
      ensures !Crosses(arrivals, got, size, 0, k)
    {
      assert Come(arrivals, 1) == Come(arrivals[1..], 0) == 0;
      assert 0 < k < |arrivals| ==> Waits(arrivals, k) >= 1;
    }
  }

  /** With nothing left over from before, the loop overshoots exactly if the arrivals step over the size. */
  lemma {:induction false} OvershootsFromEmpty(arrivals: seq<seq<byte>>, size: nat, data: seq<byte>, retry: nat)
    requires |data| <= size
    ensures |ReadLoop([], arrivals, size, data, retry).data| > size <==> SomeCrosses(arrivals, |data|, size, retry)
    decreases |arrivals|
  {
    if |data| < size {
      if arrivals == [] {
        StarvedKeepsData(size, data, retry);
      } else {
        var here, rest := arrivals[0], arrivals[1..];
        assert [] + here == here;
        if here == [] {
          if retry > 0 {
            OvershootsFromEmpty(rest, size, data, retry - 1);
            CrossesLater(arrivals, |data|, size, retry);
          } else {
            NoRetriesLeft(arrivals, |data|, size);
          }
        } else {
          CrossesLater(arrivals, |data|, size, retry);
          if |data| + |here| <= size {
            assert here[..|here|] == here && here[|here|..] == [];
            OvershootsFromEmpty(rest, size, data + here, retry);
          }
        }
      }
    }
  }

  /** After `k` arrivals with no more empty ones than retries there are enough bytes. */
  predicate Suffices(arrivals: seq<seq<byte>>, got: nat, size: nat, retry: nat, k: nat) {
    k <= |arrivals| && got + Come(arrivals, k) >= size && Waits(arrivals, k) <= retry
  }

  ghost predicate SomeSuffices(arrivals: seq<seq<byte>>, got: nat, size: nat, retry: nat) {
    exists k: nat :: Suffices(arrivals, got, size, retry, k)
  }

  lemma SufficesLater(arrivals: seq<seq<byte>>, got: nat, size: nat, retry: nat)
    requires arrivals != [] && got < size
    ensures SomeSuffices(arrivals, got, size, retry) <==>
            (arrivals[0] != [] || retry > 0) &&
            SomeSuffices(arrivals[1..], got + |arrivals[0]|, size, if arrivals[0] == [] then retry - 1 else retry)
  {
    var rest, more := arrivals[1..], got + |arrivals[0]|;
    if k: nat :| Suffices(arrivals, got, size, retry, k) {
      assert k > 0;
      if arrivals[0] != [] || retry > 0 {
        assert Suffices(rest, more, size, if arrivals[0] == [] then retry - 1 else retry, k - 1);
      }
    }
    if arrivals[0] != [] || retry > 0 {
      var next := if arrivals[0] == [] then retry - 1 else retry;
      if k: nat :| Suffices(rest, more, size, next, k) {
        assert Suffices(arrivals, got, size, retry, k + 1);
      }
    }
  }

  lemma EnoughSuffices(arrivals: seq<seq<byte>>, got: nat, size: nat, retry: nat)
    requires got >= size
    ensures SomeSuffices(arrivals, got, size, retry)
  {
    assert Suffices(arrivals, got, size, retry, 0);
  }

  /** However the bytes are cut into pieces, the loop succeeds exactly if enough come within the retries. */
  lemma {:induction false} SucceedsFromEmpty(arrivals: seq<seq<byte>>, size: nat, data: seq<byte>, retry: nat)
    requires |data| < size
    ensures ReadLoop([], arrivals, size, data, retry).ok <==> SomeSuffices(arrivals, |data|, size, retry)
    decreases |arrivals|
  {
    if arrivals == [] {
      ReadLoopStarves(size, data, retry);
    } else {
      var here, rest := arrivals[0], arrivals[1..];
      assert [] + here == here;
      SufficesLater(arrivals, |data|, size, retry);
      if here == [] {
        if retry > 0 {
          SucceedsFromEmpty(rest, size, data, retry - 1);
        }
      } else if |data| + |here| < size {
        assert here[..|here|] == here && here[|here|..] == [];
        SucceedsFromEmpty(rest, size, data + here, retry);
      } else {
        EnoughSuffices(rest, |data| + |here|, size, retry);
      }
    }
  }

  /** What is there already counts with the first arrival. A read of no bytes never succeeds. */
  lemma ReadSucceedsIff(incoming: seq<byte>, arrivals: seq<seq<byte>>, size: nat, retry: nat)
    ensures ReadLoop(incoming, arrivals, size, [], retry).ok <==>
            size > 0 && (if arrivals == [] then |incoming| >= size
                         else SomeSuffices([incoming + arrivals[0]] + arrivals[1..], 0, size, retry))
  {
    if arrivals == [] {
      ReadLoopAtOnce(incoming, size, retry);
    } else if size > 0 {
      var pieces := [incoming + arrivals[0]] + arrivals[1..];
      assert [] + pieces[0] == pieces[0] && pieces[1..] == arrivals[1..];
      assert ReadLoop(incoming, arrivals, size, [], retry) == ReadLoop([], pieces, size, [], retry);
      SucceedsFromEmpty(pieces, size, [], retry);
    }
  }

  /** A read that succeeds without taking too much has the next bytes of the stream. */
  lemma ReadGivesNextBytes(incoming: seq<byte>, arrivals: seq<seq<byte>>, size: nat, retry: nat) returns (used: nat)
    requires var r := ReadLoop(incoming, arrivals, size, [], retry); r.ok && |r.data| <= size
    ensures used <= |arrivals|
    ensures var (r, stream) := (ReadLoop(incoming, arrivals, size, [], retry), incoming + Stream(arrivals[..used]));
      size <= |stream| && r.data == stream[..size] && r.left == stream[size..]
  {
    used := ReadLoopConserves(incoming, arrivals, size, [], retry);
    var (r, stream) := (ReadLoop(incoming, arrivals, size, [], retry), incoming + Stream(arrivals[..used]));
    assert [] + stream == stream;
    SuccessIsFull(incoming, arrivals, size, [], retry);
    assert (r.data + r.left)[..size] == r.data && (r.data + r.left)[size..] == r.left;
  }

  lemma {:induction false} SuccessIsFull(incoming: seq<byte>, arrivals: seq<seq<byte>>, size: nat, data: seq<byte>,
                                         retry: nat)
    ensures ReadLoop(incoming, arrivals, size, data, retry).ok ==>
              |ReadLoop(incoming, arrivals, size, data, retry).data| >= size
    decreases if |data| < size then size - |data| else 0, retry
  {
    if |data| < size {
      var (here, later) := Arrive(incoming, arrivals);
      var n := if |here| < size then |here| else size;
      if n > 0 {
        SuccessIsFull(here[n..], later, size, data + here[..n], retry);
      } else if retry > 0 {
        SuccessIsFull(here, later, size, data, retry - 1);
      }
    }
  }

  lemma {:induction false} StarvedKeepsData(size: nat, data: seq<byte>, retry: nat)
    requires |data| < size
    ensures ReadLoop([], [], size, data, retry).data == data
    decreases retry
  {
    if retry > 0 {
      StarvedKeepsData(size, data, retry - 1);
    }
  }

  /**
    The loop takes more than it was asked for exactly if, after some but too
    few bytes have come, the next arrival brings more than are missing, within
    the retries. What is there already counts with the first arrival.
   */
  lemma OvershootsIff(incoming: seq<byte>, arrivals: seq<seq<byte>>, size: nat, retry: nat)
    ensures |ReadLoop(incoming, arrivals, size, [], retry).data| > size <==>
            if arrivals == [] then false
            else SomeCrosses([incoming + arrivals[0]] + arrivals[1..], 0, size, retry)
  {
    if arrivals == [] {
      if |incoming| < size {
        assert incoming != [] ==>
            ReadLoop(incoming, [], size, [], retry) == ReadLoop([], [], size, incoming, retry) by {
          assert [] + incoming[..|incoming|] == incoming;
        }
        StarvedKeepsData(size, incoming, retry);
      } else {
        ReadLoopAtOnce(incoming, size, retry);
      }
    } else {
      var pieces := [incoming + arrivals[0]] + arrivals[1..];
      assert [] + pieces[0] == pieces[0] && pieces[1..] == arrivals[1..];
      assert size > 0 ==> ReadLoop(incoming, arrivals, size, [], retry) == ReadLoop([], pieces, size, [], retry);
      OvershootsFromEmpty(pieces, size, [], retry);
    }
  }

  /** Bytes written in one go arrive in one go; then exactly the bytes asked for are read, after any wait in bounds. */
  lemma {:induction false} AtomicReadIsExact(wait: nat, block: seq<byte>, size: nat, retry: nat)
    requires wait <= retry && 0 < size <= |block|
    ensures ReadLoop([], seq(wait, _ => []) + [block], size, [], retry) == Outcome(true, block[..size], block[size..])
    decreases wait
  {
    var arrivals: seq<seq<byte>> := seq(wait, _ => []) + [block];
    if wait == 0 {
      assert [] + block == block && [] + block[..size] == block[..size];
    } else {
      assert arrivals[0] == [] && arrivals[1..] == seq(wait - 1, _ => []) + [block];
      assert [] + arrivals[0] == [];
      AtomicReadIsExact(wait - 1, block, size, retry - 1);
    }
  }

  /** Four bytes asked for, two there and four more before the second attempt: six are taken. */
  lemma OvershootExample()
    ensures |ReadLoop([], [[1, 2], [3, 4, 5, 6]], 4, [], RETRIES).data| == 6
  {
    var arrivals: seq<seq<byte>> := [[1, 2], [3, 4, 5, 6]];
    assert arrivals[1..] == [[3, 4, 5, 6]] && [[3, 4, 5, 6]][1..] == [];
    assert ReadLoop([], arrivals, 4, [], RETRIES) == ReadLoop([], [[3, 4, 5, 6]], 4, [1, 2], RETRIES);
  }

  /** The vector after `samples` were read to its start, behind a resize by their number. */
  ghost function Overwritten(values: seq<Sample>, samples: seq<Sample>, blank: Sample): seq<Sample> {
    samples + (values + seq(|samples|, _ => blank))[|samples|..]
  }

  /** The samples read come first; of what was in the vector only what lies behind them is left. */
  lemma OverwrittenAt(values: seq<Sample>, samples: seq<Sample>, blank: Sample, k: nat)
    requires k < |values| + |samples|
    ensures |Overwritten(values, samples, blank)| == |values| + |samples|
    ensures Overwritten(values, samples, blank)[k] ==
            if k < |samples| then samples[k] else if k < |values| then values[k] else blank
  {
  }

  /** Reading appends to the vector, as documented, exactly when the vector was empty. */
  lemma AppendsIff(values: seq<Sample>, blank: Sample, size: nat, count: nat)
    requires OfSize(values, size) && |blank| == size > 0 && count > 0
    ensures (forall samples | |samples| == count && OfSize(samples, size) ::
               Overwritten(values, samples, blank) == values + samples) <==> values == []
  {
    if values == [] {
      forall samples | |samples| == count && OfSize(samples, size)
        ensures Overwritten(values, samples, blank) == values + samples
      {
        assert values + seq(|samples|, _ => blank) == seq(|samples|, _ => blank);
      }
    } else {
      assert values[0] in values;
      var other: Sample := values[0][0 := (values[0][0] as int + 1) % 256];
      var samples: seq<Sample> := seq(count, _ => other);
      assert OfSize(samples, size);
      assert Overwritten(values, samples, blank)[0] == other != (values + samples)[0];
    }
  }

  class Reader {
    var incoming: seq<byte>   // the bytes in the socket

    constructor (bytes: seq<byte>)
      ensures incoming == bytes
    {
      incoming := bytes;
    }

    method Read(size: nat, arrivals: seq<seq<byte>>) returns (ok: bool, data: seq<byte>)
      modifies this
      ensures Outcome(ok, data, incoming) == ReadLoop(old(incoming), arrivals, size, [], 100)
    {
      data := [];
      var retry, later := RETRIES, arrivals;
      while |data| < size
        invariant retry >= 0
        invariant ReadLoop(old(incoming), arrivals, size, [], RETRIES) == ReadLoop(incoming, later, size, data, retry)
        decreases if |data| < size then size - |data| else 0, retry
      {
        if later != [] {
          incoming, later := incoming + later[0], later[1..];
        }
        var bytes := if |incoming| < size then |incoming| else size;
        if bytes == 0 {
          if retry == 0 {
            return false, data;
          }
          retry := retry - 1;
        } else {
          data := data + incoming[..bytes];
          incoming := incoming[bytes..];
        }
      }
      ok := |data| > 0;
    }

    /** Reads one frame whose bytes have arrived as a whole; anything else empties the socket. */
    method ReadValues(values: seq<Sample>, size: nat, blank: Sample) returns (ok: bool, result: seq<Sample>)
      modifies this
      ensures match ReadFrame(old(incoming), size)
        case NoFrame => !ok && incoming == []
        case Frame(samples, rest) => ok && incoming == rest && result == Overwritten(values, samples, blank)
    {
      result := values;
      ghost var start := incoming;
      var read, head := Read(COUNT_BYTES, []);
      ReadLoopAtOnce(start, COUNT_BYTES, RETRIES);
      if !read {
        incoming := [];
        return false, result;
      }
      var count := DecodeCount(head);
      if count > MAX_COUNT {
        incoming := [];
        return false, result;
      }
      SpanIsProduct(count, size);
      var body;
      read, body := Read(size * count, []);
      ReadLoopAtOnce(start[COUNT_BYTES..], size * count, RETRIES);
      if !read {
        incoming := [];
        return false, result + seq(count, _ => blank);
      }
      SamplesOfPrefix(start[COUNT_BYTES..], body, size, count);
      var samples := Samples(body, size, count);
      result := samples + (values + seq(count, _ => blank))[count..];
      ok := true;
    }
  }

  /** With nothing more to come, a read takes what it asks for or fails and takes everything. */
  lemma {:induction false} ReadLoopAtOnce(incoming: seq<byte>, size: nat, retry: nat)
    ensures var r := ReadLoop(incoming, [], size, [], retry);
      if 0 < size <= |incoming| then r == Outcome(true, incoming[..size], incoming[size..]) else !r.ok
  {
    if 0 < |incoming| < size {
      assert [] + incoming[..|incoming|] == incoming && incoming[|incoming|..] == [];
      assert ReadLoop(incoming, [], size, [], retry) == ReadLoop([], [], size, incoming, retry);
      ReadLoopStarves(size, incoming, retry);
    } else if |incoming| == 0 {
      ReadLoopStarves(size, [], retry);
    } else if 0 < size {
      assert [] + incoming[..size] == incoming[..size];
    }
  }

  lemma {:induction false} ReadLoopStarves(size: nat, data: seq<byte>, retry: nat)
    ensures |data| < size ==> !ReadLoop([], [], size, data, retry).ok
    decreases retry
  {
    if |data| < size && retry > 0 {
      ReadLoopStarves(size, data, retry - 1);
    }
  }
}
