/**
  The multi-reader ring buffer, its chunked readers, and the sources that fan
  chunks out to sinks. The buffer is specified by the unbounded log of all
  values ever committed.
 */
module RingBuffers {
  import opened Counters
  import opened Lists

  // ---------- What a reader gets, in terms of the log ----------

  /** The values that a reader at `position` gets when it drains the buffer. */
  ghost function Delivered<T>(log: seq<T>, position: nat, ring: Ring): (r: seq<T>)
    requires ring.Valid() && position <= |log|
    ensures |r| == |log| - position
  {
    seq(|log| - position, j requires 0 <= j < |log| - position => log[ring.Latest(position + j, |log|)])
  }

  lemma DeliveredNext<T>(log: seq<T>, position: nat, ring: Ring, k: nat)
    requires ring.Valid() && position + k < |log|
    ensures var d := Delivered(log, position, ring); d[..k + 1] == d[..k] + [log[ring.Latest(position + k, |log|)]]
  {
  }

  /** A lag of at most the buffer size loses nothing. */
  lemma DeliveredIsSuffix<T>(log: seq<T>, position: nat, ring: Ring)
    requires ring.Valid() && ring.Even(|log|) && position <= |log| <= position + ring.size
    ensures Delivered(log, position, ring) == log[position..]
  {
    forall j | 0 <= j < |log| - position
      ensures Delivered(log, position, ring)[j] == log[position..][j]
    {
      EvenlyReadableIff(ring, position + j, |log|);
    }
  }

  /** Reads hand out exactly the pending log entries precisely when the lag fits the buffer. */
  lemma DeliveryIsExactIff(position: nat, written: nat, ring: Ring)
    requires ring.Valid() && ring.Even(written) && position <= written
    ensures (forall i :: position <= i < written ==> ring.Latest(i, written) == i) <==> written - position <= ring.size
  {
    if written - position <= ring.size {
      forall i | position <= i < written
        ensures ring.Latest(i, written) == i
      {
        EvenlyReadableIff(ring, i, written);
      }
    } else {
      EvenlyReadableIff(ring, position, written);
    }
  }

  /** `s` cut into pieces of `chunk` values, the last one possibly shorter. */
  ghost function Chunks<T>(s: seq<T>, chunk: nat): (r: seq<seq<T>>)
    requires chunk > 0
  {
    if s == [] then [] else if |s| <= chunk then [s] else [s[..chunk]] + Chunks(s[chunk..], chunk)
  }

  /** The blocks in which a reader at `position` hands the delivered values on. */
  ghost function PendingCalls<T>(log: seq<T>, position: nat, ring: Ring, chunk: nat): seq<seq<T>>
    requires ring.Valid() && position <= |log|
  {
    if chunk == 0 then [] else Chunks(Delivered(log, position, ring), chunk)
  }

  /** Reading one full chunk, or all that is left, peels off the first block. */
  lemma PendingCallsStep<T>(log: seq<T>, position: nat, n: nat, ring: Ring, chunk: nat)
    requires ring.Valid() && position <= |log|
    requires 0 < n && n == if chunk < |log| - position then chunk else |log| - position
    ensures PendingCalls(log, position, ring, chunk) ==
            [Delivered(log, position, ring)[..n]] + PendingCalls(log, position + n, ring, chunk)
  {
    var pending := Delivered(log, position, ring);
    assert pending[n..] == Delivered(log, position + n, ring);
    if |pending| <= chunk {
      assert pending[..n] == pending;
    }
  }

  lemma NextBlock<T>(log: seq<T>, start: nat, from: nat, ring: Ring, chunk: nat, sent: seq<seq<T>>, values: seq<T>)
    requires ring.Valid() && start <= from <= |log| && 0 < |values|
    requires |values| == if chunk < |log| - from then chunk else |log| - from
    requires values == Delivered(log, from, ring)[..|values|]
    requires PendingCalls(log, start, ring, chunk) == sent + PendingCalls(log, from, ring, chunk)
    ensures PendingCalls(log, start, ring, chunk) == sent + [values] + PendingCalls(log, from + |values|, ring, chunk)
  {
    PendingCallsStep(log, from, |values|, ring, chunk);
    Regroup(sent, [values], PendingCalls(log, from + |values|, ring, chunk));
  }

  ghost function Flatten<T>(pieces: seq<seq<T>>): seq<T> {
    if pieces == [] then [] else pieces[0] + Flatten(pieces[1..])
  }

  lemma {:induction false} FlattenConcat<T>(a: seq<seq<T>>, b: seq<seq<T>>)
    ensures Flatten(a + b) == Flatten(a) + Flatten(b)
  {
    if a == [] {
      assert a + b == b;
    } else {
      FlattenConcat(a[1..], b);
      assert (a + b)[0] == a[0] && (a + b)[1..] == a[1..] + b;
      Regroup(a[0], Flatten(a[1..]), Flatten(b));
    }
  }

  lemma {:induction false} FlattenChunks<T>(s: seq<T>, chunk: nat)
    requires chunk > 0
    ensures Flatten(Chunks(s, chunk)) == s
    ensures forall c :: c in Chunks(s, chunk) ==> 0 < |c| <= chunk
    decreases |s|
  {
    if s == [] {
    } else if |s| <= chunk {
      assert Flatten([s]) == s + Flatten([]);
    } else {
      FlattenChunks(s[chunk..], chunk);
      var rest := Chunks(s[chunk..], chunk);
      assert ([s[..chunk]] + rest)[1..] == rest;
      assert s == s[..chunk] + s[chunk..];
    }
  }

  /** Every slot holds the latest value whose log index falls into it. */
  ghost predicate Refines<T>(slots: seq<T>, log: seq<T>, ring: Ring) {
    && ring.Valid() && |slots| == ring.size
    && forall i {:trigger ring.Latest(i, |log|)} ::
         0 <= i < |log| ==> slots[ring.SlotOf(i)] == log[ring.Latest(i, |log|)]
  }

  lemma CommitRefines<T>(slots: seq<T>, log: seq<T>, value: T, ring: Ring)
    requires Refines(slots, log, ring)
    ensures Refines(slots[ring.SlotOf(|log|) := value], log + [value], ring)
  {
    var w := |log|;
    var after, longer := slots[ring.SlotOf(w) := value], log + [value];
    forall i | 0 <= i < |longer|
      ensures after[ring.SlotOf(i)] == longer[ring.Latest(i, |longer|)]
    {
      if ring.SlotOf(i) != ring.SlotOf(w) {
        assert ring.Latest(i, |longer|) == ring.Latest(i, w);
      }
    }
  }

  /** Equal counters mean that nothing is unread, modulo the counter range; each read takes one off. */
  lemma CountersMeet(position: nat, written: nat, range: nat)
    requires range > 0 && position <= written
    ensures Modulo(position, range) == Modulo(written, range) <==> Modulo(written - position, range) == 0
    ensures Modulo(written - position, range) > 0 ==>
              Modulo(written - position, range) == Modulo(written - position - 1, range) + 1
  {
    SameModulo(position, written, range);
    if position < written {
      ModuloNext(written - position - 1, range);
    }
  }

  // ---------- The objects ----------

  type SinkId = nat

  /** The calls that sinks have received after one more call with `block` for each joined sink. */
  ghost function Collected<T>(calls: map<SinkId, seq<seq<T>>>, sinks: set<SinkId>, blocks: seq<seq<T>>)
    : (r: map<SinkId, seq<seq<T>>>)
    requires sinks <= calls.Keys
  {
    map k | k in calls :: if k in sinks then calls[k] + blocks else calls[k]
  }

  lemma CollectedTwice<T>(calls: map<SinkId, seq<seq<T>>>, sinks: set<SinkId>, a: seq<seq<T>>, b: seq<seq<T>>)
    requires sinks <= calls.Keys
    ensures Collected(calls, sinks, []) == calls
    ensures Collected(Collected(calls, sinks, a), sinks, b) == Collected(calls, sinks, a + b)
  {
    assert forall k :: k in sinks ==> calls[k] + [] == calls[k] && (calls[k] + a) + b == calls[k] + (a + b);
  }

  /** A chunked reader; `calls[k]` lists the blocks that the callback of sink `k` was invoked with. */
  class BufferReader<T(0)> {
    const chunkSize: nat
    var readCount: nat
    ghost var position: nat       // the number of log entries read or skipped so far
    var sinks: set<SinkId>        // the sinks joined to the reader's source
    var calls: map<SinkId, seq<seq<T>>>

    ghost predicate Valid()
      reads this
    {
      sinks <= calls.Keys
    }

    constructor (chunkSize: nat)
      ensures Valid() && sinks == {} && calls == map[] && this.chunkSize == chunkSize
    {
      this.chunkSize := chunkSize;
      readCount, position, sinks, calls := 0, 0, {}, map[];
    }

    method JoinSink(sink: SinkId)
      requires Valid()
      modifies this`sinks, this`calls
      ensures Valid() && sinks == old(sinks) + {sink}
      ensures calls == if sink in old(calls) then old(calls) else old(calls)[sink := []]
    {
      sinks := sinks + {sink};
      if sink !in calls {
        calls := calls[sink := []];
      }
    }

    method UnjoinSink(sink: SinkId)
      requires Valid()
      modifies this`sinks
      ensures Valid() && sinks == old(sinks) - {sink}
    {
      sinks := sinks - {sink};
    }

    /** Hands a block of values to every joined sink. */
    method Propagate(values: seq<T>)
      requires Valid()
      modifies this`calls
      ensures Valid() && calls == Collected(old(calls), sinks, [values])
    {
      var rest := sinks;
      while rest != {}
        invariant rest <= sinks <= calls.Keys
        invariant calls == Collected(old(calls), sinks - rest, [values])
        decreases rest
      {
        var sink :| sink in rest;
        calls := calls[sink := calls[sink] + [values]];
        rest := rest - {sink};
      }
      assert sinks - rest == sinks;
    }

    /** Drains the buffer chunk by chunk into the source. */
    method PushNewData(buffer: RingBuffer<T>)
      requires buffer.Valid() && buffer.Tracks(this)
      modifies this`readCount, this`position, this`calls
      ensures buffer.Tracks(this)
      ensures position == if chunkSize > 0 then |buffer.log| else old(position)
      ensures calls == Collected(old(calls), sinks,
                                 PendingCalls(buffer.log, Resumed(old(position), |buffer.log|, buffer.counterRange),
                                              buffer.Layout(), chunkSize))
    {
      ghost var log, ring, start := buffer.log, buffer.Layout(), Resumed(position, |buffer.log|, buffer.counterRange);
      ResumedKeepsCounter(position, |log|, buffer.counterRange);
      if chunkSize > 0 {
        position := start;
      }
      ghost var sent: seq<seq<T>>, from := [], start;
      CollectedTwice(calls, sinks, [], []);
      var values := buffer.Read(chunkSize, this);
      while values != []
        invariant buffer.Tracks(this) && (chunkSize == 0 ==> values == [] && position == old(position))
        invariant chunkSize > 0 ==> start <= from <= |log| && position == from + |values|
        invariant chunkSize > 0 ==> |values| == if chunkSize < |log| - from then chunkSize else |log| - from
        invariant chunkSize > 0 ==> values == Delivered(log, from, ring)[..|values|]
        invariant start <= from <= |log| && |log| < from + ring.range
        invariant PendingCalls(log, start, ring, chunkSize) == sent + PendingCalls(log, from, ring, chunkSize)
        invariant calls == Collected(old(calls), sinks, sent)
        decreases |log| - from
      {
        NextBlock(log, start, from, ring, chunkSize, sent, values);
        CollectedTwice(old(calls), sinks, sent, [values]);
        sent, from := sent + [values], position;
        values := PropagateAndRead(buffer, values);
      }
      assert PendingCalls(log, start, ring, chunkSize) == sent;
    }

    method PropagateAndRead(buffer: RingBuffer<T>, values: seq<T>) returns (next: seq<T>)
      requires buffer.Valid() && buffer.Tracks(this)
      modifies this`readCount, this`position, this`calls
      ensures buffer.Tracks(this) && position == old(position) + |next|
      ensures var unread := old(buffer.Unread(this)); |next| == if chunkSize < unread then chunkSize else unread
      ensures next == Delivered(buffer.log, old(position), buffer.Layout())[..|next|]
      ensures calls == Collected(old(calls), sinks, [values])
    {
      Propagate(values);
      next := buffer.Read(chunkSize, this);
    }
  }

  class RingBuffer<T(0)> {
    const bufferSize: nat
    const counterRange: nat       // the range of the unsigned counters
    const buffer: array<T>
    var writeCount: nat
    var readers: set<BufferReader<T>>
    ghost var log: seq<T>

    ghost function Layout(): Ring {
      Ring(bufferSize, counterRange)
    }

    /** The counter is the length of the log modulo its range, and the slots hold its latest entries. */
    ghost predicate Valid()
      reads this, buffer
    {
      && buffer.Length == bufferSize > 0 && counterRange > 0
      && writeCount == Modulo(|log|, counterRange)
      && Refines(buffer[..], log, Layout())
    }

    /** The counter of `reader` shows how much of this log it has read. */
    ghost predicate Tracks(reader: BufferReader<T>)
      requires counterRange > 0
      reads this`log, reader
    {
      && reader.Valid()
      && reader.position <= |log|
      && reader.readCount == Modulo(reader.position, counterRange)
    }

    constructor (size: nat)
      requires size > 0
      ensures Valid() && log == [] && readers == {} && fresh(buffer)
      ensures bufferSize == size && counterRange == 0x1_0000_0000
    {
      bufferSize, counterRange := size, COUNTER_RANGE;
      buffer := new T[size];
      writeCount, readers, log := 0, {}, [];
    }

    /** The slot that a counter selects. */
    method Slot(count: nat) returns (slot: nat)
      requires bufferSize > 0
      ensures slot == Modulo(count, bufferSize)
    {
      ModuloIsRemainder(count, bufferSize);
      slot := count % bufferSize;
    }

    /** The distance from `reader` to the end of the log that the counters show. */
    ghost function Unread(reader: BufferReader<T>): nat
      requires counterRange > 0 && reader.position <= |log|
      reads this`log, reader`position
    {
      Modulo(|log| - reader.position, counterRange)
    }

    method HasUnread(reader: BufferReader<T>) returns (r: bool)
      requires Valid() && Tracks(reader)
      ensures r <==> Unread(reader) > 0
    {
      CountersMeet(reader.position, |log|, counterRange);
      r := reader.readCount != writeCount;
    }

    /** Reads the value under the counter of `reader` and advances the counter. */
    method Fetch(reader: BufferReader<T>) returns (value: T)
      requires Valid() && Tracks(reader) && Unread(reader) > 0
      modifies reader`readCount, reader`position
      ensures Tracks(reader) && reader.position == old(reader.position) + 1
      ensures Unread(reader) == old(Unread(reader)) - 1
      ensures value == log[Layout().Latest(old(reader.position), |log|)]
    {
      CountersMeet(reader.position, |log|, counterRange);
      ModuloNext(reader.position, counterRange);
      var slot := Slot(reader.readCount);
      assert buffer[..][slot] == log[Layout().Latest(reader.position, |log|)];
      value := buffer[slot];
      reader.readCount := Next(reader.readCount, counterRange);
      reader.position := reader.position + 1;
    }

    /** Appends one more value to those read since the reader was at `start`. */
    method FetchNext(reader: BufferReader<T>, before: seq<T>, ghost start: nat) returns (values: seq<T>)
      requires Valid() && Tracks(reader) && Unread(reader) > 0 && reader.position == start + |before|
      requires before == Delivered(log, start, Layout())[..|before|]
      modifies reader`readCount, reader`position
      ensures Tracks(reader) && reader.position == old(reader.position) + 1
      ensures Unread(reader) == old(Unread(reader)) - 1
      ensures |values| == |before| + 1 && values == Delivered(log, start, Layout())[..|values|]
    {
      DeliveredNext(log, start, Layout(), |before|);
      var value := Fetch(reader);
      values := before + [value];
    }

    /**
      Reads at most `n` values. The counters meet again after the lag modulo
      their range; each value is the latest one of its slot.
     */
    method Read(n: nat, reader: BufferReader<T>) returns (values: seq<T>)
      requires Valid() && Tracks(reader)
      modifies reader`readCount, reader`position
      ensures Tracks(reader) && reader.position == old(reader.position) + |values|
      ensures |values| == if n < old(Unread(reader)) then n else old(Unread(reader))
      ensures values == Delivered(log, old(reader.position), Layout())[..|values|]
    {
      ghost var start := reader.position;
      values := [];
      var more := HasUnread(reader);
      while |values| < n && more
        invariant Tracks(reader) && reader.position == start + |values| && |values| <= n
        invariant |values| + Unread(reader) == old(Unread(reader)) && (more <==> Unread(reader) > 0)
        invariant values == Delivered(log, start, Layout())[..|values|]
      {
        values := FetchNext(reader, values, start);
        more := HasUnread(reader);
      }
    }

    /** Copies one value into the next slot and counts it. */
    method Commit(value: T)
      requires Valid()
      modifies this`writeCount, this`log, buffer
      ensures Valid() && log == old(log) + [value]
    {
      ModuloNext(|log|, counterRange);
      var slot := Slot(writeCount);
      CommitRefines(buffer[..], log, value, Layout());
      buffer[slot] := value;
      writeCount := Next(writeCount, counterRange);
      log := log + [value];
    }

    ghost predicate Wired()
      requires counterRange > 0
      reads this, readers
    {
      forall r :: r in readers ==> Tracks(r)
    }

    method JoinReader(reader: BufferReader<T>)
      requires Valid() && Wired() && reader.Valid()
      modifies this`readers, reader`readCount, reader`position
      ensures Valid() && Wired()
      ensures readers == old(readers) + {reader} && reader.position == |log|
    {
      reader.readCount, reader.position := writeCount, |log|;
      readers := readers + {reader};
    }

    method UnjoinReader(reader: BufferReader<T>)
      requires Valid() && Wired()
      modifies this`readers
      ensures Valid() && Wired() && readers == old(readers) - {reader}
    {
      readers := readers - {reader};
    }

    /** Between the two states, `r` has handed everything pending to its sinks. */
    twostate predicate DrainedBy(r: BufferReader<T>)
      requires Layout().Valid() && old(r.position) <= |log| && old(r.sinks) <= old(r.calls).Keys
      reads this, r
    {
      && r.sinks == old(r.sinks)
      && r.position == (if r.chunkSize > 0 then |log| else old(r.position))
      && r.calls == Collected(old(r.calls), old(r.sinks),
                              PendingCalls(log, Resumed(old(r.position), |log|, counterRange), Layout(), r.chunkSize))
    }

    /** Lets every joined reader drain the buffer into its sinks. */
    method WakeUpReaders()
      requires Valid() && Wired()
      modifies readers
      ensures Valid() && Wired()
      ensures forall r :: r in readers ==> DrainedBy(r)
    {
      var rest := readers;
      while rest != {}
        invariant rest <= readers && Wired()
        invariant forall r :: r in rest ==> unchanged(r)
        invariant forall r :: r in readers && r !in rest ==> DrainedBy(r)
        decreases rest
      {
        var reader :| reader in rest;
        reader.PushNewData(this);
        rest := rest - {reader};
      }
    }

    /** Stores the values, one slot after the other, then wakes the readers up. */
    method Write(values: seq<T>)
      requires Valid() && Wired()
      modifies this`writeCount, this`log, buffer, readers
      ensures Valid() && Wired()
      ensures log == old(log) + values
      ensures forall r :: r in readers ==> DrainedBy(r)
    {
      Store(values);
      WakeUpReaders();
    }

    method Store(values: seq<T>)
      requires Valid()
      modifies this`writeCount, this`log, buffer
      ensures Valid() && log == old(log) + values
    {
      for i := 0 to |values|
        invariant Valid() && log == old(log) + values[..i]
      {
        Commit(values[i]);
      }
    }
  }
}
