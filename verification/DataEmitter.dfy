/** A reader that hands on the values of a ring buffer one by one. */
module DataEmitters {
  import opened Counters
  import opened Lists
  import opened RingBuffers

  /** The values that an emitter at `position` emits when it drains the buffer. */
  ghost function Emittable<T>(log: seq<T>, position: nat, ring: Ring, chunk: nat): seq<T>
    requires ring.Valid() && position <= |log|
  {
    if chunk == 0 then [] else Delivered(log, position, ring)
  }

  class DataEmitter<T(0)> {
    const reader: BufferReader<T>
    var emitted: seq<T>

    constructor (chunkSize: nat)
      ensures reader.Valid() && reader.chunkSize == chunkSize && fresh(reader) && emitted == []
    {
      reader := new BufferReader<T>(chunkSize);
      emitted := [];
    }

    /** Drains the buffer chunk by chunk and emits every value of a chunk. */
    method PushNewData(buffer: RingBuffer<T>)
      requires buffer.Valid() && buffer.Tracks(reader)
      modifies this`emitted, reader`readCount, reader`position
      ensures buffer.Tracks(reader)
      ensures reader.position == if reader.chunkSize > 0 then |buffer.log| else old(reader.position)
      ensures emitted == old(emitted) +
                         Emittable(buffer.log, Resumed(old(reader.position), |buffer.log|, buffer.counterRange),
                                   buffer.Layout(), reader.chunkSize)
    {
      ResumedKeepsCounter(reader.position, |buffer.log|, buffer.counterRange);
      if reader.chunkSize > 0 {
        reader.position := Resumed(reader.position, |buffer.log|, buffer.counterRange);
      }
      Drain(buffer);
    }

    /** The loop of PushNewData, for a reader whose counter shows all that is unread. */
    method Drain(buffer: RingBuffer<T>)
      requires buffer.Valid() && buffer.Tracks(reader)
      requires reader.chunkSize > 0 ==> |buffer.log| < reader.position + buffer.counterRange
      modifies this`emitted, reader`readCount, reader`position
      ensures buffer.Tracks(reader)
      ensures reader.position == if reader.chunkSize > 0 then |buffer.log| else old(reader.position)
      ensures emitted == old(emitted) +
                         Emittable(buffer.log, old(reader.position), buffer.Layout(), reader.chunkSize)
    {
      ghost var log, ring, start := buffer.log, buffer.Layout(), reader.position;
      ghost var from := start;
      var values := buffer.Read(reader.chunkSize, reader);
      while values != []
        invariant buffer.Tracks(reader) && start <= from <= |log| && reader.position == from + |values|
        invariant reader.chunkSize == 0 ==> from == start
        invariant |values| == if reader.chunkSize < |log| - from then reader.chunkSize else |log| - from
        invariant values == Delivered(log, from, ring)[..|values|]
        invariant emitted == old(emitted) + Delivered(log, start, ring)[..from - start]
        decreases |log| - from
      {
        EmittedStep(old(emitted), log, start, from, ring, |values|);
        from := reader.position;
        values := EmitAndRead(buffer, values);
      }
    }

    method EmitAndRead(buffer: RingBuffer<T>, values: seq<T>) returns (next: seq<T>)
      requires buffer.Valid() && buffer.Tracks(reader)
      modifies this`emitted, reader`readCount, reader`position
      ensures buffer.Tracks(reader) && reader.position == old(reader.position) + |next|
      ensures var unread := old(buffer.Unread(reader));
        |next| == if reader.chunkSize < unread then reader.chunkSize else unread
      ensures next == Delivered(buffer.log, old(reader.position), buffer.Layout())[..|next|]
      ensures emitted == old(emitted) + values
    {
      Emit(values);
      next := buffer.Read(reader.chunkSize, reader);
    }

    method Emit(values: seq<T>)
      modifies this`emitted
      ensures emitted == old(emitted) + values
    {
      for i := 0 to |values|
        invariant emitted == old(emitted) + values[..i]
      {
        emitted := emitted + [values[i]];
      }
    }
  }

  /** Emitting the next `n` values continues what has been emitted since `start`. */
  lemma EmittedStep<T>(before: seq<T>, log: seq<T>, start: nat, from: nat, ring: Ring, n: nat)
    requires ring.Valid() && start <= from && from + n <= |log|
    ensures before + Delivered(log, start, ring)[..from - start] + Delivered(log, from, ring)[..n]
         == before + Delivered(log, start, ring)[..from + n - start]
  {
    var d := Delivered(log, start, ring);
    assert d[..from - start] + Delivered(log, from, ring)[..n] == d[..from + n - start];
    Regroup(before, d[..from - start], Delivered(log, from, ring)[..n]);
  }

  /** Emitting gives exactly what a chunked reader hands on, joined together; within the buffer size, the unread log. */
  lemma EmittingIsLossless<T>(log: seq<T>, position: nat, ring: Ring, chunk: nat)
    requires ring.Valid() && chunk > 0 && position <= |log|
    ensures Emittable(log, position, ring, chunk) == Flatten(PendingCalls(log, position, ring, chunk))
    ensures ring.Even(|log|) && |log| <= position + ring.size ==>
              Emittable(log, position, ring, chunk) == log[position..]
  {
    FlattenChunks(Delivered(log, position, ring), chunk);
    if ring.Even(|log|) && |log| <= position + ring.size {
      DeliveredIsSuffix(log, position, ring);
    }
  }
}
