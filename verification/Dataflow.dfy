/**
  Whole runs of the dataflow: what the sinks of one reader receive over many
  writes, and what arrives at the end of a chain buffer, reader, filter, buffer.
 */
module Dataflow {
  import opened Counters
  import opened Lists
  import opened RingBuffers

  /** A drain within the buffer size hands on exactly the unread log, whatever the chunk size. */
  lemma DrainIsLossless<T>(log: seq<T>, position: nat, ring: Ring, chunk: nat)
    requires ring.Valid() && ring.Even(|log|) && chunk > 0 && position <= |log| <= position + ring.size
    ensures Flatten(PendingCalls(log, position, ring, chunk)) == log[position..]
  {
    DeliveredIsSuffix(log, position, ring);
    FlattenChunks(log[position..], chunk);
  }

  /** The calls a reader makes while `writes` are written to a buffer holding `log`, all of which it has read. */
  ghost function CallsOver<T>(log: seq<T>, writes: seq<seq<T>>, ring: Ring, chunk: nat): seq<seq<T>>
    requires ring.Valid()
    decreases |writes|
  {
    if writes == [] then []
    else
      var longer := log + writes[0];
      PendingCalls(longer, Resumed(|log|, |longer|, ring.range), ring, chunk)
      + CallsOver(longer, writes[1..], ring, chunk)
  }

  ghost predicate EachFits<T>(writes: seq<seq<T>>, ring: Ring) {
    forall w :: w in writes ==> ring.Takes(|w|)
  }

  /** Over any run of fitting writes the sinks get exactly what was written since the join. */
  lemma {:induction false} RunIsLossless<T>(log: seq<T>, writes: seq<seq<T>>, ring: Ring, chunk: nat)
    requires ring.Valid() && ring.Even(|log| + |Flatten(writes)|) && chunk > 0 && EachFits(writes, ring)
    ensures Flatten(CallsOver(log, writes, ring, chunk)) == Flatten(writes)
    decreases |writes|
  {
    if writes != [] {
      var longer := log + writes[0];
      DrainIsLossless(longer, |log|, ring, chunk);
      assert longer[|log|..] == writes[0];
      RunIsLossless(longer, writes[1..], ring, chunk);
      FlattenConcat(PendingCalls(longer, |log|, ring, chunk), CallsOver(longer, writes[1..], ring, chunk));
    }
  }

  // ---------- Runs of a buffer and its readers ----------

  /** All readers that read at all have read everything. */
  ghost predicate CaughtUp<T(0)>(buffer: RingBuffer<T>)
    reads buffer, buffer.readers
  {
    forall r :: r in buffer.readers && r.chunkSize > 0 ==> r.position == |buffer.log|
  }

  /** Between the two states the sinks of `r` have received the blocks of these writes. */
  twostate predicate Received<T(0)>(r: BufferReader<T>, log: seq<T>, writes: seq<seq<T>>, ring: Ring)
    requires ring.Valid() && old(r.sinks) <= old(r.calls).Keys
    reads r
  {
    r.sinks == old(r.sinks) &&
    r.calls == Collected(old(r.calls), old(r.sinks), CallsOver(log, writes, ring, r.chunkSize))
  }

  /** Writes block after block; the readers are drained by each write. */
  method WriteEach<T(0)>(buffer: RingBuffer<T>, writes: seq<seq<T>>)
    requires buffer.Valid() && buffer.Wired() && CaughtUp(buffer)
    modifies buffer`writeCount, buffer`log, buffer.buffer, buffer.readers
    ensures buffer.Valid() && buffer.Wired() && CaughtUp(buffer)
    ensures buffer.log == old(buffer.log) + Flatten(writes)
    ensures forall r :: r in buffer.readers ==> Received(r, old(buffer.log), writes, buffer.Layout())
    decreases |writes|
  {
    ghost var ring, log := buffer.Layout(), buffer.log;
    if writes == [] {
      forall r | r in buffer.readers ensures Received(r, log, writes, ring) {
        CollectedTwice(r.calls, r.sinks, [], []);
      }
      return;
    }
    buffer.Write(writes[0]);
    label written:
    WriteEach(buffer, writes[1..]);
    Regroup(log, writes[0], Flatten(writes[1..]));
    forall r | r in buffer.readers ensures Received(r, log, writes, ring) {
      assert Received@written(r, log + writes[0], writes[1..], ring);
      FirstCalls(log, writes, ring, r.chunkSize, old(r.position));
      CollectedTwice(old(r.calls), old(r.sinks),
                     PendingCalls(log + writes[0], Resumed(old(r.position), |log + writes[0]|, ring.range), ring,
                                  r.chunkSize),
                     CallsOver(log + writes[0], writes[1..], ring, r.chunkSize));
    }
  }

  lemma FirstCalls<T>(log: seq<T>, writes: seq<seq<T>>, ring: Ring, chunk: nat, position: nat)
    requires ring.Valid() && writes != [] && position <= |log| && (chunk > 0 ==> position == |log|)
    ensures CallsOver(log, writes, ring, chunk) ==
            PendingCalls(log + writes[0], Resumed(position, |log + writes[0]|, ring.range), ring, chunk)
            + CallsOver(log + writes[0], writes[1..], ring, chunk)
  {
  }

  /** So every sink has received, joined together, exactly what was written, if every block fits the buffer. */
  method WriteLosslessly<T(0)>(buffer: RingBuffer<T>, writes: seq<seq<T>>)
    requires buffer.Valid() && buffer.Wired() && CaughtUp(buffer)
    requires EachFits(writes, buffer.Layout()) && buffer.Layout().Even(|buffer.log| + |Flatten(writes)|)
    modifies buffer`writeCount, buffer`log, buffer.buffer, buffer.readers
    ensures buffer.Valid() && buffer.Wired() && CaughtUp(buffer)
    ensures buffer.log == old(buffer.log) + Flatten(writes)
    ensures forall r, k :: r in buffer.readers && r.chunkSize > 0 && k in r.sinks && k in old(r.calls) ==>
                             k in r.calls && Flatten(r.calls[k]) == Flatten(old(r.calls[k])) + Flatten(writes)
  {
    ghost var ring, log := buffer.Layout(), buffer.log;
    WriteEach(buffer, writes);
    forall r, k | r in buffer.readers && r.chunkSize > 0 && k in r.sinks && k in old(r.calls)
      ensures k in r.calls && Flatten(r.calls[k]) == Flatten(old(r.calls[k])) + Flatten(writes)
    {
      assert Received(r, log, writes, ring);
      RunIsLossless(log, writes, ring, r.chunkSize);
      FlattenConcat(old(r.calls[k]), CallsOver(log, writes, ring, r.chunkSize));
    }
  }

  // ---------- Chains of buffers and filters ----------

  /** A buffer drained in chunks of `chunk` into a filter callback. */
  datatype Stage<!T> = Stage(ring: Ring, chunk: nat, filter: seq<T> -> seq<T>)

  ghost predicate Sound<T>(stages: seq<Stage<T>>) {
    forall s :: s in stages ==> s.ring.Valid()
  }

  /** The writes that the filter makes into the next buffer, one for each call. */
  ghost function Forward<T>(filter: seq<T> -> seq<T>, calls: seq<seq<T>>): seq<seq<T>> {
    if calls == [] then [] else [filter(calls[0])] + Forward(filter, calls[1..])
  }

  ghost function Out<T>(stage: Stage<T>, log: seq<T>, writes: seq<seq<T>>): seq<seq<T>>
    requires stage.ring.Valid()
  {
    Forward(stage.filter, CallsOver(log, writes, stage.ring, stage.chunk))
  }

  /** What leaves a chain and the logs of its buffers, as one write runs through it from call to call. */
  ghost function Nested<T>(stages: seq<Stage<T>>, logs: seq<seq<T>>, write: seq<T>): (seq<seq<T>>, seq<seq<T>>)
    requires Sound(stages) && |logs| == |stages|
    ensures |Nested(stages, logs, write).1| == |stages|
    decreases |stages|, 0
  {
    if stages == [] then ([write], [])
    else
      var (out, rest) := NestedAll(stages[1..], logs[1..], Out(stages[0], logs[0], [write]));
      (out, [logs[0] + write] + rest)
  }

  ghost function NestedAll<T>(stages: seq<Stage<T>>, logs: seq<seq<T>>, writes: seq<seq<T>>)
    : (seq<seq<T>>, seq<seq<T>>)
    requires Sound(stages) && |logs| == |stages|
    ensures |NestedAll(stages, logs, writes).1| == |stages|
    decreases |stages|, 1, |writes|
  {
    if writes == [] then ([], logs)
    else
      var (first, between) := Nested(stages, logs, writes[0]);
      var (rest, after) := NestedAll(stages, between, writes[1..]);
      (first + rest, after)
  }

  /** The blocks that leave the chain when each buffer gets all its writes before the next buffer gets any. */
  ghost function ThroughChain<T>(stages: seq<Stage<T>>, logs: seq<seq<T>>, writes: seq<seq<T>>): seq<seq<T>>
    requires Sound(stages) && |logs| == |stages|
    decreases |stages|
  {
    if stages == [] then writes else ThroughChain(stages[1..], logs[1..], Out(stages[0], logs[0], writes))
  }

  lemma {:induction false} NestedAllConcat<T>(stages: seq<Stage<T>>, logs: seq<seq<T>>, a: seq<seq<T>>, b: seq<seq<T>>)
    requires Sound(stages) && |logs| == |stages|
    ensures var (first, between) := NestedAll(stages, logs, a);
      var (rest, after) := NestedAll(stages, between, b);
      NestedAll(stages, logs, a + b) == (first + rest, after)
    decreases |a|
  {
    if a == [] {
      assert a + b == b && [] + NestedAll(stages, logs, b).0 == NestedAll(stages, logs, b).0;
    } else {
      var (o, l) := Nested(stages, logs, a[0]);
      NestedAllConcat(stages, l, a[1..], b);
      assert (a + b)[0] == a[0] && (a + b)[1..] == a[1..] + b;
      var (first, between) := NestedAll(stages, l, a[1..]);
      Regroup(o, first, NestedAll(stages, between, b).0);
    }
  }

  lemma {:induction false} ForwardConcat<T>(filter: seq<T> -> seq<T>, a: seq<seq<T>>, b: seq<seq<T>>)
    ensures Forward(filter, a + b) == Forward(filter, a) + Forward(filter, b)
  {
    if a == [] {
      assert a + b == b;
    } else {
      ForwardConcat(filter, a[1..], b);
      assert (a + b)[0] == a[0] && (a + b)[1..] == a[1..] + b;
    }
  }

  /** The first stage gets all its writes, and the others what it makes of them. */
  lemma {:induction false} FirstStageFirst<T>(stages: seq<Stage<T>>, logs: seq<seq<T>>, writes: seq<seq<T>>)
    requires Sound(stages) && |logs| == |stages| > 0
    ensures var (out, rest) := NestedAll(stages[1..], logs[1..], Out(stages[0], logs[0], writes));
      NestedAll(stages, logs, writes) == (out, [logs[0] + Flatten(writes)] + rest)
    decreases |writes|
  {
    var s := stages[0];
    if writes == [] {
      assert Flatten(writes) == [] && logs[0] + [] == logs[0] && logs == [logs[0]] + logs[1..];
    } else {
      var longer, calls := logs[0] + writes[0], Out(s, logs[0], [writes[0]]);
      var (out, rest) := NestedAll(stages[1..], logs[1..], calls);
      var between := [longer] + rest;
      assert Nested(stages, logs, writes[0]) == (out, between);
      FirstStageFirst(stages, between, writes[1..]);
      assert between[0] == longer && between[1..] == rest;
      NestedAllConcat(stages[1..], logs[1..], calls, Out(s, longer, writes[1..]));
      OutSplits(s, logs[0], writes);
      Regroup(logs[0], writes[0], Flatten(writes[1..]));
    }
  }

  lemma OutSplits<T>(s: Stage<T>, log: seq<T>, writes: seq<seq<T>>)
    requires s.ring.Valid() && writes != []
    ensures Out(s, log, writes) == Out(s, log, [writes[0]]) + Out(s, log + writes[0], writes[1..])
  {
    var longer, once := log + writes[0], [writes[0]];
    var pending := PendingCalls(longer, Resumed(|log|, |longer|, s.ring.range), s.ring, s.chunk);
    assert once[1..] == [] && CallsOver(longer, once[1..], s.ring, s.chunk) == [];
    assert CallsOver(log, once, s.ring, s.chunk) == pending + [] == pending;
    ForwardConcat(s.filter, pending, CallsOver(longer, writes[1..], s.ring, s.chunk));
  }

  /** Running every write through the whole chain at once gives the same as going stage by stage. */
  lemma {:induction false} NestingDoesNotMatter<T>(stages: seq<Stage<T>>, logs: seq<seq<T>>, writes: seq<seq<T>>)
    requires Sound(stages) && |logs| == |stages|
    ensures NestedAll(stages, logs, writes).0 == ThroughChain(stages, logs, writes)
    decreases |stages|
  {
    if stages == [] {
      NestedNowhere(stages, logs, writes);
    } else {
      FirstStageFirst(stages, logs, writes);
      NestingDoesNotMatter(stages[1..], logs[1..], Out(stages[0], logs[0], writes));
    }
  }

  lemma {:induction false} NestedNowhere<T>(stages: seq<Stage<T>>, logs: seq<seq<T>>, writes: seq<seq<T>>)
    requires stages == [] && logs == []
    ensures NestedAll(stages, logs, writes).0 == writes
    decreases |writes|
  {
    if writes != [] {
      NestedNowhere(stages, logs, writes[1..]);
    }
  }

  /** No write on the way exceeds the buffer it goes into. */
  ghost predicate Fits<T>(stages: seq<Stage<T>>, logs: seq<seq<T>>, writes: seq<seq<T>>)
    requires Sound(stages) && |logs| == |stages|
    decreases |stages|
  {
    stages != [] ==>
      && EachFits(writes, stages[0].ring)
      && stages[0].ring.Even(|logs[0]| + |Flatten(writes)|)
      && Fits(stages[1..], logs[1..], Out(stages[0], logs[0], writes))
  }

  /** The filter applied to each value on its own. */
  ghost function PerItem<T>(filter: seq<T> -> seq<T>, s: seq<T>): seq<T> {
    if s == [] then [] else filter([s[0]]) + PerItem(filter, s[1..])
  }

  /** The reference: the filters applied value by value, with no buffers at all. */
  ghost function Composite<T>(stages: seq<Stage<T>>, s: seq<T>): seq<T> {
    if stages == [] then s else Composite(stages[1..], PerItem(stages[0].filter, s))
  }

  ghost predicate ItemWise<T(!new)>(filter: seq<T> -> seq<T>) {
    forall s :: filter(s) == PerItem(filter, s)
  }

  lemma {:induction false} PerItemConcat<T>(filter: seq<T> -> seq<T>, a: seq<T>, b: seq<T>)
    ensures PerItem(filter, a + b) == PerItem(filter, a) + PerItem(filter, b)
  {
    if a == [] {
      assert a + b == b;
    } else {
      PerItemConcat(filter, a[1..], b);
      assert (a + b)[0] == a[0] && (a + b)[1..] == a[1..] + b;
    }
  }

  /** Forwarding blocks that the filter treats value by value does not depend on the blocks. */
  lemma {:induction false} ForwardIsPerItem<T>(filter: seq<T> -> seq<T>, calls: seq<seq<T>>)
    requires forall c :: c in calls ==> filter(c) == PerItem(filter, c)
    ensures Flatten(Forward(filter, calls)) == PerItem(filter, Flatten(calls))
  {
    if calls != [] {
      ForwardIsPerItem(filter, calls[1..]);
      PerItemConcat(filter, calls[0], Flatten(calls[1..]));
      var rest := Forward(filter, calls[1..]);
      assert ([filter(calls[0])] + rest)[1..] == rest;
    }
  }

  lemma {:induction false} CallsWithinChunk<T>(log: seq<T>, writes: seq<seq<T>>, ring: Ring, chunk: nat)
    requires ring.Valid() && chunk > 0
    ensures forall c :: c in CallsOver(log, writes, ring, chunk) ==> 0 < |c| <= chunk
    decreases |writes|
  {
    if writes != [] {
      var longer := log + writes[0];
      FlattenChunks(Delivered(longer, Resumed(|log|, |longer|, ring.range), ring), chunk);
      CallsWithinChunk(longer, writes[1..], ring, chunk);
    }
  }

  ghost predicate ChunkProof<T(!new)>(stage: Stage<T>) {
    stage.chunk > 0 && (stage.chunk == 1 || ItemWise(stage.filter))
  }

  /**
    A chain delivers the composition of its filters, value by value: it loses,
    repeats and reorders nothing, for every chunk size and every batching.
   */
  lemma {:induction false} ChainIsComposition<T(!new)>(stages: seq<Stage<T>>, logs: seq<seq<T>>, writes: seq<seq<T>>)
    requires Sound(stages) && |logs| == |stages| && (forall s :: s in stages ==> ChunkProof(s))
    requires Fits(stages, logs, writes)
    ensures Flatten(NestedAll(stages, logs, writes).0) == Composite(stages, Flatten(writes))
  {
    NestingDoesNotMatter(stages, logs, writes);
    StagesCompose(stages, logs, writes);
  }

  lemma {:induction false} StagesCompose<T(!new)>(stages: seq<Stage<T>>, logs: seq<seq<T>>, writes: seq<seq<T>>)
    requires Sound(stages) && |logs| == |stages| && (forall s :: s in stages ==> ChunkProof(s))
    requires Fits(stages, logs, writes)
    ensures Flatten(ThroughChain(stages, logs, writes)) == Composite(stages, Flatten(writes))
    decreases |stages|
  {
    if stages != [] {
      var s := stages[0];
      assert ChunkProof(s);
      var calls := CallsOver(logs[0], writes, s.ring, s.chunk);
      CallsWithinChunk(logs[0], writes, s.ring, s.chunk);
      forall c | c in calls
        ensures s.filter(c) == PerItem(s.filter, c)
      {
        if s.chunk == 1 {
          assert c == [c[0]] && PerItem(s.filter, c[1..]) == [];
        }
      }
      RunIsLossless(logs[0], writes, s.ring, s.chunk);
      ForwardIsPerItem(s.filter, calls);
      StagesCompose(stages[1..], logs[1..], Out(s, logs[0], writes));
    }
  }

  /** A callback that, like the coordinate alignment filter, looks at the first value only. */
  ghost predicate FirstOnly<T(!new)>(filter: seq<T> -> seq<T>) {
    forall s: seq<T> :: filter(s) == if s == [] then [] else filter([s[0]])
  }

  /** A buffer in front of such a filter passes on what it should, whatever fitting writes come. */
  ghost predicate Lossless<T(!new)>(stage: Stage<T>)
    requires stage.ring.Valid()
  {
    forall writes: seq<seq<T>> | EachFits(writes, stage.ring) ::
      Flatten(Out(stage, [], writes)) == PerItem(stage.filter, Flatten(writes))
  }

  /** A filter with an output per value that looks at the first only is right exactly behind chunk size 1. */
  lemma FirstOnlyNeedsUnitChunks<T(!new)>(stage: Stage<T>, x: T)
    requires stage.ring.Valid() && Modulo(stage.ring.range, stage.ring.size) == 0 && stage.ring.Takes(2)
    requires FirstOnly(stage.filter) && |stage.filter([x])| == 1
    ensures Lossless(stage) <==> stage.chunk == 1
  {
    if stage.chunk == 1 {
      UnitChunksAreLossless(stage);
    } else {
      TwoAtOnce(stage, x);
      assert EachFits([[x, x]], stage.ring);
    }
  }

  lemma UnitChunksAreLossless<T(!new)>(stage: Stage<T>)
    requires stage.ring.Valid() && Modulo(stage.ring.range, stage.ring.size) == 0 && stage.chunk == 1
    ensures Lossless(stage)
  {
    forall writes: seq<seq<T>> | EachFits(writes, stage.ring)
      ensures Flatten(Out(stage, [], writes)) == PerItem(stage.filter, Flatten(writes))
    {
      var logs: seq<seq<T>> := [[]];
      StagesCompose([stage], logs, writes);
      assert ThroughChain([stage], logs, writes) == ThroughChain([], [], Out(stage, [], writes)) by {
        assert [stage][1..] == [] && logs[1..] == [];
      }
      assert Composite([stage], Flatten(writes)) == Composite([], PerItem(stage.filter, Flatten(writes)));
    }
  }

  /** Behind a larger chunk two values written at once give the filter's output for the first alone. */
  lemma TwoAtOnce<T(!new)>(stage: Stage<T>, x: T)
    requires stage.ring.Valid() && Modulo(stage.ring.range, stage.ring.size) == 0 && stage.ring.Takes(2)
    requires FirstOnly(stage.filter) && |stage.filter([x])| == 1 && stage.chunk != 1
    ensures |Flatten(Out(stage, [], [[x, x]]))| <= 1
    ensures Flatten([[x, x]]) == [x, x] && |PerItem(stage.filter, [x, x])| == 2
  {
    var (ring, chunk, filter, writes) := (stage.ring, stage.chunk, stage.filter, [[x, x]]);
    assert writes[1..] == [] && [x, x][1..] == [x] && [x][1..] == [];
    assert PerItem(filter, [x]) == filter([x]) + PerItem(filter, []);
    assert [] + writes[0] == [x, x];
    DeliveredIsSuffix([x, x], 0, ring);
    var pending := PendingCalls([x, x], 0, ring, chunk);
    assert pending == if chunk == 0 then [] else [[x, x]];
    assert CallsOver([], writes, ring, chunk) == pending by {
      assert CallsOver([x, x], writes[1..], ring, chunk) == [];
    }
    if chunk != 0 {
      assert Out(stage, [], writes) == [filter([x, x])] by { assert Forward(filter, pending[1..]) == []; }
      assert Flatten(Out(stage, [], writes)) == filter([x, x]) by { assert Out(stage, [], writes)[1..] == []; }
      assert filter([x, x]) == filter([[x, x][0]]);
    }
  }

  /** Filters that never expand a block keep every write within bounds if each buffer takes the chunks before it. */
  lemma {:induction false} NonExpandingFits<T(!new)>(stages: seq<Stage<T>>, logs: seq<seq<T>>, writes: seq<seq<T>>)
    requires Sound(stages) && |logs| == |stages|
    requires forall s :: s in stages ==> s.chunk > 0 && Modulo(s.ring.range, s.ring.size) == 0
    requires forall s :: s in stages ==> forall b :: |s.filter(b)| <= |b|
    requires forall i :: 0 <= i < |stages| - 1 ==> stages[i + 1].ring.Takes(stages[i].chunk)
    requires stages != [] ==> EachFits(writes, stages[0].ring)
    ensures Fits(stages, logs, writes)
    decreases |stages|
  {
    if stages != [] {
      var s := stages[0];
      var calls := CallsOver(logs[0], writes, s.ring, s.chunk);
      CallsWithinChunk(logs[0], writes, s.ring, s.chunk);
      ForwardBounded(s.filter, calls, s.chunk);
      if |stages| > 1 {
        assert stages[0 + 1].ring.Takes(s.chunk);
      }
      NonExpandingFits(stages[1..], logs[1..], Out(s, logs[0], writes));
    }
  }

  lemma {:induction false} ForwardBounded<T>(filter: seq<T> -> seq<T>, calls: seq<seq<T>>, chunk: nat)
    requires forall c :: c in calls ==> |filter(c)| <= chunk
    ensures forall w :: w in Forward(filter, calls) ==> |w| <= chunk
  {
    if calls != [] {
      ForwardBounded(filter, calls[1..], chunk);
    }
  }
}
