/** Chains of buffers, readers and filters as objects: a write to one buffer writes into the next before it returns. */
module Chains {
  import opened Counters
  import opened Dataflow
  import opened Lists
  import opened RingBuffers

  /** A buffer with a reader whose sink filters each block and writes the result on. */
  datatype Link<!T(0)> = Link(buffer: RingBuffer<T>, reader: BufferReader<T>, filter: seq<T> -> seq<T>)

  ghost function StageOf<T(0)>(link: Link<T>): Stage<T> {
    Stage(link.buffer.Layout(), link.reader.chunkSize, link.filter)
  }

  ghost function StagesOf<T(0)>(links: seq<Link<T>>): (r: seq<Stage<T>>)
    ensures |r| == |links|
  {
    seq(|links|, i requires 0 <= i < |links| => StageOf(links[i]))
  }

  ghost function Buffers<T(0)>(links: seq<Link<T>>): set<RingBuffer<T>> {
    set l | l in links :: l.buffer
  }

  ghost function Arrays<T(0)>(links: seq<Link<T>>): set<array<T>> {
    set l | l in links :: l.buffer.buffer
  }

  ghost function Readers<T(0)>(links: seq<Link<T>>): set<BufferReader<T>> {
    set l | l in links :: l.reader
  }

  ghost function Logs<T(0)>(links: seq<Link<T>>): (r: seq<seq<T>>)
    reads Buffers(links)
    ensures |r| == |links|
  {
    seq(|links|, i requires 0 <= i < |links| reads Buffers(links) => links[i].buffer.log)
  }

  /** No object is in two links. */
  ghost predicate Separate<T(0)>(links: seq<Link<T>>) {
    links != [] ==>
      && links[0].buffer !in Buffers(links[1..])
      && links[0].buffer.buffer !in Arrays(links[1..])
      && links[0].reader !in Readers(links[1..])
      && Separate(links[1..])
  }

  /** The reader has read all that is in its buffer, if it reads at all. */
  ghost predicate IdleLink<T(0)>(link: Link<T>)
    reads link.buffer, link.buffer.buffer, link.reader
  {
    && link.buffer.Valid() && link.buffer.Tracks(link.reader)
    && (link.reader.chunkSize > 0 ==> link.reader.position == |link.buffer.log|)
  }

  ghost predicate Idle<T(0)>(links: seq<Link<T>>)
    reads Buffers(links), Arrays(links), Readers(links)
  {
    forall l :: l in links ==> IdleLink(l)
  }

  lemma Tail<T(0)>(links: seq<Link<T>>)
    requires links != []
    ensures StagesOf(links)[1..] == StagesOf(links[1..]) && Logs(links) == [links[0].buffer.log] + Logs(links[1..])
  {
  }

  lemma NestedOnce<T>(stages: seq<Stage<T>>, logs: seq<seq<T>>, write: seq<T>)
    requires Sound(stages) && |logs| == |stages|
    ensures NestedAll(stages, logs, [write]) == Nested(stages, logs, write)
  {
    var (out, after) := Nested(stages, logs, write);
    assert [write][1..] == [] && NestedAll(stages, after, []) == ([], after) && out + [] == out;
  }

  lemma ForwardOnce<T>(filter: seq<T> -> seq<T>, sent: seq<seq<T>>, block: seq<T>)
    ensures Forward(filter, sent + [block]) == Forward(filter, sent) + [filter(block)]
  {
    ForwardConcat(filter, sent, [block]);
    assert [block][1..] == [] && Forward(filter, []) == [];
  }

  /** One more block forwarded behind those before. */
  lemma OneMoreBlock<T>(stages: seq<Stage<T>>, logs: seq<seq<T>>, filter: seq<T> -> seq<T>, sent: seq<seq<T>>,
                        block: seq<T>, out: seq<seq<T>>, between: seq<seq<T>>)
    requires Sound(stages) && |logs| == |stages| == |between|
    requires NestedAll(stages, logs, Forward(filter, sent)) == (out, between)
    ensures var (more, after) := Nested(stages, between, filter(block));
      NestedAll(stages, logs, Forward(filter, sent + [block])) == (out + more, after)
  {
    ForwardOnce(filter, sent, block);
    NestedAllConcat(stages, logs, Forward(filter, sent), [filter(block)]);
    NestedOnce(stages, between, filter(block));
  }

  lemma SoundStages<T(0)>(links: seq<Link<T>>)
    requires Idle(links)
    ensures Sound(StagesOf(links))
  {
    forall s | s in StagesOf(links) ensures s.ring.Valid() {
      var i :| 0 <= i < |links| && s == StageOf(links[i]);
      assert IdleLink(links[i]);
    }
  }

  /** A write runs through the whole chain; `out` are the blocks that leave it. */
  method Write<T(0)>(links: seq<Link<T>>, values: seq<T>) returns (out: seq<seq<T>>)
    requires Separate(links) && Idle(links)
    modifies Buffers(links)`writeCount, Buffers(links)`log, Arrays(links)
    modifies Readers(links)`readCount, Readers(links)`position
    ensures Idle(links) && Sound(StagesOf(links))
    ensures (out, Logs(links)) == Nested(StagesOf(links), old(Logs(links)), values)
    decreases |links|, 0
  {
    SoundStages(links);
    if links == [] {
      return [values];
    }
    var link, rest := links[0], links[1..];
    assert links == [link] + rest && IdleLink(link) && Idle(rest);
    ghost var log, position := link.buffer.log, link.reader.position;
    ghost var logs, all := Logs(rest), Logs(links);
    Tail(links);
    link.buffer.Store(values);
    out := Drain(link, rest);
    ThroughFirst(StageOf(link), StagesOf(rest), log, logs, values, position, out, Logs(rest));
    Tail(links);
    assert StagesOf(links) == [StageOf(link)] + StagesOf(rest) && all == [log] + logs;
  }

  lemma ThroughFirst<T>(stage: Stage<T>, stages: seq<Stage<T>>, log: seq<T>, logs: seq<seq<T>>, write: seq<T>,
                        position: nat, out: seq<seq<T>>, after: seq<seq<T>>)
    requires stage.ring.Valid() && Sound(stages) && |logs| == |stages|
    requires position <= |log| && (stage.chunk > 0 ==> position == |log|)
    requires var calls := PendingCalls(log + write, Resumed(position, |log + write|, stage.ring.range), stage.ring,
                                       stage.chunk);
      NestedAll(stages, logs, Forward(stage.filter, calls)) == (out, after)
    ensures Sound([stage] + stages)
    ensures Nested([stage] + stages, [log] + logs, write) == (out, [log + write] + after)
  {
    var once := [write];
    FirstCalls(log, once, stage.ring, stage.chunk, position);
    assert once[1..] == [] && CallsOver(log + write, once[1..], stage.ring, stage.chunk) == [];
    var calls := PendingCalls(log + write, Resumed(position, |log + write|, stage.ring.range), stage.ring, stage.chunk);
    assert CallsOver(log, once, stage.ring, stage.chunk) == calls + [] == calls;
    assert ([stage] + stages)[1..] == stages && ([log] + logs)[1..] == logs;
  }

  /** The calls that a reader is to make for what it has not read. */
  ghost function Calls<T(0)>(link: Link<T>): seq<seq<T>>
    requires link.buffer.Valid() && link.buffer.Tracks(link.reader)
    reads link.buffer, link.buffer.buffer, link.reader
  {
    var log, ring := link.buffer.log, link.buffer.Layout();
    PendingCalls(log, Resumed(link.reader.position, |log|, ring.range), ring, link.reader.chunkSize)
  }

  /** Reads the first buffer chunk by chunk and writes what the filter makes of each chunk into the next. */
  method Drain<T(0)>(link: Link<T>, rest: seq<Link<T>>) returns (out: seq<seq<T>>)
    requires Separate([link] + rest) && Idle(rest) && link.buffer.Valid() && link.buffer.Tracks(link.reader)
    modifies link.reader`readCount, link.reader`position
    modifies Buffers(rest)`writeCount, Buffers(rest)`log, Arrays(rest)
    modifies Readers(rest)`readCount, Readers(rest)`position
    ensures IdleLink(link) && Idle(rest) && Sound(StagesOf(rest))
    ensures (out, Logs(rest)) == NestedAll(StagesOf(rest), old(Logs(rest)), Forward(link.filter, old(Calls(link))))
    decreases |rest|, 4
  {
    ghost var position, written, range := link.reader.position, |link.buffer.log|, link.buffer.counterRange;
    ResumedKeepsCounter(position, written, range);
    if link.reader.chunkSize > 0 {
      link.reader.position := Resumed(position, written, range);
    }
    assert ([link] + rest)[1..] == rest;
    out := DrainAll(link, rest);
  }

  /** The loop of Drain, for a reader whose counter shows all that is unread. */
  method DrainAll<T(0)>(link: Link<T>, rest: seq<Link<T>>) returns (out: seq<seq<T>>)
    requires Separate([link] + rest) && Idle(rest) && link.buffer.Valid() && link.buffer.Tracks(link.reader)
    requires link.reader.chunkSize > 0 ==> |link.buffer.log| < link.reader.position + link.buffer.counterRange
    modifies link.reader`readCount, link.reader`position
    modifies Buffers(rest)`writeCount, Buffers(rest)`log, Arrays(rest)
    modifies Readers(rest)`readCount, Readers(rest)`position
    ensures IdleLink(link) && Idle(rest) && Sound(StagesOf(rest))
    ensures var calls := PendingCalls(link.buffer.log, old(link.reader.position), link.buffer.Layout(),
                                      link.reader.chunkSize);
      (out, Logs(rest)) == NestedAll(StagesOf(rest), old(Logs(rest)), Forward(link.filter, calls))
    decreases |rest|, 3
  {
    ghost var log, start := link.buffer.log, link.reader.position;
    ghost var stage, stages, logs := StageOf(link), StagesOf(rest), Logs(rest);
    SoundStages(rest);
    assert ([link] + rest)[1..] == rest;
    ghost var p := Progress(start, [], [], logs);
    out := [];
    var values := link.buffer.Read(link.reader.chunkSize, link.reader);
    while values != []
      invariant link.buffer.Valid() && link.buffer.Tracks(link.reader) && link.buffer.log == log && Idle(rest)
      invariant p.now == Logs(rest) && p.out == out && start <= p.from <= |log|
      invariant link.reader.position == p.from + |values| && values == NextRead(stage, log, p.from)
      invariant stage.chunk == 0 ==> p.from == start && p.sent == []
      invariant Drained(stage, stages, log, logs, start, p)
      decreases |log| - p.from
    {
      ghost var to := p.from + |values|;
      var block, more := values, [];
      more, values := PassOn(link, rest, block, log, to);
      p := NextProgress(stage, stages, log, logs, start, p, block, more, Logs(rest), to);
      out := out + more;
    }
    assert PendingCalls(log, start, stage.ring, stage.chunk) == p.sent;
  }

  /** How far a drain has come in the log, the blocks read so far, and what the rest of the chain made of them. */
  datatype Progress<T> = Progress(from: nat, sent: seq<seq<T>>, out: seq<seq<T>>, now: seq<seq<T>>)

  /** The block that a reader reads next. */
  ghost function NextRead<T>(stage: Stage<T>, log: seq<T>, from: nat): (r: seq<T>)
    requires stage.ring.Valid() && from <= |log|
    ensures |r| == if stage.chunk < |log| - from then stage.chunk else |log| - from
  {
    Delivered(log, from, stage.ring)[..if stage.chunk < |log| - from then stage.chunk else |log| - from]
  }

  /** The blocks `sent` are those up to `from`, and they have run through the rest of the chain. */
  ghost predicate Drained<T>(stage: Stage<T>, stages: seq<Stage<T>>, log: seq<T>, logs: seq<seq<T>>, start: nat,
                             p: Progress<T>)
  {
    && stage.ring.Valid() && Sound(stages) && |logs| == |stages| && start <= p.from <= |log|
    && PendingCalls(log, start, stage.ring, stage.chunk) == p.sent + PendingCalls(log, p.from, stage.ring, stage.chunk)
    && NestedAll(stages, logs, Forward(stage.filter, p.sent)) == (p.out, p.now)
  }

  lemma NextProgress<T>(stage: Stage<T>, stages: seq<Stage<T>>, log: seq<T>, logs: seq<seq<T>>, start: nat,
                        p: Progress<T>, block: seq<T>, more: seq<seq<T>>, after: seq<seq<T>>, to: nat)
    returns (q: Progress<T>)
    requires Drained(stage, stages, log, logs, start, p) && block == NextRead(stage, log, p.from) && block != []
    requires |p.now| == |stages| && (more, after) == Nested(stages, p.now, stage.filter(block))
    requires to == p.from + |block|
    ensures Drained(stage, stages, log, logs, start, q)
    ensures q.from == to && q.sent == p.sent + [block] && q.out == p.out + more && q.now == after
  {
    q := Progress(to, p.sent + [block], p.out + more, after);
    NextBlock(log, start, p.from, stage.ring, stage.chunk, p.sent, block);
    OneMoreBlock(stages, logs, stage.filter, p.sent, block, p.out, p.now);
  }

  /** Writes a filtered block into the rest of the chain, and reads the next one. */
  method PassOn<T(0)>(link: Link<T>, rest: seq<Link<T>>, values: seq<T>, ghost log: seq<T>, ghost from: nat)
    returns (out: seq<seq<T>>, next: seq<T>)
    requires Separate([link] + rest) && Idle(rest) && link.buffer.Valid() && link.buffer.Tracks(link.reader)
    requires link.buffer.log == log && link.reader.position == from && |log| < from + link.buffer.counterRange
    modifies link.reader`readCount, link.reader`position
    modifies Buffers(rest)`writeCount, Buffers(rest)`log, Arrays(rest)
    modifies Readers(rest)`readCount, Readers(rest)`position
    ensures Idle(rest) && Sound(StagesOf(rest))
    ensures (out, Logs(rest)) == Nested(StagesOf(rest), old(Logs(rest)), link.filter(values))
    ensures link.buffer.Valid() && link.buffer.Tracks(link.reader) && link.buffer.log == log
    ensures link.reader.position == from + |next| && next == NextRead(StageOf(link), log, from)
    decreases |rest|, 1
  {
    assert ([link] + rest)[1..] == rest;
    out := Write(rest, link.filter(values));
    next := link.buffer.Read(link.reader.chunkSize, link.reader);
  }

  /** Writes block after block. A chain of filters that treat values one by one composes them, if every write fits. */
  method WriteEach<T(!new, 0)>(links: seq<Link<T>>, writes: seq<seq<T>>) returns (out: seq<seq<T>>)
    requires Separate(links) && Idle(links)
    modifies Buffers(links)`writeCount, Buffers(links)`log, Arrays(links)
    modifies Readers(links)`readCount, Readers(links)`position
    ensures Idle(links) && Sound(StagesOf(links))
    ensures (out, Logs(links)) == NestedAll(StagesOf(links), old(Logs(links)), writes)
    ensures (forall s :: s in StagesOf(links) ==> ChunkProof(s)) && Fits(StagesOf(links), old(Logs(links)), writes) ==>
              Flatten(out) == Composite(StagesOf(links), Flatten(writes))
  {
    ghost var stages, logs, now := StagesOf(links), Logs(links), Logs(links);
    SoundStages(links);
    out := [];
    for i := 0 to |writes|
      invariant Idle(links) && now == Logs(links) && NestedAll(stages, logs, writes[..i]) == (out, now)
    {
      var more := Write(links, writes[i]);
      assert writes[..i + 1] == writes[..i] + [writes[i]];
      NestedAllConcat(stages, logs, writes[..i], [writes[i]]);
      NestedOnce(stages, now, writes[i]);
      out, now := out + more, Logs(links);
    }
    assert writes[..|writes|] == writes;
    if (forall s :: s in stages ==> ChunkProof(s)) && Fits(stages, logs, writes) {
      ChainIsComposition(stages, logs, writes);
    }
  }
}
