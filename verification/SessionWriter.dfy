/** The daemon's end of a session socket: samples are collected and written in frames. */
module SessionWriter {
  import opened Framing
  import opened Lists
  import opened Sessions

  // ---------- The size of the buffer ----------

  const INT_LIMIT := 0x8000_0000

  /** The allocation for a buffer of samples: an unsigned 32-bit product, and the sum as a signed 32-bit number. */
  function AllocSize(bufferSize: nat, size: nat): (r: int)
    ensures -INT_LIMIT <= r < INT_LIMIT
  {
    var sum := Span(bufferSize, size) % COUNT_LIMIT + COUNT_BYTES;
    var low := sum % COUNT_LIMIT;
    if low < INT_LIMIT then low else low - COUNT_LIMIT
  }

  /** What a caller can look at before asking for a buffer of `bufferSize` samples. */
  predicate Allocatable(bufferSize: nat, size: nat) {
    Span(bufferSize, size) + COUNT_BYTES < INT_LIMIT
  }

  /** The copy of a sample behind `n` others ends inside the allocation; a negative one is not made at all. */
  predicate CopyFits(bufferSize: nat, size: nat, n: nat) {
    COUNT_BYTES + Span(n + 1, size) <= AllocSize(bufferSize, size)
  }

  /** The allocation has the size it should have exactly if that is a signed 32-bit number; otherwise it is smaller. */
  lemma AllocatesIff(bufferSize: nat, size: nat)
    ensures Allocatable(bufferSize, size) <==> size * bufferSize + COUNT_BYTES < INT_LIMIT
    ensures if Allocatable(bufferSize, size) then AllocSize(bufferSize, size) == COUNT_BYTES + Span(bufferSize, size)
            else AllocSize(bufferSize, size) < COUNT_BYTES + Span(bufferSize, size)
  {
    SpanIsProduct(bufferSize, size);
  }

  /** All samples of a buffer fit their allocation exactly if it has the size it should have. */
  lemma CopiesFitIff(bufferSize: nat, size: nat)
    requires bufferSize > 0
    ensures (forall n :: 0 <= n < bufferSize ==> CopyFits(bufferSize, size, n)) <==> Allocatable(bufferSize, size)
  {
    AllocatesIff(bufferSize, size);
    if Allocatable(bufferSize, size) {
      forall n | 0 <= n < bufferSize ensures CopyFits(bufferSize, size, n) {
        SpanMonotone(n + 1, bufferSize, size);
      }
    } else {
      assert !CopyFits(bufferSize, size, bufferSize - 1);
    }
  }

  // ---------- Sessions ----------

  /**
    The abstract state of a session: the samples collected so far, the bytes
    accepted by the socket, and the flush timer in milliseconds (0 when idle).
    A session is broken once a copy has left its allocation, or none could be made.
   */
  datatype SessionState = SessionState(size: nat, bufferSize: nat, bufferInterval: nat, downsampling: bool, timer: nat,
                                       pending: seq<Sample>, wire: seq<byte>, open: bool, broken: bool)
  {
    ghost predicate Valid() {
      |pending| < bufferSize < COUNT_LIMIT
    }

    ghost function Send(samples: seq<Sample>): SessionState
      requires |samples| < COUNT_LIMIT
    {
      if open && samples != [] then this.(wire := wire + Encode(samples)) else this
    }

    ghost function Flush(): SessionState
      requires |pending| < COUNT_LIMIT
    {
      Send(pending).(pending := [], timer := 0)
    }

    /** A sample of the size in use; `due` tells whether the session interval has passed. */
    ghost function Offer(sample: Sample, due: bool): SessionState
      requires Valid()
    {
      if !CopyFits(bufferSize, size, |pending|) then this.(broken := true)
      else if bufferSize == 1 then
        if !downsampling || due then Send([sample]) else this
      else if |pending| + 1 == bufferSize then
        this.(pending := pending + [sample]).Flush()
      else
        this.(pending := pending + [sample],
              timer := if timer == 0 && bufferInterval > 0 then (bufferInterval + 999) / 1000 else timer)
    }

    /** The session's own switch, which stops a running flush timer. */
    ghost function SwitchDownsampling(on: bool): SessionState {
      if on == downsampling then this else this.(downsampling := on, timer := 0)
    }

    ghost function Resize(n: nat): SessionState {
      if n == bufferSize then this else this.(bufferSize := if n < 1 then 1 else n, pending := [], timer := 0)
    }
  }

  /** Requests that reach a session through the socket handler, and its timer. */
  datatype Op =
    | Offer(sample: Sample)
    | TimerFires
    | SetBufferSize(n: nat)
    | SetBufferInterval(interval: nat)
    | SetDownsampling(on: bool)

  /** The handler passes its downsampling switch on as a buffer interval. Nothing is known of a broken session. */
  ghost function Step(s: SessionState, op: Op, due: bool): SessionState
    requires s.Valid()
  {
    if s.broken then s else
    match op
    case Offer(sample) => s.(size := |sample|).Offer(sample, due)
    case TimerFires => s.Flush()
    case SetBufferSize(n) => s.Resize(n)
    case SetBufferInterval(interval) => s.(bufferInterval := interval)
    case SetDownsampling(on) => s.(bufferInterval := if on then 1 else 0)
  }

  // ---------- Downsampling ----------

  /** No request and no timer ever changes the downsampling flag, whatever it is set to. */
  lemma FlagNeverChanges(s: SessionState, op: Op, due: bool)
    requires s.Valid()
    ensures Step(s, op, due).downsampling == s.downsampling
  {
  }

  /** So switching it works exactly if it is what was asked for already. */
  lemma SetDownsamplingWorksIff(s: SessionState, on: bool, due: bool)
    requires s.Valid()
    ensures Step(s, SetDownsampling(on), due).downsampling == on <==> s.downsampling == on
  {
    FlagNeverChanges(s, SetDownsampling(on), due);
  }

  /** What the switch does: the next sample that stays pending starts the timer exactly if it was switched on. */
  lemma SetDownsamplingSetsTimer(s: SessionState, on: bool, sample: Sample, due: bool)
    requires s.Valid() && !s.broken && s.timer == 0 && |s.pending| + 1 < s.bufferSize
    requires CopyFits(s.bufferSize, |sample|, |s.pending|)
    ensures var t := Step(Step(s, SetDownsampling(on), due), Offer(sample), due);
      t.pending == s.pending + [sample] && (t.timer > 0 <==> on)
  {
  }

  /** The handler answers the question for the flag with the buffer size, which is never 0. */
  predicate SaysDownsampling(s: SessionState) {
    s.bufferSize != 0
  }

  /** The answer is right exactly if the flag is set. */
  lemma SaysDownsamplingIff(s: SessionState)
    requires s.Valid()
    ensures SaysDownsampling(s) == s.downsampling <==> s.downsampling
  {
  }

  /** The session's own switch takes effect and stops the flush timer; asking for what is set already does nothing. */
  lemma SwitchTakesEffect(s: SessionState, on: bool)
    ensures s.SwitchDownsampling(on).downsampling == on
    ensures s.downsampling == on ==> s.SwitchDownsampling(on) == s
    ensures s.downsampling != on ==> s.SwitchDownsampling(on) == s.(downsampling := on, timer := 0)
  {
  }

  /** Without a buffer a sample is sent at once, as a frame of its own, unless it is downsampled and not due. */
  lemma UnbufferedSendsIff(s: SessionState, sample: Sample, due: bool)
    requires s.Valid() && s.open && !s.broken && s.bufferSize == 1 && Allocatable(1, |sample|)
    ensures var t := s.(size := |sample|).Offer(sample, due);
      t.wire == (if !s.downsampling || due then s.wire + Encode([sample]) else s.wire) && t.pending == [] && !t.broken
  {
    CopiesFitIff(1, |sample|);
  }

  // ---------- Whole sessions ----------

  const FRESH := SessionState(0, 1, 0, false, 0, [], [], true, false)

  /** All samples have `size` bytes, and buffer sizes fit the count of a frame. */
  ghost predicate Regular(ops: seq<Op>, size: nat) {
    forall op :: op in ops ==> (op.Offer? ==> |op.sample| == size) && (op.SetBufferSize? ==> op.n < COUNT_LIMIT)
  }

  ghost predicate Working(s: SessionState) {
    s.Valid() && s.open && !s.downsampling
  }

  lemma StepKeepsWorking(s: SessionState, op: Op)
    requires Working(s) && (op.SetBufferSize? ==> op.n < COUNT_LIMIT)
    ensures Working(Step(s, op, true))
  {
  }

  ghost function Run(ops: seq<Op>, size: nat): (s: SessionState)
    requires Regular(ops, size)
    ensures Working(s)
    decreases |ops|
  {
    if ops == [] then FRESH
    else
      assert ops[|ops| - 1] in ops;
      Step(Run(ops[..|ops| - 1], size), ops[|ops| - 1], true)
  }

  /** In no run does the handler ever switch downsampling on. */
  lemma DownsamplingStaysOff(ops: seq<Op>, size: nat, on: bool)
    requires Regular(ops, size)
    ensures Step(Run(ops, size), SetDownsampling(on), true).downsampling == on <==> !on
  {
    SetDownsamplingWorksIff(Run(ops, size), on, true);
  }

  /** The offered samples, less those that were pending when the buffer size changed. */
  ghost function Kept(ops: seq<Op>, size: nat): seq<Sample>
    requires Regular(ops, size)
    decreases |ops|
  {
    if ops == [] then []
    else KeptAfter(Run(ops[..|ops| - 1], size), Kept(ops[..|ops| - 1], size), ops[|ops| - 1])
  }

  ghost function KeptAfter(s: SessionState, kept: seq<Sample>, op: Op): seq<Sample> {
    match op
    case Offer(sample) => kept + [sample]
    case SetBufferSize(n) =>
      if !s.broken && n != s.bufferSize && |s.pending| <= |kept| then kept[..|kept| - |s.pending|] else kept
    case _ => kept
  }

  /** The operation flushes more samples than the reader takes. */
  predicate Overflows(s: SessionState, op: Op) {
    match op
    case Offer(_) => |s.pending| + 1 == s.bufferSize > MAX_COUNT
    case TimerFires => |s.pending| > MAX_COUNT
    case _ => false
  }

  /** The copy of the sample leaves the allocation, or no allocation is made. */
  predicate Overruns(s: SessionState, op: Op) {
    op.Offer? && !CopyFits(s.bufferSize, |op.sample|, |s.pending|)
  }

  ghost predicate SomeOverrun(ops: seq<Op>, size: nat)
    requires Regular(ops, size)
    decreases |ops|
  {
    ops != [] &&
    (SomeOverrun(ops[..|ops| - 1], size) || Overruns(Run(ops[..|ops| - 1], size), ops[|ops| - 1]))
  }

  /** A session breaks exactly if a copy leaves its allocation. */
  lemma {:induction false} BreaksIff(ops: seq<Op>, size: nat)
    requires Regular(ops, size)
    ensures Run(ops, size).broken <==> SomeOverrun(ops, size)
    decreases |ops|
  {
    if ops != [] {
      BreaksIff(ops[..|ops| - 1], size);
    }
  }

  ghost predicate AllAllocatable(ops: seq<Op>, size: nat) {
    Allocatable(1, size) && forall op :: op in ops && op.SetBufferSize? ==> Allocatable(op.n, size)
  }

  /** Which does not happen if all buffers asked for have a size whose allocation is right. */
  lemma {:induction false} AllocatableNeverBreaks(ops: seq<Op>, size: nat)
    requires Regular(ops, size) && AllAllocatable(ops, size)
    ensures !Run(ops, size).broken && Allocatable(Run(ops, size).bufferSize, size)
    decreases |ops|
  {
    if ops != [] {
      var front, op := ops[..|ops| - 1], ops[|ops| - 1];
      assert op in ops;
      AllocatableNeverBreaks(front, size);
      CopiesFitIff(Run(front, size).bufferSize, size);
    }
  }

  ghost predicate SomeOverflow(ops: seq<Op>, size: nat)
    requires Regular(ops, size)
    decreases |ops|
  {
    ops != [] &&
    (SomeOverflow(ops[..|ops| - 1], size) || Overflows(Run(ops[..|ops| - 1], size), ops[|ops| - 1]))
  }

  lemma {:induction false} EncodeAllAppend(frames: seq<seq<Sample>>, f: seq<Sample>)
    requires (forall g :: g in frames ==> |g| < COUNT_LIMIT) && |f| < COUNT_LIMIT
    ensures EncodeAll(frames + [f]) == EncodeAll(frames) + Encode(f)
  {
    if frames == [] {
      assert frames + [f] == [f] && [f][1..] == [];
    } else {
      EncodeAllAppend(frames[1..], f);
      assert (frames + [f])[1..] == frames[1..] + [f];
      Regroup(Encode(frames[0]), EncodeAll(frames[1..]), Encode(f));
    }
  }

  lemma {:induction false} JoinedAppend(frames: seq<seq<Sample>>, f: seq<Sample>)
    ensures Joined(frames + [f]) == Joined(frames) + f
  {
    if frames == [] {
      assert frames + [f] == [f] && [f][1..] == [];
    } else {
      JoinedAppend(frames[1..], f);
      assert (frames + [f])[1..] == frames[1..] + [f];
      Regroup(frames[0], Joined(frames[1..]), f);
    }
  }

  /** `frames` are the frames written so far; some are oversize just if `oversize` says so. */
  ghost predicate Written(s: SessionState, kept: seq<Sample>, frames: seq<seq<Sample>>, size: nat, oversize: bool) {
    && Writable(frames, size)
    && OfSize(s.pending, size)
    && s.wire == EncodeAll(frames)
    && Joined(frames) + s.pending == kept
    && oversize == SomeOversize(frames)
  }

  /** A broken session has written whole frames, and less than was offered. */
  ghost predicate CutOff(s: SessionState, kept: seq<Sample>, frames: seq<seq<Sample>>, size: nat) {
    Writable(frames, size) && s.wire == EncodeAll(frames) && |Joined(frames)| + |s.pending| < |kept|
  }

  /** Sending `samples` with nothing left pending. */
  lemma SendWrites(s: SessionState, frames: seq<seq<Sample>>, size: nat, samples: seq<Sample>, t: SessionState)
    returns (more: seq<seq<Sample>>)
    requires s.open && Writable(frames, size) && s.wire == EncodeAll(frames)
    requires OfSize(samples, size) && |samples| < COUNT_LIMIT
    requires t.wire == s.Send(samples).wire && t.pending == []
    ensures Written(t, Joined(frames) + samples, more, size, SomeOversize(frames) || |samples| > MAX_COUNT)
  {
    more := frames;
    if samples != [] {
      more := frames + [samples];
      EncodeAllAppend(frames, samples);
      JoinedAppend(frames, samples);
      OneMoreFrame(frames, samples, size);
    }
  }

  lemma OneMoreFrame(frames: seq<seq<Sample>>, f: seq<Sample>, size: nat)
    requires Writable(frames, size) && 0 < |f| < COUNT_LIMIT && OfSize(f, size)
    ensures Writable(frames + [f], size)
    ensures SomeOversize(frames + [f]) <==> SomeOversize(frames) || |f| > MAX_COUNT
  {
    assert forall g :: g in frames + [f] <==> g in frames || g == f;
  }

  lemma OfferWrites(s: SessionState, kept: seq<Sample>, frames: seq<seq<Sample>>, size: nat, oversize: bool,
                    sample: Sample)
    returns (more: seq<seq<Sample>>)
    requires Working(s) && Written(s, kept, frames, size, oversize) && |sample| == size
    requires !s.broken && !Overruns(s, Offer(sample))
    ensures Written(Step(s, Offer(sample), true), kept + [sample], more, size, oversize || Overflows(s, Offer(sample)))
  {
    var p, t := s.pending + [sample], Step(s, Offer(sample), true);
    assert OfSize(p, size);
    assert kept + [sample] == Joined(frames) + p;
    if s.bufferSize == 1 || |p| == s.bufferSize {
      more := SendWrites(s, frames, size, p, t);
    } else {
      more := frames;
    }
  }

  lemma ResizeDrops(s: SessionState, kept: seq<Sample>, frames: seq<seq<Sample>>, size: nat, oversize: bool)
    requires Written(s, kept, frames, size, oversize)
    ensures |s.pending| <= |kept| && kept[..|kept| - |s.pending|] == Joined(frames)
  {
  }

  lemma StepWrites(s: SessionState, kept: seq<Sample>, frames: seq<seq<Sample>>, size: nat, oversize: bool, op: Op)
    returns (more: seq<seq<Sample>>)
    requires Working(s) && Written(s, kept, frames, size, oversize) && Regular([op], size)
    requires !s.broken && !Overruns(s, op)
    ensures Written(Step(s, op, true), KeptAfter(s, kept, op), more, size, oversize || Overflows(s, op))
  {
    assert op in [op];
    more := frames;
    match op {
      case Offer(sample) => more := OfferWrites(s, kept, frames, size, oversize, sample);
      case TimerFires => more := SendWrites(s, frames, size, s.pending, s.Flush());
      case SetBufferSize(n) => ResizeDrops(s, kept, frames, size, oversize);
      case _ =>
    }
  }

  ghost predicate WrittenOrCutOff(s: SessionState, kept: seq<Sample>, frames: seq<seq<Sample>>, size: nat,
                                  oversize: bool)
  {
    if s.broken then CutOff(s, kept, frames, size) else Written(s, kept, frames, size, oversize)
  }

  lemma StepWritesOrBreaks(s: SessionState, kept: seq<Sample>, frames: seq<seq<Sample>>, size: nat, oversize: bool,
                           op: Op)
    returns (more: seq<seq<Sample>>)
    requires Working(s) && WrittenOrCutOff(s, kept, frames, size, oversize) && Regular([op], size)
    ensures WrittenOrCutOff(Step(s, op, true), KeptAfter(s, kept, op), more, size, oversize || Overflows(s, op))
  {
    more := frames;
    if !s.broken && !Overruns(s, op) {
      more := StepWrites(s, kept, frames, size, oversize, op);
    }
  }

  lemma {:induction false} RunWrites(ops: seq<Op>, size: nat) returns (frames: seq<seq<Sample>>)
    requires Regular(ops, size)
    ensures WrittenOrCutOff(Run(ops, size), Kept(ops, size), frames, size, SomeOverflow(ops, size))
    decreases |ops|
  {
    frames := [];
    if ops != [] {
      var front, op := ops[..|ops| - 1], ops[|ops| - 1];
      frames := RunWrites(front, size);
      assert op in ops;
      frames := StepWritesOrBreaks(Run(front, size), Kept(front, size), frames, size, SomeOverflow(front, size), op);
    }
  }

  /**
    What the client reads, followed by what is still pending, is what was
    offered, in order, less what was pending at a change of the buffer size:
    exactly if no operation flushed more samples than the reader takes, and no
    copy left its allocation.
   */
  lemma SessionConservesSamplesIff(ops: seq<Op>, size: nat)
    requires Regular(ops, size) && size > 0
    ensures ReadAll(Run(ops, size).wire, size) + Run(ops, size).pending == Kept(ops, size) <==>
            !SomeOverflow(ops, size) && !SomeOverrun(ops, size)
  {
    var frames := RunWrites(ops, size);
    ReadAllFrames(frames, size);
    AllAcceptedIff(frames);
    BreaksIff(ops, size);
  }

  ghost predicate SmallBuffers(ops: seq<Op>) {
    forall op :: op in ops && op.SetBufferSize? ==> op.n <= MAX_COUNT
  }

  /** With buffers of at most 1000 samples nothing overflows. */
  lemma {:induction false} SmallBuffersConserve(ops: seq<Op>, size: nat)
    requires Regular(ops, size) && SmallBuffers(ops)
    ensures Run(ops, size).bufferSize <= MAX_COUNT && !SomeOverflow(ops, size)
    decreases |ops|
  {
    if ops != [] {
      assert ops[|ops| - 1] in ops;
      SmallBuffersConserve(ops[..|ops| - 1], size);
    }
  }

  function Repeat<T>(x: T, k: nat): (r: seq<T>)
    ensures |r| == k && forall y :: y in r ==> y == x
  {
    if k == 0 then [] else Repeat(x, k - 1) + [x]
  }

  /** A buffer of `n` samples, filled with `k`. */
  function Filling(n: nat, sample: Sample, k: nat): (ops: seq<Op>)
    ensures |ops| == k + 1
  {
    if k == 0 then [SetBufferSize(n)] else Filling(n, sample, k - 1) + [Offer(sample)]
  }

  lemma {:induction false} FillingIsRegular(n: nat, sample: Sample, k: nat)
    requires n < COUNT_LIMIT
    ensures Regular(Filling(n, sample, k), |sample|)
    decreases k
  {
    if k > 0 {
      FillingIsRegular(n, sample, k - 1);
    }
  }

  /** With a larger buffer all is lost that fills it; the session breaks exactly if the buffer is not allocatable. */
  lemma BigBufferLoses(n: nat, sample: Sample)
    requires MAX_COUNT < n < COUNT_LIMIT && sample != []
    ensures var ops := Filling(n, sample, n);
      Regular(ops, |sample|) && (Run(ops, |sample|).broken <==> !Allocatable(n, |sample|)) &&
      Kept(ops, |sample|) == Repeat(sample, n) && ReadAll(Run(ops, |sample|).wire, |sample|) == []
  {
    BufferFills(n, sample);
    BigBufferKeeps(n, n, sample);
    if Allocatable(n, |sample|) {
      var samples := Repeat(sample, n);
      assert Encode(samples) + [] == Encode(samples);
      RejectsFrame(samples, |sample|, []);
    }
  }

  /** Filling a buffer gets all its samples to the reader exactly if it is allocatable and holds at most 1000. */
  lemma FillingConservesIff(n: nat, sample: Sample)
    requires 0 < n < COUNT_LIMIT && sample != []
    ensures var ops := Filling(n, sample, n);
      Regular(ops, |sample|) &&
      (ReadAll(Run(ops, |sample|).wire, |sample|) == Repeat(sample, n) <==> n <= MAX_COUNT && Allocatable(n, |sample|))
  {
    BufferFills(n, sample);
    if n > MAX_COUNT {
      BigBufferLoses(n, sample);
    } else if Allocatable(n, |sample|) {
      var samples := Repeat(sample, n);
      assert Encode(samples) + [] == Encode(samples);
      ReadsFrameIff(samples, |sample|, []);
      assert ReadAll([], |sample|) == [];
      assert samples + [] == samples;
    }
  }

  /** A buffer that cannot be allocated may break at the first sample: 24 bytes go to an allocation of 12. */
  lemma OverrunHappens(sample: Sample)
    requires |sample| == 24
    ensures var ops := [SetBufferSize(178956971), Offer(sample)];
      AllocSize(178956971, 24) == 12 && Regular(ops, 24) && Run(ops, 24).broken
  {
    SmallAllocation();
    Sized(178956971, 24);
    assert [SetBufferSize(178956971)] + [Offer(sample)] == [SetBufferSize(178956971), Offer(sample)];
    RunNext([SetBufferSize(178956971)], Offer(sample), 24);
  }

  lemma SmallAllocation()
    ensures AllocSize(178956971, 24) == 12 && !CopyFits(178956971, 24, 0)
  {
    SpanIsProduct(178956971, 24);
    SpanIsProduct(1, 24);
  }

  /** The first operation of a client. */
  lemma Sized(n: nat, size: nat)
    requires 0 < n < COUNT_LIMIT
    ensures Regular([SetBufferSize(n)], size) && Run([SetBufferSize(n)], size) == FRESH.(bufferSize := n)
  {
    assert [SetBufferSize(n)][..0] == [];
    assert Run([], size) == FRESH;
  }

  lemma BufferFills(n: nat, sample: Sample)
    requires 0 < n < COUNT_LIMIT
    ensures var ops := Filling(n, sample, n);
      Regular(ops, |sample|) && FullOnce(Run(ops, |sample|), n, sample)
  {
    var front := Filling(n, sample, n - 1);
    assert Filling(n, sample, n) == front + [Offer(sample)];
    FillingIsRegular(n, sample, n);
    BufferFillsUpTo(n, n - 1, sample);
    RunNext(front, Offer(sample), |sample|);
    LastFlushes(Run(front, |sample|), n, sample);
  }

  lemma RunNext(front: seq<Op>, op: Op, size: nat)
    requires Regular(front + [op], size)
    ensures Regular(front, size) && Run(front + [op], size) == Step(Run(front, size), op, true)
  {
    var ops := front + [op];
    assert forall o :: o in front ==> o in ops;
    assert ops[..|ops| - 1] == front && ops[|ops| - 1] == op;
  }

  /** A buffer of `n` that has taken `k` samples, or broke on the way. */
  ghost predicate Filled(s: SessionState, n: nat, k: nat, sample: Sample) {
    && Working(s) && s.wire == []
    && if s.broken then !Allocatable(n, |sample|) else s.bufferSize == n && s.pending == Repeat(sample, k)
  }

  /** A buffer of `n` that was filled and flushed, or broke on the way. */
  ghost predicate FullOnce(s: SessionState, n: nat, sample: Sample)
    requires n < COUNT_LIMIT
  {
    && (s.broken <==> !Allocatable(n, |sample|))
    && s.wire == if s.broken then [] else Encode(Repeat(sample, n))
  }

  lemma FillOne(s: SessionState, n: nat, k: nat, sample: Sample)
    requires k + 1 < n && Filled(s, n, k, sample)
    ensures Filled(Step(s, Offer(sample), true), n, k + 1, sample)
  {
    CopiesFitIff(n, |sample|);
    assert !s.broken ==> s.pending + [sample] == Repeat(sample, k + 1);
  }

  ghost predicate FilledBy(ops: seq<Op>, n: nat, k: nat, sample: Sample) {
    Regular(ops, |sample|) && Filled(Run(ops, |sample|), n, k, sample)
  }

  lemma OfferOneMore(front: seq<Op>, n: nat, k: nat, sample: Sample)
    requires k + 1 < n && FilledBy(front, n, k, sample)
    ensures FilledBy(front + [Offer(sample)], n, k + 1, sample)
  {
    assert forall op :: op in front + [Offer(sample)] <==> op in front || op == Offer(sample);
    RunNext(front, Offer(sample), |sample|);
    FillOne(Run(front, |sample|), n, k, sample);
  }

  lemma LastFlushes(s: SessionState, n: nat, sample: Sample)
    requires 0 < n < COUNT_LIMIT && Filled(s, n, n - 1, sample)
    ensures FullOnce(Step(s, Offer(sample), true), n, sample)
  {
    AllocatesIff(n, |sample|);
    assert !s.broken ==> s.pending + [sample] == Repeat(sample, n);
    assert [] + Encode(Repeat(sample, n)) == Encode(Repeat(sample, n));
  }

  lemma {:induction false} BufferFillsUpTo(n: nat, k: nat, sample: Sample)
    requires k < n < COUNT_LIMIT
    ensures FilledBy(Filling(n, sample, k), n, k, sample)
    decreases k
  {
    if k == 0 {
      Sized(n, |sample|);
    } else {
      BufferFillsUpTo(n, k - 1, sample);
      OfferOneMore(Filling(n, sample, k - 1), n, k - 1, sample);
    }
  }

  lemma {:induction false} BigBufferKeeps(n: nat, k: nat, sample: Sample)
    requires n < COUNT_LIMIT
    ensures Regular(Filling(n, sample, k), |sample|) && Kept(Filling(n, sample, k), |sample|) == Repeat(sample, k)
    decreases k
  {
    var ops := Filling(n, sample, k);
    FillingIsRegular(n, sample, k);
    if k == 0 {
      assert ops[..0] == [];
    } else {
      BigBufferKeeps(n, k - 1, sample);
      assert ops[..|ops| - 1] == Filling(n, sample, k - 1) && ops[|ops| - 1] == Offer(sample);
    }
  }

  // ---------- The flush timer ----------

  /** The number of operations before the first sample that is still pending was offered. */
  ghost function Since(ops: seq<Op>, size: nat): (k: nat)
    requires Regular(ops, size)
    ensures k <= |ops|
    decreases |ops|
  {
    if Run(ops, size).pending == [] then |ops| else Since(ops[..|ops| - 1], size)
  }

  /** Operation `k` offers a sample while a buffer interval is set. */
  ghost predicate Arms(ops: seq<Op>, size: nat, k: nat)
    requires Regular(ops, size) && k < |ops|
  {
    ops[k].Offer? && Run(ops[..k], size).bufferInterval > 0
  }

  /** The flush timer runs exactly if one of the pending samples was offered with a buffer interval set. */
  lemma {:induction false} TimerRunsIff(ops: seq<Op>, size: nat)
    requires Regular(ops, size) && !Run(ops, size).broken
    ensures Run(ops, size).timer > 0 <==> exists k :: Since(ops, size) <= k < |ops| && Arms(ops, size, k)
    decreases |ops|
  {
    if ops != [] {
      var front, op := ops[..|ops| - 1], ops[|ops| - 1];
      assert op in ops;
      TimerRunsIff(front, size);
      assert ops[..|front|] == front && Arms(ops, size, |front|) == (op.Offer? && Run(front, size).bufferInterval > 0);
      forall k | 0 <= k < |front| ensures Arms(front, size, k) == Arms(ops, size, k) {
        assert front[..k] == ops[..k];
      }
    }
  }

  /** So an interval that is set after the samples were offered leaves them pending without a timer. */
  lemma TimerForgotten(sample: Sample)
    requires Allocatable(2, |sample|)
    ensures var ops := [SetBufferSize(2), Offer(sample), SetBufferInterval(1000)];
      Regular(ops, |sample|) &&
      var t := Run(ops, |sample|);
      !t.broken && t.pending == [sample] && t.bufferInterval > 0 && t.timer == 0
  {
    var one, two := [SetBufferSize(2)], [SetBufferSize(2), Offer(sample)];
    assert one + [Offer(sample)] == two;
    assert two + [SetBufferInterval(1000)] == [SetBufferSize(2), Offer(sample), SetBufferInterval(1000)];
    Sized(2, |sample|);
    RunNext(one, Offer(sample), |sample|);
    CopiesFitIff(2, |sample|);
    RunNext(two, SetBufferInterval(1000), |sample|);
  }

  /** The timer is set to the buffer interval, rounded up to milliseconds, and then left alone. */
  lemma TimerIsInterval(s: SessionState, sample: Sample, due: bool)
    requires s.Valid() && CopyFits(s.bufferSize, s.size, |s.pending|) && |s.pending| + 1 < s.bufferSize
    ensures var t := s.Offer(sample, due).timer;
      if s.timer > 0 then t == s.timer
      else if s.bufferInterval == 0 then t == 0
      else 1000 * (t - 1) < s.bufferInterval <= 1000 * t
  {
  }

  /** The interval that was set last is in force, and so is the buffer size, which is at least 1. */
  lemma {:induction false} SettingsInForce(ops: seq<Op>, size: nat)
    requires Regular(ops, size) && !Run(ops, size).broken
    ensures Run(ops, size).bufferInterval == IntervalSet(ops) && Run(ops, size).bufferSize == SizeSet(ops)
    decreases |ops|
  {
    if ops != [] {
      SettingsInForce(ops[..|ops| - 1], size);
    }
  }

  function IntervalSet(ops: seq<Op>): nat {
    if ops == [] then 0 else
      match ops[|ops| - 1]
      case SetBufferInterval(interval) => interval
      case SetDownsampling(on) => if on then 1 else 0
      case _ => IntervalSet(ops[..|ops| - 1])
  }

  function SizeSet(ops: seq<Op>): nat {
    if ops == [] then 1 else
      match ops[|ops| - 1]
      case SetBufferSize(n) => if n == 0 then 1 else n
      case _ => SizeSet(ops[..|ops| - 1])
  }

  /** When the timer fires, nothing stays pending, and the client can read all that was kept. */
  lemma TimerFlushes(ops: seq<Op>, size: nat)
    requires Regular(ops, size) && size > 0 && !SomeOverrun(ops, size)
    ensures Regular(ops + [TimerFires], size) &&
            var t := Run(ops + [TimerFires], size);
            t.pending == [] && t.timer == 0 && Kept(ops + [TimerFires], size) == Kept(ops, size) &&
            (!SomeOverflow(ops, size) && |Run(ops, size).pending| <= 1000 ==> ReadAll(t.wire, size) == Kept(ops, size))
  {
    var all := ops + [TimerFires];
    assert forall op :: op in all <==> op in ops || op == TimerFires;
    assert all[..|all| - 1] == ops && all[|all| - 1] == TimerFires;
    BreaksIff(ops, size);
    SessionConservesSamplesIff(all, size);
    assert ReadAll(Run(all, size).wire, size) + [] == ReadAll(Run(all, size).wire, size);
  }

  // ---------- The session object ----------

  method CopyInto(a: array<byte>, offset: nat, source: seq<byte>)
    requires offset + |source| <= a.Length
    modifies a
    ensures a[..] == old(a[..offset]) + source + old(a[offset + |source|..])
  {
    var i := 0;
    while i < |source|
      invariant 0 <= i <= |source|
      invariant a[..offset] == old(a[..offset]) && a[offset..offset + i] == source[..i]
      invariant a[offset + i..] == old(a[offset + i..])
    {
      a[offset + i] := source[i];
      assert a[offset..offset + i + 1] == a[offset..offset + i] + [source[i]];
      i := i + 1;
      assert a[offset + i..] == a[offset + i - 1..][1..];
    }
    assert a[..] == a[..offset] + a[offset..offset + i] + a[offset + i..];
  }

  /** A buffer that starts with the count of its samples starts with their frame. */
  lemma FrameBytes(bytes: seq<byte>, size: nat, n: nat)
    requires n < COUNT_LIMIT && COUNT_BYTES + Span(n, size) <= |bytes| && bytes[..COUNT_BYTES] == EncodeCount(n)
    ensures COUNT_BYTES <= COUNT_BYTES + size * n <= |bytes|
    ensures bytes[..COUNT_BYTES + size * n] == Encode(Samples(bytes[COUNT_BYTES..], size, n))
  {
    SpanIsProduct(n, size);
    PayloadOfSamples(bytes[COUNT_BYTES..], size, n);
    PrefixSplits(bytes, COUNT_BYTES, Span(n, size));
  }

  lemma PrefixSplits<T>(s: seq<T>, a: nat, b: nat)
    requires a + b <= |s|
    ensures s[..a + b] == s[..a] + s[a..][..b]
  {
  }

  class SessionData {
    var buffer: array?<byte>
    var size: nat
    var count: nat
    var bufferSize: nat
    var bufferInterval: nat
    var interval: int
    var downsampling: bool
    var timer: nat
    var wire: seq<byte>
    var open: bool
    var broken: bool

    /** Between calls the buffer is never full. */
    ghost predicate Valid()
      reads this
    {
      Allocated() && count < bufferSize
    }

    ghost predicate Allocated()
      reads this
    {
      && !broken && count <= bufferSize < COUNT_LIMIT
      && (buffer == null ==> count == 0)
      && (buffer != null ==> COUNT_BYTES + Span(count, size) <= buffer.Length == AllocSize(bufferSize, size))
    }

    /** The collected samples lie behind the room for the count. */
    ghost function Pending(): seq<Sample>
      requires Allocated()
      reads this, buffer
    {
      if buffer == null then []
      else Samples(buffer[COUNT_BYTES..], size, count)
    }

    ghost function Abs(): SessionState
      requires Allocated()
      reads this, buffer
    {
      SessionState(size, bufferSize, bufferInterval, downsampling, timer, Pending(), wire, open, broken)
    }

    constructor ()
      ensures Valid() && Abs() == SessionState(0, 1, 0, false, 0, [], [], true, false)
    {
      buffer, size, count, bufferSize, bufferInterval := null, 0, 0, 1, 0;
      interval, downsampling, timer, wire, open, broken := -1, false, 0, [], true, false;
    }

    /** Puts the count in front of `n` samples of the buffer and hands both to the socket. */
    method WriteFrame(n: nat) returns (ok: bool)
      requires n < COUNT_LIMIT
      requires buffer != null ==> COUNT_BYTES + Span(n, size) <= buffer.Length
      requires buffer == null ==> n == 0
      modifies this`wire, buffer
      ensures ok <==> open && n > 0
      ensures !ok ==> wire == old(wire)
      ensures buffer != null ==> buffer[COUNT_BYTES..] == old(buffer[COUNT_BYTES..])
      ensures ok ==> wire == old(wire) + Encode(Samples(buffer[COUNT_BYTES..], size, n))
    {
      ok := false;
      if open && n > 0 {
        CopyInto(buffer, 0, EncodeCount(n));
        FrameBytes(buffer[..], size, n);
        wire := wire + buffer[..COUNT_BYTES + size * n];
        ok := true;
      }
    }

    method DelayedWrite() returns (ok: bool)
      requires Allocated()
      modifies this`timer, this`wire, this`count, buffer
      ensures Allocated() && count == 0 && Abs() == old(Abs()).Flush()
      ensures ok <==> open && old(Abs()).pending != []
    {
      if timer > 0 {
        timer := 0;
      }
      ok := WriteFrame(count);
      count := 0;
    }

    method TimerTimeout()
      requires Valid()
      modifies this`timer, this`wire, this`count, buffer
      ensures Valid() && Abs() == old(Abs()).Flush()
    {
      timer := 0;
      var _ := DelayedWrite();
    }

    /** Makes room for samples of `newSize` bytes. */
    method Reserve(newSize: nat)
      requires Valid() && CopyFits(bufferSize, newSize, count)
      modifies this`buffer, this`size
      ensures Valid() && buffer != null && size == newSize && (buffer == old(buffer) || fresh(buffer))
      ensures newSize == old(size) || count == 0 ==> Pending() == old(Pending())
    {
      var allocSize := AllocSize(bufferSize, newSize);
      if buffer == null {
        buffer := new byte[allocSize];
      } else if newSize != size {
        buffer := new byte[allocSize];
      }
      size := newSize;
    }

    /** Copies one sample behind `n` samples of the buffer. */
    method Append(source: Sample, n: nat)
      requires buffer != null && |source| == size && COUNT_BYTES + Span(n + 1, size) <= buffer.Length
      modifies buffer
      ensures Samples(buffer[COUNT_BYTES..], size, n + 1) == old(Samples(buffer[COUNT_BYTES..], size, n)) + [source]
    {
      SpanIsProduct(n, size);
      ghost var before := buffer[COUNT_BYTES..];
      CopyInto(buffer, COUNT_BYTES + size * n, source);
      assert buffer[COUNT_BYTES..] == before[..Span(n, size)] + source + before[Span(n + 1, size)..];
      SamplesOfPrefix(before, buffer[COUNT_BYTES..], size, n);
    }

    /** Adds a sample to the buffer and writes the buffer when it is full. */
    method Collect(source: Sample) returns (ok: bool)
      requires Valid() && buffer != null && |source| == size && bufferSize > 1 && CopyFits(bufferSize, size, count)
      modifies this`count, this`timer, this`wire, buffer
      ensures Valid() && Abs() == old(Abs()).Offer(source, true)
      ensures ok <==> open || old(count) + 1 < bufferSize
    {
      Append(source, count);
      count := count + 1;
      assert Pending() == old(Pending()) + [source];
      if bufferSize == count {
        ok := DelayedWrite();
        return;
      }
      if timer == 0 && bufferInterval > 0 {
        timer := (bufferInterval + 999) / 1000;
      }
      ok := true;
    }

    /** Writes a sample at once, unless it is to be downsampled away. */
    method WriteThrough(source: Sample, due: bool) returns (ok: bool)
      requires Valid() && buffer != null && |source| == size && bufferSize == 1 && CopyFits(bufferSize, size, count)
      modifies this`wire, buffer
      ensures Valid() && Abs() == old(Abs()).Offer(source, due)
      ensures ok <==> open || (downsampling && !due)
    {
      Append(source, 0);
      assert Samples(buffer[COUNT_BYTES..], size, 1) == [source];
      ok := true;
      if !downsampling || due {
        ok := WriteFrame(1);
      }
    }

    /**
      Takes one sample. Samples of another size than those already collected
      spoil the latter; all other calls behave as the abstract session does. A
      buffer that cannot be allocated, or is too small for the copy, breaks the session.
     */
    method Write(source: Sample, sinceLastWrite: int) returns (ok: bool)
      requires Valid()
      modifies this, buffer
      ensures broken <==> !CopyFits(old(bufferSize), |source|, old(count))
      ensures !broken ==> Valid() && interval == old(interval)
      ensures !broken && (|source| == old(size) || old(count) == 0) ==>
                Abs() == old(Abs()).(size := |source|).Offer(source, sinceLastWrite >= old(interval))
      ensures !broken ==>
                (ok <==> open || (if bufferSize == 1 then downsampling && sinceLastWrite < interval
                                  else old(count) + 1 < bufferSize))
    {
      if !CopyFits(bufferSize, |source|, count) {
        broken := true;
        return false;
      }
      Reserve(|source|);
      if bufferSize <= 1 {
        // sizes below 1 are raised to 1, so the timer never starts here
        ok := WriteThrough(source, sinceLastWrite >= interval);
      } else {
        ok := Collect(source);
      }
    }

    method SetBufferSize(n: nat)
      requires Valid() && n < COUNT_LIMIT
      modifies this
      ensures Valid() && Abs() == old(Abs()).Resize(n) && interval == old(interval)
    {
      if n != bufferSize {
        timer := 0;
        buffer := null;
        count := 0;
        bufferSize := n;
        if bufferSize < 1 {
          bufferSize := 1;
        }
      }
    }

    method SetBufferInterval(value: nat)
      requires Valid()
      modifies this`bufferInterval
      ensures Valid() && Abs() == old(Abs()).(bufferInterval := value)
    {
      bufferInterval := value;
    }

    method SetDownsampling(value: bool)
      requires Valid()
      modifies this`downsampling, this`timer
      ensures Valid() && Abs() == old(Abs()).SwitchDownsampling(value)
    {
      if value != downsampling {
        downsampling := value;
        timer := 0;
      }
    }

    function GetBufferSize(): nat
      reads this
    {
      bufferSize
    }
  }

  class SocketHandler {
    var idMap: map<SessionId, SessionData>

    constructor ()
      ensures idMap == map[]
    {
      idMap := map[];
    }

    /** Sets the buffer interval, not the flag. */
    method SetDownsampling(session: SessionId, value: bool)
      requires session in idMap ==> idMap[session].Valid()
      modifies (if session in idMap then {idMap[session]} else {})`bufferInterval
      ensures session in idMap ==>
                var data := idMap[session];
                data.Valid() && data.Abs() == Step(old(data.Abs()), Op.SetDownsampling(value), true)
    {
      if session in idMap {
        idMap[session].SetBufferInterval(if value then 1 else 0);
      }
    }

    /** Answers with the buffer size, not with the flag. */
    method Downsampling(session: SessionId) returns (r: bool)
      requires session in idMap ==> idMap[session].Valid()
      ensures r <==> session in idMap && SaysDownsampling(idMap[session].Abs())
    {
      r := false;
      if session in idMap {
        r := idMap[session].GetBufferSize() != 0;
      }
    }
  }
}
