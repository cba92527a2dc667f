/** A sensor channel: its sessions, and the downsampling of what it sends them. */
module Downsampler {
  import opened Lists
  import opened Sessions

  /** Microseconds. Timestamps are 64 bits wide and their differences wrap around. */
  type Time = t: int | 0 <= t < 0x1_0000_0000_0000_0000

  const TIME_SPAN: int := 0x1_0000_0000_0000_0000
  const MAX_AGE: int := 2000000

  type Interval = i: int | 0 <= i < 0x8000_0000

  datatype Sample<V> = Sample(time: Time, value: V)

  type IntervalMap = map<SessionId, Interval>

  type SampleMap<V> = map<SessionId, seq<Sample<V>>>

  datatype Xyz = Xyz(x: real, y: real, z: real)

  datatype Field = Field(x: int, y: int, z: int, rx: int, ry: int, rz: int, level: int)

  // ---------- Window ----------

  /** How many samples make one output: as many as fit the session's interval. */
  function Window(session: Interval, current: Interval): (n: nat)
    ensures n >= 1
    ensures if session < current || current == 0 then n == 1 else n * current <= session < (n + 1) * current
  {
    if session < current || current == 0 then 1 else
      QuotientBounds(session, current);
      session / current
  }

  lemma QuotientBounds(a: nat, b: nat)
    requires a >= b > 0
    ensures 1 <= a / b && (a / b) * b <= a < (a / b + 1) * b
  {
    assert a == (a / b) * b + a % b;
  }

  predicate Stale(now: Time, t: Time) {
    (now - t) % TIME_SPAN > MAX_AGE
  }

  /** Not stale is what is at most two seconds older; a sample from the future counts as older still. */
  lemma StaleIff(now: Time, t: Time)
    ensures t <= now ==> (Stale(now, t) <==> now - t > 2000000)
    ensures t > now && t - now < TIME_SPAN - 2000000 ==> Stale(now, t)
  {
    if t <= now {
      assert (now - t) % TIME_SPAN == now - t;
    } else {
      assert (now - t) % TIME_SPAN == now - t + TIME_SPAN;
    }
  }

  /** What the iterator loop leaves of `samples` from position `i` on: after an erasure it skips a sample. */
  function Trimmed<V>(samples: seq<Sample<V>>, i: nat, n: nat, now: Time): (kept: seq<Sample<V>>)
    decreases |samples| - i
  {
    if i >= |samples| then samples
    else if |samples| > n || Stale(now, samples[i].time) then
      var rest := samples[..i] + samples[i + 1..];
      if i == |rest| then rest else Trimmed(rest, i + 1, n, now)
    else samples
  }

  method Trim<V>(samples: seq<Sample<V>>, n: nat, now: Time) returns (kept: seq<Sample<V>>)
    ensures kept == Trimmed(samples, 0, n, now)
  {
    kept := samples;
    var it := 0;
    while it != |kept|
      invariant 0 <= it <= |kept|
      invariant Trimmed(samples, 0, n, now) == Trimmed(kept, it, n, now)
      decreases |kept| - it
    {
      if |kept| > n || Stale(now, kept[it].time) {
        kept := kept[..it] + kept[it + 1..];
        if it == |kept| {
          break;
        }
      } else {
        break;
      }
      it := it + 1;
    }
  }

  /** The trimming as intended: old samples go, and so do those that no longer fit. */
  ghost function Ideal<V>(samples: seq<Sample<V>>, n: nat, now: Time): seq<Sample<V>> {
    if samples != [] && (|samples| > n || Stale(now, samples[0].time)) then Ideal(samples[1..], n, now) else samples
  }

  ghost predicate Rising<V>(samples: seq<Sample<V>>) {
    forall i, j :: 0 <= i < j < |samples| ==> samples[i].time < samples[j].time
  }

  lemma {:induction false} IdealIsSuffix<V>(samples: seq<Sample<V>>, n: nat, now: Time) returns (k: nat)
    ensures k <= |samples| && Ideal(samples, n, now) == samples[k..]
    ensures |samples| - k <= n && (k < |samples| ==> !Stale(now, samples[k].time))
    ensures forall i :: 0 <= i < k ==> |samples| - i > n || Stale(now, samples[i].time)
  {
    if samples != [] && (|samples| > n || Stale(now, samples[0].time)) {
      k := IdealIsSuffix(samples[1..], n, now);
      assert samples[1..][k..] == samples[k + 1..];
      forall i | 0 <= i < k + 1 ensures |samples| - i > n || Stale(now, samples[i].time) {
        assert i > 0 ==> samples[i] == samples[1..][i - 1];
      }
      k := k + 1;
    } else {
      k := 0;
    }
  }

  /** The loop trims as intended exactly when at most one sample has to go. */
  lemma TrimIsIdealIff<V>(samples: seq<Sample<V>>, n: nat)
    requires Rising(samples) && n >= 1 && samples != []
    ensures var now := samples[|samples| - 1].time;
      Trimmed(samples, 0, n, now) == Ideal(samples, n, now) <==>
      |samples| == 1 || (|samples| - 1 <= n && !Stale(now, samples[1].time))
  {
    var now := samples[|samples| - 1].time;
    if |samples| > 1 {
      assert !Stale(now, samples[0].time) ==> !Stale(now, samples[1].time);
      if |samples| > n || Stale(now, samples[0].time) {
        FirstGoes(samples, n, now);
        if |samples| - 1 > n || Stale(now, samples[1].time) {
          var k := IdealIsSuffix(samples[2..], n, now);
          assert samples[1..][1..] == samples[2..];
          assert Ideal(samples, n, now) == Ideal(samples[2..], n, now) == samples[2..][k..];
        }
      }
    }
  }

  lemma FirstGoes<V>(samples: seq<Sample<V>>, n: nat, now: Time)
    requires Rising(samples) && n >= 1 && |samples| > 1 && now == samples[|samples| - 1].time
    requires |samples| > n || Stale(now, samples[0].time)
    ensures var kept := Trimmed(samples, 0, n, now);
      if |samples| - 1 > n || Stale(now, samples[1].time) then kept != [] && kept[0] == samples[1]
      else kept == samples[1..]
  {
    var rest := samples[1..];
    TrimFirst(samples, n, now);
    if |rest| > n || Stale(now, rest[0].time) {
      TrimKeepsBefore(rest, 1, n, now);
      assert Trimmed(rest, 1, n, now)[..1][0] == rest[..1][0];
    } else {
      assert |rest| > 1 ==> !Stale(now, rest[1].time);
    }
  }

  /** After the first sample went, the loop goes on behind the second. */
  lemma TrimFirst<V>(samples: seq<Sample<V>>, n: nat, now: Time)
    requires |samples| > 1 && (|samples| > n || Stale(now, samples[0].time))
    ensures Trimmed(samples, 0, n, now) == Trimmed(samples[1..], 1, n, now)
  {
    assert samples[..0] + samples[0 + 1..] == samples[1..];
  }

  lemma {:induction false} TrimKeepsBefore<V>(samples: seq<Sample<V>>, i: nat, n: nat, now: Time)
    requires i <= |samples|
    ensures |Trimmed(samples, i, n, now)| >= i && Trimmed(samples, i, n, now)[..i] == samples[..i]
    decreases |samples| - i
  {
    if i < |samples| && (|samples| > n || Stale(now, samples[i].time)) {
      var rest := samples[..i] + samples[i + 1..];
      if i < |rest| {
        TrimKeepsBefore(rest, i + 1, n, now);
        assert Trimmed(rest, i + 1, n, now)[..i + 1][..i] == rest[..i + 1][..i];
      }
    }
  }

  /** When nothing is stale, at most every other sample goes, however many are too many. */
  lemma {:induction false} TrimmedSize<V>(samples: seq<Sample<V>>, i: nat, n: nat, now: Time)
    requires i <= |samples|
    requires forall k :: 0 <= k < |samples| ==> !Stale(now, samples[k].time)
    ensures var excess := if |samples| > n then |samples| - n else 0;
      var reach := (|samples| - i + 1) / 2;
      |Trimmed(samples, i, n, now)| == |samples| - (if excess < reach then excess else reach)
    decreases |samples| - i
  {
    if i < |samples| && |samples| > n {
      var rest := samples[..i] + samples[i + 1..];
      if i < |rest| {
        TrimmedSize(rest, i + 1, n, now);
      }
    }
  }

  /** Three fresh samples in a window of one: only the second stays, even the newest goes. */
  lemma TrimSkips<V>(a: V)
    ensures Trimmed([Sample(0, a), Sample(1, a), Sample(2, a)], 0, 1, 2) == [Sample(1, a)]
  {
    TrimFirst([Sample(0, a), Sample(1, a), Sample(2, a)], 1, 2);
    assert [Sample(0, a), Sample(1, a), Sample(2, a)][1..] == [Sample(1, a), Sample(2, a)];
    assert [Sample(1, a), Sample(2, a)][..1] + [Sample(1, a), Sample(2, a)][1 + 1..] == [Sample(1, a)];
  }

  // ---------- One session over a whole run ----------

  datatype Input<V> = Input(data: Sample<V>, accepted: bool)

  /** What is buffered after one more sample, and the window that is offered for sending. */
  datatype Pushed<V> = Pushed(kept: seq<Sample<V>>, offered: Option<seq<Sample<V>>>)

  function Push<V>(samples: seq<Sample<V>>, data: Sample<V>, n: nat, accepted: bool): Pushed<V> {
    var kept := Trimmed(samples + [data], 0, n, data.time);
    if |kept| < n then Pushed(kept, None) else Pushed(if accepted then [] else kept, Some(kept))
  }

  /** The buffer and the windows sent, for a window of `n`. */
  datatype Progress<V> = Progress(samples: seq<Sample<V>>, sent: seq<seq<Sample<V>>>)

  function Feed<V>(inputs: seq<Input<V>>, n: nat): Progress<V> {
    if inputs == [] then Progress([], []) else
      var before := Feed(inputs[..|inputs| - 1], n);
      var input := inputs[|inputs| - 1];
      Advance(before, Push(before.samples, input.data, n, input.accepted), input.accepted)
  }

  function Advance<V>(before: Progress<V>, pushed: Pushed<V>, accepted: bool): Progress<V> {
    Progress(pushed.kept,
             if pushed.offered.Some? && accepted then before.sent + [pushed.offered.value] else before.sent)
  }

  ghost function Data<V>(inputs: seq<Input<V>>): seq<Sample<V>> {
    seq(|inputs|, i requires 0 <= i < |inputs| => inputs[i].data)
  }

  /** Samples less than a window apart are in order and not too old for each other. */
  ghost predicate Steady<V>(inputs: seq<Input<V>>, n: nat) {
    forall i, j :: 0 <= i <= j < |inputs| && j - i < n ==>
                     0 <= inputs[j].data.time - inputs[i].data.time <= MAX_AGE
  }

  ghost function LastEnd(ends: seq<nat>): nat {
    if ends == [] then 0 else ends[|ends| - 1]
  }

  /** Where windows end: at the first accepted input that is `n` or more behind the previous end. */
  ghost function Ends<V>(inputs: seq<Input<V>>, n: nat): seq<nat> {
    if inputs == [] then [] else
      NextEnds(Ends(inputs[..|inputs| - 1], n), |inputs|, inputs[|inputs| - 1].accepted, n)
  }

  ghost function NextEnds(ends: seq<nat>, total: nat, accepted: bool, n: nat): seq<nat> {
    if total - LastEnd(ends) >= n && accepted then ends + [total] else ends
  }

  ghost predicate Spaced(ends: seq<nat>, n: nat, total: nat) {
    (forall j :: 0 <= j < |ends| ==> n <= ends[j] <= total) &&
    (forall i, j :: 0 <= i < j < |ends| ==> ends[i] + n <= ends[j])
  }

  lemma {:induction false} EndsArePositions<V>(inputs: seq<Input<V>>, n: nat)
    requires n >= 1
    ensures Spaced(Ends(inputs, n), n, |inputs|)
  {
    if inputs != [] {
      EndsArePositions(inputs[..|inputs| - 1], n);
      assert Spaced(Ends(inputs[..|inputs| - 1], n), n, |inputs| - 1);
    }
  }

  ghost function Least(a: nat, b: nat): nat {
    if a < b then a else b
  }

  /** Every window is the `n` samples up to its end. */
  ghost predicate WindowsOf<V>(sent: seq<seq<Sample<V>>>, data: seq<Sample<V>>, ends: seq<nat>, n: nat) {
    |sent| == |ends| &&
    forall j :: 0 <= j < |ends| ==> n <= ends[j] <= |data| && sent[j] == data[ends[j] - n..ends[j]]
  }

  /** The last `k` of the samples, or as many as there are. */
  ghost function Last<V>(data: seq<Sample<V>>, k: nat): seq<Sample<V>> {
    data[if |data| < k then 0 else |data| - k..]
  }

  ghost predicate Slides<V>(p: Progress<V>, data: seq<Sample<V>>, ends: seq<nat>, n: nat) {
    && LastEnd(ends) <= |data|
    && p.samples == Last(data, Least(|data| - LastEnd(ends), n))
    && WindowsOf(p.sent, data, ends, n)
  }

  /**
    The buffer always holds the last samples since the last successful send, at
    most a window of them; every window sent is the `n` samples up to its end.
   */
  lemma {:induction false} FeedSlides<V>(inputs: seq<Input<V>>, n: nat)
    requires n >= 1 && Steady(inputs, n)
    ensures Slides(Feed(inputs, n), Data(inputs), Ends(inputs, n), n)
  {
    if inputs != [] {
      var before := inputs[..|inputs| - 1];
      FeedSlides(before, n);
      var (ends, input) := (Ends(before, n), inputs[|inputs| - 1]);
      var since := |before| - LastEnd(ends);
      SteadyPush(inputs, n, since);
      var pushed := SlidingPush(Data(inputs), since + 1, n, input.accepted);
      assert Feed(inputs, n) == Advance(Feed(before, n), pushed, input.accepted);
      assert Ends(inputs, n) == NextEnds(ends, |inputs|, input.accepted, n);
      AdvanceSlides(Feed(before, n), pushed, Data(inputs), ends, n, input.accepted);
    }
  }

  /** What a push does when the buffer holds the samples of a window. */
  ghost function SlidingPush<V>(data: seq<Sample<V>>, since: nat, n: nat, accepted: bool): Pushed<V> {
    if since < n then Pushed(Last(data, since), None)
    else Pushed(if accepted then [] else Last(data, n), Some(Last(data, n)))
  }

  lemma AdvanceSlides<V>(p: Progress<V>, pushed: Pushed<V>, data: seq<Sample<V>>, ends: seq<nat>, n: nat,
                         accepted: bool)
    requires n >= 1 && data != [] && Slides(p, data[..|data| - 1], ends, n)
    requires pushed == SlidingPush(data, |data| - LastEnd(ends), n, accepted)
    ensures Slides(Advance(p, pushed, accepted), data, NextEnds(ends, |data|, accepted, n), n)
  {
    WindowsExtend(p.sent, data, ends, n);
    var after := Advance(p, pushed, accepted);
    if |data| - LastEnd(ends) < n {
      assert after == Progress(Last(data, |data| - LastEnd(ends)), p.sent);
    } else if accepted {
      assert after == Progress([], p.sent + [Last(data, n)]);
      assert LastEnd(ends + [|data|]) == |data| && Last(data, 0) == [];
    } else {
      assert after == Progress(Last(data, n), p.sent);
    }
  }

  lemma SteadyPush<V>(inputs: seq<Input<V>>, n: nat, since: nat)
    requires n >= 1 && Steady(inputs, n) && since < |inputs|
    ensures var before := inputs[..|inputs| - 1];
      var input := inputs[|inputs| - 1];
      Push(Last(Data(before), Least(since, n)), input.data, n, input.accepted)
      == SlidingPush(Data(inputs), since + 1, n, input.accepted)
    ensures Data(inputs)[..|inputs| - 1] == Data(inputs[..|inputs| - 1])
  {
    var m := |inputs| - 1;
    var b := m - Least(since, n);
    OneMore(inputs, Least(since, n));
    SteadyTrim(inputs, n, b);
  }

  lemma OneMore<V>(inputs: seq<Input<V>>, k: nat)
    requires k < |inputs|
    ensures var m := |inputs| - 1;
      Last(Data(inputs[..m]), k) + [inputs[m].data] == Data(inputs)[m - k..] && Data(inputs)[..m] == Data(inputs[..m])
  {
    var m := |inputs| - 1;
    var front, data := Data(inputs[..m]), Data(inputs);
    assert front == data[..m];
    assert Last(front, k) == data[m - k..m];
    assert data[m - k..m] + [data[m]] == data[m - k..];
  }

  lemma WindowsExtend<V>(sent: seq<seq<Sample<V>>>, data: seq<Sample<V>>, ends: seq<nat>, n: nat)
    requires data != [] && WindowsOf(sent, data[..|data| - 1], ends, n)
    ensures WindowsOf(sent, data, ends, n)
    ensures n <= |data| ==> WindowsOf(sent + [Last(data, n)], data, ends + [|data|], n)
  {
    forall j | 0 <= j < |ends|
      ensures n <= ends[j] <= |data| && sent[j] == data[ends[j] - n..ends[j]]
    {
      assert data[..|data| - 1][ends[j] - n..ends[j]] == data[ends[j] - n..ends[j]];
    }
  }

  lemma SteadyTrim<V>(inputs: seq<Input<V>>, n: nat, b: nat)
    requires n >= 1 && Steady(inputs, n) && b < |inputs| <= b + n + 1
    ensures Trimmed(Data(inputs)[b..], 0, n, inputs[|inputs| - 1].data.time)
         == Data(inputs)[if |inputs| - b > n then b + 1 else b..]
  {
    var (samples, now) := (Data(inputs)[b..], inputs[|inputs| - 1].data.time);
    forall i | b <= i < |inputs| && |inputs| - i <= n
      ensures samples[i - b] == inputs[i].data && !Stale(now, samples[i - b].time)
    {
      assert 0 <= inputs[|inputs| - 1].data.time - inputs[i].data.time <= MAX_AGE;
    }
    if |samples| > n {
      TrimFirst(samples, n, now);
      assert samples[1..] == Data(inputs)[b + 1..];
      assert |samples| > 2 ==> !Stale(now, samples[2].time);
    }
  }

  /** The positions `n`, `2 * n`, `3 * n`, ... */
  ghost predicate Multiples(ends: seq<nat>, n: nat) {
    forall j :: 0 <= j < |ends| ==> ends[j] == n * (j + 1)
  }

  /** When every write succeeds there is one output for every `n` inputs, cut without gap or overlap. */
  lemma {:induction false} AcceptedFeed<V>(inputs: seq<Input<V>>, n: nat) returns (ends: seq<nat>)
    requires n >= 1 && Steady(inputs, n) && forall i :: 0 <= i < |inputs| ==> inputs[i].accepted
    ensures Multiples(ends, n) && WindowsOf(Feed(inputs, n).sent, Data(inputs), ends, n)
    ensures n * |ends| <= |inputs| < n * |ends| + n
    ensures Feed(inputs, n).samples == Data(inputs)[n * |ends|..]
  {
    FeedSlides(inputs, n);
    EndsAreMultiples(inputs, n);
    ends := Ends(inputs, n);
  }

  lemma {:induction false} EndsAreMultiples<V>(inputs: seq<Input<V>>, n: nat)
    requires n >= 1 && forall i :: 0 <= i < |inputs| ==> inputs[i].accepted
    ensures Multiples(Ends(inputs, n), n)
    ensures LastEnd(Ends(inputs, n)) == n * |Ends(inputs, n)| <= |inputs| < n * |Ends(inputs, n)| + n
  {
    if inputs != [] {
      EndsAreMultiples(inputs[..|inputs| - 1], n);
      var before := Ends(inputs[..|inputs| - 1], n);
      assert n * (|before| + 1) == n * |before| + n;
    }
  }

  /** Whatever the timestamps, a window that stays the same bounds the buffer. */
  lemma {:induction false} FeedIsBounded<V>(inputs: seq<Input<V>>, n: nat)
    requires n >= 1
    ensures |Feed(inputs, n).samples| <= n
    ensures forall w :: w in Feed(inputs, n).sent ==> |w| == n
  {
    if inputs != [] {
      var m := |inputs| - 1;
      FeedIsBounded(inputs[..m], n);
      TrimmedIsShorter(Feed(inputs[..m], n).samples + [inputs[m].data], 0, n, inputs[m].data.time);
    }
  }

  lemma {:induction false} TrimmedIsShorter<V>(samples: seq<Sample<V>>, i: nat, n: nat, now: Time)
    ensures |Trimmed(samples, i, n, now)| <= |samples|
    ensures i < |samples| && |samples| > n ==> |Trimmed(samples, i, n, now)| < |samples|
    decreases |samples| - i
  {
    if i < |samples| && (|samples| > n || Stale(now, samples[i].time)) {
      var rest := samples[..i] + samples[i + 1..];
      if i < |rest| {
        TrimmedIsShorter(rest, i + 1, n, now);
      }
    }
  }

  // ---------- Means ----------

  function SumOf<V>(samples: seq<Sample<V>>, f: V -> real): real {
    if samples == [] then 0.0 else SumOf(samples[..|samples| - 1], f) + f(samples[|samples| - 1].value)
  }

  function CountOf<V>(samples: seq<Sample<V>>, f: V -> int): int {
    if samples == [] then 0 else CountOf(samples[..|samples| - 1], f) + f(samples[|samples| - 1].value)
  }

  /** Division as in C++: towards zero. */
  function Quotient(a: int, b: int): int
    requires b > 0
  {
    if a >= 0 then a / b else -(-a / b)
  }

  function X(v: Xyz): real { v.x }
  function Y(v: Xyz): real { v.y }
  function Z(v: Xyz): real { v.z }

  function MeanXyz(samples: seq<Sample<Xyz>>): Xyz
    requires samples != []
  {
    var n := |samples| as real;
    Xyz(SumOf(samples, X) / n, SumOf(samples, Y) / n, SumOf(samples, Z) / n)
  }

  function FieldX(v: Field): int { v.x }
  function FieldY(v: Field): int { v.y }
  function FieldZ(v: Field): int { v.z }
  function RawX(v: Field): int { v.rx }
  function RawY(v: Field): int { v.ry }
  function RawZ(v: Field): int { v.rz }

  function MeanField(samples: seq<Sample<Field>>, level: int): Field
    requires samples != []
  {
    var n := |samples|;
    Field(Quotient(CountOf(samples, FieldX), n), Quotient(CountOf(samples, FieldY), n),
          Quotient(CountOf(samples, FieldZ), n), Quotient(CountOf(samples, RawX), n),
          Quotient(CountOf(samples, RawY), n), Quotient(CountOf(samples, RawZ), n),
          level)
  }

  lemma {:induction false} SumBounds<V>(samples: seq<Sample<V>>, f: V -> real, lo: real, hi: real)
    requires forall i :: 0 <= i < |samples| ==> lo <= f(samples[i].value) <= hi
    ensures lo * |samples| as real <= SumOf(samples, f) <= hi * |samples| as real
  {
    if samples != [] {
      SumBounds(samples[..|samples| - 1], f, lo, hi);
    }
  }

  lemma {:induction false} CountBounds<V>(samples: seq<Sample<V>>, f: V -> int, lo: int, hi: int)
    requires forall i :: 0 <= i < |samples| ==> lo <= f(samples[i].value) <= hi
    ensures lo * |samples| <= CountOf(samples, f) <= hi * |samples|
  {
    if samples != [] {
      CountBounds(samples[..|samples| - 1], f, lo, hi);
      assert lo * |samples| == lo * (|samples| - 1) + lo && hi * |samples| == hi * (|samples| - 1) + hi;
    }
  }

  /** A real mean lies between all bounds of the window. */
  lemma MeanBounds<V>(samples: seq<Sample<V>>, f: V -> real, lo: real, hi: real)
    requires samples != [] && forall i :: 0 <= i < |samples| ==> lo <= f(samples[i].value) <= hi
    ensures lo <= SumOf(samples, f) / |samples| as real <= hi
  {
    SumBounds(samples, f, lo, hi);
    RealQuotient(SumOf(samples, f), |samples| as real, lo, hi);
  }

  lemma {:induction false} SameSum<V>(samples: seq<Sample<V>>, f: V -> real, g: V -> real)
    requires forall v :: f(v) == g(v)
    ensures SumOf(samples, f) == SumOf(samples, g)
  {
    if samples != [] {
      SameSum(samples[..|samples| - 1], f, g);
    }
  }

  lemma {:induction false} SameCount<V>(samples: seq<Sample<V>>, f: V -> int, g: V -> int)
    requires forall v :: f(v) == g(v)
    ensures CountOf(samples, f) == CountOf(samples, g)
  {
    if samples != [] {
      SameCount(samples[..|samples| - 1], f, g);
    }
  }

  /** Each axis of a mean, times the number of samples, is the sum of that axis. */
  lemma MeanXyzIs(samples: seq<Sample<Xyz>>)
    requires samples != []
    ensures var (m, n) := (MeanXyz(samples), |samples| as real);
      && m.x * n == SumOf(samples, (v: Xyz) => v.x)
      && m.y * n == SumOf(samples, (v: Xyz) => v.y)
      && m.z * n == SumOf(samples, (v: Xyz) => v.z)
  {
    SameSum(samples, X, (v: Xyz) => v.x);
    SameSum(samples, Y, (v: Xyz) => v.y);
    SameSum(samples, Z, (v: Xyz) => v.z);
    MeanTimes(SumOf(samples, X), |samples| as real);
    MeanTimes(SumOf(samples, Y), |samples| as real);
    MeanTimes(SumOf(samples, Z), |samples| as real);
  }

  lemma MeanTimes(a: real, b: real)
    requires b != 0.0
    ensures (a / b) * b == a
  {
  }

  ghost predicate Between(lo: Xyz, v: Xyz, hi: Xyz) {
    lo.x <= v.x <= hi.x && lo.y <= v.y <= hi.y && lo.z <= v.z <= hi.z
  }

  /** A mean lies, axis by axis, between all bounds of its window. */
  lemma MeanXyzBounds(samples: seq<Sample<Xyz>>, lo: Xyz, hi: Xyz)
    requires samples != [] && forall i :: 0 <= i < |samples| ==> Between(lo, samples[i].value, hi)
    ensures Between(lo, MeanXyz(samples), hi)
  {
    MeanBounds(samples, X, lo.x, hi.x);
    MeanBounds(samples, Y, lo.y, hi.y);
    MeanBounds(samples, Z, lo.z, hi.z);
  }

  /** `q` is the quotient of the sum of a component by the number of samples, cut off towards zero. */
  ghost predicate IsTruncatedMean(samples: seq<Sample<Field>>, f: Field -> int, q: int) {
    var (sum, n) := (CountOf(samples, f), |samples|);
    -n < sum - q * n < n && (sum >= 0 ==> 0 <= q * n <= sum) && (sum <= 0 ==> sum <= q * n <= 0)
  }

  lemma ComponentIs(samples: seq<Sample<Field>>, f: Field -> int, g: Field -> int)
    requires samples != [] && forall v :: f(v) == g(v)
    ensures IsTruncatedMean(samples, g, Quotient(CountOf(samples, f), |samples|))
  {
    SameCount(samples, f, g);
    QuotientTruncates(CountOf(samples, f), |samples|);
  }

  lemma QuotientTruncates(a: int, n: int)
    requires n > 0
    ensures -n < a - Quotient(a, n) * n < n
    ensures (a >= 0 ==> 0 <= Quotient(a, n) * n <= a) && (a <= 0 ==> a <= Quotient(a, n) * n <= 0)
  {
    if a >= 0 {
      EuclideanQuotient(a, n);
    } else {
      EuclideanQuotient(-a, n);
      assert Quotient(a, n) * n == -((-a / n) * n);
    }
  }

  lemma EuclideanQuotient(a: nat, n: int)
    requires n > 0
    ensures 0 <= (a / n) * n <= a < (a / n) * n + n
  {
    assert a == (a / n) * n + a % n;
  }

  /** Every component of a mean field is the truncated mean of that component, and the level is the one given. */
  lemma MeanFieldIs(samples: seq<Sample<Field>>, level: int)
    requires samples != []
    ensures var m := MeanField(samples, level);
      && IsTruncatedMean(samples, (v: Field) => v.x, m.x) && IsTruncatedMean(samples, (v: Field) => v.y, m.y)
      && IsTruncatedMean(samples, (v: Field) => v.z, m.z) && IsTruncatedMean(samples, (v: Field) => v.rx, m.rx)
      && IsTruncatedMean(samples, (v: Field) => v.ry, m.ry) && IsTruncatedMean(samples, (v: Field) => v.rz, m.rz)
      && m.level == level
  {
    ComponentIs(samples, FieldX, (v: Field) => v.x);
    ComponentIs(samples, FieldY, (v: Field) => v.y);
    ComponentIs(samples, FieldZ, (v: Field) => v.z);
    ComponentIs(samples, RawX, (v: Field) => v.rx);
    ComponentIs(samples, RawY, (v: Field) => v.ry);
    ComponentIs(samples, RawZ, (v: Field) => v.rz);
  }

  lemma RealQuotient(a: real, b: real, lo: real, hi: real)
    requires b > 0.0 && lo * b <= a <= hi * b
    ensures lo <= a / b <= hi
  {
    var q := a / b;
    assert a == q * b;
  }

  /** A truncated mean still lies between all bounds of the window, and less than one from the mean. */
  lemma TruncatedMeanBounds<V>(samples: seq<Sample<V>>, f: V -> int, lo: int, hi: int)
    requires samples != [] && forall i :: 0 <= i < |samples| ==> lo <= f(samples[i].value) <= hi
    ensures lo <= Quotient(CountOf(samples, f), |samples|) <= hi
    ensures -|samples| < CountOf(samples, f) - Quotient(CountOf(samples, f), |samples|) * |samples| < |samples|
  {
    CountBounds(samples, f, lo, hi);
    QuotientBetween(CountOf(samples, f), |samples|, lo, hi);
  }

  lemma QuotientBetween(a: int, b: int, lo: int, hi: int)
    requires b > 0 && lo * b <= a <= hi * b
    ensures lo <= Quotient(a, b) <= hi && -b < a - Quotient(a, b) * b < b
  {
    if a >= 0 {
      NaturalQuotientBetween(a, b, lo, hi);
    } else {
      assert -hi * b <= -a <= -lo * b;
      NaturalQuotientBetween(-a, b, -hi, -lo);
    }
  }

  lemma NaturalQuotientBetween(a: nat, b: int, lo: int, hi: int)
    requires b > 0 && lo * b <= a <= hi * b
    ensures lo <= a / b <= hi && 0 <= a - (a / b) * b < b
  {
    assert a == (a / b) * b + a % b;
    MulOrder(lo, a / b + 1, b);
    MulOrder(a / b, hi + 1, b);
  }

  lemma MulOrder(x: int, y: int, b: int)
    requires b > 0 && x * b < y * b
    ensures x < y
  {
  }

  // ---------- What a session receives over a run ----------

  function Newest<V>(window: seq<Sample<V>>): Sample<V>
    requires window != []
  {
    window[|window| - 1]
  }

  /** What is sent for a window when `data` has come. */
  type Mean<!V> = (Sample<V>, seq<Sample<V>>) --> Sample<V>

  ghost predicate Defined<V(!new)>(mean: Mean<V>) {
    forall data, window :: window != [] ==> mean.requires(data, window)
  }

  function XyzOf(data: Sample<Xyz>, window: seq<Sample<Xyz>>): Sample<Xyz>
    requires window != []
  {
    Sample(data.time, MeanXyz(window))
  }

  function FieldOf(data: Sample<Field>, window: seq<Sample<Field>>): Sample<Field>
    requires window != []
  {
    Sample(data.time, MeanField(window, data.value.level))
  }

  ghost predicate AllFilled<V>(windows: seq<seq<Sample<V>>>) {
    forall i :: 0 <= i < |windows| ==> windows[i] != []
  }

  /** What is sent carries the time of the sample that has come, and of a field its level. */
  lemma OutputsCarry(x: Sample<Xyz>, xs: seq<Sample<Xyz>>, f: Sample<Field>, fs: seq<Sample<Field>>)
    requires xs != [] && fs != []
    ensures XyzOf(x, xs).time == x.time && XyzOf(x, xs).value == MeanXyz(xs)
    ensures FieldOf(f, fs).time == f.time && FieldOf(f, fs).value.level == f.value.level
    ensures FieldOf(f, fs).value == MeanField(fs, f.value.level)
  {
  }

  /** The means of the windows, each sent with its newest sample. */
  function Outputs<V(!new)>(windows: seq<seq<Sample<V>>>, mean: Mean<V>): seq<Sample<V>>
    requires Defined(mean) && AllFilled(windows)
  {
    seq(|windows|, i requires 0 <= i < |windows| => mean(Newest(windows[i]), windows[i]))
  }

  lemma OutputsExtend<V(!new)>(windows: seq<seq<Sample<V>>>, window: seq<Sample<V>>, mean: Mean<V>)
    requires Defined(mean) && window != [] && AllFilled(windows)
    ensures AllFilled(windows + [window])
    ensures Outputs(windows + [window], mean) == Outputs(windows, mean) + [mean(Newest(window), window)]
  {
  }

  /** The inputs of a session: every sample, and whether its writes succeed at that time. */
  function InputsOf<V>(data: seq<Sample<V>>, accepts: seq<set<SessionId>>, s: SessionId): seq<Input<V>>
    requires |accepts| == |data|
  {
    seq(|data|, i requires 0 <= i < |data| => Input(data[i], s in accepts[i]))
  }

  /** Buffer and received samples of a session are those of its run, with one mean for every window sent. */
  ghost predicate Fed<V(!new)>(inputs: seq<Input<V>>, n: nat, mean: Mean<V>, samples: seq<Sample<V>>,
                               received: seq<Sample<V>>)
    requires n >= 1 && Defined(mean)
  {
    FeedIsBounded(inputs, n);
    samples == Feed(inputs, n).samples && received == Outputs(Feed(inputs, n).sent, mean)
  }

  /** Without downsampling a session receives the accepted samples themselves. */
  function Passed<V>(inputs: seq<Input<V>>): seq<Sample<V>> {
    if inputs == [] then [] else
      var input := inputs[|inputs| - 1];
      Passed(inputs[..|inputs| - 1]) + if input.accepted then [input.data] else []
  }

  /** That is, in order, all of them and no other. */
  lemma {:induction false} PassedIs<V>(inputs: seq<Input<V>>)
    ensures (forall i :: 0 <= i < |inputs| ==> inputs[i].accepted) ==> Passed(inputs) == Data(inputs)
    ensures (forall i :: 0 <= i < |inputs| ==> !inputs[i].accepted) ==> Passed(inputs) == []
  {
    if inputs != [] {
      var m := |inputs| - 1;
      PassedIs(inputs[..m]);
      assert Data(inputs) == Data(inputs[..m]) + [inputs[m].data];
    }
  }

  lemma {:induction false} PassedConcat<V>(a: seq<Input<V>>, b: seq<Input<V>>)
    ensures Passed(a + b) == Passed(a) + Passed(b)
    decreases |b|
  {
    if b == [] {
      assert a + b == a && Passed(a) + [] == Passed(a);
    } else {
      var m := |b| - 1;
      assert (a + b)[..|a + b| - 1] == a + b[..m];
      PassedConcat(a, b[..m]);
      Regroup(Passed(a), Passed(b[..m]), if b[m].accepted then [b[m].data] else []);
    }
  }

  /** In a constant window the newest sample always stays, and last. */
  lemma {:induction false} NewestStays<V>(samples: seq<Sample<V>>, i: nat, n: nat, now: Time)
    requires n >= 1 && samples != [] && samples[|samples| - 1].time == now
    requires |samples| <= n || (|samples| == n + 1 && i < n)
    ensures var kept := Trimmed(samples, i, n, now);
      kept != [] && kept[|kept| - 1] == samples[|samples| - 1]
    decreases |samples| - i
  {
    if i < |samples| && (|samples| > n || Stale(now, samples[i].time)) {
      var rest := samples[..i] + samples[i + 1..];
      if i < |rest| {
        NewestStays(rest, i + 1, n, now);
      }
    }
  }

  /** One more input adds the mean of the window it completes, if that is accepted. */
  lemma NextIsFed<V(!new)>(inputs: seq<Input<V>>, n: nat, mean: Mean<V>, samples: seq<Sample<V>>,
                           received: seq<Sample<V>>)
    requires n >= 1 && inputs != [] && Defined(mean) && Fed(inputs[..|inputs| - 1], n, mean, samples, received)
    ensures var input := inputs[|inputs| - 1];
      var pushed := Push(samples, input.data, n, input.accepted);
      (pushed.offered.Some? ==> pushed.offered.value != [] && Newest(pushed.offered.value) == input.data) &&
      Fed(inputs, n, mean, pushed.kept,
          received + if pushed.offered.Some? && input.accepted then [mean(input.data, pushed.offered.value)] else [])
  {
    var before, input := inputs[..|inputs| - 1], inputs[|inputs| - 1];
    FeedIsBounded(before, n);
    NewestStays(samples + [input.data], 0, n, input.data.time);
    var pushed := Push(samples, input.data, n, input.accepted);
    assert Feed(inputs, n) == Advance(Feed(before, n), pushed, input.accepted);
    if pushed.offered.Some? && input.accepted {
      OutputsExtend(Feed(before, n).sent, pushed.offered.value, mean);
    }
  }

  /** `output` is the mean of the `n` samples from `from` on, sent with the last of them. */
  ghost predicate IsBatchMean<V(!new)>(output: Sample<V>, data: seq<Sample<V>>, from: int, n: nat, mean: Mean<V>)
    requires n >= 1 && Defined(mean)
  {
    0 <= from <= from + n <= |data| && output == mean(data[from + n - 1], data[from..from + n])
  }

  lemma OutputIsMean<V(!new)>(sent: seq<seq<Sample<V>>>, data: seq<Sample<V>>, ends: seq<nat>, n: nat, mean: Mean<V>,
                              j: nat)
    requires n >= 1 && Defined(mean) && AllFilled(sent) && WindowsOf(sent, data, ends, n) && j < |sent|
    ensures IsBatchMean(Outputs(sent, mean)[j], data, ends[j] - n, n, mean)
  {
    assert Newest(sent[j]) == data[ends[j] - 1];
  }

  /** When all writes succeed there is one output for every `n` steady inputs: the mean of exactly those. */
  lemma BatchMeans<V(!new)>(inputs: seq<Input<V>>, n: nat, mean: Mean<V>, samples: seq<Sample<V>>,
                            received: seq<Sample<V>>)
    requires n >= 1 && Defined(mean)
    requires Steady(inputs, n) && forall i :: 0 <= i < |inputs| ==> inputs[i].accepted
    requires Fed(inputs, n, mean, samples, received)
    ensures n * |received| <= |inputs| < n * |received| + n
    ensures samples == Data(inputs)[n * |received|..]
    ensures forall j :: 0 <= j < |received| ==> IsBatchMean(received[j], Data(inputs), n * j, n, mean)
  {
    var ends := AcceptedFeed(inputs, n);
    FeedIsBounded(inputs, n);
    forall j | 0 <= j < |received|
      ensures IsBatchMean(received[j], Data(inputs), n * j, n, mean)
    {
      OutputIsMean(Feed(inputs, n).sent, Data(inputs), ends, n, mean, j);
      assert ends[j] == n * (j + 1) == n * j + n;
    }
  }

  // ---------- Runs that start with samples buffered ----------

  /** What a session has buffered, and what it has received so far. */
  datatype Serving<V> = Serving(samples: seq<Sample<V>>, received: seq<Sample<V>>)

  /** A run with a window of `n` that starts with the buffer `start`. */
  ghost function ServeFrom<V(!new)>(start: seq<Sample<V>>, inputs: seq<Input<V>>, n: nat, mean: Mean<V>): Serving<V>
    requires n >= 1 && Defined(mean)
  {
    if inputs == [] then Serving(start, []) else
      var before, input := ServeFrom(start, inputs[..|inputs| - 1], n, mean), inputs[|inputs| - 1];
      var pushed := Push(before.samples, input.data, n, input.accepted);
      Serving(pushed.kept, before.received + Sent(pushed, input, mean))
  }

  ghost function Sent<V(!new)>(pushed: Pushed<V>, input: Input<V>, mean: Mean<V>): seq<Sample<V>>
    requires Defined(mean) && (pushed.offered.Some? ==> pushed.offered.value != [])
  {
    if pushed.offered.Some? && input.accepted then [mean(input.data, pushed.offered.value)] else []
  }

  /** From an empty buffer that is a run of windows, of which each is sent as its mean. */
  lemma {:induction false} EmptyStartIsFed<V(!new)>(inputs: seq<Input<V>>, n: nat, mean: Mean<V>)
    requires n >= 1 && Defined(mean)
    ensures var end := ServeFrom([], inputs, n, mean); Fed(inputs, n, mean, end.samples, end.received)
    decreases |inputs|
  {
    if inputs != [] {
      var front := inputs[..|inputs| - 1];
      EmptyStartIsFed(front, n, mean);
      var before := ServeFrom([], front, n, mean);
      NextIsFed(inputs, n, mean, before.samples, before.received);
    }
  }

  /** A run goes on from what is buffered. */
  lemma {:induction false} ServeOn<V(!new)>(start: seq<Sample<V>>, a: seq<Input<V>>, b: seq<Input<V>>, n: nat,
                                            mean: Mean<V>)
    requires n >= 1 && Defined(mean)
    ensures var first := ServeFrom(start, a, n, mean);
      var second := ServeFrom(first.samples, b, n, mean);
      ServeFrom(start, a + b, n, mean) == Serving(second.samples, first.received + second.received)
    decreases |b|
  {
    var first := ServeFrom(start, a, n, mean);
    if b == [] {
      assert a + b == a && first.received + [] == first.received;
    } else {
      var front, input := b[..|b| - 1], b[|b| - 1];
      ServeOn(start, a, front, n, mean);
      assert (a + b)[..|a + b| - 1] == a + front;
      var between := ServeFrom(first.samples, front, n, mean);
      var pushed := Push(between.samples, input.data, n, input.accepted);
      Regroup(first.received, between.received, Sent(pushed, input, mean));
    }
  }

  /** Fewer steady samples than a window are just collected. */
  lemma {:induction false} Collecting<V(!new)>(inputs: seq<Input<V>>, n: nat, mean: Mean<V>)
    requires n >= 1 && Defined(mean) && Steady(inputs, n) && |inputs| < n
    ensures ServeFrom([], inputs, n, mean) == Serving(Data(inputs), [])
    decreases |inputs|
  {
    if inputs != [] {
      var m := |inputs| - 1;
      Collecting(inputs[..m], n, mean);
      PushCollects(inputs, n);
    }
  }

  lemma PushCollects<V>(inputs: seq<Input<V>>, n: nat)
    requires n >= 1 && Steady(inputs, n) && 0 < |inputs| < n
    ensures var m := |inputs| - 1;
      Push(Data(inputs[..m]), inputs[m].data, n, inputs[m].accepted) == Pushed(Data(inputs), None)
  {
    var m := |inputs| - 1;
    OneMore(inputs, m);
    assert Last(Data(inputs[..m]), m) == Data(inputs[..m]) && Data(inputs)[0..] == Data(inputs);
    SteadyTrim(inputs, n, 0);
  }

  /** When the window grows, the samples buffered are the first of the new one: the run is that of all since then. */
  lemma GrownWindowGoesOn<V(!new)>(buffered: seq<Input<V>>, inputs: seq<Input<V>>, n: nat, mean: Mean<V>)
    requires n >= 1 && Defined(mean) && Steady(buffered + inputs, n) && |buffered| < n
    ensures ServeFrom(Data(buffered), inputs, n, mean) == ServeFrom([], buffered + inputs, n, mean)
  {
    var all := buffered + inputs;
    forall i, j | 0 <= i <= j < |buffered| && j - i < n
      ensures 0 <= buffered[j].data.time - buffered[i].data.time <= MAX_AGE
    {
      assert all[i] == buffered[i] && all[j] == buffered[j];
    }
    Collecting(buffered, n, mean);
    ServeOn([], buffered, inputs, n, mean);
    var end := ServeFrom(Data(buffered), inputs, n, mean);
    assert [] + end.received == end.received;
  }

  ghost predicate Fresh<V>(samples: seq<Sample<V>>, now: Time) {
    forall i :: 0 <= i < |samples| ==> !Stale(now, samples[i].time)
  }

  lemma IdealIsLast<V>(samples: seq<Sample<V>>, n: nat, now: Time)
    requires Fresh(samples, now)
    ensures Ideal(samples, n, now) == Last(samples, n)
  {
    var k := IdealIsSuffix(samples, n, now);
  }

  /**
    When the window has shrunk below what is buffered, the next sample sends a
    window that is too large or has gaps, unless just one sample had to go.
   */
  lemma ShrunkWindowIsRightIff<V>(start: seq<Sample<V>>, data: Sample<V>, n: nat)
    requires n >= 1 && |start| >= n && Rising(start + [data]) && Fresh(start + [data], data.time)
    ensures var pushed := Push(start, data, n, true);
      pushed.offered.Some? && |pushed.offered.value| >= n && pushed.kept == [] &&
      (pushed.offered.value == Last(start + [data], n) <==> |start| == n)
  {
    TrimmedSize(start + [data], 0, n, data.time);
    IdealIsLast(start + [data], n, data.time);
    TrimIsIdealIff(start + [data], n);
  }

  /** When that window is accepted, the run goes on as from an empty buffer. */
  lemma ShrunkWindowGoesOn<V(!new)>(start: seq<Sample<V>>, input: Input<V>, rest: seq<Input<V>>, n: nat, mean: Mean<V>)
    requires n >= 1 && Defined(mean) && input.accepted
    requires var pushed := Push(start, input.data, n, true); pushed.offered.Some? && pushed.offered.value != []
    ensures var sent := mean(input.data, Push(start, input.data, n, true).offered.value);
      var after := ServeFrom([], rest, n, mean);
      ServeFrom(start, [input] + rest, n, mean) == Serving(after.samples, [sent] + after.received)
  {
    var sent := mean(input.data, Push(start, input.data, n, true).offered.value);
    assert [input][..0] == [] && ServeFrom(start, [], n, mean) == Serving(start, []);
    assert [] + [sent] == [sent] && ServeFrom(start, [input], n, mean) == Serving([], [sent]);
    ServeOn(start, [input], rest, n, mean);
  }

  // ---------- The channel ----------

  /** What a sample does for one session: the new buffer, and what is written to the session. */
  datatype Outcome<B, W> = Outcome(kept: B, write: Option<W>)

  function At<B>(buffer: map<SessionId, B>, s: SessionId, empty: B): B {
    if s in buffer then buffer[s] else empty
  }

  /** The sessions of `plan` have had their outcomes; for all others nothing changed or was written. */
  ghost predicate Merged<B, W>(plan: map<SessionId, Outcome<B, W>>, buffer: map<SessionId, B>, empty: B,
                               next: map<SessionId, B>, writes: map<SessionId, W>) {
    (forall s :: At(next, s, empty) == if s in plan then plan[s].kept else At(buffer, s, empty)) &&
    (forall s :: (if s in writes then Some(writes[s]) else None) == if s in plan then plan[s].write else None)
  }

  /** What the sessions have received after one more write each, of which those to `accepts` succeed. */
  function Extended<W>(received: map<SessionId, seq<W>>, writes: map<SessionId, W>, accepts: set<SessionId>)
    : map<SessionId, seq<W>>
  {
    map s | s in received.Keys + writes.Keys ::
      At(received, s, []) + if s in writes && s in accepts then [writes[s]] else []
  }

  function Requested(intervals: IntervalMap, s: SessionId): Interval {
    if s in intervals then intervals[s] else 0
  }

  class Channel {
    const downsamplingSupported: bool
    var count: int
    var activeSessions: set<SessionId>
    var downsampling: map<SessionId, bool>

    ghost predicate Valid()
      reads this
    {
      count == |activeSessions| && (downsampling == map[] || downsamplingSupported)
    }

    constructor (supported: bool)
      ensures Valid() && activeSessions == {} && downsampling == map[] && downsamplingSupported == supported
    {
      downsamplingSupported := supported;
      count, activeSessions, downsampling := 0, {}, map[];
    }

    predicate Running()
      reads this
    {
      count > 0
    }

    method Start() returns (first: bool)
      modifies `count
      ensures count == old(count) + 1 && first == (old(count) == 0)
    {
      count := count + 1;
      first := count == 1;
    }

    method Stop() returns (last: bool)
      modifies `count
      ensures count == (if old(count) > 0 then old(count) - 1 else 0) && last == (old(count) == 1)
    {
      count := count - 1;
      if count == 0 {
        return true;
      }
      if count < 0 {
        count := 0;
      }
      last := false;
    }

    /** The hardware is to start exactly with the first session. */
    method StartSession(s: SessionId) returns (first: bool)
      requires Valid()
      modifies `count, `activeSessions
      ensures Valid() && activeSessions == old(activeSessions) + {s}
      ensures first <==> old(activeSessions) == {}
      ensures Running()
    {
      if s !in activeSessions {
        activeSessions := activeSessions + {s};
        first := Start();
        return first;
      }
      return false;
    }

    /** The hardware is to stop exactly when the last session went. */
    method StopSession(s: SessionId) returns (last: bool)
      requires Valid()
      modifies `count, `activeSessions, `downsampling
      ensures Valid() && activeSessions == old(activeSessions) - {s}
      ensures last <==> s in old(activeSessions) && activeSessions == {}
      ensures Running() <==> activeSessions != {}
      ensures downsampling == if s in old(activeSessions) then old(downsampling) - {s} else old(downsampling)
    {
      if s in activeSessions {
        activeSessions := activeSessions - {s};
        downsampling := downsampling - {s};
        last := Stop();
        return last;
      }
      return false;
    }

    /** A supported setting takes effect for sessions that have asked for an interval; an unsupported one is ignored. */
    method SetDownsamplingEnabled(s: SessionId, value: bool)
      requires Valid()
      modifies `downsampling
      ensures Valid()
      ensures downsampling == if downsamplingSupported then old(downsampling)[s := value] else old(downsampling)
      ensures forall intervals: IntervalMap ::
                DownsamplingEnabled(s, intervals) <==>
                downsamplingSupported && value && s in intervals && intervals[s] != 0
    {
      if downsamplingSupported {
        downsampling := downsampling[s := value];
      }
    }

    predicate DownsamplingEnabled(s: SessionId, intervals: IntervalMap)
      reads `downsampling
    {
      if s !in downsampling then downsamplingSupported else downsampling[s] && Requested(intervals, s) != 0
    }

    /** A session that has not said anything is downsampled whenever that is supported; otherwise none ever is. */
    lemma DownsamplingDefault(s: SessionId, intervals: IntervalMap)
      requires Valid()
      ensures s !in downsampling ==> (DownsamplingEnabled(s, intervals) <==> downsamplingSupported)
      ensures DownsamplingEnabled(s, intervals) ==> downsamplingSupported
      ensures s in downsampling ==>
                (DownsamplingEnabled(s, intervals) <==> downsampling[s] && s in intervals && intervals[s] != 0)
      ensures Requested(intervals, s) == if s in intervals then intervals[s] else 0
    {
    }

    /** Without downsampling the sample itself is written, else the mean of a filled window. */
    function OutcomeFor<V(!new)>(s: SessionId, data: Sample<V>, samples: seq<Sample<V>>, intervals: IntervalMap,
                                 current: Interval, accepted: bool, mean: Mean<V>): Outcome<seq<Sample<V>>, Sample<V>>
      requires Defined(mean)
      reads `downsampling
    {
      if !DownsamplingEnabled(s, intervals) then Outcome(samples, Some(data)) else
        var pushed := Push(samples, data, Window(Requested(intervals, s), current), accepted);
        Outcome(pushed.kept, if pushed.offered.None? then None else Some(mean(data, pushed.offered.value)))
    }

    ghost function Plan<V(!new)>(data: Sample<V>, buffer: SampleMap<V>, intervals: IntervalMap, current: Interval,
                                 accepts: set<SessionId>, mean: Mean<V>)
      : map<SessionId, Outcome<seq<Sample<V>>, Sample<V>>>
      requires Defined(mean)
      reads this
    {
      map s | s in activeSessions :: OutcomeFor(s, data, At(buffer, s, []), intervals, current, s in accepts, mean)
    }

    /** What is true of every active session after the samples `data`. */
    ghost predicate Served<V(!new)>(s: SessionId, data: seq<Sample<V>>, intervals: IntervalMap, current: Interval,
                                    accepts: seq<set<SessionId>>, mean: Mean<V>, start: seq<Sample<V>>,
                                    end: Serving<V>)
      requires |accepts| == |data| && Defined(mean)
      reads `downsampling
    {
      var inputs := InputsOf(data, accepts, s);
      if DownsamplingEnabled(s, intervals)
      then end == ServeFrom(start, inputs, Window(Requested(intervals, s), current), mean)
      else end == Serving(start, Passed(inputs))
    }

    lemma ServeNext<V(!new)>(s: SessionId, data: seq<Sample<V>>, intervals: IntervalMap, current: Interval,
                             accepts: seq<set<SessionId>>, mean: Mean<V>, start: seq<Sample<V>>, end: Serving<V>)
      requires |accepts| == |data| > 0 && Defined(mean)
      requires Served(s, data[..|data| - 1], intervals, current, accepts[..|data| - 1], mean, start, end)
      ensures var newest, accepted := data[|data| - 1], s in accepts[|data| - 1];
        var outcome := OutcomeFor(s, newest, end.samples, intervals, current, accepted, mean);
        Served(s, data, intervals, current, accepts, mean, start,
               Serving(outcome.kept,
                       end.received + if outcome.write.Some? && accepted then [outcome.write.value] else []))
    {
      var inputs := InputsOf(data, accepts, s);
      assert inputs[..|data| - 1] == InputsOf(data[..|data| - 1], accepts[..|data| - 1], s);
    }

    ghost predicate AllServed<V(!new)>(data: seq<Sample<V>>, intervals: IntervalMap, current: Interval,
                                       accepts: seq<set<SessionId>>, mean: Mean<V>, start: SampleMap<V>,
                                       buffer: SampleMap<V>, received: SampleMap<V>)
      requires |accepts| == |data| && Defined(mean)
      reads this
    {
      forall s :: s in activeSessions ==>
                    Served(s, data, intervals, current, accepts, mean, At(start, s, []),
                           Serving(At(buffer, s, []), At(received, s, [])))
    }

    /** One more sample serves all active sessions once more. */
    lemma NextServed<V(!new)>(data: seq<Sample<V>>, k: nat, intervals: IntervalMap, current: Interval,
                              accepts: seq<set<SessionId>>, mean: Mean<V>, start: SampleMap<V>, buffer: SampleMap<V>,
                              next: SampleMap<V>, received: SampleMap<V>, writes: map<SessionId, Sample<V>>)
      requires k < |data| == |accepts| && Defined(mean)
      requires AllServed(data[..k], intervals, current, accepts[..k], mean, start, buffer, received)
      requires Merged(Plan(data[k], buffer, intervals, current, accepts[k], mean), buffer, [], next, writes)
      ensures AllServed(data[..k + 1], intervals, current, accepts[..k + 1], mean, start, next,
                        Extended(received, writes, accepts[k]))
    {
      var plan := Plan(data[k], buffer, intervals, current, accepts[k], mean);
      assert data[..k + 1][..k] == data[..k] && accepts[..k + 1][..k] == accepts[..k];
      forall s | s in activeSessions
        ensures Served(s, data[..k + 1], intervals, current, accepts[..k + 1], mean, At(start, s, []),
                       Serving(At(next, s, []), At(Extended(received, writes, accepts[k]), s, [])))
      {
        OutcomeOf(plan, buffer, [], next, writes, s);
        ExtendedAt(received, writes, accepts[k], s);
        ServeNext(s, data[..k + 1], intervals, current, accepts[..k + 1], mean, At(start, s, []),
                  Serving(At(buffer, s, []), At(received, s, [])));
      }
    }

    /** Passes a sample on; `accepts` are the sessions that a write succeeds for. */
    method DownsampleXyz(data: Sample<Xyz>, buffer: SampleMap<Xyz>, intervals: IntervalMap, current: Interval,
                         accepts: set<SessionId>)
      returns (ok: bool, next: SampleMap<Xyz>, writes: map<SessionId, Sample<Xyz>>)
      ensures Merged(Plan(data, buffer, intervals, current, accepts, XyzOf), buffer, [], next, writes)
      ensures ok <==> writes.Keys <= accepts
    {
      ok, next, writes := true, buffer, map[];
      ghost var plan := Plan(data, buffer, intervals, current, accepts, XyzOf);
      var left := activeSessions;
      while left != {}
        invariant left <= activeSessions
        invariant Merged(plan - left, buffer, [], next, writes)
        invariant ok <==> writes.Keys <= accepts
        decreases |left|
      {
        assert (forall k :: k !in left) ==> left == {};
        var s :| s in left;
        MergeStep(plan, left, s, buffer, [], next, writes);
        left := left - {s};
        var outcome := HandleXyz(s, data, At(next, s, []), intervals, current, s in accepts);
        assert outcome == plan[s];
        if DownsamplingEnabled(s, intervals) {
          next := next[s := outcome.kept];
        }
        if outcome.write.Some? {
          writes := writes[s := outcome.write.value];
          ok := ok && s in accepts;
        }
      }
      assert plan - {} == plan;
    }

    method HandleXyz(s: SessionId, data: Sample<Xyz>, buffered: seq<Sample<Xyz>>, intervals: IntervalMap,
                     current: Interval, accepted: bool)
      returns (outcome: Outcome<seq<Sample<Xyz>>, Sample<Xyz>>)
      ensures outcome == OutcomeFor(s, data, buffered, intervals, current, accepted, XyzOf)
    {
      if !DownsamplingEnabled(s, intervals) {
        return Outcome(buffered, Some(data));
      }
      var n := Window(Requested(intervals, s), current);
      var samples := Trim(buffered + [data], n, data.time);
      if |samples| < n {
        return Outcome(samples, None);
      }
      var mean := AverageXyz(samples);
      outcome := Outcome(if accepted then [] else samples, Some(Sample(data.time, mean)));
    }

    /** Passes on sample after sample, from any buffers; `accepts` are the sessions that each is written to. */
    method RunXyz(data: seq<Sample<Xyz>>, start: SampleMap<Xyz>, intervals: IntervalMap, current: Interval,
                  accepts: seq<set<SessionId>>)
      returns (buffer: SampleMap<Xyz>, received: SampleMap<Xyz>)
      requires |accepts| == |data|
      ensures AllServed(data, intervals, current, accepts, XyzOf, start, buffer, received)
    {
      buffer, received := start, map[];
      for i := 0 to |data|
        invariant AllServed(data[..i], intervals, current, accepts[..i], XyzOf, start, buffer, received)
      {
        var _, next, writes := DownsampleXyz(data[i], buffer, intervals, current, accepts[i]);
        NextServed(data, i, intervals, current, accepts, XyzOf, start, buffer, next, received, writes);
        buffer, received := next, Extended(received, writes, accepts[i]);
      }
      assert data[..|data|] == data && accepts[..|data|] == accepts;
    }

    method AverageXyz(samples: seq<Sample<Xyz>>) returns (mean: Xyz)
      requires samples != []
      ensures mean == MeanXyz(samples)
    {
      var x, y, z := 0.0, 0.0, 0.0;
      for i := 0 to |samples|
        invariant x == SumOf(samples[..i], X) && y == SumOf(samples[..i], Y) && z == SumOf(samples[..i], Z)
      {
        assert samples[..i + 1][..i] == samples[..i];
        x, y, z := x + samples[i].value.x, y + samples[i].value.y, z + samples[i].value.z;
      }
      assert samples[..|samples|] == samples;
      var n := |samples| as real;
      mean := Xyz(x / n, y / n, z / n);
    }

    /** Passes a sample on; `accepts` are the sessions that a write succeeds for. */
    method DownsampleField(data: Sample<Field>, buffer: SampleMap<Field>, intervals: IntervalMap, current: Interval,
                         accepts: set<SessionId>)
      returns (ok: bool, next: SampleMap<Field>, writes: map<SessionId, Sample<Field>>)
      ensures Merged(Plan(data, buffer, intervals, current, accepts, FieldOf), buffer, [], next, writes)
      ensures ok <==> writes.Keys <= accepts
    {
      ok, next, writes := true, buffer, map[];
      ghost var plan := Plan(data, buffer, intervals, current, accepts, FieldOf);
      var left := activeSessions;
      while left != {}
        invariant left <= activeSessions
        invariant Merged(plan - left, buffer, [], next, writes)
        invariant ok <==> writes.Keys <= accepts
        decreases |left|
      {
        assert (forall k :: k !in left) ==> left == {};
        var s :| s in left;
        MergeStep(plan, left, s, buffer, [], next, writes);
        left := left - {s};
        var outcome := HandleField(s, data, At(next, s, []), intervals, current, s in accepts);
        assert outcome == plan[s];
        if DownsamplingEnabled(s, intervals) {
          next := next[s := outcome.kept];
        }
        if outcome.write.Some? {
          writes := writes[s := outcome.write.value];
          ok := ok && s in accepts;
        }
      }
      assert plan - {} == plan;
    }

    method HandleField(s: SessionId, data: Sample<Field>, buffered: seq<Sample<Field>>, intervals: IntervalMap,
                     current: Interval, accepted: bool)
      returns (outcome: Outcome<seq<Sample<Field>>, Sample<Field>>)
      ensures outcome == OutcomeFor(s, data, buffered, intervals, current, accepted, FieldOf)
    {
      if !DownsamplingEnabled(s, intervals) {
        return Outcome(buffered, Some(data));
      }
      var n := Window(Requested(intervals, s), current);
      var samples := Trim(buffered + [data], n, data.time);
      if |samples| < n {
        return Outcome(samples, None);
      }
      var mean := AverageField(samples, data.value.level);
      outcome := Outcome(if accepted then [] else samples, Some(Sample(data.time, mean)));
    }

    /** Passes on sample after sample, from any buffers; `accepts` are the sessions that each is written to. */
    method RunField(data: seq<Sample<Field>>, start: SampleMap<Field>, intervals: IntervalMap, current: Interval,
                  accepts: seq<set<SessionId>>)
      returns (buffer: SampleMap<Field>, received: SampleMap<Field>)
      requires |accepts| == |data|
      ensures AllServed(data, intervals, current, accepts, FieldOf, start, buffer, received)
    {
      buffer, received := start, map[];
      for i := 0 to |data|
        invariant AllServed(data[..i], intervals, current, accepts[..i], FieldOf, start, buffer, received)
      {
        var _, next, writes := DownsampleField(data[i], buffer, intervals, current, accepts[i]);
        NextServed(data, i, intervals, current, accepts, FieldOf, start, buffer, next, received, writes);
        buffer, received := next, Extended(received, writes, accepts[i]);
      }
      assert data[..|data|] == data && accepts[..|data|] == accepts;
    }

    method AverageField(samples: seq<Sample<Field>>, level: int) returns (mean: Field)
      requires samples != []
      ensures mean == MeanField(samples, level)
    {
      var x, y, z, rx, ry, rz := 0, 0, 0, 0, 0, 0;
      for i := 0 to |samples|
        invariant x == CountOf(samples[..i], FieldX) && y == CountOf(samples[..i], FieldY)
        invariant z == CountOf(samples[..i], FieldZ) && rx == CountOf(samples[..i], RawX)
        invariant ry == CountOf(samples[..i], RawY) && rz == CountOf(samples[..i], RawZ)
      {
        assert samples[..i + 1][..i] == samples[..i];
        var v := samples[i].value;
        x, y, z, rx, ry, rz := x + v.x, y + v.y, z + v.z, rx + v.rx, ry + v.ry, rz + v.rz;
      }
      assert samples[..|samples|] == samples;
      var n := |samples|;
      mean := Field(Quotient(x, n), Quotient(y, n), Quotient(z, n), Quotient(rx, n), Quotient(ry, n), Quotient(rz, n),
                    level);
    }
  }

  lemma OutcomeOf<B, W>(plan: map<SessionId, Outcome<B, W>>, buffer: map<SessionId, B>, empty: B,
                        next: map<SessionId, B>, writes: map<SessionId, W>, s: SessionId)
    requires s in plan && Merged(plan, buffer, empty, next, writes)
    ensures plan[s] == Outcome(At(next, s, empty), if s in writes then Some(writes[s]) else None)
  {
    assert At(next, s, empty) == plan[s].kept;
  }

  lemma ExtendedAt<W>(received: map<SessionId, seq<W>>, writes: map<SessionId, W>, accepts: set<SessionId>,
                      s: SessionId)
    ensures At(Extended(received, writes, accepts), s, [])
         == At(received, s, []) + if s in writes && s in accepts then [writes[s]] else []
  {
  }

  /** One more session has had its outcome. */
  lemma MergeStep<B, W>(plan: map<SessionId, Outcome<B, W>>, left: set<SessionId>, s: SessionId,
                        buffer: map<SessionId, B>, empty: B, next: map<SessionId, B>, writes: map<SessionId, W>)
    requires s in plan && s in left && Merged(plan - left, buffer, empty, next, writes)
    ensures At(next, s, empty) == At(buffer, s, empty) && s !in writes
    ensures var written := if plan[s].write.Some? then writes[s := plan[s].write.value] else writes;
      Merged(plan - (left - {s}), buffer, empty, next[s := plan[s].kept], written) &&
      (plan[s].kept == At(buffer, s, empty) ==> Merged(plan - (left - {s}), buffer, empty, next, written))
  {
    var before := plan - left;
    assert s !in before && At(next, s, empty) == At(buffer, s, empty);
    var written := if plan[s].write.Some? then writes[s := plan[s].write.value] else writes;
    forall t
      ensures t != s ==> (t in plan - (left - {s}) <==> t in before)
      ensures t != s ==> At(next[s := plan[s].kept], t, empty) == At(next, t, empty)
      ensures t != s ==> (t in written <==> t in writes)
    {
    }
  }
}
