/** Interval requests of a node: validation against the introduced ranges and arbitration. */
module Intervals {
  import opened Sessions

  /** An introduced interval range, in microseconds. */
  datatype IntervalRange = IntervalRange(min: nat, max: nat) {
    predicate Contains(interval: nat) {
      min <= interval <= max
    }

    /** The end of the range that `interval` lies beyond, or `interval` itself. */
    function Clamp(interval: nat): nat {
      if interval < min then min else if interval > max then max else interval
    }

    function Error(interval: nat): nat {
      Distance(Clamp(interval), interval)
    }
  }

  function Distance(a: nat, b: nat): nat {
    if a < b then b - a else a - b
  }

  const MAX_ERROR: nat := 0x7fffffff

  // ---------- Validation ----------

  /** Range `k` is the first of those with the least error, and that error is small enough. */
  ghost predicate Nearest(ranges: seq<IntervalRange>, interval: nat, k: nat) {
    && k < |ranges|
    && ranges[k].Error(interval) < MAX_ERROR
    && (forall j :: 0 <= j < k ==> ranges[k].Error(interval) < ranges[j].Error(interval))
    && (forall j :: k <= j < |ranges| ==> ranges[k].Error(interval) <= ranges[j].Error(interval))
  }

  ghost function Validated(ranges: seq<IntervalRange>, interval: nat): nat {
    if interval > 0 && exists k: nat :: Nearest(ranges, interval, k)
    then var k: nat :| Nearest(ranges, interval, k); ranges[k].Clamp(interval)
    else 0
  }

  /** Among the first `i` ranges, none of which contains the request, the nearest one, if any is near enough. */
  ghost predicate Scanned(ranges: seq<IntervalRange>, i: nat, interval: nat, minError: nat, validated: nat, best: nat)
    requires i <= |ranges|
  {
    && minError <= MAX_ERROR
    && (forall j :: 0 <= j < i ==> 0 < minError <= ranges[j].Error(interval))
    && (if minError == MAX_ERROR then validated == 0
        else best < i && validated == ranges[best].Clamp(interval) && minError == ranges[best].Error(interval)
             && forall j :: 0 <= j < best ==> minError < ranges[j].Error(interval))
  }

  method ValidateIntervalRequest(ranges: seq<IntervalRange>, interval: nat) returns (validated: nat)
    ensures validated == Validated(ranges, interval)
  {
    validated := 0;
    if interval > 0 {
      var minError: nat := MAX_ERROR;
      ghost var best: nat := 0;
      for i := 0 to |ranges|
        invariant Scanned(ranges, i, interval, minError, validated, best)
      {
        var range := ranges[i];
        if interval < range.min {
          var error := range.min - interval;
          if minError > error {
            minError := error;
            validated := range.min;
            best := i;
          }
        } else if interval > range.max {
          var error := interval - range.max;
          if minError > error {
            minError := error;
            validated := range.max;
            best := i;
          }
        } else {
          validated := interval;
          assert Nearest(ranges, interval, i);
          return;
        }
      }
      assert minError < MAX_ERROR ==> Nearest(ranges, interval, best);
    }
  }

  ghost predicate WellFormed(ranges: seq<IntervalRange>) {
    forall r :: r in ranges ==> r.min <= r.max
  }

  /** A valid setting: 0, which is reserved for hardware wakeup, or a point of a range. */
  ghost predicate Valid(ranges: seq<IntervalRange>, interval: nat) {
    interval == 0 || exists r :: r in ranges && r.Contains(interval)
  }

  lemma ValidatedIsValid(ranges: seq<IntervalRange>, interval: nat)
    requires WellFormed(ranges)
    ensures Valid(ranges, Validated(ranges, interval))
  {
    if interval > 0 && exists k: nat :: Nearest(ranges, interval, k) {
      var k: nat :| Nearest(ranges, interval, k) && Validated(ranges, interval) == ranges[k].Clamp(interval);
      assert ranges[k] in ranges && ranges[k].Contains(ranges[k].Clamp(interval));
    }
  }

  /** A valid request is returned unchanged, and only a valid one is. */
  lemma ValidIsFixed(ranges: seq<IntervalRange>, interval: nat)
    requires WellFormed(ranges)
    ensures Validated(ranges, interval) == interval <==> Valid(ranges, interval)
  {
    ValidatedIsValid(ranges, interval);
    if interval > 0 && Valid(ranges, interval) {
      var r :| r in ranges && r.Contains(interval);
      var k := FirstContaining(ranges, interval);
      assert Nearest(ranges, interval, k);
    }
  }

  lemma {:induction false} FirstContaining(ranges: seq<IntervalRange>, interval: nat) returns (k: nat)
    requires exists r :: r in ranges && r.Contains(interval)
    ensures k < |ranges| && ranges[k].Contains(interval)
    ensures forall j :: 0 <= j < k ==> !ranges[j].Contains(interval)
  {
    if ranges[0].Contains(interval) {
      k := 0;
    } else {
      var l := FirstContaining(ranges[1..], interval);
      k := l + 1;
    }
  }

  lemma ValidationIsIdempotent(ranges: seq<IntervalRange>, interval: nat)
    requires WellFormed(ranges)
    ensures Validated(ranges, Validated(ranges, interval)) == Validated(ranges, interval)
  {
    ValidatedIsValid(ranges, interval);
    ValidIsFixed(ranges, Validated(ranges, interval));
  }

  /** No point of any range is closer to the request than the answer. */
  lemma ValidatedIsClosest(ranges: seq<IntervalRange>, interval: nat, r: IntervalRange, v: nat)
    requires r in ranges && r.Contains(v)
    requires interval > 0 && exists k: nat :: Nearest(ranges, interval, k)
    ensures Distance(Validated(ranges, interval), interval) <= Distance(v, interval)
  {
    var j :| 0 <= j < |ranges| && ranges[j] == r;
    assert r.Error(interval) <= Distance(v, interval);
    assert forall k: nat :: Nearest(ranges, interval, k) ==> ranges[k].Error(interval) <= ranges[j].Error(interval);
  }

  /** The answer falls back to 0 exactly when every range is too far away (or offers 0 itself). */
  lemma {:induction false} FallsBackIff(ranges: seq<IntervalRange>, interval: nat)
    requires interval > 0
    ensures (exists k: nat :: Nearest(ranges, interval, k)) <==>
            (exists r :: r in ranges && r.Error(interval) < MAX_ERROR)
  {
    if exists k: nat :: Nearest(ranges, interval, k) {
      var k: nat :| Nearest(ranges, interval, k);
      assert ranges[k] in ranges;
    }
    if exists r :: r in ranges && r.Error(interval) < MAX_ERROR {
      var r :| r in ranges && r.Error(interval) < MAX_ERROR;
      var k := FirstLeast(ranges, interval);
      assert Nearest(ranges, interval, k);
    }
  }

  lemma {:induction false} FirstLeast(ranges: seq<IntervalRange>, interval: nat) returns (k: nat)
    requires ranges != []
    ensures k < |ranges|
    ensures forall j :: 0 <= j < k ==> ranges[k].Error(interval) < ranges[j].Error(interval)
    ensures forall j :: k <= j < |ranges| ==> ranges[k].Error(interval) <= ranges[j].Error(interval)
  {
    k := 0;
    if |ranges| > 1 {
      var l := FirstLeast(ranges[1..], interval);
      assert forall j :: 1 <= j < |ranges| ==> ranges[j] == ranges[1..][j - 1];
      if ranges[l + 1].Error(interval) < ranges[0].Error(interval) {
        k := l + 1;
      }
    }
  }

  /** Of two ranges that are equally near the first one answers; a nearer one always does. */
  lemma FirstAnswersTies(a: IntervalRange, b: IntervalRange, interval: nat)
    requires interval > 0 && Distance(a.Clamp(interval), interval) < 0x7fffffff
    ensures Validated([a, b], interval) ==
            if Distance(a.Clamp(interval), interval) <= Distance(b.Clamp(interval), interval)
            then a.Clamp(interval) else b.Clamp(interval)
  {
    assert Nearest([a, b], interval, if a.Error(interval) <= b.Error(interval) then 0 else 1);
  }

  /** Too low requests are raised to the start of a range, too high ones lowered to its end. */
  lemma ClampIs(r: IntervalRange, interval: nat)
    requires r.min <= r.max
    ensures r.min <= r.Clamp(interval) <= r.max
    ensures interval < r.min ==> r.Clamp(interval) == r.min
    ensures interval > r.max ==> r.Clamp(interval) == r.max
    ensures r.Contains(interval) ==> r.Clamp(interval) == interval
  {
  }

  // ---------- Arbitration ----------

  ghost predicate SomePositive(requests: map<SessionId, nat>) {
    exists s :: s in requests && requests[s] > 0
  }

  /** `session` wins with `interval`: the least positive request, the lowest session id on ties. */
  ghost predicate Wins(requests: map<SessionId, nat>, default: nat, session: SessionId, interval: nat) {
    if requests == map[] then
      session == -1 && interval == default
    else if SomePositive(requests) then
      && session in requests && interval == requests[session] > 0
      && forall s :: s in requests && requests[s] > 0 ==>
                       interval < requests[s] || (interval == requests[s] && session <= s)
    else
      // all requests are 0: the highest session id wins with the default
      && session in requests && interval == default
      && forall s :: s in requests ==> s <= session
  }

  lemma WinnerIsUnique(requests: map<SessionId, nat>, default: nat, s: SessionId, i: nat, t: SessionId, j: nat)
    requires Wins(requests, default, s, i) && Wins(requests, default, t, j)
    ensures s == t && i == j
  {
  }

  /**
    Nobody who asked for an interval gets data more slowly; it is what somebody
    asked for; and if only zeros or nothing were asked for, it is the default.
   */
  lemma FastestWins(requests: map<SessionId, nat>, default: nat, session: SessionId, interval: nat)
    requires Wins(requests, default, session, interval)
    ensures forall s :: s in requests && requests[s] > 0 ==> 0 < interval <= requests[s]
    ensures (exists s :: s in requests && requests[s] > 0) ==>
              session in requests && requests[session] == interval
              && forall s :: s in requests && requests[s] == interval ==> session <= s
    ensures (forall s :: s in requests ==> requests[s] == 0) ==>
              interval == default && forall s :: s in requests ==> s <= session
    ensures session in requests || (requests == map[] && session == -1)
  {
    assert SomePositive(requests) <==> exists s :: s in requests && requests[s] > 0;
  }

  lemma {:induction false} LeastKey(keys: set<SessionId>) returns (least: SessionId)
    requires keys != {}
    ensures least in keys && forall s :: s in keys ==> least <= s
    decreases |keys|
  {
    assert (forall k :: k !in keys) ==> keys == {};
    least :| least in keys;
    var rest := keys - {least};
    assert keys == {least} + rest;
    if rest != {} {
      var l := LeastKey(rest);
      least := if l < least then l else least;
    }
  }

  /** Visits the requests in ascending order of the session ids. */
  method EvaluateIntervalRequests(requests: map<SessionId, nat>, default: nat)
    returns (session: SessionId, interval: nat)
    ensures Wins(requests, default, session, interval)
  {
    session, interval := -1, 0;
    var rest := requests.Keys;
    ghost var seen: set<SessionId> := {};
    while rest != {}
      invariant seen + rest == requests.Keys
      invariant forall s, t :: s in seen && t in rest ==> s < t
      invariant seen == {} ==> session == -1 && interval == 0
      invariant seen != {} ==> session in seen && interval == requests[session]
      invariant interval == 0 ==> forall s :: s in seen ==> requests[s] == 0 && s <= session
      invariant interval > 0 ==>
                  forall s :: s in seen && requests[s] > 0 ==>
                                interval < requests[s] || (interval == requests[s] && session <= s)
      decreases rest
    {
      ghost var least := LeastKey(rest);
      var s :| s in rest && forall t :: t in rest ==> s <= t;
      if (requests[s] > 0 && requests[s] < interval) || interval == 0 {
        interval := requests[s];
        session := s;
      }
      seen, rest := seen + {s}, rest - {s};
    }
    assert seen == requests.Keys;
    if interval == 0 {
      interval := default;
    }
  }
}
