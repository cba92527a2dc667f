/** Which events the adaptors are shown, over single events and over whole runs of the sensor manager. */
module HybrisDelivery {
  import opened HybrisManager
  import opened Lists

  lemma {:induction false} ShownConcat(c: Config, a: seq<Event>, b: seq<Event>)
    ensures c.ShownAll(a + b) == c.ShownAll(a) + c.ShownAll(b)
    decreases |b|
  {
    if b == [] {
      assert a + b == a;
    } else {
      assert (a + b)[..|a + b| - 1] == a + b[..|b| - 1];
      ShownConcat(c, a, b[..|b| - 1]);
    }
  }

  lemma {:induction false} ProcessAllDelivers(s: State, c: Config, events: seq<Event>)
    ensures s.ProcessAll(c, events).delivered == s.delivered + c.ShownAll(events)
    decreases |events|
  {
    if events != [] {
      var e := events[|events| - 1];
      ProcessAllDelivers(s, c, events[..|events| - 1]);
      var t := s.ProcessAll(c, events[..|events| - 1]);
      SetActiveFrame(t.(delivered := t.delivered + c.Shown(e)), c, c.Booked(e), false);
    }
  }

  /** What one event hands on: a secondary's only if it is one-shot, and then as a wake-up of the primary. */
  lemma ProcessHandsOn(s: State, c: Config, e: Event)
    requires c.Valid()
    ensures s.Process(c, e).delivered == s.delivered +
                                         if e.sensor !in c.secondaries then [e]
                                         else if e.sensor in c.oneshot then [Event(c.primary, c.primaryKind, 1)]
                                         else []
  {
    SetActiveFrame(s.(delivered := s.delivered + c.Shown(e)), c, c.Booked(e), false);
  }

  /** The number of events of a sensor. */
  function Count(events: seq<Event>, h: Handle): nat {
    if events == [] then 0
    else Count(events[..|events| - 1], h) + if events[|events| - 1].sensor == h then 1 else 0
  }

  /** The number of events of the primary and of one-shot secondaries. */
  function WakeUps(c: Config, events: seq<Event>): nat {
    if events == [] then 0
    else
      var h := events[|events| - 1].sensor;
      WakeUps(c, events[..|events| - 1]) + if h == c.primary || (h in c.secondaries && h in c.oneshot) then 1 else 0
  }

  /** The events of sensors outside the wake-up group, in order. */
  function Outside(c: Config, events: seq<Event>): seq<Event> {
    if events == [] then []
    else
      var e := events[|events| - 1];
      Outside(c, events[..|events| - 1]) + if e.sensor == c.primary || e.sensor in c.secondaries then [] else [e]
  }

  /**
    No event of a secondary is shown as such; each wake-up is shown as one event
    of the primary; and all other events are shown as they are, in order.
   */
  lemma {:induction false} ShownAllMeans(c: Config, events: seq<Event>)
    requires c.Valid()
    ensures forall e :: e in c.ShownAll(events) ==> e.sensor !in c.secondaries
    ensures Count(c.ShownAll(events), c.primary) == WakeUps(c, events)
    ensures Outside(c, c.ShownAll(events)) == Outside(c, events)
  {
    if events != [] {
      var front, e := events[..|events| - 1], events[|events| - 1];
      ShownAllMeans(c, front);
      var before, shown := c.ShownAll(front), c.Shown(e);
      if shown == [] {
        assert before + shown == before;
      } else {
        assert shown == [shown[0]] && (before + shown)[..|before|] == before;
      }
    }
  }

  /** So processing hands on as many wake-ups of the primary as there were, and nothing of a secondary. */
  lemma ProcessingCountsWakeUps(s: State, c: Config, events: seq<Event>)
    requires c.Valid()
    ensures var shown := c.ShownAll(events);
      && s.ProcessAll(c, events).delivered == s.delivered + shown
      && Count(shown, c.primary) == WakeUps(c, events) && Outside(c, shown) == Outside(c, events)
      && forall e :: e in shown ==> e.sensor !in c.secondaries
  {
    ProcessAllDelivers(s, c, events);
    ShownAllMeans(c, events);
  }

  /** What has been delivered, and what the events on their way will show. */
  ghost function Account(s: State, c: Config): seq<Event> {
    s.delivered + c.ShownAll(s.pipe + s.raw)
  }

  /** Of the events in the backend and those fired in a run, those whose batch is not dropped, in order. */
  ghost function Surviving(raw: seq<Event>, ops: seq<Op>): seq<Event>
    decreases |ops|
  {
    if ops == [] then raw
    else
      match ops[0]
      case Fire(e) => Surviving(raw + [e], ops[1..])
      case QueueEvents(n, intact) =>
        var k := if n <= |raw| then n else |raw|;
        (if intact then raw[..k] else []) + Surviving(raw[k..], ops[1..])
      case _ => Surviving(raw, ops[1..])
  }

  ghost function Fired(ops: seq<Op>): seq<Event> {
    if ops == [] then [] else (if ops[0].Fire? then [ops[0].event] else []) + Fired(ops[1..])
  }

  ghost predicate AllIntact(ops: seq<Op>) {
    ops != [] ==> (ops[0].QueueEvents? ==> ops[0].intact) && AllIntact(ops[1..])
  }

  /** Without dropped batches all events survive. */
  lemma {:induction false} AllSurvive(raw: seq<Event>, ops: seq<Op>)
    requires AllIntact(ops)
    ensures Surviving(raw, ops) == raw + Fired(ops)
    decreases |ops|
  {
    if ops != [] {
      match ops[0]
      case Fire(e) =>
        AllSurvive(raw + [e], ops[1..]);
        Regroup(raw, [e], Fired(ops[1..]));
      case QueueEvents(n, _) =>
        var k := if n <= |raw| then n else |raw|;
        AllSurvive(raw[k..], ops[1..]);
        Regroup(raw[..k], raw[k..], Fired(ops[1..]));
        assert raw[..k] + raw[k..] == raw;
      case _ => AllSurvive(raw, ops[1..]);
    }
  }

  lemma ProcessingAccounts(s: State, c: Config, n: nat, rest: seq<Event>)
    requires n <= |s.pipe|
    ensures var t := Step(s, c, ProcessEvents(n));
      t.raw == s.raw && t.delivered + c.ShownAll(t.pipe + rest) == s.delivered + c.ShownAll(s.pipe + rest)
  {
    var t := s.(pipe := s.pipe[n..]);
    ProcessAllFrame(t, c, s.pipe[..n]);
    ProcessAllDelivers(t, c, s.pipe[..n]);
    assert s.pipe + rest == s.pipe[..n] + (s.pipe[n..] + rest);
    ShownConcat(c, s.pipe[..n], s.pipe[n..] + rest);
    Regroup(s.delivered, c.ShownAll(s.pipe[..n]), c.ShownAll(s.pipe[n..] + rest));
  }

  lemma StepFrame(s: State, c: Config, op: Op)
    requires op.Activate? || op.SetRate? || op.StopSensor? || op.SetFaults?
    requires Enabled(s, c, op)
    ensures SameRestButRates(s, Step(s, c, op))
  {
    match op
    case Activate(h, on) => SetActiveFrame(s, c, h, on);
    case SetRate(h, rate, force) => SetDelayFrame(s, c, h, rate, force);
    case StopSensor(h, quirk) => StopFrame(s, c, h, quirk);
    case SetFaults(_) =>
  }

  /**
    In every run each event whose batch is not dropped is shown exactly once,
    in firing order: a one-shot event of a secondary as one event of the
    primary, other events of secondaries not at all.
   */
  lemma {:induction false} EveryEventIsShownOnce(s: State, c: Config, ops: seq<Op>)
    requires IsRun(s, c, ops)
    ensures Account(Run(s, c, ops), c) == s.delivered + c.ShownAll(s.pipe + Surviving(s.raw, ops))
    decreases |ops|
  {
    if ops != [] {
      var t, rest := Step(s, c, ops[0]), ops[1..];
      EveryEventIsShownOnce(t, c, rest);
      match ops[0]
      case QueueEvents(n, intact) =>
        if intact {
          Regroup(s.pipe, s.raw[..n], Surviving(t.raw, rest));
        } else {
          assert [] + Surviving(t.raw, rest) == Surviving(t.raw, rest);
        }
      case ProcessEvents(n) => ProcessingAccounts(s, c, n, Surviving(s.raw, rest));
      case Fire(_) =>
      case _ => StepFrame(s, c, ops[0]);
    }
  }
}
