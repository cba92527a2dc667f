/** One-shot events that are stale or lost, what holds when the backend fails, and why the restart is harmless. */
module HybrisFaults {
  import opened HybrisManager

  // ---------- Stale and lost events ----------

  /** A start that is reported as successful leaves the sensor off exactly if it is booked as active but idle. */
  lemma StartLeavesOffIff(s: State, c: Config, h: Handle)
    requires c.Valid() && Over(s, c) && s.faults == NO_FAULTS && h in c.sensors
    ensures var (t, ok) := s.SetActive(c, h, true);
      ok && h in t.hardware && (!t.hardware[h] <==> s.active[h] && !s.hardware[h])
  {
    SetActiveEffect(s, c, h, true);
  }

  /** Processing an event stops running hardware exactly in the group of a one-shot sensor that is booked as active. */
  lemma ProcessStopsIff(s: State, c: Config, e: Event, h: Handle)
    requires c.Valid() && Over(s, c) && s.faults == NO_FAULTS && e.sensor in c.sensors
    requires h in c.sensors && s.hardware[h]
    ensures h in s.Process(c, e).hardware
    ensures !s.Process(c, e).hardware[h] <==>
            var target := if e.sensor in c.secondaries then c.primary else e.sensor;
            e.sensor in c.oneshot && s.active[target] && (h == target || (target == c.primary && h in c.secondaries))
  {
    var t := s.(delivered := s.delivered + c.Shown(e));
    SetActiveEffect(t, c, c.Booked(e), false);
    MembersAre(c.secondaries);
  }

  /** Booked as active and running, with the event still in the backend. */
  ghost predicate Running(s: State, c: Config, e: Event) {
    && Over(s, c) && s.faults == NO_FAULTS && e.sensor in c.sensors
    && s.active[e.sensor] && s.hardware[e.sensor] && s.raw == [e] && s.pipe == []
  }

  lemma RestartSucceeds(s: State, c: Config, e: Event)
    requires c.Valid() && Over(s, c) && s.faults == NO_FAULTS && s.pipe == [] && s.raw == []
    requires e.sensor in c.sensors && s.active[e.sensor] && s.hardware[e.sensor]
    ensures Running(Step(s, c, Fire(e)).SetActive(c, e.sensor, false).0.SetActive(c, e.sensor, true).0, c, e)
  {
    var h, s1 := e.sensor, Step(s, c, Fire(e));
    assert s1.raw == [e];
    SetActiveEffect(s1, c, h, false);
    SetActiveEffect(Switched(s1, c.Group(h), false), c, h, true);
  }

  lemma StaleProcessing(s: State, c: Config, e: Event)
    requires c.Valid() && Running(s, c, e) && e.sensor in c.oneshot && e.sensor !in c.secondaries
    ensures var queued := Step(s, c, QueueEvents(1, true));
      |queued.pipe| == 1 &&
      var t := Step(queued, c, ProcessEvents(1));
      Over(t, c) && !t.hardware[e.sensor] && !t.active[e.sensor]
  {
    var queued := Step(s, c, QueueEvents(1, true));
    assert [] + [e][..1] == [e];
    var emptied := queued.(pipe := queued.pipe[1..]);
    assert [e][..1][..0] == [];
    assert emptied.ProcessAll(c, [e]) == emptied.Process(c, e);
    SetActiveEffect(emptied.(delivered := emptied.delivered + c.Shown(e)), c, e.sensor, false);
  }

  const HANDLED := [QueueEvents(1, true), ProcessEvents(1)]

  ghost predicate Stopped(s: State, c: Config, h: Handle) {
    Over(s, c) && h in c.sensors && !s.hardware[h] && !s.active[h]
  }

  lemma StaleTail(s: State, c: Config, e: Event)
    requires c.Valid() && Running(s, c, e) && e.sensor in c.oneshot && e.sensor !in c.secondaries
    ensures IsRun(s, c, HANDLED) && Stopped(Run(s, c, HANDLED), c, e.sensor)
  {
    StaleProcessing(s, c, e);
    var queued := Step(s, c, QueueEvents(1, true));
    RunNext(queued, c, ProcessEvents(1), []);
    RunNext(s, c, QueueEvents(1, true), [ProcessEvents(1)] + []);
    assert [QueueEvents(1, true)] + ([ProcessEvents(1)] + []) == HANDLED;
  }

  /** A one-shot sensor fires, and before its event is processed it is stopped and started again. */
  function Restarted(e: Event): seq<Op> {
    [Fire(e)] + ([Activate(e.sensor, false)] + ([Activate(e.sensor, true)] + HANDLED))
  }

  /** The stale event stops the restarted sensor. */
  lemma StaleEventStops(s: State, c: Config, e: Event)
    requires c.Valid() && InSync(s, c, []) && s.pipe == [] && s.raw == []
    requires e.sensor in c.oneshot && e.sensor in c.sensors && e.sensor !in c.secondaries && s.hardware[e.sensor]
    ensures IsRun(s, c, Restarted(e)) && Stopped(Run(s, c, Restarted(e)), c, e.sensor)
  {
    RestartSucceeds(s, c, e);
    var s1 := Step(s, c, Fire(e));
    var s2 := Step(s1, c, Activate(e.sensor, false));
    var s3 := Step(s2, c, Activate(e.sensor, true));
    StaleTail(s3, c, e);
    RunNext(s2, c, Activate(e.sensor, true), HANDLED);
    RunNext(s1, c, Activate(e.sensor, false), [Activate(e.sensor, true)] + HANDLED);
    RunNext(s, c, Fire(e), [Activate(e.sensor, false)] + ([Activate(e.sensor, true)] + HANDLED));
  }

  lemma RunNext(s: State, c: Config, op: Op, rest: seq<Op>)
    requires Enabled(s, c, op) && IsRun(Step(s, c, op), c, rest)
    ensures IsRun(s, c, [op] + rest) && Run(s, c, [op] + rest) == Run(Step(s, c, op), c, rest)
  {
    assert ([op] + rest)[0] == op && ([op] + rest)[1..] == rest;
  }

  /** When the event of a one-shot sensor is dropped, it stays booked as active with nothing on its way. */
  lemma DroppedEventDesyncs(s: State, c: Config, e: Event)
    requires c.Valid() && InSync(s, c, []) && s.pipe == [] && s.raw == []
    requires e.sensor in c.oneshot && e.sensor in c.sensors && s.hardware[e.sensor]
    ensures var fired := Step(s, c, Fire(e));
      |fired.raw| == 1 &&
      var t := Step(fired, c, QueueEvents(1, false));
      t.pipe == [] && t.raw == [] && t.active[e.sensor] && !t.hardware[e.sensor]
  {
  }

  // ---------- What success means, whichever calls fail ----------

  /** A rate change is a success exactly if the sensor is known and has the rate afterwards, changed if need be. */
  lemma RateSuccessIff(s: State, c: Config, h: Handle, rate: int, force: bool)
    ensures var (t, ok) := s.SetDelay(c, h, rate, force);
      && (ok ==> h in t.delay && t.delay[h] == rate)
      && (h in s.delay && (s.faults == NO_FAULTS || (!force && s.delay[h] == rate)) ==> ok)
      && (h in s.delay && s.delay[h] != rate ==> h in t.delay && (ok <==> t.delay[h] == rate))
      && (!ok && h in s.delay ==> t.delay == s.delay && (force || s.delay[h] != rate))
  {
    RefreshIsNeutral(s, c.secondaries);
  }

  /** A switch that is a success has been recorded; one that fails has not, unless only its second rate failed. */
  lemma SwitchSuccessIsReal(s: State, c: Config, h: Handle, on: bool)
    requires h in s.active && (h == c.primary ==> h !in c.secondaries)
    ensures var (t, ok) := s.SetActive(c, h, on);
      && h in t.active && (ok ==> t.active[h] == on)
      && (!on ==> (ok <==> !t.active[h]))
      && (ok && s.active[h] != on ==> h in t.hardware && t.hardware[h] == on)
  {
    var t := if h == c.primary then s.StartSecondaries(c.secondaries) else s;
    if h == c.primary {
      OthersStay(s, c.secondaries, h);
      OthersStay(s.SetActiveReal(h, false), c.secondaries, h);
    }
    SecondariesFrame(s, c.secondaries);
    StartIsReal(t, h);
  }

  lemma StartIsReal(s: State, h: Handle)
    requires h in s.active
    ensures var (t, ok) := s.StartSensor(h);
      h in t.active && (ok ==> t.active[h] && h in t.hardware && t.hardware[h])
  {
    var r := s.SetDelayReal(h, s.GetDelay(h));
    RepeatedRate(s, h);
    RepeatedRate(r.SetActiveReal(h, true), h);
  }

  /** What is recorded and running of a sensor is the same. */
  ghost predicate SameAt(s: State, t: State, h: Handle) {
    && (h in s.active <==> h in t.active) && (h in s.active ==> t.active[h] == s.active[h])
    && (h in s.hardware <==> h in t.hardware) && (h in s.hardware ==> t.hardware[h] == s.hardware[h])
  }

  lemma StartOneStays(s: State, k: Handle, h: Handle)
    requires k != h
    ensures SameAt(s, s.StartOne(k), h)
  {
    RepeatedRate(s, k);
    RepeatedRate(s.SetDelayReal(k, s.GetDelay(k)).SetActiveReal(k, true), k);
  }

  /** Switching the secondaries leaves any other sensor alone. */
  lemma {:induction false} OthersStay(s: State, hs: seq<Handle>, h: Handle)
    requires h !in hs
    ensures SameAt(s, s.StartSecondaries(hs), h) && SameAt(s, s.StopSecondaries(hs), h)
    decreases |hs|
  {
    if hs != [] {
      OthersStay(s, hs[..|hs| - 1], h);
      StartOneStays(s.StartSecondaries(hs[..|hs| - 1]), hs[|hs| - 1], h);
    }
  }

  // ---------- What holds even when the backend fails ----------

  lemma {:induction false} SecondariesStayHonest(s: State, hs: seq<Handle>)
    requires Honest(s)
    ensures Honest(s.StartSecondaries(hs)) && Honest(s.StopSecondaries(hs))
    decreases |hs|
  {
    if hs != [] {
      SecondariesStayHonest(s, hs[..|hs| - 1]);
      StartOneFrame(s.StartSecondaries(hs[..|hs| - 1]), hs[|hs| - 1]);
    }
  }

  lemma SwitchingStaysHonest(s: State, c: Config, h: Handle, on: bool)
    requires Honest(s)
    ensures Honest(s.SetActive(c, h, on).0)
  {
    SecondariesStayHonest(s, c.secondaries);
    SecondariesStayHonest(s.SetActiveReal(h, false), c.secondaries);
    var t := if h == c.primary then s.StartSecondaries(c.secondaries) else s;
    StartSensorFrame(t, h);
  }

  lemma {:induction false} ProcessingStaysHonest(s: State, c: Config, events: seq<Event>)
    requires Honest(s)
    ensures Honest(s.ProcessAll(c, events))
    decreases |events|
  {
    if events != [] {
      var e := events[|events| - 1];
      ProcessingStaysHonest(s, c, events[..|events| - 1]);
      var t := s.ProcessAll(c, events[..|events| - 1]);
      SwitchingStaysHonest(t.(delivered := t.delivered + c.Shown(e)), c, c.Booked(e), false);
    }
  }

  lemma RateStaysHonest(s: State, c: Config, h: Handle, rate: int, force: bool)
    requires Honest(s)
    ensures Honest(s.SetDelay(c, h, rate, force).0)
  {
    RefreshIsNeutral(s, c.secondaries);
  }

  lemma StopStaysHonest(s: State, c: Config, h: Handle, quirk: bool)
    requires Honest(s)
    ensures Honest(s.StopReader(c, h, quirk))
  {
    var (s0, ok) := s.SetActive(c, h, false);
    SwitchingStaysHonest(s, c, h, false);
    if ok && quirk {
      var current := s0.GetDelay(h);
      var temporary := if current == 100000 then 200000 else 100000;
      var s1 := s0.SetDelay(c, h, temporary, false).0;
      RateStaysHonest(s0, c, h, temporary, false);
      SwitchingStaysHonest(s1, c, h, true);
      SwitchingStaysHonest(s1.SetActive(c, h, true).0, c, h, false);
      RateStaysHonest(s1.SetActive(c, h, true).0.SetActive(c, h, false).0, c, h, current, false);
    }
  }

  /** In every run, with any backend errors, no sensor runs without being booked as active. */
  lemma {:induction false} RunStaysHonest(s: State, c: Config, ops: seq<Op>)
    requires Honest(s) && IsRun(s, c, ops)
    ensures Honest(Run(s, c, ops))
    decreases |ops|
  {
    if ops != [] {
      match ops[0] {
        case ProcessEvents(n) => ProcessingStaysHonest(s.(pipe := s.pipe[n..]), c, s.pipe[..n]);
        case Activate(h, on) => SwitchingStaysHonest(s, c, h, on);
        case SetRate(h, rate, force) => RateStaysHonest(s, c, h, rate, force);
        case StopSensor(h, quirk) => StopStaysHonest(s, c, h, quirk);
        case _ =>
      }
      RunStaysHonest(Step(s, c, ops[0]), c, ops[1..]);
    }
  }

  lemma SwitchedOnAndOff(s: State, g: set<Handle>)
    requires forall x :: x in g && x in s.active ==> !s.active[x]
    requires forall x :: x in g && x in s.hardware ==> !s.hardware[x]
    ensures Switched(Switched(s, g, true), g, false) == s
  {
    var t := Switched(Switched(s, g, true), g, false);
    assert forall x :: x in s.active ==> t.active[x] == s.active[x];
    assert forall x :: x in s.hardware ==> t.hardware[x] == s.hardware[x];
    assert t.active == s.active && t.hardware == s.hardware;
  }

  // ---------- The restart at the end of a stop ----------

  /** On a reliable backend the extra start and stop is invisible afterwards, in rates too. */
  lemma QuirkIsNeutral(s: State, c: Config, h: Handle, pending: seq<Event>)
    requires c.Valid() && InSync(s, c, pending) && h !in c.secondaries
    ensures s.StopReader(c, h, true) == s.StopReader(c, h, false)
  {
    if h in c.sensors {
      SwitchingKeepsSync(s, c, h, false, pending);
      SetActiveEffect(s, c, h, false);
      ForcedRestart(s.SetActive(c, h, false).0, c, h, pending);
    }
  }

  lemma ForcedRestart(s: State, c: Config, h: Handle, pending: seq<Event>)
    requires c.Valid() && InSync(s, c, pending) && h !in c.secondaries && h in c.sensors && !s.active[h]
    ensures s.Restart(c, h) == s
  {
    var temporary := if s.GetDelay(h) == 100000 then 200000 else 100000;
    var t := s.SetDelay(c, h, temporary, false).0;
    RateEffect(s, c, h, temporary, false);
    RateKeepsSync(s, c, h, temporary, false, pending);
    StartAndStop(t, c, h, pending);
    RateEffect(t, c, h, s.GetDelay(h), false);
    assert t.delay[h := s.GetDelay(h)] == s.delay;
  }

  lemma StartAndStop(s: State, c: Config, h: Handle, pending: seq<Event>)
    requires c.Valid() && InSync(s, c, pending) && h !in c.secondaries && h in c.sensors && !s.active[h]
    ensures s.SetActive(c, h, true).0.SetActive(c, h, false).0 == s
  {
    SetActiveEffect(s, c, h, true);
    var t := Switched(s, c.Group(h), true);
    assert h in c.Group(h) && t.active[h];
    SetActiveEffect(t, c, h, false);
    MembersAre(c.secondaries);
    SwitchedOnAndOff(s, c.Group(h));
  }
}
