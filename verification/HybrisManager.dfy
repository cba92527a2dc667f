/**
  Bookkeeping of the sensor manager against its hardware: activation, data
  rates, the wake-up group, and one-shot sensors that switch themselves off.
  The hardware runs concurrently; its events reach the main thread through a
  reader thread and a pipe.
 */
module HybrisManager {
  import opened Lists

  type Handle = int

  datatype Event = Event(sensor: Handle, kind: int, value: int)

  /** The sensors found by the backend and the configured wake-up group. */
  datatype Config = Config(sensors: set<Handle>, oneshot: set<Handle>,
                           primary: Handle, primaryKind: int, secondaries: seq<Handle>)
  {
    /** A group has a one-shot primary and some secondaries; no group means no handles. */
    ghost predicate Valid() {
      && -1 !in sensors
      && (primary == -1 ==> secondaries == [])
      && (primary != -1 ==> primary in sensors && primary in oneshot && primary !in secondaries && secondaries != [])
      && (forall k :: k in secondaries ==> k in sensors)
    }

    /** The sensors that an operation on `h` drives. */
    ghost function Group(h: Handle): set<Handle> {
      if h == primary then {h} + Members(secondaries) else {h}
    }

    /** What the adaptors see: one-shot secondaries look like the primary, other secondaries are mute. */
    function Shown(e: Event): seq<Event> {
      if primary != -1 && e.sensor in secondaries then
        if e.sensor in oneshot then [Event(primary, primaryKind, 1)] else []
      else [e]
    }

    ghost function ShownAll(events: seq<Event>): seq<Event> {
      if events == [] then [] else ShownAll(events[..|events| - 1]) + Shown(events[|events| - 1])
    }

    /** The sensor that an event is booked on. */
    function Booked(e: Event): Handle {
      if primary != -1 && e.sensor in secondaries && e.sensor in oneshot then primary else e.sensor
    }
  }

  ghost function Members(hs: seq<Handle>): set<Handle> {
    if hs == [] then {} else Members(hs[..|hs| - 1]) + {hs[|hs| - 1]}
  }

  lemma {:induction false} MembersAre(hs: seq<Handle>)
    ensures forall h :: h in Members(hs) <==> h in hs
  {
    if hs != [] {
      MembersAre(hs[..|hs| - 1]);
      assert hs == hs[..|hs| - 1] + [hs[|hs| - 1]];
    }
  }

  // ---------- Configuration of the wake-up group ----------

  /** A secondary of the group: the sensor of another configured type, and not the primary itself. */
  ghost predicate IsSecondary(handles: map<int, Handle>, wakeupType: int, types: seq<int>, h: Handle)
    requires wakeupType in handles
  {
    exists t :: t in types && t != wakeupType && t in handles && handles[t] == h && h != handles[wakeupType]
  }

  /** Reads the configured types; without a one-shot primary or without secondaries there is no group. */
  method InitWakeupSensorConfig(sensors: set<Handle>, oneshot: set<Handle>, handles: map<int, Handle>,
                                wakeupType: int, types: seq<int>) returns (config: Config)
    requires -1 !in sensors && forall t :: t in handles ==> handles[t] in sensors
    ensures config.Valid() && config.sensors == sensors && config.oneshot == oneshot
    ensures forall i, j :: 0 <= i < j < |config.secondaries| ==> config.secondaries[i] != config.secondaries[j]
    ensures if config.secondaries == [] then config.primary == -1 && config.primaryKind == -1
            else wakeupType in handles && config.primary == handles[wakeupType] && config.primaryKind == wakeupType
    ensures wakeupType in handles && handles[wakeupType] in oneshot ==>
              forall h :: h in config.secondaries <==> IsSecondary(handles, wakeupType, types, h)
    ensures !(wakeupType in handles && handles[wakeupType] in oneshot) ==> config.secondaries == []
  {
    var secondaries := [];
    if wakeupType in handles && handles[wakeupType] in oneshot {
      var i := 0;
      while i < |types|
        invariant 0 <= i <= |types|
        invariant forall j, k :: 0 <= j < k < |secondaries| ==> secondaries[j] != secondaries[k]
        invariant forall h :: h in secondaries <==> IsSecondary(handles, wakeupType, types[..i], h)
      {
        var t := types[i];
        assert types[..i + 1] == types[..i] + [t];
        assert forall u :: u in types[..i + 1] <==> u in types[..i] || u == t;
        if t != wakeupType && t in handles {
          var h := handles[t];
          if h != handles[wakeupType] && h !in secondaries {
            secondaries := secondaries + [h];
          }
        }
        i := i + 1;
      }
      assert types[..i] == types;
    }
    if secondaries == [] {
      config := Config(sensors, oneshot, -1, -1, []);
    } else {
      config := Config(sensors, oneshot, handles[wakeupType], wakeupType, secondaries);
    }
  }

  // ---------- Record, hardware and events ----------

  /** Which of the coming calls the backend answers with an error, in order; it takes all calls behind them. */
  type Faults = seq<bool>

  const NO_FAULTS: Faults := []

  /**
    The manager's own record (`active`, `delay`), what the hardware does
    (`hardware`), the events on their way (`raw` still in the backend, `pipe`
    already queued), and the events handed to the adaptors.
   */
  datatype State = State(active: map<Handle, bool>, delay: map<Handle, int>, hardware: map<Handle, bool>,
                         raw: seq<Event>, pipe: seq<Event>, delivered: seq<Event>, faults: Faults)
  {
    function GetDelay(h: Handle): int {
      if h in delay then delay[h] else 0
    }

    function GetActive(h: Handle): bool {
      h in active && active[h]
    }

    /** Whether the next call to the backend fails. */
    predicate Fails() {
      faults != [] && faults[0]
    }

    /** After a call to the backend. */
    function Called(): State {
      if faults == [] then this else this.(faults := faults[1..])
    }

    function SetDelayReal(h: Handle, d: int): State {
      if h !in delay then this
      else if Fails() then Called()
      else Called().(delay := delay[h := d])
    }

    function SetActiveReal(h: Handle, on: bool): State {
      if h !in active then this
      else if Fails() then Called()
      else Called().(active := active[h := on], hardware := hardware[h := on])
    }

    /** Rate, activation, rate again. */
    function StartOne(h: Handle): State {
      var s := SetDelayReal(h, GetDelay(h)).SetActiveReal(h, true);
      s.SetDelayReal(h, s.GetDelay(h))
    }

    function StartSecondaries(hs: seq<Handle>): State {
      if hs == [] then this else StartSecondaries(hs[..|hs| - 1]).StartOne(hs[|hs| - 1])
    }

    function StopSecondaries(hs: seq<Handle>): State {
      if hs == [] then this else StopSecondaries(hs[..|hs| - 1]).SetActiveReal(hs[|hs| - 1], false)
    }

    /** Writes the stored rates of the secondaries to the hardware again. */
    function RefreshSecondaries(hs: seq<Handle>): State {
      if hs == [] then this
      else
        var s := RefreshSecondaries(hs[..|hs| - 1]);
        s.SetDelayReal(hs[|hs| - 1], s.GetDelay(hs[|hs| - 1]))
    }

    function SetDelay(c: Config, h: Handle, d: int, force: bool): (State, bool) {
      if h !in delay then (this, false)
      else if !force && delay[h] == d then (this, true)
      else
        var s := if h == c.primary then RefreshSecondaries(c.secondaries) else this;
        (s.SetDelayReal(h, d), !s.Fails())
    }

    function SetActive(c: Config, h: Handle, on: bool): (State, bool) {
      if h !in active then (this, false)
      else if active[h] == on then (this, true)
      else if on then
        var s := if h == c.primary then StartSecondaries(c.secondaries) else this;
        s.StartSensor(h)
      else
        var s := SetActiveReal(h, false);
        (if h == c.primary then s.StopSecondaries(c.secondaries) else s, !Fails())
    }

    /** Rate, activation, and the rate again once the sensor is active. */
    function StartSensor(h: Handle): (State, bool) {
      var r := SetDelayReal(h, GetDelay(h));
      var t := r.SetActiveReal(h, true);
      if r.Fails() then (t, false) else (t.SetDelayReal(h, t.GetDelay(h)), h in delay && !t.Fails())
    }

    /** Another rate, a start and a stop, and the rate as before. */
    function Restart(c: Config, h: Handle): State {
      var temporary := if GetDelay(h) == 100000 then 200000 else 100000;
      SetDelay(c, h, temporary, false).0.SetActive(c, h, true).0.SetActive(c, h, false).0
        .SetDelay(c, h, GetDelay(h), false).0
    }

    /** Stopping a reader; some sensors want an extra start and stop with a forced rate change. */
    function StopReader(c: Config, h: Handle, quirk: bool): State {
      var (s, ok) := SetActive(c, h, false);
      if ok && quirk then s.Restart(c, h) else s
    }

    /** One event on the main thread: hand it on and follow a one-shot sensor's self-deactivation. */
    function Process(c: Config, e: Event): State {
      var s := this.(delivered := delivered + c.Shown(e));
      if e.sensor in c.oneshot && s.GetActive(c.Booked(e)) then s.SetActive(c, c.Booked(e), false).0 else s
    }

    function ProcessAll(c: Config, events: seq<Event>): State {
      if events == [] then this else ProcessAll(c, events[..|events| - 1]).Process(c, events[|events| - 1])
    }
  }

  // ---------- Effects of the operations ----------

  /** Only activation differs between `s` and `t`: rates, events and deliveries are the same. */
  ghost predicate SameRest(s: State, t: State) {
    t.(active := s.active, hardware := s.hardware, faults := s.faults) == s
  }

  /** Nothing differs between `s` and `t` but how often the backend was called. */
  ghost predicate SameState(s: State, t: State) {
    t.(faults := s.faults) == s && (s.faults == NO_FAULTS ==> t == s)
  }

  /** Whatever runs is booked as active. */
  ghost predicate Honest(s: State) {
    forall h :: h in s.hardware && s.hardware[h] ==> s.GetActive(h)
  }

  lemma {:induction false} SecondariesFrame(s: State, hs: seq<Handle>)
    ensures SameRest(s, s.StartSecondaries(hs)) && s.StartSecondaries(hs).active.Keys == s.active.Keys
    ensures SameRest(s, s.StopSecondaries(hs)) && s.StopSecondaries(hs).active.Keys == s.active.Keys
    decreases |hs|
  {
    if hs != [] {
      SecondariesFrame(s, hs[..|hs| - 1]);
      StartOneFrame(s.StartSecondaries(hs[..|hs| - 1]), hs[|hs| - 1]);
    }
  }

  lemma StartOneFrame(s: State, h: Handle)
    ensures var t := s.StartOne(h); SameRest(s, t) && t.active.Keys == s.active.Keys && (Honest(s) ==> Honest(t))
  {
    RepeatedRate(s, h);
    var t := s.SetDelayReal(h, s.GetDelay(h)).SetActiveReal(h, true);
    RepeatedRate(t, h);
  }

  lemma StartSensorFrame(s: State, h: Handle)
    ensures var t := s.StartSensor(h).0; SameRest(s, t) && t.active.Keys == s.active.Keys && (Honest(s) ==> Honest(t))
  {
    var r := s.SetDelayReal(h, s.GetDelay(h));
    RepeatedRate(s, h);
    RepeatedRate(r.SetActiveReal(h, true), h);
  }

  /** Switching sensors changes no stored rate, with or without faults. */
  lemma SetActiveFrame(s: State, c: Config, h: Handle, on: bool)
    ensures SameRest(s, s.SetActive(c, h, on).0)
  {
    var t := if h == c.primary then s.StartSecondaries(c.secondaries) else s;
    SecondariesFrame(s, c.secondaries);
    StartSensorFrame(t, h);
    SecondariesFrame(s.SetActiveReal(h, false), c.secondaries);
  }

  /** Setting a rate changes no other stored rate, not even within the group. */
  lemma SetDelayFrame(s: State, c: Config, h: Handle, rate: int, force: bool)
    ensures var t := s.SetDelay(c, h, rate, force).0;
      t.(faults := s.faults) == s || (h in s.delay && t.(faults := s.faults) == s.(delay := s.delay[h := rate]))
    ensures var (t, ok) := s.SetDelay(c, h, rate, force);
      ok ==> h in s.delay && t.delay == s.delay[h := rate]
  {
    RefreshIsNeutral(s, c.secondaries);
    if h in s.delay && s.delay[h] == rate {
      assert s.delay[h := rate] == s.delay;
    }
  }

  /** `s` with the sensors in `g` switched, record and hardware alike. */
  ghost function Switched(s: State, g: set<Handle>, on: bool): State {
    s.(active := map h | h in s.active :: if h in g then on else s.active[h],
       hardware := map h | h in s.hardware :: if h in g then on else s.hardware[h])
  }

  ghost predicate Over(s: State, c: Config) {
    s.active.Keys == s.delay.Keys == s.hardware.Keys == c.sensors
  }

  lemma RepeatedRate(s: State, h: Handle)
    ensures SameState(s, s.SetDelayReal(h, s.GetDelay(h)))
  {
    if h in s.delay {
      assert s.delay[h := s.delay[h]] == s.delay;
    }
  }

  /** Repeating the stored rates changes nothing, faults or not. */
  lemma {:induction false} RefreshIsNeutral(s: State, hs: seq<Handle>)
    ensures SameState(s, s.RefreshSecondaries(hs))
    decreases |hs|
  {
    if hs != [] {
      RefreshIsNeutral(s, hs[..|hs| - 1]);
      RepeatedRate(s.RefreshSecondaries(hs[..|hs| - 1]), hs[|hs| - 1]);
    }
  }

  lemma RateEffect(s: State, c: Config, h: Handle, rate: int, force: bool)
    requires s.faults == NO_FAULTS && h in s.delay && (force || s.delay[h] != rate)
    ensures s.SetDelay(c, h, rate, force).0 == s.(delay := s.delay[h := rate])
  {
    RefreshIsNeutral(s, c.secondaries);
  }

  /** Starting a sensor is just its activation: its stored rate is written, not changed. */
  lemma StartOneEffect(s: State, h: Handle)
    requires s.faults == NO_FAULTS
    ensures s.StartOne(h) == s.SetActiveReal(h, true)
  {
    RepeatedRate(s, h);
    RepeatedRate(s.SetActiveReal(h, true), h);
  }

  lemma SwitchedNone(s: State, on: bool)
    ensures Switched(s, {}, on) == s
  {
    assert Switched(s, {}, on).active == s.active && Switched(s, {}, on).hardware == s.hardware;
  }

  lemma SwitchedMore(s: State, c: Config, g: set<Handle>, h: Handle, on: bool)
    requires Over(s, c) && s.faults == NO_FAULTS && h in c.sensors
    ensures Switched(s, g, on).SetActiveReal(h, on) == Switched(s, g + {h}, on)
  {
    var l, r := Switched(s, g, on).SetActiveReal(h, on), Switched(s, g + {h}, on);
    assert l.active == r.active && l.hardware == r.hardware;
  }

  lemma {:induction false} StartSecondariesEffect(s: State, c: Config, hs: seq<Handle>)
    requires Over(s, c) && s.faults == NO_FAULTS && forall h :: h in hs ==> h in c.sensors
    ensures s.StartSecondaries(hs) == Switched(s, Members(hs), true)
    decreases |hs|
  {
    SwitchedNone(s, true);
    if hs != [] {
      StartSecondariesEffect(s, c, hs[..|hs| - 1]);
      StartOneEffect(s.StartSecondaries(hs[..|hs| - 1]), hs[|hs| - 1]);
      SwitchedMore(s, c, Members(hs[..|hs| - 1]), hs[|hs| - 1], true);
    }
  }

  lemma {:induction false} StopSecondariesEffect(s: State, c: Config, h: Handle, hs: seq<Handle>)
    requires Over(s, c) && s.faults == NO_FAULTS && forall h :: h in hs ==> h in c.sensors
    ensures Switched(s, {h}, false).StopSecondaries(hs) == Switched(s, {h} + Members(hs), false)
    decreases |hs|
  {
    if hs == [] {
      assert {h} + {} == {h};
    } else {
      var front := hs[..|hs| - 1];
      StopSecondariesEffect(s, c, h, front);
      SwitchedMore(s, c, {h} + Members(front), hs[|hs| - 1], false);
      assert {h} + Members(front) + {hs[|hs| - 1]} == {h} + Members(hs);
    }
  }

  lemma StartEffect(s: State, c: Config, h: Handle)
    requires c.Valid() && Over(s, c) && s.faults == NO_FAULTS && h in c.sensors && !s.active[h]
    ensures s.SetActive(c, h, true) == (Switched(s, c.Group(h), true), true)
  {
    var ks := if h == c.primary then Members(c.secondaries) else {};
    var t := if h == c.primary then s.StartSecondaries(c.secondaries) else s;
    assert t == Switched(s, ks, true) by {
      SwitchedNone(s, true);
      StartSecondariesEffect(s, c, c.secondaries);
    }
    RepeatedRate(t, h);
    SwitchedMore(s, c, ks, h, true);
    RepeatedRate(t.SetActiveReal(h, true), h);
    assert ks + {h} == c.Group(h);
  }

  lemma StopEffect(s: State, c: Config, h: Handle)
    requires c.Valid() && Over(s, c) && s.faults == NO_FAULTS && h in c.sensors && s.active[h]
    ensures s.SetActive(c, h, false) == (Switched(s, c.Group(h), false), true)
  {
    SwitchedNone(s, false);
    SwitchedMore(s, c, {}, h, false);
    assert {} + {h} == {h};
    if h == c.primary {
      StopSecondariesEffect(s, c, h, c.secondaries);
    }
  }

  /** Without faults, activation switches exactly the group of the sensor, record and hardware alike. */
  lemma SetActiveEffect(s: State, c: Config, h: Handle, on: bool)
    requires c.Valid() && Over(s, c) && s.faults == NO_FAULTS && h in c.sensors
    ensures s.SetActive(c, h, on) == (if s.active[h] == on then s else Switched(s, c.Group(h), on), true)
  {
    if s.active[h] != on {
      if on {
        StartEffect(s, c, h);
      } else {
        StopEffect(s, c, h);
      }
    }
  }

  // ---------- Runs ----------

  /** Steps of the hardware, of the reader thread, and of the main thread. */
  datatype Op =
    | Fire(event: Event)
    | QueueEvents(n: nat, intact: bool)
    | ProcessEvents(n: nat)
    | Activate(handle: Handle, on: bool)
    | SetRate(handle: Handle, rate: int, force: bool)
    | StopSensor(handle: Handle, quirk: bool)
    | SetFaults(faults: Faults)

  /** Running sensors fire; clients drive secondaries only through their primary. */
  ghost predicate Enabled(s: State, c: Config, op: Op) {
    match op
    case Fire(e) => e.sensor in c.sensors && e.sensor in s.hardware && s.hardware[e.sensor]
    case QueueEvents(n, _) => n <= |s.raw|
    case ProcessEvents(n) => n <= |s.pipe|
    case Activate(h, _) => h !in c.secondaries
    case StopSensor(h, _) => h !in c.secondaries
    case _ => true
  }

  ghost function Step(s: State, c: Config, op: Op): State
    requires Enabled(s, c, op)
  {
    match op
    case Fire(e) => s.(raw := s.raw + [e], hardware := s.hardware[e.sensor := e.sensor !in c.oneshot])
    case QueueEvents(n, intact) => s.(pipe := if intact then s.pipe + s.raw[..n] else s.pipe, raw := s.raw[n..])
    case ProcessEvents(n) => s.(pipe := s.pipe[n..]).ProcessAll(c, s.pipe[..n])
    case Activate(h, on) => s.SetActive(c, h, on).0
    case SetRate(h, rate, force) => s.SetDelay(c, h, rate, force).0
    case StopSensor(h, quirk) => s.StopReader(c, h, quirk)
    case SetFaults(f) => s.(faults := f)
  }

  ghost predicate IsRun(s: State, c: Config, ops: seq<Op>)
    decreases |ops|
  {
    ops != [] ==> Enabled(s, c, ops[0]) && IsRun(Step(s, c, ops[0]), c, ops[1..])
  }

  ghost function Run(s: State, c: Config, ops: seq<Op>): State
    requires IsRun(s, c, ops)
    decreases |ops|
  {
    if ops == [] then s else Run(Step(s, c, ops[0]), c, ops[1..])
  }

  ghost predicate Announced(pending: seq<Event>, h: Handle) {
    exists i :: 0 <= i < |pending| && pending[i].sensor == h
  }

  /**
    Record and hardware agree up to one-shot sensors whose event is still on
    its way, and the wake-up group is switched as one.
   */
  ghost predicate InSync(s: State, c: Config, pending: seq<Event>) {
    && Over(s, c)
    && s.faults == NO_FAULTS
    && (forall e :: e in pending ==> e.sensor in c.sensors)
    && (forall h :: h in c.sensors && s.hardware[h] ==> s.active[h])
    && (forall h :: h in c.sensors && s.active[h] && !s.hardware[h] ==> h in c.oneshot && Announced(pending, h))
    && (forall k :: k in c.secondaries ==> s.GetActive(k) == s.GetActive(c.primary))
  }

  lemma SwitchingKeepsSync(s: State, c: Config, h: Handle, on: bool, pending: seq<Event>)
    requires c.Valid() && InSync(s, c, pending) && h !in c.secondaries
    ensures InSync(s.SetActive(c, h, on).0, c, pending)
  {
    if h in c.sensors {
      SetActiveEffect(s, c, h, on);
      MembersAre(c.secondaries);
    }
  }

  lemma RateKeepsSync(s: State, c: Config, h: Handle, rate: int, force: bool, pending: seq<Event>)
    requires c.Valid() && InSync(s, c, pending)
    ensures InSync(s.SetDelay(c, h, rate, force).0, c, pending)
  {
    RefreshIsNeutral(s, c.secondaries);
  }

  /** Processing one event accounts for it: the rest of the pending events still explains every difference. */
  lemma ProcessKeepsSync(s: State, c: Config, e: Event, rest: seq<Event>)
    requires c.Valid() && InSync(s, c, [e] + rest)
    ensures InSync(s.Process(c, e), c, rest)
  {
    assert e in [e] + rest;
    var t := s.(delivered := s.delivered + c.Shown(e));
    var h := c.Booked(e);
    assert forall x :: x in rest ==> x in [e] + rest;
    assert forall x :: x != e.sensor && Announced([e] + rest, x) ==> Announced(rest, x) by {
      assert forall i :: 0 < i < |[e] + rest| ==> ([e] + rest)[i] == rest[i - 1];
    }
    if e.sensor in c.oneshot && t.GetActive(h) {
      SetActiveEffect(t, c, h, false);
      MembersAre(c.secondaries);
    }
  }

  lemma {:induction false} ProcessAllKeepsSync(s: State, c: Config, events: seq<Event>, rest: seq<Event>)
    requires c.Valid() && InSync(s, c, events + rest)
    ensures InSync(s.ProcessAll(c, events), c, rest)
    decreases |events|
  {
    if events == [] {
      assert events + rest == rest;
    } else {
      var front, e := events[..|events| - 1], events[|events| - 1];
      assert events + rest == front + ([e] + rest);
      ProcessAllKeepsSync(s, c, front, [e] + rest);
      ProcessKeepsSync(s.ProcessAll(c, front), c, e, rest);
    }
  }

  lemma {:induction false} ProcessAllFrame(s: State, c: Config, events: seq<Event>)
    ensures s.ProcessAll(c, events).pipe == s.pipe && s.ProcessAll(c, events).raw == s.raw
    decreases |events|
  {
    if events != [] {
      ProcessAllFrame(s, c, events[..|events| - 1]);
      var t := s.ProcessAll(c, events[..|events| - 1]);
      var e := events[|events| - 1];
      SetActiveFrame(t.(delivered := t.delivered + c.Shown(e)), c, c.Booked(e), false);
    }
  }

  lemma FiringKeepsSync(s: State, c: Config, e: Event)
    requires c.Valid() && InSync(s, c, s.pipe + s.raw) && Enabled(s, c, Fire(e))
    ensures var t := Step(s, c, Fire(e)); InSync(t, c, t.pipe + t.raw)
  {
    var pending := s.pipe + s.raw;
    var t := Step(s, c, Fire(e));
    assert t.pipe + t.raw == pending + [e];
    assert (pending + [e])[|pending|].sensor == e.sensor;
    forall h | Announced(pending, h)
      ensures Announced(pending + [e], h)
    {
      var i :| 0 <= i < |pending| && pending[i].sensor == h;
      assert (pending + [e])[i].sensor == h;
    }
  }

  lemma StopKeepsSync(s: State, c: Config, h: Handle, quirk: bool, pending: seq<Event>)
    requires c.Valid() && InSync(s, c, pending) && h !in c.secondaries
    ensures InSync(s.StopReader(c, h, quirk), c, pending)
  {
    var (s0, ok) := s.SetActive(c, h, false);
    SwitchingKeepsSync(s, c, h, false, pending);
    if ok && quirk {
      var current := s0.GetDelay(h);
      var temporary := if current == 100000 then 200000 else 100000;
      var s1 := s0.SetDelay(c, h, temporary, false).0;
      var s2 := s1.SetActive(c, h, true).0;
      var s3 := s2.SetActive(c, h, false).0;
      RateKeepsSync(s0, c, h, temporary, false, pending);
      SwitchingKeepsSync(s1, c, h, true, pending);
      SwitchingKeepsSync(s2, c, h, false, pending);
      RateKeepsSync(s3, c, h, current, false, pending);
    }
  }

  ghost predicate SameRestButRates(s: State, t: State) {
    s.raw == t.raw && s.pipe == t.pipe && s.delivered == t.delivered
  }

  lemma StopFrame(s: State, c: Config, h: Handle, quirk: bool)
    ensures SameRestButRates(s, s.StopReader(c, h, quirk))
  {
    var (s0, ok) := s.SetActive(c, h, false);
    SetActiveFrame(s, c, h, false);
    if ok && quirk {
      var current := s0.GetDelay(h);
      var temporary := if current == 100000 then 200000 else 100000;
      var s1 := s0.SetDelay(c, h, temporary, false).0;
      var s2 := s1.SetActive(c, h, true).0;
      SetDelayFrame(s0, c, h, temporary, false);
      SetActiveFrame(s1, c, h, true);
      SetActiveFrame(s2, c, h, false);
      SetDelayFrame(s2.SetActive(c, h, false).0, c, h, current, false);
    }
  }

  lemma StepKeepsSync(s: State, c: Config, op: Op)
    requires c.Valid() && InSync(s, c, s.pipe + s.raw) && Enabled(s, c, op) && Spares(s, c, op)
    ensures var t := Step(s, c, op); InSync(t, c, t.pipe + t.raw)
  {
    var pending := s.pipe + s.raw;
    match op
    case Fire(e) => FiringKeepsSync(s, c, e);
    case QueueEvents(n, intact) =>
      if intact {
        assert (s.pipe + s.raw[..n]) + s.raw[n..] == pending;
      } else {
        DropKeepsSyncIff(s, c, n);
      }
    case ProcessEvents(n) =>
      assert s.pipe[..n] + (s.pipe[n..] + s.raw) == pending;
      ProcessAllKeepsSync(s.(pipe := s.pipe[n..]), c, s.pipe[..n], s.pipe[n..] + s.raw);
      ProcessAllFrame(s.(pipe := s.pipe[n..]), c, s.pipe[..n]);
    case Activate(h, on) =>
      SwitchingKeepsSync(s, c, h, on, pending);
      SetActiveFrame(s, c, h, on);
    case SetRate(h, rate, force) =>
      RateKeepsSync(s, c, h, rate, force, pending);
      SetDelayFrame(s, c, h, rate, force);
    case StopSensor(h, quirk) =>
      StopKeepsSync(s, c, h, quirk, pending);
      StopFrame(s, c, h, quirk);
  }

  // ---------- Dropped batches ----------

  /** Without the first `n` events of the backend every sensor booked as active but idle is still announced. */
  ghost predicate Harmless(s: State, c: Config, n: nat)
    requires n <= |s.raw|
  {
    forall h :: h in c.sensors && s.GetActive(h) && h in s.hardware && !s.hardware[h] ==>
                  Announced(s.pipe + s.raw[n..], h)
  }

  /** A dropped batch keeps record and hardware in sync exactly if it holds no last announcement. */
  lemma DropKeepsSyncIff(s: State, c: Config, n: nat)
    requires c.Valid() && InSync(s, c, s.pipe + s.raw) && n <= |s.raw|
    ensures var t := Step(s, c, QueueEvents(n, false)); InSync(t, c, t.pipe + t.raw) <==> Harmless(s, c, n)
  {
    assert forall e :: e in s.pipe + s.raw[n..] ==> e in s.pipe + s.raw;
  }

  /** Samples of sensors that are not one-shot may always be dropped. */
  lemma SampleDropsAreHarmless(s: State, c: Config, n: nat)
    requires c.Valid() && InSync(s, c, s.pipe + s.raw) && n <= |s.raw|
    requires forall i :: 0 <= i < n ==> s.raw[i].sensor !in c.oneshot
    ensures Harmless(s, c, n)
  {
    var pending, left := s.pipe + s.raw, s.pipe + s.raw[n..];
    forall h | h in c.oneshot && Announced(pending, h)
      ensures Announced(left, h)
    {
      var i :| 0 <= i < |pending| && pending[i].sensor == h;
      assert i < |s.pipe| ==> left[i].sensor == h;
      assert i >= |s.pipe| ==> pending[i] == s.raw[i - |s.pipe|] && left[i - n].sensor == h;
    }
  }

  /** A step of a reliable backend; batches are dropped only if that does no harm. */
  ghost predicate Spares(s: State, c: Config, op: Op)
    requires Enabled(s, c, op)
  {
    !op.SetFaults? && (op.QueueEvents? && !op.intact ==> Harmless(s, c, op.n))
  }

  ghost predicate Reliable(s: State, c: Config, ops: seq<Op>)
    requires IsRun(s, c, ops)
    decreases |ops|
  {
    ops != [] ==> Spares(s, c, ops[0]) && Reliable(Step(s, c, ops[0]), c, ops[1..])
  }

  /** In every run on a reliable backend record, hardware and wake-up group stay in sync. */
  lemma {:induction false} RunStaysInSync(s: State, c: Config, ops: seq<Op>)
    requires c.Valid() && InSync(s, c, s.pipe + s.raw) && IsRun(s, c, ops) && Reliable(s, c, ops)
    ensures var t := Run(s, c, ops); InSync(t, c, t.pipe + t.raw)
    decreases |ops|
  {
    if ops != [] {
      StepKeepsSync(s, c, ops[0]);
      RunStaysInSync(Step(s, c, ops[0]), c, ops[1..]);
    }
  }

  /** So whenever no event is on its way, the record says exactly what the hardware does. */
  lemma DrainedRunAgrees(s: State, c: Config, ops: seq<Op>)
    requires c.Valid() && InSync(s, c, s.pipe + s.raw) && IsRun(s, c, ops) && Reliable(s, c, ops)
    requires Run(s, c, ops).pipe == [] && Run(s, c, ops).raw == []
    ensures Run(s, c, ops).active == Run(s, c, ops).hardware
  {
    RunStaysInSync(s, c, ops);
    var t := Run(s, c, ops);
    assert forall h :: !Announced(t.pipe + t.raw, h);
    assert forall h :: h in c.sensors ==> t.active[h] == t.hardware[h];
  }
}
