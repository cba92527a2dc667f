/** The manager itself: its loops over the wake-up group and over events, and the commands it gives. */
module HybrisControl {
  import opened HybrisManager
  import opened HybrisCommands
  import opened Lists

  lemma NextEvent(s: State, c: Config, events: seq<Event>, e: Event, given: seq<Command>)
    ensures s.ProcessAll(c, events + [e]) == s.ProcessAll(c, events).Process(c, e)
    ensures given + ProcessAllCommands(s, c, events + [e])
         == given + ProcessAllCommands(s, c, events) + ProcessCommands(s.ProcessAll(c, events), c, e)
  {
    assert (events + [e])[..|events|] == events;
    Regroup(given, ProcessAllCommands(s, c, events), ProcessCommands(s.ProcessAll(c, events), c, e));
  }

  lemma NextStop(s: State, hs: seq<Handle>, i: nat, given: seq<Command>)
    requires i < |hs|
    ensures var t := s.StopSecondaries(hs[..i]);
      s.StopSecondaries(hs[..i + 1]) == t.SetActiveReal(hs[i], false) &&
      given + StopAllCommands(s, hs[..i + 1]) == given + StopAllCommands(s, hs[..i]) + OnCommand(t, hs[i], false)
  {
    SecondariesFrame(s, hs[..i]);
    assert hs[..i + 1][..i] == hs[..i];
    Regroup(given, StopAllCommands(s, hs[..i]), OnCommand(s, hs[i], false));
  }

  /** The manager of the sensors, together with the backend that it drives. */
  class Manager {
    const config: Config
    var active: map<Handle, bool>
    var delay: map<Handle, int>
    var hardware: map<Handle, bool>   // what the backend has switched on
    var raw: seq<Event>
    var pipe: seq<Event>
    var delivered: seq<Event>
    var faults: Faults
    ghost var commands: seq<Command>  // given to the backend so far

    ghost function Abs(): State
      reads this
    {
      State(active, delay, hardware, raw, pipe, delivered, faults)
    }

    /** All sensors stopped, as after initialization. */
    constructor (config: Config, rates: map<Handle, int>)
      requires config.Valid() && rates.Keys == config.sensors
      ensures this.config == config && delay == rates && InSync(Abs(), config, [])
      ensures raw == [] && pipe == [] && delivered == [] && commands == []
    {
      this.config := config;
      active := map h | h in config.sensors :: false;
      hardware := map h | h in config.sensors :: false;
      delay, raw, pipe, delivered, faults := rates, [], [], [], NO_FAULTS;
      commands := [];
    }

    /** The answer of the backend to one more call. */
    method Call() returns (accepted: bool)
      modifies this`faults
      ensures Abs() == old(Abs()).Called() && accepted == !old(Abs()).Fails()
    {
      accepted := true;
      if faults != [] {
        accepted, faults := !faults[0], faults[1..];
      }
    }

    method SetDelayReal(h: Handle, d: int) returns (success: bool)
      modifies this
      ensures Abs() == old(Abs()).SetDelayReal(h, d)
      ensures commands == old(commands) + RateCommand(old(Abs()), h, d)
      ensures success <==> h in delay && !old(Abs()).Fails()
    {
      success := false;
      if h in delay {
        commands := commands + [Command.SetRate(h, d)];
        success := Call();
        if success {
          delay := delay[h := d];
        }
      }
    }

    method SetActiveReal(h: Handle, on: bool) returns (success: bool)
      modifies this
      ensures Abs() == old(Abs()).SetActiveReal(h, on)
      ensures commands == old(commands) + OnCommand(old(Abs()), h, on)
      ensures success <==> h in active && !old(Abs()).Fails()
    {
      success := false;
      if h in active {
        commands := commands + [SetOn(h, on)];
        success := Call();
        if success {
          hardware := hardware[h := on];
          active := active[h := on];
        }
      }
    }

    method GetDelay(h: Handle) returns (d: int)
      ensures d == Abs().GetDelay(h)
    {
      d := if h in delay then delay[h] else 0;
    }

    method RefreshSecondaries()
      modifies this
      ensures Abs() == old(Abs()).RefreshSecondaries(config.secondaries)
      ensures commands == old(commands) + RefreshCommands(old(Abs()), config.secondaries)
    {
      var hs, i := config.secondaries, 0;
      while i < |hs|
        invariant 0 <= i <= |hs| && Abs() == old(Abs()).RefreshSecondaries(hs[..i])
        invariant commands == old(commands) + RefreshCommands(old(Abs()), hs[..i])
      {
        RefreshIsNeutral(old(Abs()), hs[..i]);
        var rate := GetDelay(hs[i]);
        var _ := SetDelayReal(hs[i], rate);
        assert hs[..i + 1][..i] == hs[..i];
        i := i + 1;
      }
      assert hs[..i] == hs;
    }

    method SetDelay(h: Handle, d: int, force: bool) returns (success: bool)
      modifies this
      ensures (Abs(), success) == old(Abs()).SetDelay(config, h, d, force)
      ensures commands == old(commands) + SetDelayCommands(old(Abs()), config, h, d, force)
    {
      success := false;
      if h in delay {
        if !force && delay[h] == d {
          success := true;
        } else {
          RefreshIsNeutral(Abs(), config.secondaries);
          if h == config.primary {
            RefreshSecondaries();
          }
          success := SetDelayReal(h, d);
        }
      }
    }

    method StartSecondaries()
      modifies this
      ensures Abs() == old(Abs()).StartSecondaries(config.secondaries)
      ensures commands == old(commands) + StartAllCommands(old(Abs()), config.secondaries)
    {
      var hs, i := config.secondaries, 0;
      while i < |hs|
        invariant 0 <= i <= |hs| && Abs() == old(Abs()).StartSecondaries(hs[..i])
        invariant commands == old(commands) + StartAllCommands(old(Abs()), hs[..i])
      {
        SecondariesFrame(old(Abs()), hs[..i]);
        Regroup(old(commands), StartAllCommands(old(Abs()), hs[..i]), StartOneCommands(Abs(), hs[i]));
        StartSecondary(hs[i]);
        assert hs[..i + 1][..i] == hs[..i];
        i := i + 1;
      }
      assert hs[..i] == hs;
    }

    method StartSecondary(h: Handle)
      modifies this
      ensures Abs() == old(Abs()).StartOne(h)
      ensures commands == old(commands) + StartOneCommands(old(Abs()), h)
    {
      RepeatedRate(Abs(), h);
      var rate := GetDelay(h);
      var _ := SetDelayReal(h, rate);
      var _ := SetActiveReal(h, true);
      rate := GetDelay(h);
      var _ := SetDelayReal(h, rate);
    }

    method StopSecondaries()
      modifies this
      ensures Abs() == old(Abs()).StopSecondaries(config.secondaries)
      ensures commands == old(commands) + StopAllCommands(old(Abs()), config.secondaries)
    {
      var hs, i := config.secondaries, 0;
      while i < |hs|
        invariant 0 <= i <= |hs| && Abs() == old(Abs()).StopSecondaries(hs[..i])
        invariant commands == old(commands) + StopAllCommands(old(Abs()), hs[..i])
      {
        NextStop(old(Abs()), hs, i, old(commands));
        var _ := SetActiveReal(hs[i], false);
        i := i + 1;
      }
      assert hs[..i] == hs;
    }

    method SetActive(h: Handle, on: bool) returns (success: bool)
      modifies this
      ensures (Abs(), success) == old(Abs()).SetActive(config, h, on)
      ensures commands == old(commands) + SetActiveCommands(old(Abs()), config, h, on)
    {
      success := false;
      if h in active {
        ghost var s := Abs();
        SecondariesFrame(s, config.secondaries);
        if active[h] == on {
          success := true;
        } else if on {
          if h == config.primary {
            StartSecondaries();
          }
          Regroup(old(commands), StartAllCommands(s, config.secondaries), StartCommands(Abs(), h));
          success := StartSensor(h);
        } else {
          success := SetActiveReal(h, false);
          SameStops(s, Abs(), config.secondaries);
          Regroup(old(commands), OnCommand(s, h, false), StopAllCommands(s, config.secondaries));
          if h == config.primary {
            StopSecondaries();
          }
        }
      }
    }

    /** Rate, activation, and the rate again once the sensor is active. */
    method StartSensor(h: Handle) returns (success: bool)
      requires h in active
      modifies this
      ensures (Abs(), success) == old(Abs()).StartSensor(h)
      ensures commands == old(commands) + StartCommands(old(Abs()), h)
    {
      RepeatedRate(Abs(), h);
      var rate := GetDelay(h);
      var _ := SetDelayReal(h, rate);
      success := SetActiveReal(h, true);
      RepeatedRate(Abs(), h);
      if success {
        rate := GetDelay(h);
        success := SetDelayReal(h, rate);
      }
    }

    method StopReader(h: Handle, quirk: bool)
      modifies this
      ensures Abs() == old(Abs()).StopReader(config, h, quirk)
      ensures commands == old(commands) + StopReaderCommands(old(Abs()), config, h, quirk)
    {
      ghost var given, s := commands, Abs();
      var success := SetActive(h, false);
      Regroup(given, SetActiveCommands(s, config, h, false), RestartCommands(Abs(), config, h));
      if success && quirk {
        Restart(h);
      } else {
        assert SetActiveCommands(s, config, h, false) + [] == SetActiveCommands(s, config, h, false);
      }
    }

    /** Some sensors freeze others when they stop; a forced change of the rate remedies that. */
    method Restart(h: Handle)
      modifies this
      ensures Abs() == old(Abs()).Restart(config, h)
      ensures commands == old(commands) + RestartCommands(old(Abs()), config, h)
    {
      var current := GetDelay(h);
      var temporary := 100000;
      if temporary == current {
        temporary := temporary * 2;
      }
      ghost var given, s := commands, Abs();
      var _ := SetDelay(h, temporary, false);
      ghost var c1, s1 := SetDelayCommands(s, config, h, temporary, false), Abs();
      var _ := SetActive(h, true);
      ghost var c2, s2 := SetActiveCommands(s1, config, h, true), Abs();
      Regroup(given, c1, c2);
      var _ := SetActive(h, false);
      ghost var c3, s3 := SetActiveCommands(s2, config, h, false), Abs();
      Regroup(given, c1 + c2, c3);
      var _ := SetDelay(h, current, false);
      Regroup(given, c1 + c2 + c3, SetDelayCommands(s3, config, h, current, false));
    }

    /** The reader thread moves events from the backend into the pipe, or drops them all. */
    method QueueEvents(n: nat, intact: bool)
      requires n <= |raw|
      modifies this
      ensures Abs() == Step(old(Abs()), config, Op.QueueEvents(n, intact))
      ensures commands == old(commands)
    {
      if intact {
        pipe := pipe + raw[..n];
      }
      raw := raw[n..];
    }

    /** The main thread reads events from the pipe and processes them one by one. */
    method ProcessEvents(n: nat)
      requires n <= |pipe|
      modifies this
      ensures Abs() == Step(old(Abs()), config, Op.ProcessEvents(n))
      ensures commands == old(commands) + CommandsOf(old(Abs()), config, Op.ProcessEvents(n))
    {
      var buffer := pipe[..n];
      pipe := pipe[n..];
      ghost var start := Abs();
      var i := 0;
      while i < n
        invariant 0 <= i <= n && Abs() == start.ProcessAll(config, buffer[..i])
        invariant commands == old(commands) + ProcessAllCommands(start, config, buffer[..i])
      {
        assert buffer[..i + 1] == buffer[..i] + [buffer[i]];
        NextEvent(start, config, buffer[..i], buffer[i], old(commands));
        ProcessEvent(buffer[i]);
        i := i + 1;
      }
      assert buffer[..n] == buffer;
    }

    method ProcessEvent(original: Event)
      modifies this
      ensures Abs() == old(Abs()).Process(config, original)
      ensures commands == old(commands) + ProcessCommands(old(Abs()), config, original)
    {
      var event, forward := original, true;
      var oneshot := event.sensor in config.oneshot;
      if config.primary != -1 && event.sensor in config.secondaries {
        if oneshot {
          event := Event(config.primary, config.primaryKind, 1);
        } else {
          forward := false;
        }
      }
      if forward {
        delivered := delivered + [event];
      }
      if oneshot && event.sensor in active && active[event.sensor] {
        var _ := SetActive(event.sensor, false);
      }
    }
  }
}
