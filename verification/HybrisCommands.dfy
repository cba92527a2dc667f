/**
  The commands that the sensor manager gives to its backend, and what they do
  to a backend that forgets a sensor's rate whenever it is started or stopped.
 */
module HybrisCommands {
  import opened HybrisManager

  datatype Command = SetRate(handle: Handle, rate: int) | SetOn(handle: Handle, on: bool)

  // ---------- The commands of each operation, given the state before ----------

  function RateCommand(s: State, h: Handle, rate: int): seq<Command> {
    if h in s.delay then [Command.SetRate(h, rate)] else []
  }

  function OnCommand(s: State, h: Handle, on: bool): seq<Command> {
    if h in s.active then [SetOn(h, on)] else []
  }

  function StartOneCommands(s: State, h: Handle): seq<Command> {
    RateCommand(s, h, s.GetDelay(h)) + OnCommand(s, h, true) + RateCommand(s, h, s.GetDelay(h))
  }

  function StartAllCommands(s: State, hs: seq<Handle>): seq<Command> {
    if hs == [] then [] else StartAllCommands(s, hs[..|hs| - 1]) + StartOneCommands(s, hs[|hs| - 1])
  }

  function StopAllCommands(s: State, hs: seq<Handle>): seq<Command> {
    if hs == [] then [] else StopAllCommands(s, hs[..|hs| - 1]) + OnCommand(s, hs[|hs| - 1], false)
  }

  function RefreshCommands(s: State, hs: seq<Handle>): seq<Command> {
    if hs == [] then []
    else RefreshCommands(s, hs[..|hs| - 1]) + RateCommand(s, hs[|hs| - 1], s.GetDelay(hs[|hs| - 1]))
  }

  function SetDelayCommands(s: State, c: Config, h: Handle, rate: int, force: bool): seq<Command> {
    if h !in s.delay || (!force && s.delay[h] == rate) then []
    else (if h == c.primary then RefreshCommands(s, c.secondaries) else []) + RateCommand(s, h, rate)
  }

  /** A sensor that does not start gets no second rate. */
  function StartCommands(s: State, h: Handle): seq<Command> {
    if s.SetDelayReal(h, s.GetDelay(h)).Fails() then RateCommand(s, h, s.GetDelay(h)) + OnCommand(s, h, true)
    else StartOneCommands(s, h)
  }

  /** Secondaries first on start and last on stop. */
  function SetActiveCommands(s: State, c: Config, h: Handle, on: bool): seq<Command> {
    if h !in s.active || s.active[h] == on then []
    else if on then
      if h == c.primary then
        StartAllCommands(s, c.secondaries) + StartCommands(s.StartSecondaries(c.secondaries), h)
      else StartCommands(s, h)
    else
      OnCommand(s, h, false) + if h == c.primary then StopAllCommands(s, c.secondaries) else []
  }

  function StopReaderCommands(s: State, c: Config, h: Handle, quirk: bool): seq<Command> {
    var (s0, ok) := s.SetActive(c, h, false);
    SetActiveCommands(s, c, h, false) + if ok && quirk then RestartCommands(s0, c, h) else []
  }

  function RestartCommands(s: State, c: Config, h: Handle): seq<Command> {
    var temporary := if s.GetDelay(h) == 100000 then 200000 else 100000;
    var s1 := s.SetDelay(c, h, temporary, false).0;
    var s2 := s1.SetActive(c, h, true).0;
    var s3 := s2.SetActive(c, h, false).0;
    SetDelayCommands(s, c, h, temporary, false) + SetActiveCommands(s1, c, h, true)
    + SetActiveCommands(s2, c, h, false) + SetDelayCommands(s3, c, h, s.GetDelay(h), false)
  }

  function ProcessCommands(s: State, c: Config, e: Event): seq<Command> {
    var t := s.(delivered := s.delivered + c.Shown(e));
    if e.sensor in c.oneshot && t.GetActive(c.Booked(e)) then SetActiveCommands(t, c, c.Booked(e), false) else []
  }

  function ProcessAllCommands(s: State, c: Config, events: seq<Event>): seq<Command> {
    if events == [] then []
    else
      ProcessAllCommands(s, c, events[..|events| - 1]) +
      ProcessCommands(s.ProcessAll(c, events[..|events| - 1]), c, events[|events| - 1])
  }

  ghost function CommandsOf(s: State, c: Config, op: Op): seq<Command>
    requires Enabled(s, c, op)
  {
    match op
    case ProcessEvents(n) => ProcessAllCommands(s.(pipe := s.pipe[n..]), c, s.pipe[..n])
    case Activate(h, on) => SetActiveCommands(s, c, h, on)
    case SetRate(h, rate, force) => SetDelayCommands(s, c, h, rate, force)
    case StopSensor(h, quirk) => StopReaderCommands(s, c, h, quirk)
    case _ => []
  }

  lemma {:induction false} SameStops(s: State, t: State, hs: seq<Handle>)
    requires s.active.Keys == t.active.Keys
    ensures StopAllCommands(s, hs) == StopAllCommands(t, hs)
    decreases |hs|
  {
    if hs != [] {
      SameStops(s, t, hs[..|hs| - 1]);
    }
  }

  // ---------- A forgetful backend ----------

  /** What is on, the rates in effect, and the sensors ever started without one. */
  datatype Backend = Backend(on: set<Handle>, rates: map<Handle, int>, blind: set<Handle>)

  /** Starting and stopping a sensor loses its rate. */
  function Apply(b: Backend, command: Command): Backend {
    match command
    case SetRate(h, rate) => b.(rates := b.rates[h := rate])
    case SetOn(h, on) =>
      Backend(if on then b.on + {h} else b.on - {h}, b.rates - {h},
              if on && h !in b.rates then b.blind + {h} else b.blind)
  }

  function Replay(b: Backend, commands: seq<Command>): Backend {
    if commands == [] then b else Apply(Replay(b, commands[..|commands| - 1]), commands[|commands| - 1])
  }

  lemma {:induction false} ReplayConcat(b: Backend, xs: seq<Command>, ys: seq<Command>)
    ensures Replay(b, xs + ys) == Replay(Replay(b, xs), ys)
    decreases |ys|
  {
    if ys == [] {
      assert xs + ys == xs;
    } else {
      assert (xs + ys)[..|xs + ys| - 1] == xs + ys[..|ys| - 1];
      ReplayConcat(b, xs, ys[..|ys| - 1]);
    }
  }

  /** What runs has the recorded rate, and nothing was ever started without a rate. */
  ghost predicate Tuned(b: Backend, s: State, c: Config)
    requires Over(s, c)
  {
    && b.blind == {}
    && (forall h :: h in c.sensors ==> (h in b.on <==> s.hardware[h]))
    && (forall h :: h in c.sensors && s.hardware[h] ==> h in b.rates && b.rates[h] == s.delay[h])
  }

  ghost predicate Sound(s: State, c: Config) {
    c.Valid() && Over(s, c) && s.faults == NO_FAULTS
  }

  /** `b` with the sensors in `g` set to their recorded rates, and started if so wanted. */
  ghost function Rated(b: Backend, s: State, g: set<Handle>, start: bool): Backend {
    Backend(if start then b.on + g else b.on,
            map h | h in b.rates.Keys + g :: if h in g then s.GetDelay(h) else b.rates[h], b.blind)
  }

  ghost function Muted(b: Backend, g: set<Handle>): Backend {
    b.(on := b.on - g, rates := b.rates - g)
  }

  lemma RatedNone(b: Backend, s: State, start: bool)
    ensures Rated(b, s, {}, start) == b && Muted(b, {}) == b
  {
    assert Rated(b, s, {}, start).rates == b.rates && Muted(b, {}).rates == b.rates;
  }

  lemma RateCommandEffect(b: Backend, s: State, g: set<Handle>, h: Handle)
    requires h in s.delay
    ensures Replay(Rated(b, s, g, false), RateCommand(s, h, s.GetDelay(h))) == Rated(b, s, g + {h}, false)
  {
    assert [Command.SetRate(h, s.GetDelay(h))][..0] == [];
    assert Apply(Rated(b, s, g, false), Command.SetRate(h, s.GetDelay(h))).rates == Rated(b, s, g + {h}, false).rates;
  }

  /** Rate, start, rate: the sensor starts with a rate and runs at it. */
  lemma StartOneTunes(b: Backend, s: State, g: set<Handle>, h: Handle)
    requires h in s.delay && h in s.active
    ensures Replay(Rated(b, s, g, true), StartOneCommands(s, h)) == Rated(b, s, g + {h}, true)
  {
    var r := Rated(b, s, g, true);
    var rate, on := Command.SetRate(h, s.GetDelay(h)), SetOn(h, true);
    assert StartOneCommands(s, h) == [rate, on, rate];
    assert [rate, on, rate][..2] == [rate, on] && [rate, on][..1] == [rate] && [rate][..0] == [];
    assert Replay(r, [rate]) == Apply(r, rate);
    assert Replay(r, [rate, on]) == Apply(Apply(r, rate), on);
    assert Replay(r, [rate, on, rate]).rates == Rated(b, s, g + {h}, true).rates;
    assert Replay(r, [rate, on, rate]).on == Rated(b, s, g + {h}, true).on;
  }

  lemma {:induction false} StartAllTunes(b: Backend, s: State, hs: seq<Handle>)
    requires forall h :: h in hs ==> h in s.delay && h in s.active
    ensures Replay(b, StartAllCommands(s, hs)) == Rated(b, s, Members(hs), true)
    decreases |hs|
  {
    RatedNone(b, s, true);
    if hs != [] {
      StartAllTunes(b, s, hs[..|hs| - 1]);
      ReplayConcat(b, StartAllCommands(s, hs[..|hs| - 1]), StartOneCommands(s, hs[|hs| - 1]));
      StartOneTunes(b, s, Members(hs[..|hs| - 1]), hs[|hs| - 1]);
    }
  }

  lemma {:induction false} RefreshTunes(b: Backend, s: State, hs: seq<Handle>)
    requires forall h :: h in hs ==> h in s.delay
    ensures Replay(b, RefreshCommands(s, hs)) == Rated(b, s, Members(hs), false)
    decreases |hs|
  {
    RatedNone(b, s, false);
    if hs != [] {
      var front, last := hs[..|hs| - 1], hs[|hs| - 1];
      RefreshTunes(b, s, front);
      ReplayConcat(b, RefreshCommands(s, front), RateCommand(s, last, s.GetDelay(last)));
      RateCommandEffect(b, s, Members(front), last);
    }
  }

  lemma {:induction false} StopAllMutes(b: Backend, s: State, g: set<Handle>, hs: seq<Handle>)
    requires forall h :: h in hs ==> h in s.active
    ensures Replay(Muted(b, g), StopAllCommands(s, hs)) == Muted(b, g + Members(hs))
    decreases |hs|
  {
    if hs == [] {
      assert g + {} == g;
    } else {
      var front, last := hs[..|hs| - 1], hs[|hs| - 1];
      StopAllMutes(b, s, g, front);
      ReplayConcat(Muted(b, g), StopAllCommands(s, front), OnCommand(s, last, false));
      MuteOne(b, s, g + Members(front), last);
      assert g + Members(front) + {last} == g + Members(hs);
    }
  }

  lemma MuteOne(b: Backend, s: State, g: set<Handle>, h: Handle)
    requires h in s.active
    ensures Replay(Muted(b, g), OnCommand(s, h, false)) == Muted(b, g + {h})
  {
    assert [SetOn(h, false)][..0] == [];
    assert Apply(Muted(b, g), SetOn(h, false)).rates == Muted(b, g + {h}).rates;
    assert Apply(Muted(b, g), SetOn(h, false)).on == Muted(b, g + {h}).on;
  }

  // ---------- What a sensor itself is told, and in which order ----------

  function CommandsFor(commands: seq<Command>, h: Handle): seq<Command> {
    if commands == [] then []
    else
      var last := commands[|commands| - 1];
      CommandsFor(commands[..|commands| - 1], h) + if last.handle == h then [last] else []
  }

  lemma {:induction false} ForConcat(xs: seq<Command>, ys: seq<Command>, h: Handle)
    ensures CommandsFor(xs + ys, h) == CommandsFor(xs, h) + CommandsFor(ys, h)
    decreases |ys|
  {
    if ys == [] {
      assert xs + ys == xs;
    } else {
      assert (xs + ys)[..|xs + ys| - 1] == xs + ys[..|ys| - 1];
      ForConcat(xs, ys[..|ys| - 1], h);
    }
  }

  ghost predicate OnlyTo(commands: seq<Command>, hs: seq<Handle>) {
    forall command :: command in commands ==> command.handle in hs
  }

  lemma {:induction false} NoneFor(commands: seq<Command>, hs: seq<Handle>, h: Handle)
    requires OnlyTo(commands, hs) && h !in hs
    ensures CommandsFor(commands, h) == []
    decreases |commands|
  {
    if commands != [] {
      assert commands[|commands| - 1] in commands;
      NoneFor(commands[..|commands| - 1], hs, h);
    }
  }

  lemma {:induction false} GroupCommandsAreOnlyTo(s: State, hs: seq<Handle>)
    ensures OnlyTo(StartAllCommands(s, hs), hs) && OnlyTo(StopAllCommands(s, hs), hs)
    ensures OnlyTo(RefreshCommands(s, hs), hs)
    decreases |hs|
  {
    if hs != [] {
      GroupCommandsAreOnlyTo(s, hs[..|hs| - 1]);
    }
  }

  lemma Behind(first: seq<Command>, own: seq<Command>, hs: seq<Handle>, h: Handle)
    requires OnlyTo(first, hs) && h !in hs && forall command :: command in own ==> command.handle == h
    ensures CommandsFor(first + own, h) == own && CommandsFor(own + first, h) == own && CommandsFor(own, h) == own
  {
    AllFor(own, h);
    NoneFor(first, hs, h);
    ForConcat(first, own, h);
    ForConcat(own, first, h);
    assert [] + own == own && own + [] == own;
  }

  lemma {:induction false} AllFor(own: seq<Command>, h: Handle)
    requires forall command :: command in own ==> command.handle == h
    ensures CommandsFor(own, h) == own
    decreases |own|
  {
    if own != [] {
      AllFor(own[..|own| - 1], h);
      assert own == own[..|own| - 1] + [own[|own| - 1]];
    }
  }

  /** Without errors a start gives the commands of its group, then its own. */
  lemma StartCommandsAre(s: State, c: Config, h: Handle)
    requires Sound(s, c) && h in c.sensors && !s.active[h]
    ensures SetActiveCommands(s, c, h, true)
         == (if h == c.primary then StartAllCommands(s, c.secondaries) else []) + StartOneCommands(s, h)
  {
    if h == c.primary {
      StartSecondariesEffect(s, c, c.secondaries);
    } else {
      assert [] + StartOneCommands(s, h) == StartOneCommands(s, h);
    }
  }

  /** A sensor is started by its rate, activation and rate again. */
  lemma StartTells(s: State, c: Config, h: Handle)
    requires Sound(s, c) && h in c.sensors && !s.active[h]
    ensures var rate := Command.SetRate(h, s.delay[h]);
      CommandsFor(SetActiveCommands(s, c, h, true), h) == [rate, SetOn(h, true), rate]
  {
    StartCommandsAre(s, c, h);
    GroupCommandsAreOnlyTo(s, c.secondaries);
    var first := if h == c.primary then StartAllCommands(s, c.secondaries) else [];
    Behind(first, StartOneCommands(s, h), if h == c.primary then c.secondaries else [], h);
  }

  /** It is stopped by one command. */
  lemma StopTells(s: State, c: Config, h: Handle)
    requires Sound(s, c) && h in c.sensors && s.active[h]
    ensures CommandsFor(SetActiveCommands(s, c, h, false), h) == [SetOn(h, false)]
  {
    GroupCommandsAreOnlyTo(s, c.secondaries);
    var rest := if h == c.primary then StopAllCommands(s, c.secondaries) else [];
    Behind(rest, OnCommand(s, h, false), if h == c.primary then c.secondaries else [], h);
  }

  lemma RateTells(s: State, c: Config, h: Handle, rate: int, force: bool)
    requires Sound(s, c) && h in c.sensors && (force || s.delay[h] != rate)
    ensures CommandsFor(SetDelayCommands(s, c, h, rate, force), h) == [Command.SetRate(h, rate)]
  {
    GroupCommandsAreOnlyTo(s, c.secondaries);
    if h == c.primary {
      Behind(RefreshCommands(s, c.secondaries), RateCommand(s, h, rate), c.secondaries, h);
    } else {
      AllFor(RateCommand(s, h, rate), h);
      assert [] + RateCommand(s, h, rate) == RateCommand(s, h, rate);
    }
  }

  /** The extra restart of a stopped sensor sets another rate, starts and stops it, and sets the rate back. */
  lemma RestartForcesRateChange(s: State, c: Config, h: Handle)
    requires Sound(s, c) && h in c.sensors && !s.active[h]
    ensures var other := Command.SetRate(h, if s.delay[h] == 100000 then 200000 else 100000);
      other.rate != s.delay[h] &&
      CommandsFor(RestartCommands(s, c, h), h)
      == [other] + [other, SetOn(h, true), other] + [SetOn(h, false)] + [Command.SetRate(h, s.delay[h])]
  {
    var rate := if s.delay[h] == 100000 then 200000 else 100000;
    var s1 := s.SetDelay(c, h, rate, false).0;
    RateEffect(s, c, h, rate, false);
    RateTells(s, c, h, rate, false);
    var s2 := s1.SetActive(c, h, true).0;
    SetActiveEffect(s1, c, h, true);
    StartTells(s1, c, h);
    var s3 := s2.SetActive(c, h, false).0;
    SetActiveEffect(s2, c, h, false);
    StopTells(s2, c, h);
    RateTells(s3, c, h, s.delay[h], false);
    ForFour(SetDelayCommands(s, c, h, rate, false), SetActiveCommands(s1, c, h, true),
            SetActiveCommands(s2, c, h, false), SetDelayCommands(s3, c, h, s.delay[h], false), h);
  }

  /** Stopping a reader is one command to a sensor that is active; a listed type gets the extra restart behind it. */
  lemma StopReaderTells(s: State, c: Config, h: Handle, quirk: bool)
    requires Sound(s, c) && h in c.sensors
    ensures var s0 := s.SetActive(c, h, false).0;
      CommandsFor(StopReaderCommands(s, c, h, quirk), h)
      == (if s.active[h] then [SetOn(h, false)] else [])
         + if quirk then CommandsFor(RestartCommands(s0, c, h), h) else []
  {
    SetActiveEffect(s, c, h, false);
    if s.active[h] {
      StopTells(s, c, h);
    }
    var s0 := s.SetActive(c, h, false).0;
    ForConcat(SetActiveCommands(s, c, h, false), if quirk then RestartCommands(s0, c, h) else [], h);
  }

  lemma ForFour(a: seq<Command>, b: seq<Command>, c: seq<Command>, d: seq<Command>, h: Handle)
    ensures CommandsFor(a + b + c + d, h)
         == CommandsFor(a, h) + CommandsFor(b, h) + CommandsFor(c, h) + CommandsFor(d, h)
  {
    ForConcat(a, b, h);
    ForConcat(a + b, c, h);
    ForConcat(a + b + c, d, h);
  }

  // ---------- The primary is never on alone ----------

  lemma {:induction false} ReplayLeaves(b: Backend, commands: seq<Command>, hs: seq<Handle>, h: Handle)
    requires OnlyTo(commands, hs) && h !in hs
    ensures h in Replay(b, commands).on <==> h in b.on
    decreases |commands|
  {
    if commands != [] {
      assert commands[|commands| - 1] in commands;
      ReplayLeaves(b, commands[..|commands| - 1], hs, h);
    }
  }

  /** While a start of the primary is under way, the primary is on only if all secondaries are. */
  lemma PrimaryStartsLast(b: Backend, s: State, c: Config, k: nat)
    requires Sound(s, c) && c.primary != -1 && !s.active[c.primary] && c.primary !in b.on
    requires k <= |SetActiveCommands(s, c, c.primary, true)|
    ensures var r := Replay(b, SetActiveCommands(s, c, c.primary, true)[..k]);
      c.primary in r.on ==> forall h :: h in c.secondaries ==> h in r.on
  {
    StartCommandsAre(s, c, c.primary);
    GroupCommandsAreOnlyTo(s, c.secondaries);
    GroupFirst(b, s, c, StartAllCommands(s, c.secondaries), StartOneCommands(s, c.primary), k);
  }

  lemma GroupFirst(b: Backend, s: State, c: Config, first: seq<Command>, own: seq<Command>, k: nat)
    requires Sound(s, c) && c.primary != -1 && c.primary !in b.on && k <= |first + own|
    requires first == StartAllCommands(s, c.secondaries) && OnlyTo(first, c.secondaries) && OnlyTo(own, [c.primary])
    ensures var r := Replay(b, (first + own)[..k]);
      c.primary in r.on ==> forall h :: h in c.secondaries ==> h in r.on
  {
    if k <= |first| {
      assert (first + own)[..k] == first[..k];
      ReplayLeaves(b, first[..k], c.secondaries, c.primary);
    } else {
      var more := own[..k - |first|];
      assert (first + own)[..k] == first + more;
      ReplayConcat(b, first, more);
      StartAllTunes(b, s, c.secondaries);
      MembersAre(c.secondaries);
      forall h | h in c.secondaries ensures h in Replay(b, first + more).on {
        ReplayLeaves(Replay(b, first), more, [c.primary], h);
      }
    }
  }

  /** And it is the first to be off when it is stopped. */
  lemma PrimaryStopsFirst(b: Backend, s: State, c: Config, k: nat)
    requires Sound(s, c) && c.primary != -1 && s.active[c.primary]
    requires 1 <= k <= |SetActiveCommands(s, c, c.primary, false)|
    ensures c.primary !in Replay(b, SetActiveCommands(s, c, c.primary, false)[..k]).on
  {
    var commands, rest := SetActiveCommands(s, c, c.primary, false), StopAllCommands(s, c.secondaries);
    GroupCommandsAreOnlyTo(s, c.secondaries);
    assert commands[..k] == [SetOn(c.primary, false)] + rest[..k - 1];
    ReplayConcat(b, [SetOn(c.primary, false)], rest[..k - 1]);
    assert [SetOn(c.primary, false)][..0] == [];
    ReplayLeaves(Replay(b, [SetOn(c.primary, false)]), rest[..k - 1], c.secondaries, c.primary);
  }

  // ---------- Whole operations ----------

  lemma StartTunes(b: Backend, s: State, c: Config, h: Handle)
    requires Sound(s, c) && h in c.sensors && !s.active[h]
    ensures Replay(b, SetActiveCommands(s, c, h, true)) == Rated(b, s, c.Group(h), true)
  {
    RatedNone(b, s, true);
    if h == c.primary {
      StartAllTunes(b, s, c.secondaries);
      StartSecondariesEffect(s, c, c.secondaries);
      ReplayConcat(b, StartAllCommands(s, c.secondaries), StartOneCommands(s, h));
      StartOneTunes(b, s, Members(c.secondaries), h);
      assert Members(c.secondaries) + {h} == c.Group(h);
    } else {
      StartOneTunes(b, s, {}, h);
      assert {} + {h} == {h};
    }
  }

  lemma StopMutes(b: Backend, s: State, c: Config, h: Handle)
    requires Sound(s, c) && h in c.sensors && s.active[h]
    ensures Replay(b, SetActiveCommands(s, c, h, false)) == Muted(b, c.Group(h))
  {
    RatedNone(b, s, true);
    MuteOne(b, s, {}, h);
    assert {} + {h} == {h};
    if h == c.primary {
      ReplayConcat(b, OnCommand(s, h, false), StopAllCommands(s, c.secondaries));
      StopAllMutes(b, s, {h}, c.secondaries);
    } else {
      assert OnCommand(s, h, false) + [] == OnCommand(s, h, false);
    }
  }

  lemma SwitchingKeepsTuned(b: Backend, s: State, c: Config, h: Handle, on: bool)
    requires Sound(s, c) && Tuned(b, s, c)
    ensures var t := s.SetActive(c, h, on).0;
      Sound(t, c) && Tuned(Replay(b, SetActiveCommands(s, c, h, on)), t, c)
  {
    if h in c.sensors {
      SetActiveEffect(s, c, h, on);
      if s.active[h] != on {
        if on {
          StartTunes(b, s, c, h);
        } else {
          StopMutes(b, s, c, h);
        }
        MembersAre(c.secondaries);
      }
    }
  }

  lemma RatingEffect(b: Backend, s: State, c: Config, h: Handle, rate: int, force: bool)
    requires Sound(s, c) && h in s.delay && (force || s.delay[h] != rate)
    ensures var g := if h == c.primary then Members(c.secondaries) else {};
      var r := Rated(b, s, g, false);
      Replay(b, SetDelayCommands(s, c, h, rate, force)) == r.(rates := r.rates[h := rate])
  {
    RatedNone(b, s, false);
    var first := if h == c.primary then RefreshCommands(s, c.secondaries) else [];
    RefreshTunes(b, s, c.secondaries);
    ReplayConcat(b, first, RateCommand(s, h, rate));
    assert [Command.SetRate(h, rate)][..0] == [];
  }

  lemma RatingKeepsTuned(b: Backend, s: State, c: Config, h: Handle, rate: int, force: bool)
    requires Sound(s, c) && Tuned(b, s, c)
    ensures var t := s.SetDelay(c, h, rate, force).0;
      Sound(t, c) && Tuned(Replay(b, SetDelayCommands(s, c, h, rate, force)), t, c)
  {
    if h in s.delay && (force || s.delay[h] != rate) {
      RateEffect(s, c, h, rate, force);
      RatingEffect(b, s, c, h, rate, force);
      RatedStaysTuned(b, s, c, if h == c.primary then Members(c.secondaries) else {}, h, rate);
    }
  }

  lemma RatedStaysTuned(b: Backend, s: State, c: Config, g: set<Handle>, h: Handle, rate: int)
    requires Sound(s, c) && Tuned(b, s, c) && h in s.delay
    ensures var (r, t) := (Rated(b, s, g, false), s.(delay := s.delay[h := rate]));
      Sound(t, c) && Tuned(r.(rates := r.rates[h := rate]), t, c)
  {
  }

  lemma RestartKeepsTuned(b: Backend, s: State, c: Config, h: Handle)
    requires Sound(s, c) && Tuned(b, s, c)
    ensures Sound(s.Restart(c, h), c)
    ensures Tuned(Replay(b, RestartCommands(s, c, h)), s.Restart(c, h), c)
  {
    var temporary := if s.GetDelay(h) == 100000 then 200000 else 100000;
    var s1 := s.SetDelay(c, h, temporary, false).0;
    var s2 := s1.SetActive(c, h, true).0;
    var s3 := s2.SetActive(c, h, false).0;
    var c1 := SetDelayCommands(s, c, h, temporary, false);
    var c2 := SetActiveCommands(s1, c, h, true);
    var c3 := SetActiveCommands(s2, c, h, false);
    RatingKeepsTuned(b, s, c, h, temporary, false);
    ReplayConcat(b, c1, c2);
    SwitchingKeepsTuned(Replay(b, c1), s1, c, h, true);
    ReplayConcat(b, c1 + c2, c3);
    SwitchingKeepsTuned(Replay(b, c1 + c2), s2, c, h, false);
    ReplayConcat(b, c1 + c2 + c3, SetDelayCommands(s3, c, h, s.GetDelay(h), false));
    RatingKeepsTuned(Replay(b, c1 + c2 + c3), s3, c, h, s.GetDelay(h), false);
  }

  lemma StoppingKeepsTuned(b: Backend, s: State, c: Config, h: Handle, quirk: bool)
    requires Sound(s, c) && Tuned(b, s, c)
    ensures var t := s.StopReader(c, h, quirk);
      Sound(t, c) && Tuned(Replay(b, StopReaderCommands(s, c, h, quirk)), t, c)
  {
    SwitchingKeepsTuned(b, s, c, h, false);
    var (s0, ok) := s.SetActive(c, h, false);
    var stop := SetActiveCommands(s, c, h, false);
    if ok && quirk {
      RestartKeepsTuned(Replay(b, stop), s0, c, h);
      ReplayConcat(b, stop, RestartCommands(s0, c, h));
    } else {
      assert stop + [] == stop;
    }
  }

  lemma {:induction false} ProcessingKeepsTuned(b: Backend, s: State, c: Config, events: seq<Event>)
    requires Sound(s, c) && Tuned(b, s, c)
    ensures var t := s.ProcessAll(c, events);
      Sound(t, c) && Tuned(Replay(b, ProcessAllCommands(s, c, events)), t, c)
    decreases |events|
  {
    if events != [] {
      var front, e := events[..|events| - 1], events[|events| - 1];
      ProcessingKeepsTuned(b, s, c, front);
      var before, t := ProcessAllCommands(s, c, front), s.ProcessAll(c, front);
      ReplayConcat(b, before, ProcessCommands(t, c, e));
      SwitchingKeepsTuned(Replay(b, before), t.(delivered := t.delivered + c.Shown(e)), c, c.Booked(e), false);
    }
  }

  /** A one-shot sensor that fires stops by itself. */
  ghost function BackendStep(b: Backend, s: State, c: Config, op: Op): Backend
    requires Enabled(s, c, op)
  {
    if op.Fire? && op.event.sensor in c.oneshot then Muted(b, {op.event.sensor})
    else Replay(b, CommandsOf(s, c, op))
  }

  ghost function BackendRun(b: Backend, s: State, c: Config, ops: seq<Op>): Backend
    requires IsRun(s, c, ops)
    decreases |ops|
  {
    if ops == [] then b else BackendRun(BackendStep(b, s, c, ops[0]), Step(s, c, ops[0]), c, ops[1..])
  }

  lemma StepKeepsTuned(b: Backend, s: State, c: Config, op: Op)
    requires Sound(s, c) && Tuned(b, s, c) && Enabled(s, c, op) && !op.SetFaults?
    ensures Sound(Step(s, c, op), c) && Tuned(BackendStep(b, s, c, op), Step(s, c, op), c)
  {
    match op
    case ProcessEvents(n) => ProcessingKeepsTuned(b, s.(pipe := s.pipe[n..]), c, s.pipe[..n]);
    case Activate(h, on) => SwitchingKeepsTuned(b, s, c, h, on);
    case SetRate(h, rate, force) => RatingKeepsTuned(b, s, c, h, rate, force);
    case StopSensor(h, quirk) => StoppingKeepsTuned(b, s, c, h, quirk);
    case _ =>
  }

  ghost predicate Faultless(ops: seq<Op>) {
    forall op :: op in ops ==> !op.SetFaults?
  }

  /**
    In every run, even on a backend that loses a sensor's rate whenever it is
    started or stopped, each running sensor runs at its recorded rate, and no
    sensor is ever started before its rate is set, whatever batches are dropped.
   */
  lemma {:induction false} RunStaysTuned(b: Backend, s: State, c: Config, ops: seq<Op>)
    requires Sound(s, c) && Tuned(b, s, c) && IsRun(s, c, ops) && Faultless(ops)
    ensures Sound(Run(s, c, ops), c) && Tuned(BackendRun(b, s, c, ops), Run(s, c, ops), c)
    decreases |ops|
  {
    if ops != [] {
      StepKeepsTuned(b, s, c, ops[0]);
      RunStaysTuned(BackendStep(b, s, c, ops[0]), Step(s, c, ops[0]), c, ops[1..]);
    }
  }
}
