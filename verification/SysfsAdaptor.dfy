/** An adaptor that reads sensor files in a thread of its own. */
module SysfsAdaptor {
  import AdaptorPolicy

  /** The flags of the adaptor and of its sensor entry. */
  datatype Flags = Flags(shouldBeRunning: bool, inStandby: bool, running: bool, standbyOverride: bool, refs: int,
                         entryRunning: bool)
  {
    /** `opens` tells whether the files can be opened. */
    function Started(opens: bool): (Flags, bool) {
      var counted := this.(refs := refs + 1);
      if running then (counted, false)
      else if inStandby && !standbyOverride then (counted.(shouldBeRunning := true), false)
      else if !opens then (this.(shouldBeRunning := false, inStandby := false, entryRunning := false), false)
      else (counted.(shouldBeRunning := true, inStandby := false, running := true, entryRunning := true), true)
    }

    function Stopped(): Flags {
      if refs <= 1 then this.(refs := refs - 1, running := false, entryRunning := false) else this.(refs := refs - 1)
    }

    function StoodBy(): (Flags, bool) {
      if inStandby || standbyOverride || !running then (this, false) else
        var asleep := this.(inStandby := true, shouldBeRunning := true, running := false);
        (if entryRunning then asleep.Stopped() else asleep, true)
    }

    function Resumed(opens: bool): (Flags, bool) {
      if !inStandby || !shouldBeRunning then (this, false)
      else (this.(inStandby := false, running := opens), opens)
    }

    ghost predicate Consistent() {
      && (inStandby ==> !running)
      && (inStandby || running ==> shouldBeRunning)
    }
  }

  datatype Op = Start(opens: bool) | Stop | Standby | Resume(opens: bool) | Override(on: bool)

  function Step(f: Flags, op: Op): Flags {
    match op
    case Start(opens) => f.Started(opens).0
    case Stop => f.Stopped()
    case Standby => f.StoodBy().0
    case Resume(opens) => f.Resumed(opens).0
    case Override(on) => f.(standbyOverride := on)
  }

  const INITIAL := Flags(false, false, false, false, 0, false)

  function Run(ops: seq<Op>): Flags {
    if ops == [] then INITIAL else Step(Run(ops[..|ops| - 1]), ops[|ops| - 1])
  }

  /** In standby the adaptor never runs, and it always resumes. */
  lemma {:induction false} RunIsConsistent(ops: seq<Op>)
    ensures Run(ops).Consistent()
    ensures Run(ops).inStandby ==> forall opens :: Run(ops).Resumed(opens).1 == opens
  {
    if ops != [] {
      RunIsConsistent(ops[..|ops| - 1]);
    }
  }

  /** The last change of the override switched it on. */
  predicate Overridden(ops: seq<Op>) {
    ops != [] &&
    match ops[|ops| - 1]
    case Override(on) => on
    case _ => Overridden(ops[..|ops| - 1])
  }

  lemma {:induction false} OverrideIsRemembered(ops: seq<Op>)
    ensures Run(ops).standbyOverride == Overridden(ops)
  {
    if ops != [] {
      OverrideIsRemembered(ops[..|ops| - 1]);
    }
  }

  /**
    What every operation does to an adaptor after any run. A start waits in
    standby unless the override is on; a standby stops the adaptor unless the
    override is on; a resume always ends standby.
   */
  lemma RunsAfterIff(ops: seq<Op>, op: Op)
    ensures var (f, on, t) := (Run(ops), Overridden(ops), Run(ops + [op]));
      match op
      case Start(opens) =>
        && (t.running <==> f.running || (opens && (!f.inStandby || on)))
        && (t.inStandby <==> f.inStandby && !on)
      case Stop => (t.running <==> f.running && f.refs > 1) && t.inStandby == f.inStandby
      case Standby => (t.running <==> f.running && on) && (t.inStandby <==> f.inStandby || (f.running && !on))
      case Resume(opens) => (t.running <==> f.running || (f.inStandby && opens)) && !t.inStandby
      case Override(_) => t.running == f.running && t.inStandby == f.inStandby
  {
    Next(ops, op);
    RunIsConsistent(ops);
    OverrideIsRemembered(ops);
  }

  /** How a step changes the listeners there are: a start that fails leaves none. */
  function Listens(f: Flags, op: Op): int {
    match op
    case Start(opens) => if opens || f.running || (f.inStandby && !f.standbyOverride) then 1 else 0
    case Stop => -1
    case _ => 0
  }

  function Listeners(ops: seq<Op>): int {
    if ops == [] then 0
    else Listeners(ops[..|ops| - 1]) + Listens(Run(ops[..|ops| - 1]), ops[|ops| - 1])
  }

  /** How often the adaptor went to standby while its entry was running. */
  function Sleeps(ops: seq<Op>): nat {
    if ops == [] then 0 else
      var before := Run(ops[..|ops| - 1]);
      Sleeps(ops[..|ops| - 1]) + if ops[|ops| - 1] == Standby && before.StoodBy().1 && before.entryRunning then 1 else 0
  }

  /** The reference count is the number of listeners less one for every such standby: right only if there was none. */
  lemma {:induction false} ReferencesDrift(ops: seq<Op>)
    ensures Run(ops).refs == Listeners(ops) - Sleeps(ops)
  {
    if ops != [] {
      ReferencesDrift(ops[..|ops| - 1]);
    }
  }

  lemma Next(ops: seq<Op>, op: Op)
    ensures var (before, more) := (Run(ops), ops + [op]);
      Run(more) == Step(before, op) && Listeners(more) == Listeners(ops) + Listens(before, op) &&
      Sleeps(more) == Sleeps(ops) + if op == Standby && before.StoodBy().1 && before.entryRunning then 1 else 0
  {
    assert (ops + [op])[..|ops|] == ops;
  }

  /** After a stop a resume finds the adaptor running exactly if it was in standby, or ran with references left. */
  lemma StopIsForgottenIff(ops: seq<Op>)
    ensures Run(ops).Stopped().Resumed(true).0.running <==>
            Run(ops).inStandby || (Run(ops).running && Run(ops).refs > 1)
  {
    RunIsConsistent(ops);
  }

  /** One listener comes and goes, with a standby in between: the adaptor runs for nobody. */
  lemma RunsForNobody()
    ensures var ops := [Start(true), Standby, Stop, Resume(true)];
      Run(ops).running && Listeners(ops) == 0
  {
    Next([], Start(true));
    Next([Start(true)], Standby);
    Next([Start(true), Standby], Stop);
    Next([Start(true), Standby, Stop], Resume(true));
    assert [] + [Start(true)] == [Start(true)] && [Start(true)] + [Standby] == [Start(true), Standby];
    assert [Start(true), Standby] + [Stop] == [Start(true), Standby, Stop];
    assert [Start(true), Standby, Stop] + [Resume(true)] == [Start(true), Standby, Stop, Resume(true)];
  }

  /**
    A stop silences listeners that remain exactly if there were several, and no
    more of them than standbys taken with the entry running, and one.
   */
  lemma StopSilencesIff(ops: seq<Op>)
    requires Run(ops).running
    ensures !Run(ops + [Stop]).running && Listeners(ops + [Stop]) > 0 <==> 1 < Listeners(ops) <= Sleeps(ops) + 1
  {
    ReferencesDrift(ops);
    Next(ops, Stop);
  }

  /** Two listeners, a standby, and one of them stops: the other has no running reader any more. */
  lemma SilencesAnother()
    ensures var ops := [Start(true), Start(true), Standby, Resume(true), Stop];
      !Run(ops).running && Listeners(ops) == 1
  {
    var two := [Start(true), Start(true)];
    Next([], Start(true));
    Next([Start(true)], Start(true));
    assert [] + [Start(true)] == [Start(true)] && [Start(true)] + [Start(true)] == two;
    Next(two, Standby);
    Next(two + [Standby], Resume(true));
    Next(two + [Standby] + [Resume(true)], Stop);
    assert two + [Standby] + [Resume(true)] + [Stop] == [Start(true), Start(true), Standby, Resume(true), Stop];
  }

  // ---------- The adaptor ----------

  const CLOSED: int := -1

  class Adaptor {
    const paths: nat
    const selectMode: bool
    const entry: AdaptorPolicy.AdaptedSensorEntry

    var shouldBeRunning: bool
    var inStandbyMode: bool
    var running: bool
    var standbyOverride: bool

    var descriptors: seq<int>
    var pipe: (int, int)
    var epoll: int
    var readerLive: bool

    var openFiles: set<int>   // the files that the process has open for this adaptor
    var lastFile: int

    function State(): Flags
      reads this, entry
    {
      Flags(shouldBeRunning, inStandbyMode, running, standbyOverride, entry.count, entry.running)
    }

    /** Exactly the recorded files are open, each recorded once. */
    ghost predicate Recorded()
      reads this
    {
      && openFiles == (set fd | fd in descriptors) + {pipe.0, pipe.1, epoll} - {CLOSED}
      && (forall i, j :: 0 <= i < j < |descriptors| ==> descriptors[i] != descriptors[j])
      && (forall fd :: fd in descriptors ==> fd != pipe.0 && fd != pipe.1 && fd != epoll && fd != CLOSED)
      && (pipe.0 == pipe.1 ==> pipe.0 == CLOSED) && (pipe.0 == epoll || pipe.1 == epoll ==> epoll == CLOSED)
      && lastFile >= 0 && forall fd :: fd in openFiles ==> 0 <= fd <= lastFile
    }

    ghost predicate AllOpen()
      reads this
    {
      |descriptors| == paths &&
      if selectMode then pipe.0 != CLOSED && pipe.1 != CLOSED && epoll != CLOSED
      else pipe == (CLOSED, CLOSED) && epoll == CLOSED
    }

    ghost predicate NoneOpen()
      reads this
    {
      descriptors == [] && pipe == (CLOSED, CLOSED) && epoll == CLOSED
    }

    /** The reader is live exactly when the adaptor runs, and then all files are open, else none. */
    ghost predicate Valid()
      reads this, entry
    {
      Recorded() && readerLive == running && (if running then AllOpen() else NoneOpen()) && State().Consistent()
    }

    constructor (paths: nat, selectMode: bool)
      ensures Valid() && State() == INITIAL && openFiles == {} && fresh(entry)
    {
      this.paths, this.selectMode := paths, selectMode;
      entry := new AdaptorPolicy.AdaptedSensorEntry();
      shouldBeRunning, inStandbyMode, running, standbyOverride := false, false, false, false;
      descriptors, pipe, epoll, readerLive := [], (CLOSED, CLOSED), CLOSED, false;
      openFiles, lastFile := {}, 0;
    }

    method NewFile() returns (fd: int)
      requires lastFile >= 0
      modifies `openFiles, `lastFile
      ensures fd == lastFile == old(lastFile) + 1 && openFiles == old(openFiles) + {fd}
    {
      lastFile := lastFile + 1;
      openFiles := openFiles + {lastFile};
      fd := lastFile;
    }

    /** Nothing is closed that is not open. */
    method Close(fd: int)
      requires fd in openFiles
      modifies `openFiles
      ensures openFiles == old(openFiles) - {fd}
    {
      openFiles := openFiles - {fd};
    }

    function Calls(): nat {
      if selectMode then paths + 3 + paths + 1 else paths
    }

    /** Of the system calls made, the first `succeeding` succeed. */
    method OpenFds(succeeding: nat) returns (ok: bool)
      requires Recorded() && NoneOpen()
      modifies `descriptors, `pipe, `epoll, `openFiles, `lastFile
      ensures Recorded() && ok == (succeeding >= Calls()) && (ok ==> AllOpen())
    {
      var left := succeeding;
      for i := 0 to paths
        invariant Recorded() && |descriptors| == i && pipe == (CLOSED, CLOSED) && epoll == CLOSED
        invariant left == succeeding - i >= 0
      {
        if left == 0 {
          return false;
        }
        var fd := NewFile();
        descriptors, left := descriptors + [fd], left - 1;
      }
      if selectMode {
        if left == 0 {
          return false;
        }
        var reading := NewFile();
        var writing := NewFile();
        pipe := (reading, writing);
        if left < 3 {
          return false;
        }
        epoll := NewFile();
        if left - 3 < paths + 1 {
          return false;
        }
      }
      ok := true;
    }

    method CloseAllFds()
      requires Recorded()
      modifies `descriptors, `pipe, `epoll, `openFiles
      ensures Recorded() && NoneOpen() && openFiles == {}
    {
      if epoll != CLOSED {
        Close(epoll);
        epoll := CLOSED;
      }
      if pipe.0 != CLOSED {
        Close(pipe.0);
        pipe := (CLOSED, pipe.1);
      }
      if pipe.1 != CLOSED {
        Close(pipe.1);
        pipe := (pipe.0, CLOSED);
      }
      CloseDescriptors();
    }

    method CloseDescriptors()
      requires Recorded() && pipe == (CLOSED, CLOSED) && epoll == CLOSED
      modifies `descriptors, `openFiles
      ensures Recorded() && NoneOpen() && openFiles == {}
    {
      while descriptors != []
        invariant Recorded()
        decreases |descriptors|
      {
        var last := descriptors[|descriptors| - 1];
        assert forall fd :: fd in descriptors <==> fd in descriptors[..|descriptors| - 1] || fd == last;
        Close(last);
        descriptors := descriptors[..|descriptors| - 1];
      }
    }

    /** The reader is waited for, so it must be possible to tell it to stop. */
    method StopReaderThread()
      requires readerLive && selectMode ==> pipe.1 in openFiles
      modifies `readerLive
      ensures !readerLive
    {
      readerLive := false;
    }

    method StartReaderThread(succeeding: nat) returns (ok: bool)
      requires Recorded() && NoneOpen()
      modifies `descriptors, `pipe, `epoll, `openFiles, `lastFile, `readerLive
      ensures Recorded() && ok == (succeeding >= Calls())
      ensures if ok then AllOpen() && readerLive else NoneOpen() && readerLive == old(readerLive)
    {
      ok := OpenFds(succeeding);
      if !ok {
        CloseAllFds();
        return false;
      }
      readerLive := true;
    }

    method StartSensor(succeeding: nat) returns (ok: bool)
      requires Valid()
      modifies this, entry
      ensures Valid() && (State(), ok) == old(State()).Started(succeeding >= Calls())
    {
      var refs := entry.AddReference();
      if running {
        return false;
      }
      shouldBeRunning := true;
      if inStandbyMode && !standbyOverride {
        return false;
      }
      inStandbyMode := false;
      ok := StartReaderThread(succeeding);
      if !ok {
        refs := entry.RemoveReference();
        entry.running := false;
        running, shouldBeRunning := false, false;
        return false;
      }
      entry.running, running := true, true;
    }

    /** Also called on the way to standby, with the reader stopped already. */
    method StopSensor()
      requires Recorded() && State().Consistent() && readerLive == running
      requires if running then AllOpen() else NoneOpen()
      modifies this, entry
      ensures Valid() && State() == old(State()).Stopped()
    {
      var refs := entry.RemoveReference();
      if entry.count <= 0 {
        if !inStandbyMode {
          StopReaderThread();
          CloseAllFds();
        }
        entry.running, running := false, false;
      }
    }

    method EnterStandby() returns (ok: bool)
      requires Valid()
      modifies this, entry
      ensures Valid() && (State(), ok) == old(State()).StoodBy()
    {
      if inStandbyMode || standbyOverride || !running {
        return false;
      }
      inStandbyMode, shouldBeRunning := true, true;
      StopReaderThread();
      CloseAllFds();
      running := false;
      if entry.running {
        StopSensor();
      }
      ok := true;
    }

    method LeaveStandby(succeeding: nat) returns (ok: bool)
      requires Valid()
      modifies this, entry
      ensures Valid() && (State(), ok) == old(State()).Resumed(succeeding >= Calls())
    {
      if !inStandbyMode || !shouldBeRunning {
        return false;
      }
      inStandbyMode := false;
      ok := StartReaderThread(succeeding);
      if ok {
        running := true;
      }
    }
  }
}
