/**
  When a sensor adaptor runs: clients want it or not, the display may be
  blanked, and clients may override the standby that comes with blanking.
 */
module AdaptorPolicy {

  /** The flags of one adaptor and of its sensor entry, and whether its reader is started. */
  datatype State = State(wanted: bool, inStandby: bool, running: bool,
                         standbyOverride: bool, screenBlanked: bool, refs: int, entryRunning: bool,
                         reader: bool)
  {
    predicate Allowed() {
      standbyOverride || !inStandby
    }

    /** Brings the reader in line with what is wanted and allowed. */
    function Evaluate(): State {
      var target := wanted && Allowed();
      if running == target then this
      else if target then
        this.(running := true, reader := true, refs := refs + 1, entryRunning := entryRunning || refs + 1 == 1)
      else
        this.(running := false, reader := false, refs := refs - 1, entryRunning := entryRunning && refs - 1 != 0)
    }

    function Standby(): State {
      if inStandby then this else this.(inStandby := true).Evaluate()
    }

    function Resume(): State {
      if inStandby then this.(inStandby := false).Evaluate() else this
    }

    function Step(op: Op): State {
      match op
      case Start => if wanted then this else this.(wanted := true).Evaluate()
      case Stop => if wanted then this.(wanted := false).Evaluate() else this
      case Display(on) => if on then this.(screenBlanked := false).Resume() else this.(screenBlanked := true).Standby()
      case Override(on) =>
        var s := this.(standbyOverride := on);
        if !screenBlanked then s else if on then s.Resume() else s.Standby()
    }

    /** What every reachable state satisfies. */
    ghost predicate Valid() {
      && (inStandby ==> screenBlanked)
      && (wanted && Allowed() ==> running)
      && (running ==> wanted)
      && refs == (if running then 1 else 0)
      && entryRunning == running
      && reader == running
    }

    /** The sensor runs although it should be asleep. */
    ghost predicate AgainstPolicy() {
      running && !Allowed()
    }

    /** In standby, and kept running by the override alone. */
    ghost predicate HeldByOverride() {
      running && inStandby && standbyOverride
    }
  }

  datatype Op = Start | Stop | Display(on: bool) | Override(on: bool)

  function Initial(blanked: bool): State {
    State(false, false, false, false, blanked, 0, false, false)
  }

  ghost function Run(blanked: bool, ops: seq<Op>): State {
    if ops == [] then Initial(blanked) else Run(blanked, ops[..|ops| - 1]).Step(ops[|ops| - 1])
  }

  lemma StepIsValid(s: State, op: Op)
    requires s.Valid()
    ensures s.Step(op).Valid()
  {
  }

  lemma {:induction false} RunIsValid(blanked: bool, ops: seq<Op>)
    ensures Run(blanked, ops).Valid()
    decreases |ops|
  {
    if ops != [] {
      RunIsValid(blanked, ops[..|ops| - 1]);
      StepIsValid(Run(blanked, ops[..|ops| - 1]), ops[|ops| - 1]);
    }
  }

  /** Blanking the display puts a sensor to sleep, and stops it unless it is overridden or was against policy before. */
  lemma BlankingStops(s: State)
    requires s.Valid()
    ensures var t := s.Step(Display(false));
      t.inStandby && t.screenBlanked && (t.running <==> s.wanted && (s.standbyOverride || s.AgainstPolicy()))
  {
  }

  /** Showing it wakes the sensor, which then runs exactly if it is wanted. */
  lemma ShowingWakes(s: State)
    requires s.Valid()
    ensures var t := s.Step(Display(true)); !t.inStandby && !t.screenBlanked && (t.running <==> s.wanted)
  {
  }

  // ---------- The state after a run, from its history alone ----------

  /** The last start or stop was a start. */
  predicate Wanted(ops: seq<Op>) {
    ops != [] &&
    match ops[|ops| - 1]
    case Start => true
    case Stop => false
    case _ => Wanted(ops[..|ops| - 1])
  }

  /** The last change of the override switched it on. */
  predicate Overridden(ops: seq<Op>) {
    ops != [] &&
    match ops[|ops| - 1]
    case Override(on) => on
    case _ => Overridden(ops[..|ops| - 1])
  }

  /** The last change of the display blanked it. */
  predicate Blanked(blanked: bool, ops: seq<Op>) {
    if ops == [] then blanked else
      match ops[|ops| - 1]
      case Display(on) => !on
      case _ => Blanked(blanked, ops[..|ops| - 1])
  }

  /** The last change that counts is a blanking, or the end of an override under a blanked display. */
  predicate Asleep(blanked: bool, ops: seq<Op>) {
    ops != [] &&
    match ops[|ops| - 1]
    case Display(on) => !on
    case Override(on) =>
      if Blanked(blanked, ops[..|ops| - 1]) then !on else Asleep(blanked, ops[..|ops| - 1])
    case _ => Asleep(blanked, ops[..|ops| - 1])
  }

  ghost predicate Remembers(s: State, wanted: bool, overridden: bool, blanked: bool, asleep: bool) {
    s.wanted == wanted && s.standbyOverride == overridden && s.screenBlanked == blanked && s.inStandby == asleep
  }

  /** Wish, override, display and standby are what the history says. */
  lemma {:induction false} HistoryIsRemembered(blanked: bool, ops: seq<Op>)
    ensures Remembers(Run(blanked, ops), Wanted(ops), Overridden(ops), Blanked(blanked, ops), Asleep(blanked, ops))
    decreases |ops|
  {
    if ops != [] {
      HistoryIsRemembered(blanked, ops[..|ops| - 1]);
      RunIsValid(blanked, ops[..|ops| - 1]);
    }
  }

  /**
    A sensor runs exactly if it is wanted and is awake or overridden, or its
    override was withdrawn in standby.
   */
  lemma RunsIff(blanked: bool, ops: seq<Op>)
    ensures Run(blanked, ops).running <==>
            Wanted(ops) && (!Asleep(blanked, ops) || Overridden(ops)
                            || exists k: nat :: WithdrawnInStandby(blanked, ops, k))
  {
    HistoryIsRemembered(blanked, ops);
    RunIsValid(blanked, ops);
    AgainstPolicyIff(blanked, ops);
  }

  /** Operations that do not make a sleeping adaptor look at its policy again. */
  predicate LeavesAsleep(op: Op) {
    op == Start || op == Display(false) || op == Override(false)
  }

  /** At position `k` the override was withdrawn from an adaptor already in standby, and nothing woke it since. */
  ghost predicate WithdrawnInStandby(blanked: bool, ops: seq<Op>, k: nat) {
    && k < |ops|
    && ops[k] == Override(false)
    && Run(blanked, ops[..k]).HeldByOverride()
    && forall j :: k < j < |ops| ==> LeavesAsleep(ops[j])
  }

  lemma StepAgainstPolicyIff(s: State, op: Op)
    requires s.Valid()
    ensures s.Step(op).AgainstPolicy() <==>
            (s.AgainstPolicy() && LeavesAsleep(op)) || (s.HeldByOverride() && op == Override(false))
  {
  }

  /** How the history extends by one operation. */
  lemma WithdrawnInStandbyStep(blanked: bool, ops: seq<Op>, k: nat)
    requires ops != []
    ensures var front := ops[..|ops| - 1];
      WithdrawnInStandby(blanked, ops, k) <==>
      if k < |front| then WithdrawnInStandby(blanked, front, k) && LeavesAsleep(ops[|front|])
      else k == |front| && ops[k] == Override(false) && Run(blanked, front).HeldByOverride()
  {
    var front := ops[..|ops| - 1];
    if k < |front| {
      assert front[..k] == ops[..k];
    }
  }

  /** A sensor runs against its policy exactly after such a withdrawal. */
  lemma {:induction false} AgainstPolicyIff(blanked: bool, ops: seq<Op>)
    ensures Run(blanked, ops).AgainstPolicy() <==> exists k: nat :: WithdrawnInStandby(blanked, ops, k)
    decreases |ops|
  {
    if ops != [] {
      var front := ops[..|ops| - 1];
      AgainstPolicyIff(blanked, front);
      RunIsValid(blanked, front);
      StepAgainstPolicyIff(Run(blanked, front), ops[|front|]);
      forall k: nat {
        WithdrawnInStandbyStep(blanked, ops, k);
      }
      if Run(blanked, front).HeldByOverride() && ops[|front|] == Override(false) {
        assert WithdrawnInStandby(blanked, ops, |front|);
      }
      if Run(blanked, front).AgainstPolicy() && LeavesAsleep(ops[|front|]) {
        var k: nat :| WithdrawnInStandby(blanked, front, k);
        assert WithdrawnInStandby(blanked, ops, k);
      }
    }
  }

  /** Such a run exists: override, blank, withdraw. */
  lemma AgainstPolicyHappens()
    ensures Run(false, [Start, Override(true), Display(false), Override(false)]).AgainstPolicy()
  {
    var ops := [Start, Override(true), Display(false), Override(false)];
    assert ops[..3] == [Start, Override(true), Display(false)];
    assert ops[..3][..2] == [Start, Override(true)];
    assert ops[..3][..2][..1] == [Start];
    assert ops[..3][..2][..1][..0] == [];
    assert Run(false, [Start]) == Initial(false).Step(Start);
    assert Run(false, [Start, Override(true)]) == Run(false, [Start]).Step(Override(true));
  }

  /** Showing the display, stopping, or overriding again restores the policy at once. */
  lemma WakingRestoresPolicy(s: State, op: Op)
    requires s.Valid() && !LeavesAsleep(op)
    ensures !s.Step(op).AgainstPolicy()
  {
  }

  // ---------- The adaptor ----------

  class AdaptedSensorEntry {
    var running: bool
    var count: int

    constructor ()
      ensures !running && count == 0
    {
      running, count := false, 0;
    }

    method AddReference() returns (refs: int)
      modifies this`count
      ensures refs == count == old(count) + 1
    {
      count := count + 1;
      refs := count;
    }

    method RemoveReference() returns (refs: int)
      modifies this`count
      ensures refs == count == old(count) - 1
    {
      count := count - 1;
      refs := count;
    }
  }

  class Adaptor {
    const entry: AdaptedSensorEntry
    var shouldBeRunning: bool
    var inStandbyMode: bool
    var isRunning: bool
    var standbyOverride: bool
    var screenBlanked: bool
    var reader: bool               // whether the manager was last told to start or to stop the reader

    ghost function Abs(): State
      reads this, entry
    {
      State(shouldBeRunning, inStandbyMode, isRunning, standbyOverride, screenBlanked, entry.count, entry.running,
            reader)
    }

    constructor (blanked: bool)
      ensures Abs() == Initial(blanked) && fresh(entry)
    {
      entry := new AdaptedSensorEntry();
      shouldBeRunning, inStandbyMode, isRunning := false, false, false;
      standbyOverride, screenBlanked, reader := false, blanked, false;
    }

    method EvaluateSensor()
      modifies this, entry
      ensures Abs() == old(Abs()).Evaluate()
    {
      var runningAllowed := standbyOverride || !inStandbyMode;
      var startRunning := shouldBeRunning && runningAllowed;
      if isRunning != startRunning {
        isRunning := startRunning;
        if isRunning {
          reader := true;
          var refs := entry.AddReference();
          if refs == 1 {
            entry.running := true;
          }
        } else {
          var refs := entry.RemoveReference();
          if refs == 0 {
            entry.running := false;
          }
          reader := false;
        }
      }
    }

    method StartSensor()
      modifies this, entry
      ensures Abs() == old(Abs()).Step(Start)
    {
      if !shouldBeRunning {
        shouldBeRunning := true;
        EvaluateSensor();
      }
    }

    method StopSensor()
      modifies this, entry
      ensures Abs() == old(Abs()).Step(Stop)
    {
      if shouldBeRunning {
        shouldBeRunning := false;
        EvaluateSensor();
      }
    }

    method Standby()
      modifies this, entry
      ensures Abs() == old(Abs()).Standby()
    {
      if !inStandbyMode {
        inStandbyMode := true;
        EvaluateSensor();
      }
    }

    method Resume()
      modifies this, entry
      ensures Abs() == old(Abs()).Resume()
    {
      if inStandbyMode {
        inStandbyMode := false;
        EvaluateSensor();
      }
    }

    method SetStandbyOverride(on: bool) returns (ok: bool)
      modifies this, entry
      ensures ok && Abs() == old(Abs()).Step(Override(on))
    {
      standbyOverride := on;
      if screenBlanked {
        if on {
          Resume();
        } else {
          Standby();
        }
      }
      ok := true;
    }

    method DisplayStateChanged(on: bool)
      modifies this, entry
      ensures Abs() == old(Abs()).Step(Display(on))
    {
      if on {
        screenBlanked := false;
        Resume();
      } else {
        screenBlanked := true;
        Standby();
      }
    }
  }
}
