/** The sensor manager's registry of sensors, sessions and clients. */
module SessionRegistry {
  import Intervals
  import opened Lists
  import opened Sessions

  type Client = string

  const INVALID_SESSION: SessionId := -1

  datatype Error = NoError | IdNotRegistered | NotInstantiated

  /** A registered sensor: the sessions connected to it, and those that started its channel. */
  datatype Entry = Entry(instantiated: bool, sessions: set<SessionId>, started: set<SessionId>) {
    function Without(gone: set<SessionId>): Entry {
      this.(sessions := sessions - gone, started := started - (sessions * gone))
    }
  }

  /** What comes of creating a channel; an invalid one takes its registration with it. */
  datatype Creation = Created | NotCreated | Invalid

  function CleanId(id: string): (clean: string)
    ensures ';' !in clean && clean <= id
    ensures clean == id || id[|clean|] == ';'
  {
    if id == "" || id[0] == ';' then "" else [id[0]] + CleanId(id[1..])
  }

  datatype Registry = Registry(sensors: map<string, Entry>, instances: map<SessionId, Client>, watched: set<Client>,
                               sockets: set<SessionId>, lastId: nat, error: Error, crashed: bool)
  {
    ghost predicate HeldBy(id: string, s: SessionId) {
      id in sensors && s in sensors[id].sessions
    }

    ghost predicate Held(s: SessionId) {
      exists id :: HeldBy(id, s)
    }

    ghost predicate Valid() {
      && (forall id, s :: HeldBy(id, s) ==> ';' !in id && 0 < s <= lastId && sensors[id].instantiated)
      && (forall id, other, s :: HeldBy(id, s) && HeldBy(other, s) ==> id == other)
      && (forall s :: s in instances ==> Held(s) && instances[s] in watched)
    }

    function Request(id: string, caller: Option<Client>, creation: Creation): (Registry, SessionId) {
      var clean := CleanId(id);
      if clean !in sensors then (this.(error := IdNotRegistered), INVALID_SESSION) else
        var next := this.(lastId := lastId + 1);
        var entry := sensors[clean];
        if !entry.instantiated && creation != Created then
          (next.(sensors := if creation == Invalid then sensors - {clean} else sensors, error := NotInstantiated),
           INVALID_SESSION)
        else
          var s := lastId + 1;
          var served := next.(sensors := sensors[clean := Entry(true, entry.sessions + {s}, entry.started)],
                              error := NoError);
          (if caller.Some? then served.(instances := instances[s := caller.value], watched := watched + {caller.value})
           else served, s)
    }

    /** A caller on the bus may only release what was requested by it. */
    predicate MayRelease(s: SessionId, caller: Option<Client>) {
      caller.Some? ==> s in instances && instances[s] == caller.value
    }

    ghost predicate HasSessions(c: Client) {
      exists s :: s in instances && instances[s] == c
    }

    /** The channel of the named sensor is used without a look whether it was ever created. */
    ghost function Release(id: string, s: SessionId, caller: Option<Client>): (Registry, bool) {
      if !MayRelease(s, caller) then (this, false)
      else if ';' in id then (this.(error := NoError), false)
      else if id !in sensors then (this.(error := IdNotRegistered), false)
      else if !sensors[id].instantiated then (this.(error := NoError, crashed := true), false)
      else if sensors[id].sessions == {} then (this.(error := NotInstantiated), false)
      else
        var found := s in sensors[id].sessions;
        var next := Registry(sensors[id := sensors[id].(sessions := sensors[id].sessions - {s})], instances - {s},
                             watched, sockets - {s}, lastId, if found then NoError else NotInstantiated, crashed);
        (if caller.Some? && !next.HasSessions(caller.value) then next.(watched := watched - {caller.value}) else next,
         found)
    }

    /** The given sessions are stopped, released and disconnected everywhere, in one go. */
    function Without(gone: set<SessionId>): Registry {
      if gone == {} then this else
        Registry(map id | id in sensors :: sensors[id].Without(gone), instances - gone, watched, sockets - gone, lastId,
                 NoError, crashed)
    }

    ghost function Lost(s: SessionId): Registry {
      if Held(s) then Without({s}) else this
    }

    function Channel(id: string, change: Entry -> Entry): Registry {
      if id in sensors && sensors[id].instantiated then this.(sensors := sensors[id := change(sensors[id])]) else this
    }

    function Owned(c: Client): set<SessionId> {
      set s | s in instances && instances[s] == c
    }
  }

  // ---------- Invariants of every step ----------

  lemma RequestKeepsValid(r: Registry, id: string, caller: Option<Client>, creation: Creation)
    requires r.Valid()
    ensures var (next, s) := r.Request(id, caller, creation);
      next.Valid() && r.lastId <= next.lastId && (s != INVALID_SESSION ==> r.lastId < s == next.lastId)
  {
    var (next, s) := r.Request(id, caller, creation);
    var clean := CleanId(id);
    if clean in r.sensors {
      if s == INVALID_SESSION {
        forall other, t ensures next.HeldBy(other, t) <==> r.HeldBy(other, t) {
          assert !r.HeldBy(clean, t);
        }
      } else {
        assert next.HeldBy(clean, s);
        forall other, t ensures next.HeldBy(other, t) <==> r.HeldBy(other, t) || (other == clean && t == s) {
        }
      }
      forall t | t in r.instances ensures next.Held(t) {
        var holder :| r.HeldBy(holder, t);
        assert next.HeldBy(holder, t);
      }
    } else {
      SameHeld(r, next);
    }
  }

  /** Whether the named sensor can take a session: it runs, or its channel can be created. */
  predicate Grants(r: Registry, name: string, creation: Creation) {
    name in r.sensors && (r.sensors[name].instantiated || creation == Created)
  }

  /**
    A session is granted exactly if the sensor can take it. It is then held
    there, and registered for the caller if there is one; all other sessions
    are held and registered as before.
   */
  lemma RequestGrantsIff(r: Registry, id: string, caller: Option<Client>, creation: Creation)
    requires r.Valid()
    ensures var (next, s) := r.Request(id, caller, creation);
      && (s != INVALID_SESSION <==> Grants(r, CleanId(id), creation))
      && (s != INVALID_SESSION ==> next.HeldBy(CleanId(id), s) && next.sensors[CleanId(id)].instantiated)
      && (s != INVALID_SESSION && caller.Some? ==>
            s in next.instances && next.instances[s] == caller.value && caller.value in next.watched)
      && (caller.None? ==> s !in next.instances)
      && (forall other, t :: t != s ==> (next.HeldBy(other, t) <==> r.HeldBy(other, t)))
      && next.instances - {s} == r.instances
  {
    var (next, s) := r.Request(id, caller, creation);
    assert forall t :: t in r.instances ==> r.Held(t) && t <= r.lastId;
    assert INVALID_SESSION !in r.instances;
    if CleanId(id) in r.sensors && !r.sensors[CleanId(id)].instantiated {
      forall t ensures !r.HeldBy(CleanId(id), t) {
      }
    }
    assert next.instances - {s} == r.instances;
  }

  /** What a request does besides: it says why it failed, counts its attempt, and drops a sensor that proved invalid. */
  lemma RequestLeaves(r: Registry, id: string, caller: Option<Client>, creation: Creation)
    ensures var ((next, s), name) := (r.Request(id, caller, creation), CleanId(id));
      && next.error == (if name !in r.sensors then IdNotRegistered
                        else if Grants(r, name, creation) then NoError else NotInstantiated)
      && next.lastId == r.lastId + (if name in r.sensors then 1 else 0)
      && (forall other :: other in next.sensors <==>
                          other in r.sensors && !(other == name && creation == Invalid && !Grants(r, name, creation)))
      && (forall other :: other in next.sensors ==> next.sensors[other].started == r.sensors[other].started)
      && next.sockets == r.sockets && next.crashed == r.crashed && r.watched <= next.watched
  {
  }

  lemma SameHeld(r: Registry, next: Registry)
    requires r.sensors == next.sensors
    ensures forall id, s :: r.HeldBy(id, s) <==> next.HeldBy(id, s)
    ensures forall s :: r.Held(s) <==> next.Held(s)
  {
    forall s ensures r.Held(s) <==> next.Held(s) {
      assert forall id :: r.HeldBy(id, s) <==> next.HeldBy(id, s);
    }
  }

  lemma ReleaseKeepsValid(r: Registry, id: string, s: SessionId, caller: Option<Client>)
    requires r.Valid()
    ensures var (next, ok) := r.Release(id, s, caller);
      next.Valid() && next.lastId == r.lastId && (ok <==> r.MayRelease(s, caller) && r.HeldBy(id, s))
  {
    var next := r.Release(id, s, caller).0;
    ReleaseFrees(r, id, s, caller);
    forall t | t in next.instances ensures next.Held(t) {
      var holder :| r.HeldBy(holder, t);
      assert next.HeldBy(holder, t);
    }
  }

  /** At most the one session goes, from the one sensor. */
  lemma ReleaseFrees(r: Registry, id: string, s: SessionId, caller: Option<Client>)
    requires r.Valid()
    ensures var next := r.Release(id, s, caller).0;
      forall other, t ::
        next.HeldBy(other, t) <==> r.HeldBy(other, t) && !(other == id && t == s && r.MayRelease(s, caller))
  {
    var next := r.Release(id, s, caller).0;
    assert r.HeldBy(id, s) ==> r.sensors[id].instantiated && ';' !in id;
    forall other, t ensures
        next.HeldBy(other, t) <==> r.HeldBy(other, t) && !(other == id && t == s && r.MayRelease(s, caller)) {
    }
  }

  /** A permitted release by the name of a sensor that has a channel and sessions. */
  predicate Reaches(r: Registry, id: string, s: SessionId, caller: Option<Client>) {
    r.MayRelease(s, caller) && ';' !in id && id in r.sensors && r.sensors[id].instantiated
    && r.sensors[id].sessions != {}
  }

  /**
    Such a release takes the session out of the registrations and the sockets
    and ends the watch for a client without further sessions; no other does. No
    release stops a session, and each says why it failed.
   */
  lemma ReleaseEffect(r: Registry, id: string, s: SessionId, caller: Option<Client>)
    ensures var ((next, ok), gone) :=
        (r.Release(id, s, caller), if Reaches(r, id, s, caller) then {s} else {});
      && next.instances == r.instances - gone && next.sockets == r.sockets - gone
      && (forall c :: c in next.watched <==>
                      c in r.watched && !(gone != {} && caller == Some(c) && !next.HasSessions(c)))
      && next.sensors.Keys == r.sensors.Keys
      && (forall other :: other in r.sensors ==> next.sensors[other].started == r.sensors[other].started)
      && next.lastId == r.lastId
      && (if !r.MayRelease(s, caller) then next == r
          else next.error == if ok || ';' in id then NoError
                             else if id !in r.sensors then IdNotRegistered
                             else if !r.sensors[id].instantiated then NoError else NotInstantiated)
  {
    assert r.instances - {} == r.instances && r.sockets - {} == r.sockets;
  }

  lemma WithoutHolds(r: Registry, gone: set<SessionId>)
    ensures forall id, s :: r.Without(gone).HeldBy(id, s) <==> r.HeldBy(id, s) && s !in gone
    ensures forall s :: r.Without(gone).Held(s) <==> r.Held(s) && s !in gone
  {
    var next := r.Without(gone);
    forall id, s ensures next.HeldBy(id, s) <==> r.HeldBy(id, s) && s !in gone {
    }
    forall s ensures next.Held(s) <==> r.Held(s) && s !in gone {
      if r.Held(s) && s !in gone {
        var id :| r.HeldBy(id, s);
        assert next.HeldBy(id, s);
      }
    }
  }

  lemma WithoutKeepsValid(r: Registry, gone: set<SessionId>)
    requires r.Valid()
    ensures r.Without(gone).Valid()
  {
    WithoutHolds(r, gone);
  }

  lemma WithoutTwice(r: Registry, a: set<SessionId>, b: set<SessionId>)
    ensures r.Without(a).Without(b) == r.Without(a + b)
  {
    if a == {} {
      assert a + b == b;
    } else if b == {} {
      assert a + b == a;
    } else {
      forall id | id in r.sensors
        ensures r.sensors[id].Without(a).Without(b) == r.sensors[id].Without(a + b)
      {
        assert r.sensors[id].started - (r.sensors[id].sessions * a) - ((r.sensors[id].sessions - a) * b)
            == r.sensors[id].started - (r.sensors[id].sessions * (a + b));
      }
      assert r.instances - a - b == r.instances - (a + b);
      assert r.sockets - a - b == r.sockets - (a + b);
      assert r.Without(a).Without(b).sensors == r.Without(a + b).sensors;
    }
  }

  /** Stopping and releasing a session where it is held removes it everywhere. */
  lemma StopAndRelease(r: Registry, id: string, s: SessionId)
    requires r.Valid() && r.HeldBy(id, s)
    ensures var stopped := r.(sensors := r.sensors[id := r.sensors[id].(started := r.sensors[id].started - {s})]);
      stopped.Release(id, s, None) == (r.Without({s}), true)
  {
    var stopped := r.(sensors := r.sensors[id := r.sensors[id].(started := r.sensors[id].started - {s})]);
    assert r.sensors[id].sessions * {s} == {s};
    forall other | other in r.sensors
      ensures stopped.Release(id, s, None).0.sensors[other] == r.sensors[other].Without({s})
    {
      if other != id {
        assert !r.HeldBy(other, s) && r.sensors[other].sessions * {s} == {};
      }
    }
    assert stopped.Release(id, s, None).0.sensors == r.Without({s}).sensors;
  }

  /** A lost client leaves nothing behind that is registered as its own, and nothing else changes. */
  lemma ClientIsForgotten(r: Registry, c: Client)
    requires r.Valid()
    ensures var next := r.Without(r.Owned(c));
      && !next.HasSessions(c)
      && (forall s :: s in r.Owned(c) ==> !next.Held(s) && s !in next.sockets)
      && (forall id, s :: s !in r.Owned(c) ==> (next.HeldBy(id, s) <==> r.HeldBy(id, s)))
      && next.sensors.Keys == r.sensors.Keys
      && (forall id, s :: id in r.sensors ==>
            (s in next.sensors[id].started <==> s in r.sensors[id].started && !(s in r.Owned(c) && r.HeldBy(id, s))))
      && (forall s :: s in next.instances <==> s in r.instances && r.instances[s] != c)
      && (forall s :: s in next.instances ==> next.instances[s] == r.instances[s])
      && next.sockets == r.sockets - r.Owned(c)
      && next.watched == r.watched && next.lastId == r.lastId && next.crashed == r.crashed
  {
    assert r.sockets - {} == r.sockets;
    WithoutHolds(r, r.Owned(c));
  }

  /**
    A registered session that is released stays held, without an owner, exactly
    when the release names a sensor that serves others but not this session.
   */
  lemma ReleaseStrandsIff(r: Registry, id: string, s: SessionId, caller: Option<Client>)
    requires r.Valid() && s in r.instances
    ensures var next := r.Release(id, s, caller).0;
      next.Held(s) && s !in next.instances <==> Misdirected(r, id, s, caller)
  {
    var next := r.Release(id, s, caller).0;
    ServedIsCreated(r, id);
    var holder :| r.HeldBy(holder, s);
    if holder != id {
      assert !r.HeldBy(id, s) && next.HeldBy(holder, s);
    } else {
      forall other ensures s !in next.instances ==> !next.HeldBy(other, s) {
        assert r.HeldBy(other, s) ==> other == id;
      }
    }
  }

  lemma ServedIsCreated(r: Registry, id: string)
    requires r.Valid()
    ensures id in r.sensors && !r.sensors[id].instantiated ==> r.sensors[id].sessions == {}
  {
    if id in r.sensors && !r.sensors[id].instantiated {
      forall t ensures t !in r.sensors[id].sessions {
        assert !r.HeldBy(id, t);
      }
    }
  }

  predicate Misdirected(r: Registry, id: string, s: SessionId, caller: Option<Client>) {
    r.MayRelease(s, caller) && ';' !in id && id in r.sensors && r.sensors[id].sessions != {}
    && s !in r.sensors[id].sessions
  }

  // ---------- Runs ----------

  datatype Op =
    | RequestOp(id: string, caller: Option<Client>, creation: Creation)
    | ReleaseOp(id: string, s: SessionId, caller: Option<Client>)
    | StartOp(id: string, s: SessionId)
    | StopOp(id: string, s: SessionId)
    | ConnectOp(s: SessionId)
    | LostOp(s: SessionId)
    | UnregisteredOp(client: Client)

  /** After a crash nothing happens any more. Only a channel that was created has an object to start or stop. */
  ghost function Step(r: Registry, op: Op): (Registry, SessionId) {
    if r.crashed then (r, INVALID_SESSION) else
      match op
      case RequestOp(id, caller, creation) => r.Request(id, caller, creation)
      case ReleaseOp(id, s, caller) => (r.Release(id, s, caller).0, INVALID_SESSION)
      case StartOp(id, s) => (r.Channel(id, (e: Entry) => e.(started := e.started + {s})), INVALID_SESSION)
      case StopOp(id, s) => (r.Channel(id, (e: Entry) => e.(started := e.started - {s})), INVALID_SESSION)
      case ConnectOp(s) => (if s >= 0 then r.(sockets := r.sockets + {s}) else r, INVALID_SESSION)
      case LostOp(s) => (r.Lost(s), INVALID_SESSION)
      case UnregisteredOp(c) => (r.Without(r.Owned(c)), INVALID_SESSION)
  }

  lemma StepKeepsValid(r: Registry, op: Op)
    requires r.Valid()
    ensures var (next, s) := Step(r, op);
      next.Valid() && r.lastId <= next.lastId && (s != INVALID_SESSION ==> r.lastId < s == next.lastId)
  {
    match op
    case RequestOp(id, caller, creation) => RequestKeepsValid(r, id, caller, creation);
    case ReleaseOp(id, s, caller) => ReleaseKeepsValid(r, id, s, caller);
    case StartOp(id, s) => ChannelStep(r, Step(r, op).0);
    case StopOp(id, s) => ChannelStep(r, Step(r, op).0);
    case ConnectOp(s) => SameHeld(r, Step(r, op).0);
    case LostOp(s) => WithoutKeepsValid(r, {s});
    case UnregisteredOp(c) => WithoutKeepsValid(r, r.Owned(c));
  }

  /** A start or stop counts at a sensor that has a channel, for that session only; a connection takes an id from 0. */
  lemma StartsAndConnections(r: Registry, op: Op, id: string, s: SessionId)
    requires !r.crashed && op in {StartOp(id, s), StopOp(id, s), ConnectOp(s)}
    ensures var next := Step(r, op).0;
      && next.sensors.Keys == r.sensors.Keys && next.instances == r.instances
      && (forall other, t :: other in r.sensors ==>
            (t in next.sensors[other].started <==>
             if !op.ConnectOp? && other == id && t == s && r.sensors[other].instantiated then op.StartOp?
             else t in r.sensors[other].started))
      && (forall t :: t in next.sockets <==> t in r.sockets || (op.ConnectOp? && t == s && s >= 0))
  {
  }

  lemma ChannelStep(r: Registry, next: Registry)
    requires r.Valid() && next.instances == r.instances && next.watched == r.watched && next.lastId == r.lastId
    requires next.sensors.Keys == r.sensors.Keys
    requires forall id :: id in r.sensors ==> next.sensors[id].sessions == r.sensors[id].sessions
                                              && next.sensors[id].instantiated == r.sensors[id].instantiated
    ensures next.Valid() && forall s :: next.Held(s) <==> r.Held(s)
  {
    assert forall id, s :: next.HeldBy(id, s) <==> r.HeldBy(id, s);
    forall s ensures next.Held(s) <==> r.Held(s) {
      assert forall id :: next.HeldBy(id, s) <==> r.HeldBy(id, s);
    }
  }

  ghost function Run(r: Registry, ops: seq<Op>): Registry
    decreases |ops|
  {
    if ops == [] then r else Run(Step(r, ops[0]).0, ops[1..])
  }

  /** The sessions handed out in a run, in order. */
  ghost function Granted(r: Registry, ops: seq<Op>): seq<SessionId>
    decreases |ops|
  {
    if ops == [] then [] else
      var (next, s) := Step(r, ops[0]);
      (if s == INVALID_SESSION then [] else [s]) + Granted(next, ops[1..])
  }

  /** In any run the registry stays valid, and no session is handed out twice. */
  lemma {:induction false} RunStaysValid(r: Registry, ops: seq<Op>)
    requires r.Valid()
    ensures Run(r, ops).Valid() && r.lastId <= Run(r, ops).lastId
    ensures forall i :: 0 <= i < |Granted(r, ops)| ==> r.lastId < Granted(r, ops)[i] <= Run(r, ops).lastId
    ensures forall i, j :: 0 <= i < j < |Granted(r, ops)| ==> Granted(r, ops)[i] < Granted(r, ops)[j]
    decreases |ops|
  {
    if ops != [] {
      StepKeepsValid(r, ops[0]);
      var (next, s) := Step(r, ops[0]);
      RunStaysValid(next, ops[1..]);
      if s != INVALID_SESSION {
        assert Granted(r, ops) == [s] + Granted(next, ops[1..]);
      } else {
        assert Granted(r, ops) == Granted(next, ops[1..]);
      }
    }
  }

  // ---------- Crashes ----------

  /** A permitted release by the plain name of a registered sensor whose channel was never created. */
  predicate CrashesBy(r: Registry, op: Op) {
    && op.ReleaseOp? && r.MayRelease(op.s, op.caller) && ';' !in op.id
    && op.id in r.sensors && !r.sensors[op.id].instantiated
  }

  ghost predicate CrashesAt(r: Registry, ops: seq<Op>, k: nat) {
    k < |ops| && CrashesBy(Run(r, ops[..k]), ops[k])
  }

  ghost predicate SomeCrash(r: Registry, ops: seq<Op>) {
    exists k: nat :: CrashesAt(r, ops, k)
  }

  /** A run ends in a crash exactly if there is such a release in it. */
  lemma {:induction false} RunCrashesIff(r: Registry, ops: seq<Op>)
    requires !r.crashed
    ensures Run(r, ops).crashed <==> SomeCrash(r, ops)
    decreases |ops|
  {
    if ops != [] {
      var next, rest := Step(r, ops[0]).0, ops[1..];
      if next.crashed {
        StaysCrashed(next, rest);
        assert ops[..0] == [] && CrashesAt(r, ops, 0);
      } else {
        RunCrashesIff(next, rest);
        assert ops[..0] == [] && !CrashesAt(r, ops, 0);
        if k: nat :| CrashesAt(r, ops, k) {
          assert ops[..k][0] == ops[0] && ops[..k][1..] == rest[..k - 1];
          assert CrashesAt(next, rest, k - 1);
        }
        if k: nat :| CrashesAt(next, rest, k) {
          assert ops[..k + 1][0] == ops[0] && ops[..k + 1][1..] == rest[..k];
          assert CrashesAt(r, ops, k + 1);
        }
      }
    }
  }

  lemma {:induction false} StaysCrashed(r: Registry, ops: seq<Op>)
    requires r.crashed
    ensures Run(r, ops) == r
    decreases |ops|
  {
    if ops != [] {
      StaysCrashed(r, ops[1..]);
    }
  }

  /** A registry of the sensors a and b. */
  const TWO_SENSORS :=
    Registry(map["a" := Entry(false, {}, {}), "b" := Entry(false, {}, {})], map[], {}, {}, 0, NoError, false)

  /** A client that has requested the one sensor releases its session under the name of the other. */
  lemma CrashHappens(c: Client)
    ensures TWO_SENSORS.Valid()
    ensures Run(TWO_SENSORS, [RequestOp("a", Some(c), Created), ReleaseOp("b", 1, Some(c))]).crashed
  {
    var ops := [RequestOp("a", Some(c), Created), ReleaseOp("b", 1, Some(c))];
    NamesAreClean();
    assert ops[1..][1..] == [];
    assert Run(TWO_SENSORS, ops) == Run(Step(TWO_SENSORS, ops[0]).0, ops[1..]);
    assert Run(Step(TWO_SENSORS, ops[0]).0, ops[1..]) == Step(Step(TWO_SENSORS, ops[0]).0, ops[1]).0;
  }

  /** So does the name of a sensor that was requested in vain: it stays registered, without a channel. */
  lemma FailedCreationCrashes(c: Client)
    ensures var ops := [RequestOp("a", Some(c), Created), RequestOp("b", Some(c), NotCreated),
                        ReleaseOp("b", 1, Some(c))];
      Run(TWO_SENSORS, ops).crashed
  {
    var ops := [RequestOp("a", Some(c), Created), RequestOp("b", Some(c), NotCreated), ReleaseOp("b", 1, Some(c))];
    NamesAreClean();
    var r1 := Step(TWO_SENSORS, ops[0]).0;
    var r2 := Step(r1, ops[1]).0;
    assert r2.instances[1] == c && !r2.sensors["b"].instantiated;
    assert ops[1..][1..] == [ops[2]] && [ops[2]][1..] == [];
    assert Run(TWO_SENSORS, ops) == Run(r1, ops[1..]) == Run(r2, [ops[2]]) == Step(r2, ops[2]).0;
  }

  lemma NamesAreClean()
    ensures CleanId("a") == "a" && CleanId("b") == "b"
  {
    assert CleanId("") == "" && "a"[1..] == "" && "b"[1..] == "";
  }

  // ---------- Sessions released while started ----------

  /** Nothing holds the session, and the channel of the sensor still runs for it. */
  ghost predicate RunsOn(r: Registry, id: string, s: SessionId) {
    id in r.sensors && r.sensors[id].instantiated && s in r.sensors[id].started && s <= r.lastId && !r.Held(s)
  }

  /** A release does not stop: it leaves the channel running for the session exactly if it was started. */
  lemma ReleaseLeavesRunningIff(r: Registry, id: string, s: SessionId, caller: Option<Client>)
    requires r.Valid() && r.HeldBy(id, s) && r.MayRelease(s, caller)
    ensures RunsOn(r.Release(id, s, caller).0, id, s) <==> s in r.sensors[id].started
  {
    var next := r.Release(id, s, caller).0;
    ReleaseFrees(r, id, s, caller);
    forall other ensures !next.HeldBy(other, s) {
      assert r.HeldBy(other, s) ==> other == id;
    }
  }

  /** From there only a stop of that session at that sensor ends it, and no departure of a client. */
  lemma RunsOnUnlessStopped(r: Registry, op: Op, id: string, s: SessionId)
    requires r.Valid() && RunsOn(r, id, s) && !r.crashed
    ensures RunsOn(Step(r, op).0, id, s) <==> op != StopOp(id, s)
  {
    var next := Step(r, op).0;
    match op
    case RequestOp(name, caller, creation) =>
      RequestHolds(r, name, caller, creation);
    case ReleaseOp(name, t, caller) => ReleaseHolds(r, name, t, caller);
    case StartOp(name, t) => ChannelStep(r, next);
    case StopOp(name, t) => ChannelStep(r, next);
    case ConnectOp(t) => SameHeld(r, next);
    case LostOp(t) => WithoutHolds(r, {t});
    case UnregisteredOp(c) => WithoutHolds(r, r.Owned(c));
  }

  /** A client starts a session, releases it, and leaves: the channel runs on. */
  lemma RunsOnHappens(c: Client)
    ensures var ops := [RequestOp("a", Some(c), Created), StartOp("a", 1), ReleaseOp("a", 1, Some(c)),
                        UnregisteredOp(c)];
      RunsOn(Run(TWO_SENSORS, ops), "a", 1)
  {
    var ops := [RequestOp("a", Some(c), Created), StartOp("a", 1), ReleaseOp("a", 1, Some(c)), UnregisteredOp(c)];
    NamesAreClean();
    var r1 := Step(TWO_SENSORS, ops[0]).0;
    RequestKeepsValid(TWO_SENSORS, "a", Some(c), Created);
    var r2 := Step(r1, ops[1]).0;
    ChannelStep(r1, r2);
    assert r2.HeldBy("a", 1) && r2.instances[1] == c && 1 in r2.sensors["a"].started;
    ReleaseLeavesRunningIff(r2, "a", 1, Some(c));
    var r3 := Step(r2, ops[2]).0;
    ReleaseKeepsValid(r2, "a", 1, Some(c));
    RunsOnUnlessStopped(r3, ops[3], "a", 1);
    RunOfFour(TWO_SENSORS, ops[0], ops[1], ops[2], ops[3]);
  }

  lemma RunOfFour(r: Registry, a: Op, b: Op, c: Op, d: Op)
    ensures Run(r, [a, b, c, d]) == Step(Step(Step(Step(r, a).0, b).0, c).0, d).0
  {
    var s1 := Step(r, a).0;
    var s2 := Step(s1, b).0;
    RunNext(r, a, [b, c, d]);
    RunNext(s1, b, [c, d]);
    RunNext(s2, c, [d]);
    RunNext(Step(s2, c).0, d, []);
    assert [a] + [b, c, d] == [a, b, c, d] && [b] + [c, d] == [b, c, d] && [c] + [d] == [c, d] && [d] + [] == [d];
  }

  lemma RunNext(r: Registry, op: Op, rest: seq<Op>)
    ensures Run(r, [op] + rest) == Run(Step(r, op).0, rest)
  {
    assert ([op] + rest)[1..] == rest;
  }

  // ---------- Stranded sessions ----------

  /** Held by a sensor, and registered for no client. */
  ghost predicate Stranded(r: Registry, s: SessionId) {
    r.Held(s) && s !in r.instances
  }

  /** Only a loss of its socket or a release from inside the daemon by the right name frees a stranded session. */
  lemma StrandedStaysIff(r: Registry, op: Op, s: SessionId)
    requires r.Valid() && Stranded(r, s) && !r.crashed
    ensures Stranded(Step(r, op).0, s) <==>
            !(op == LostOp(s) || (op.ReleaseOp? && op.s == s && op.caller == None && r.HeldBy(op.id, s)))
  {
    var next := Step(r, op).0;
    var holder :| r.HeldBy(holder, s);
    match op
    case RequestOp(id, caller, creation) =>
      ServedIsCreated(r, CleanId(id));
      assert next.HeldBy(holder, s) && s <= r.lastId;
    case ReleaseOp(id, t, caller) =>
      if t == s && id == holder && caller == None {
        forall other ensures !next.HeldBy(other, s) {
          assert r.HeldBy(other, s) ==> other == id;
        }
      } else {
        assert next.HeldBy(holder, s);
      }
    case StartOp(id, t) => ChannelStep(r, next);
    case StopOp(id, t) => ChannelStep(r, next);
    case ConnectOp(t) => SameHeld(r, next);
    case LostOp(t) => WithoutHolds(r, {t});
    case UnregisteredOp(c) => WithoutHolds(r, r.Owned(c));
  }

  /** A client requests both sensors and releases the first session under the second name: it outlives the client. */
  lemma StrandingHappens(c: Client)
    ensures var ops := [RequestOp("a", Some(c), Created), RequestOp("b", Some(c), Created), ReleaseOp("b", 1, Some(c)),
                        UnregisteredOp(c)];
      Run(TWO_SENSORS, ops).Valid() && Stranded(Run(TWO_SENSORS, ops), 1)
  {
    var ops := [RequestOp("a", Some(c), Created), RequestOp("b", Some(c), Created), ReleaseOp("b", 1, Some(c)),
                UnregisteredOp(c)];
    NamesAreClean();
    RunStaysValid(TWO_SENSORS, ops);
    var r1 := Step(TWO_SENSORS, ops[0]).0;
    var r2 := Step(r1, ops[1]).0;
    RequestKeepsValid(TWO_SENSORS, "a", Some(c), Created);
    RequestKeepsValid(r1, "b", Some(c), Created);
    assert r2.HeldBy("a", 1) && r2.sensors["b"].sessions == {2} && r2.instances[1] == c;
    var r3 := Step(r2, ops[2]).0;
    ReleaseStrandsIff(r2, "b", 1, Some(c));
    ReleaseKeepsValid(r2, "b", 1, Some(c));
    StrandedStaysIff(r3, ops[3], 1);
    RunOfFour(TWO_SENSORS, ops[0], ops[1], ops[2], ops[3]);
  }

  // ---------- Whose sessions are held ----------

  /** Who was handed which session over the bus so far, be it still held or not. */
  ghost function OwnersAfter(owners: map<SessionId, Client>, op: Op, granted: SessionId): map<SessionId, Client> {
    if op.RequestOp? && op.caller.Some? && granted != INVALID_SESSION then owners[granted := op.caller.value]
    else owners
  }

  /** Every session that is held and was handed out over the bus is registered for its client, and no other. */
  ghost predicate Tidy(r: Registry, owners: map<SessionId, Client>) {
    && (forall s :: s in owners ==> s <= r.lastId)
    && (forall s :: s in owners && r.Held(s) ==> s in r.instances)
    && (forall s :: s in r.instances ==> s in owners && r.instances[s] == owners[s])
  }

  ghost predicate Directed(r: Registry, op: Op) {
    op.ReleaseOp? && op.s in r.instances ==> !Misdirected(r, op.id, op.s, op.caller)
  }

  lemma StepStaysTidy(r: Registry, owners: map<SessionId, Client>, op: Op)
    requires r.Valid() && Tidy(r, owners) && Directed(r, op)
    ensures Tidy(Step(r, op).0, OwnersAfter(owners, op, Step(r, op).1))
  {
    var next := Step(r, op).0;
    match op
    case RequestOp(id, caller, creation) =>
      RequestHolds(r, id, caller, creation);
    case ReleaseOp(id, s, caller) =>
      ReleaseStaysTidy(r, owners, id, s, caller);
    case StartOp(id, s) => ChannelStep(r, next);
    case StopOp(id, s) => ChannelStep(r, next);
    case ConnectOp(s) => SameHeld(r, next);
    case LostOp(s) => WithoutHolds(r, {s});
    case UnregisteredOp(c) => WithoutHolds(r, r.Owned(c));
  }

  lemma ReleaseStaysTidy(r: Registry, owners: map<SessionId, Client>, id: string, s: SessionId, caller: Option<Client>)
    requires r.Valid() && Tidy(r, owners) && Directed(r, ReleaseOp(id, s, caller))
    ensures Tidy(r.Release(id, s, caller).0, owners)
  {
    ReleaseHolds(r, id, s, caller);
    if s in r.instances {
      ReleaseStrandsIff(r, id, s, caller);
    }
  }

  lemma RequestHolds(r: Registry, id: string, caller: Option<Client>, creation: Creation)
    ensures var (next, granted) := r.Request(id, caller, creation);
      forall s :: next.Held(s) ==> r.Held(s) || s == granted == r.lastId + 1
  {
    var (next, granted) := r.Request(id, caller, creation);
    forall s | next.Held(s) ensures r.Held(s) || s == granted == r.lastId + 1 {
      var holder :| next.HeldBy(holder, s);
      assert r.HeldBy(holder, s) || s == granted == r.lastId + 1;
    }
  }

  lemma ReleaseHolds(r: Registry, id: string, s: SessionId, caller: Option<Client>)
    ensures forall t :: r.Release(id, s, caller).0.Held(t) ==> r.Held(t)
  {
    var next := r.Release(id, s, caller).0;
    forall t | next.Held(t) ensures r.Held(t) {
      var holder :| next.HeldBy(holder, t);
      assert r.HeldBy(holder, t);
    }
  }

  ghost predicate AllDirected(r: Registry, ops: seq<Op>)
    decreases |ops|
  {
    ops != [] ==> Directed(r, ops[0]) && AllDirected(Step(r, ops[0]).0, ops[1..])
  }

  ghost function Owners(r: Registry, owners: map<SessionId, Client>, ops: seq<Op>): map<SessionId, Client>
    decreases |ops|
  {
    if ops == [] then owners
    else Owners(Step(r, ops[0]).0, OwnersAfter(owners, ops[0], Step(r, ops[0]).1), ops[1..])
  }

  lemma {:induction false} RunStaysTidy(r: Registry, owners: map<SessionId, Client>, ops: seq<Op>)
    requires r.Valid() && AllDirected(r, ops) && Tidy(r, owners)
    ensures Run(r, ops).Valid() && Tidy(Run(r, ops), Owners(r, owners, ops))
    decreases |ops|
  {
    if ops != [] {
      StepKeepsValid(r, ops[0]);
      StepStaysTidy(r, owners, ops[0]);
      RunStaysTidy(Step(r, ops[0]).0, OwnersAfter(owners, ops[0], Step(r, ops[0]).1), ops[1..]);
    }
  }

  /** Of a client that leaves the bus no session stays held, if every release named the sensor of its session. */
  lemma NothingStaysHeld(r: Registry, ops: seq<Op>, c: Client)
    requires r.Valid() && r.instances == map[] && AllDirected(r, ops)
    ensures var (end, owners) := (Run(r, ops), Owners(r, map[], ops));
      !end.crashed ==> forall s :: s in owners && owners[s] == c ==> !Step(end, UnregisteredOp(c)).0.Held(s)
  {
    RunStaysTidy(r, map[], ops);
    var end := Run(r, ops);
    WithoutHolds(end, end.Owned(c));
  }

  // ---------- The manager ----------

  function Behind(keys: set<SessionId>, from: Option<SessionId>): set<SessionId> {
    set s | s in keys && (from.Some? ==> s > from.value)
  }

  function AtOrBehind(keys: set<SessionId>, it: Option<SessionId>): set<SessionId> {
    set s | s in keys && it.Some? && s >= it.value
  }

  /** The sessions that a walk that has come to `it` has passed. */
  ghost function PassedBy(owned: set<SessionId>, it: Option<SessionId>): set<SessionId> {
    set s | s in owned && (it.Some? ==> s < it.value)
  }

  /** Where a walk goes from a session: to the next higher one, if there is any. */
  ghost predicate IsNext(keys: set<SessionId>, from: Option<SessionId>, next: Option<SessionId>) {
    && (next.None? <==> Behind(keys, from) == {})
    && (next.Some? ==> next.value in Behind(keys, from))
    && (forall s :: s in Behind(keys, from) && next.Some? ==> next.value <= s)
  }

  /** A walk passes no owned session over. */
  lemma WalkStep(owned: set<SessionId>, keys: set<SessionId>, prev: SessionId, it: Option<SessionId>)
    requires IsNext(keys, Some(prev), it) && forall s :: s in owned && s > prev ==> s in keys
    ensures PassedBy(owned, it) == PassedBy(owned, Some(prev)) + owned * {prev}
  {
    forall s | s in owned && s > prev
      ensures it.Some? && s >= it.value
    {
      assert s in Behind(keys, Some(prev));
    }
  }

  class SensorManager {
    var sensors: map<string, Entry>
    var sessionInstances: map<SessionId, Client>
    var watchedServices: set<Client>
    var sockets: set<SessionId>
    var sessionIdCount: nat
    var error: Error
    var crashed: bool

    function State(): Registry
      reads this
    {
      Registry(sensors, sessionInstances, watchedServices, sockets, sessionIdCount, error, crashed)
    }

    constructor (names: set<string>)
      requires forall name :: name in names ==> ';' !in name
      ensures State() == Registry(map name | name in names :: Entry(false, {}, {}), map[], {}, {}, 0, NoError, false)
      ensures State().Valid()
    {
      sensors := map name | name in names :: Entry(false, {}, {});
      sessionInstances, watchedServices, sockets, sessionIdCount, error, crashed := map[], {}, {}, 0, NoError, false;
    }

    method CreateNewSessionId() returns (s: SessionId)
      modifies `sessionIdCount
      ensures sessionIdCount == old(sessionIdCount) + 1 == s
    {
      sessionIdCount := sessionIdCount + 1;
      s := sessionIdCount;
    }

    /** Hands out a session for a sensor, creating its channel at the first request. */
    method RequestSensor(id: string, caller: Option<Client>, creation: Creation) returns (s: SessionId)
      modifies this
      ensures (State(), s) == old(State()).Request(id, caller, creation)
    {
      error := NoError;
      var cleanId := CleanId(id);
      if cleanId !in sensors {
        error := IdNotRegistered;
        return INVALID_SESSION;
      }
      s := CreateNewSessionId();
      if !sensors[cleanId].instantiated {
        if creation != Created {
          if creation == Invalid {
            sensors := sensors - {cleanId};
          }
          error := NotInstantiated;
          return INVALID_SESSION;
        }
        sensors := sensors[cleanId := sensors[cleanId].(instantiated := true)];
      }
      sensors := sensors[cleanId := sensors[cleanId].(sessions := sensors[cleanId].sessions + {s})];
      assert sensors == old(sensors)[cleanId := Entry(true, old(sensors)[cleanId].sessions + {s},
                                                      old(sensors)[cleanId].started)];
      if caller.Some? {
        sessionInstances := sessionInstances[s := caller.value];
        watchedServices := watchedServices + {caller.value};
      }
    }

    method ReleaseSensor(id: string, s: SessionId, caller: Option<Client>) returns (ok: bool)
      modifies this
      ensures (State(), ok) == old(State()).Release(id, s, caller)
    {
      if caller.Some? && (s !in sessionInstances || sessionInstances[s] != caller.value) {
        return false;
      }
      error := NoError;
      if ';' in id {
        return false;
      }
      if id !in sensors {
        error := IdNotRegistered;
        return false;
      }
      if !sensors[id].instantiated {
        crashed := true;   // there is no channel to remove the session's requests from
        return false;
      }
      if sensors[id].sessions == {} {
        error := NotInstantiated;
        return false;
      }
      ok := false;
      if s in sensors[id].sessions {
        sensors := sensors[id := sensors[id].(sessions := sensors[id].sessions - {s})];
        ok := true;
      } else {
        error := NotInstantiated;
        assert sensors[id].sessions - {s} == sensors[id].sessions;
      }
      assert sensors == old(sensors)[id := old(sensors)[id].(sessions := old(sensors)[id].sessions - {s})];
      if s in sessionInstances {
        sessionInstances := sessionInstances - {s};
      }
      assert sessionInstances == old(sessionInstances) - {s};
      if caller.Some? {
        var hasMoreSessions := HasMoreSessions(caller.value);
        if !hasMoreSessions {
          watchedServices := watchedServices - {caller.value};
        }
      }
      sockets := sockets - {s};
    }

    method HasMoreSessions(c: Client) returns (more: bool)
      ensures more <==> exists s :: s in sessionInstances && sessionInstances[s] == c
    {
      var left := sessionInstances.Keys;
      while left != {}
        invariant left <= sessionInstances.Keys
        invariant forall s :: s in sessionInstances && s !in left ==> sessionInstances[s] != c
        decreases |left|
      {
        assert (forall k :: k !in left) ==> left == {};
        var s :| s in left;
        if sessionInstances[s] == c {
          return true;
        }
        left := left - {s};
      }
      more := false;
    }

    /** Stops and releases a session at the sensor that holds it. */
    method LostClient(s: SessionId) returns (holder: Option<string>)
      requires State().Valid()
      modifies this
      ensures State() == old(State()).Lost(s)
      ensures if holder.Some? then old(State()).HeldBy(holder.value, s) else !old(State()).Held(s)
    {
      var left := sensors.Keys;
      while left != {}
        invariant left <= sensors.Keys && State() == old(State())
        invariant forall id :: id in sensors && id !in left ==> s !in sensors[id].sessions
        decreases |left|
      {
        assert (forall k :: k !in left) ==> left == {};
        var id :| id in left;
        if s in sensors[id].sessions {
          assert State().HeldBy(id, s);
          StopAndRelease(State(), id, s);
          sensors := sensors[id := sensors[id].(started := sensors[id].started - {s})];
          var released := ReleaseSensor(id, s, None);
          return Some(id);
        }
        left := left - {id};
      }
      holder := None;
    }

    /**
      Walks over the sessions while losing those of one client, always on a
      session that is still there; `lost` maps these to the sensors that held them.
     */
    method DbusClientUnregistered(c: Client) returns (lost: map<SessionId, string>)
      requires State().Valid()
      modifies this
      ensures State() == old(State()).Without(old(State()).Owned(c))
      ensures State().Valid()
      ensures lost.Keys == old(State()).Owned(c)
      ensures forall s :: s in lost ==> old(State()).HeldBy(lost[s], s)
    {
      ghost var start := State();
      lost := map[];
      var it := NextInstance(None);
      assert PassedBy(start.Owned(c), it) == {} by {
        assert forall s :: s in start.instances ==> s in Behind(sessionInstances.Keys, None);
      }
      while it.Some?
        invariant start == old(State()) && start.Valid()
        invariant State() == start.Without(lost.Keys)
        invariant lost.Keys == PassedBy(start.Owned(c), it)
        invariant forall s :: s in lost ==> start.HeldBy(lost[s], s)
        invariant it.Some? ==> it.value in sessionInstances
        decreases AtOrBehind(start.instances.Keys, it)
      {
        assert it.value in AtOrBehind(start.instances.Keys, it);
        it, lost := Visit(it.value, c, lost, start);
      }
      WithoutKeepsValid(start, lost.Keys);
      assert lost.Keys == start.Owned(c);
    }

    /** Goes on from a session, and loses it if it is one of the client. */
    method Visit(prev: SessionId, c: Client, before: map<SessionId, string>, ghost start: Registry)
      returns (it: Option<SessionId>, lost: map<SessionId, string>)
      requires start.Valid() && State() == start.Without(before.Keys) && prev in sessionInstances
      requires before.Keys == PassedBy(start.Owned(c), Some(prev))
      requires forall s :: s in before ==> start.HeldBy(before[s], s)
      modifies this
      ensures State() == start.Without(lost.Keys) && lost.Keys == PassedBy(start.Owned(c), it)
      ensures forall s :: s in lost ==> start.HeldBy(lost[s], s)
      ensures it.Some? ==> it.value in sessionInstances && it.value > prev
    {
      lost := before;
      it := NextInstance(Some(prev));
      WalkStep(start.Owned(c), sessionInstances.Keys, prev, it);
      if sessionInstances[prev] == c {
        lost := LoseOneMore(prev, lost, start);
      }
    }

    method LoseOneMore(s: SessionId, before: map<SessionId, string>, ghost start: Registry)
      returns (lost: map<SessionId, string>)
      requires start.Valid() && State() == start.Without(before.Keys) && s in sessionInstances
      requires forall t :: t in before ==> start.HeldBy(before[t], t)
      modifies this
      ensures State() == start.Without(before.Keys + {s})
      ensures lost.Keys == before.Keys + {s} && forall t :: t in lost ==> start.HeldBy(lost[t], t)
    {
      WithoutKeepsValid(start, before.Keys);
      WithoutHolds(start, before.Keys);
      assert State().Held(s);
      var holder := LostClient(s);
      WithoutTwice(start, before.Keys, {s});
      lost := before[s := holder.value];
    }

    /** Where the walk goes from a session, or where it starts. */
    method NextInstance(from: Option<SessionId>) returns (next: Option<SessionId>)
      ensures IsNext(sessionInstances.Keys, from, next)
    {
      var behind := Behind(sessionInstances.Keys, from);
      if behind == {} {
        return None;
      }
      ghost var least := Intervals.LeastKey(behind);
      var s :| s in behind && forall t :: t in behind ==> s <= t;
      next := Some(s);
    }
  }
}
