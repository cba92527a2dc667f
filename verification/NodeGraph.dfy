/**
  The graph of nodes that requests travel through: standby overrides with
  rollback, interval and data range requests, and the removal of a session.
 */
module NodeGraph {
  import opened Intervals
  import opened DataRanges
  import opened Lists
  import opened Sessions

  function Add(requests: seq<SessionId>, s: SessionId): seq<SessionId> {
    if s in requests then requests else requests + [s]
  }

  /** Adding and removing one session leaves the others as they are. */
  lemma AddRemove(requests: seq<SessionId>, s: SessionId)
    ensures RemoveAll(Add(requests, s), s) == RemoveAll(requests, s)
    ensures RemoveAll(RemoveAll(requests, s), s) == RemoveAll(requests, s)
    ensures Add(Add(requests, s), s) == Add(requests, s)
  {
    RemoveAllLast(requests, s);
    RemoveAllMembers(requests, s);
    RemoveAllAbsent(RemoveAll(requests, s), s);
  }

  /** What passing a request on makes of a list, for the answer `ok`: a refused request may be kept or not. */
  ghost predicate Passed(before: seq<SessionId>, after: seq<SessionId>, s: SessionId, on: bool, ok: bool) {
    && RemoveAll(after, s) == RemoveAll(before, s)
    && (on && ok ==> after == Add(before, s))
    && (!on ==> after == RemoveAll(before, s))
  }

  lemma PassedTwice(a: seq<SessionId>, b: seq<SessionId>, c: seq<SessionId>, s: SessionId, on: bool, first: bool,
                    second: bool, twice: bool)
    requires if twice then Passed(a, b, s, on, first) else a == b
    requires Passed(b, c, s, on, second)
    ensures Passed(a, c, s, on, first && second)
  {
    AddRemove(a, s);
  }

  /** The request was passed to the nodes reached; the others are as before. */
  ghost predicate AllPassed(before: map<Node, seq<SessionId>>, reached: set<Node>, s: SessionId, on: bool, ok: bool)
    requires reached <= before.Keys
    reads before.Keys`standbyRequests, before.Keys`standbyOverride
  {
    && (forall n :: n in reached ==> Passed(before[n], n.standbyRequests, s, on, ok) && n.OverrideFollows())
    && (forall n :: n in before && n !in reached ==> n.standbyRequests == before[n])
  }

  /** The requests of all sessions but `s`. */
  function Without(requests: map<SessionId, nat>, s: SessionId): map<SessionId, nat> {
    requests - {s}
  }

  lemma WithoutTwice(requests: map<SessionId, nat>, s: SessionId)
    ensures Without(Without(requests, s), s) == Without(requests, s)
  {
  }

  ghost predicate AllValid(ranges: seq<IntervalRange>, requests: map<SessionId, nat>) {
    forall s {:trigger requests[s]} :: s in requests ==> Intervals.Valid(ranges, requests[s])
  }

  class Node {
    const acceptsOverride: bool         // the answer of this node's setStandbyOverride
    const standbySources: seq<Node>
    ghost const below: set<Node>        // this node and every node its standby requests reach
    var standbyRequests: seq<SessionId>
    var standbyOverride: bool

    const sources: seq<Node>            // the nodes whose buffers this node reads
    ghost const upstream: set<Node>     // this node and every node reachable through sources
    const intervalSource: Node?
    ghost const intervalRoot: Node      // the node that decides the interval
    const intervalRanges: seq<IntervalRange>
    const defaultInterval: nat
    var intervalRequests: map<SessionId, nat>
    var interval: nat

    const rangeSource: Node?
    ghost const rangeRoot: Node         // the node that decides the data range
    const dataRanges: seq<DataRange>
    var rangeQueue: seq<RangeRequest>
    var appliedRange: DataRange         // the range last passed to the device

    var bufferSizes: map<SessionId, nat>
    var bufferIntervals: map<SessionId, nat>

    /** A new node over existing ones; edges never change afterwards. */
    constructor (acceptsOverride: bool, standbySources: seq<Node>, sources: seq<Node>,
                 intervalSource: Node?, rangeSource: Node?,
                 intervalRanges: seq<IntervalRange>, defaultInterval: nat, dataRanges: seq<DataRange>)
      requires forall k :: k in standbySources ==> k.Ordered()
      requires forall k :: k in sources ==> k.Layered()
      requires intervalSource != null ==> intervalSource in sources
      requires rangeSource != null ==> rangeSource in sources
      ensures Ordered() && Layered()
      ensures this.acceptsOverride == acceptsOverride && this.standbySources == standbySources
      ensures this.sources == sources && this.intervalSource == intervalSource && this.rangeSource == rangeSource
      ensures this.intervalRanges == intervalRanges && this.dataRanges == dataRanges
      ensures this.defaultInterval == Validated(intervalRanges, defaultInterval)
      ensures standbyRequests == [] && !standbyOverride && intervalRequests == map[] && rangeQueue == []
      ensures IntervalsSound()
      ensures RangesSound()
    {
      this.acceptsOverride, this.standbySources, this.sources := acceptsOverride, standbySources, sources;
      this.intervalSource, this.rangeSource := intervalSource, rangeSource;
      this.intervalRanges, this.dataRanges := intervalRanges, dataRanges;
      below := {this} + Reached(standbySources);
      upstream := {this} + ReachedUp(sources);
      if intervalSource == null {
        intervalRoot := this;
      } else {
        intervalRoot := intervalSource.intervalRoot;
      }
      if rangeSource == null {
        rangeRoot := this;
      } else {
        rangeRoot := rangeSource.rangeRoot;
      }
      var validated := ValidateIntervalRequest(intervalRanges, defaultInterval);
      this.defaultInterval := validated;
      standbyRequests, standbyOverride := [], false;
      intervalRequests, interval := map[], 0;
      rangeQueue := [];
      appliedRange := if dataRanges != [] then dataRanges[0] else DataRange(0.0, 0.0, 0.0);
      bufferSizes, bufferIntervals := map[], map[];
      new;
      if WellFormed(intervalRanges) {
        ValidatedIsValid(intervalRanges, defaultInterval);
      }
    }

    // ---------- Standby override ----------

    /** The standby graph is acyclic, and `below` is what is reachable in it. */
    ghost predicate Ordered()
      decreases below
    {
      && this in below
      && (forall k :: k in standbySources ==> k.below <= below && this !in k.below && k.Ordered())
      && forall n {:trigger n in Reached(standbySources)} ::
           n in below && n != this ==> n in Reached(standbySources)
    }

    ghost predicate IsLeaf() {
      standbySources == []
    }

    ghost predicate LeavesAccept() {
      forall n :: n in below && n.IsLeaf() ==> n.acceptsOverride
    }

    /** A node that handles the override itself. */
    method SetStandbyOverride(on: bool) returns (ok: bool)
      modifies this`standbyOverride
      ensures ok == acceptsOverride
      ensures standbyOverride == if acceptsOverride then on else old(standbyOverride)
    {
      if acceptsOverride {
        standbyOverride := on;
      }
      ok := acceptsOverride;
    }

    /** Stores or removes the request here and at everything below, all or nothing. */
    method SetStandbyOverrideRequest(session: SessionId, on: bool) returns (ok: bool)
      requires Ordered()
      modifies below`standbyRequests, below`standbyOverride
      ensures ok <==> LeavesAccept()
      ensures forall n :: n in below ==>
                            n.standbyRequests == if on && (ok || n == this) then Add(old(n.standbyRequests), session)
                                                 else RemoveAll(old(n.standbyRequests), session)
      ensures forall n :: n in below ==> n.OthersKept(session) && n.OverrideFollows()
      decreases below, 1
    {
      AddRemove(standbyRequests, session);
      // only true requests are stored, the id is enough
      if !on {
        standbyRequests := RemoveAll(standbyRequests, session);
      } else {
        if session !in standbyRequests {
          standbyRequests := standbyRequests + [session];
        }
      }
      AllSourcesReached();
      if |standbySources| == 0 {
        ok := SetStandbyOverride(|standbyRequests| > 0);
        return;
      }
      label stored:
      ok := PassToSources(session, on);
      if on && !ok {
        // take back what some sources accepted
        label passed:
        assert forall n :: n in below && n != this ==> n.OthersKept@stored(session);
        var _ := PassToSources(session, false);
        forall n | n in below && n != this
          ensures n.OthersKept@stored(session)
        {
          assert n.OthersKept@passed(session);
        }
      }
      assert forall n :: n in below && n != this ==> n.OthersKept@stored(session);
    }

    /** Passes a request to every source; on failure some of them may keep it. */
    method PassToSources(session: SessionId, on: bool) returns (ok: bool)
      requires Ordered()
      modifies (below - {this})`standbyRequests, (below - {this})`standbyOverride
      ensures ok <==> forall n :: n in Reached(standbySources) && n.IsLeaf() ==> n.acceptsOverride
      ensures on && ok ==>
                forall n :: n in Reached(standbySources) ==> n.standbyRequests == Add(old(n.standbyRequests), session)
      ensures !on ==>
                forall n :: n in Reached(standbySources) ==>
                              n.standbyRequests == RemoveAll(old(n.standbyRequests), session)
      ensures forall n :: n in Reached(standbySources) ==> n.OthersKept(session) && n.OverrideFollows()
      decreases below, 0
    {
      ok := true;
      ghost var reached: set<Node>, before := {}, map n | n in below :: n.standbyRequests;
      var i := 0;
      while i < |standbySources|
        invariant 0 <= i <= |standbySources| && reached == Reached(standbySources[..i]) && reached <= below - {this}
        invariant ok <==> forall n :: n in reached && n.IsLeaf() ==> n.acceptsOverride
        invariant AllPassed(before, reached, session, on, ok)
      {
        ReachedNext(standbySources, i);
        ok := PassToSource(standbySources[i], session, on, ok, before, reached);
        reached := reached + standbySources[i].below;
        i := i + 1;
      }
      assert standbySources[..|standbySources|] == standbySources;
    }

    /** One more source after those that reached the given nodes with the answer `others`. */
    method PassToSource(source: Node, session: SessionId, on: bool, others: bool,
                        ghost before: map<Node, seq<SessionId>>, ghost reached: set<Node>) returns (ok: bool)
      requires source.Ordered() && reached + source.below <= before.Keys
      requires AllPassed(before, reached, session, on, others)
      modifies source.below`standbyRequests, source.below`standbyOverride
      ensures ok <==> others && source.LeavesAccept()
      ensures AllPassed(before, reached + source.below, session, on, ok)
      decreases source.below, 2
    {
      label start:
      var accepted := source.SetStandbyOverrideRequest(session, on);
      ok := accepted && others;
      forall n | n in reached + source.below
        ensures Passed(before[n], n.standbyRequests, session, on, ok) && n.OverrideFollows()
      {
        if n in source.below {
          assert n.OthersKept@start(session);
          PassedTwice(before[n], old(n.standbyRequests), n.standbyRequests, session, on, others, accepted,
                      n in reached);
        }
      }
    }

    /** The requests of the other sessions are the same, and in the same order. */
    twostate predicate OthersKept(session: SessionId)
      reads this`standbyRequests
    {
      RemoveAll(standbyRequests, session) == RemoveAll(old(standbyRequests), session)
    }

    /** A leaf that implements the override has it on exactly while it holds requests. */
    ghost predicate OverrideFollows()
      reads this`standbyRequests, this`standbyOverride
    {
      IsLeaf() && acceptsOverride ==> (standbyOverride <==> standbyRequests != [])
    }

    lemma AllSourcesReached()
      requires Ordered()
      ensures Reached(standbySources) == below - {this}
      ensures IsLeaf() ==> below == {this}
    {
      assert IsLeaf() ==> Reached(standbySources) == {};
      assert forall k :: k in standbySources ==> k.below <= Reached(standbySources);
    }

    /** The query that the base class offers for the override state of a node. */
    ghost predicate QueryStandbyOverride()
      requires Ordered()
      decreases below
    {
      standbySources != [] && forall k :: k in standbySources ==> k.QueryStandbyOverride()
    }

    /** It is false whatever has been requested, since leaves always answer false. */
    lemma {:induction false} QueryIsAlwaysFalse()
      requires Ordered()
      ensures !QueryStandbyOverride()
      decreases below
    {
      if standbySources != [] {
        assert standbySources[0] in standbySources;
        standbySources[0].QueryIsAlwaysFalse();
      }
    }

    // ---------- Interval requests ----------

    /** The source graph is acyclic; interval and range sources are sources. */
    ghost predicate Layered()
      decreases upstream
    {
      && this in upstream
      && (forall k :: k in sources ==> k.upstream <= upstream && this !in k.upstream && k.Layered())
      && (forall n {:trigger n in ReachedUp(sources)} ::
            n in upstream && n != this ==> n in ReachedUp(sources))
      && (intervalSource != null ==> intervalSource in sources)
      && (rangeSource != null ==> rangeSource in sources)
      && intervalRoot == (if intervalSource == null then this else intervalSource.intervalRoot)
      && rangeRoot == (if rangeSource == null then this else rangeSource.rangeRoot)
    }

    /** The deciding nodes have no source of their own and can be reached through sources. */
    lemma {:induction false} RootsAreUpstream()
      requires Layered()
      ensures intervalRoot in upstream && intervalRoot.intervalSource == null
      ensures rangeRoot in upstream && rangeRoot.rangeSource == null
      decreases upstream
    {
      if intervalSource != null {
        intervalSource.RootsAreUpstream();
      }
      if rangeSource != null {
        rangeSource.RootsAreUpstream();
      }
    }

    lemma AllUpstreamReached()
      requires Layered()
      ensures ReachedUp(sources) == upstream - {this}
    {
      assert forall k :: k in sources ==> k.upstream <= ReachedUp(sources);
    }

    /**
      Every stored request, and the default, is 0 or a point of an introduced
      range, if no range is upside down; only deciding nodes store any.
     */
    ghost predicate IntervalsSound()
      reads this`intervalRequests
    {
      && (WellFormed(intervalRanges) ==>
            Intervals.Valid(intervalRanges, defaultInterval) && AllValid(intervalRanges, intervalRequests))
      && (intervalSource != null ==> intervalRequests == map[])
    }

    /** The interval is the winning one; without a winner it is still `before`. */
    ghost predicate Arbitrated(before: nat)
      reads this`intervalRequests, this`interval
    {
      forall s, i: nat :: Wins(intervalRequests, defaultInterval, s, i) ==> interval == if s >= 0 then i else before
    }

    /** An obedient device; it is only ever given valid settings. */
    method SetInterval(session: SessionId, value: nat)
      requires WellFormed(intervalRanges) ==> Intervals.Valid(intervalRanges, value)
      modifies this`interval
      ensures interval == value
    {
      interval := value;
    }

    method Reevaluate()
      requires IntervalsSound()
      modifies this`interval
      ensures Arbitrated(old(interval)) && IntervalsSound()
    {
      var winner, value := EvaluateIntervalRequests(intervalRequests, defaultInterval);
      forall s, i: nat | Wins(intervalRequests, defaultInterval, s, i)
        ensures s == winner && i == value
      {
        WinnerIsUnique(intervalRequests, defaultInterval, s, i, winner, value);
      }
      if winner >= 0 {
        SetInterval(winner, value);
      }
    }

    method SetIntervalRequest(session: SessionId, value: nat)
      requires Layered() && intervalRoot.IntervalsSound()
      modifies intervalRoot`intervalRequests, intervalRoot`interval
      ensures intervalRoot.IntervalsSound()
      ensures intervalRoot.intervalRequests ==
              old(intervalRoot.intervalRequests)[session := Validated(intervalRoot.intervalRanges, value)]
      ensures intervalRoot.Arbitrated(old(intervalRoot.interval))
      decreases upstream
    {
      if intervalSource != null {
        intervalSource.SetIntervalRequest(session, value);
      } else {
        var validated := ValidateIntervalRequest(intervalRanges, value);
        if WellFormed(intervalRanges) {
          ValidatedIsValid(intervalRanges, value);
        }
        intervalRequests := intervalRequests[session := validated];
        Reevaluate();
      }
    }

    /** What withdrawing the interval request of `session` means for this node. */
    twostate predicate IntervalWithdrawn(session: SessionId)
      reads this`intervalRequests, this`interval
    {
      if intervalSource == null
      then intervalRequests == Without(old(intervalRequests), session) && Arbitrated(old(interval))
      else intervalRequests == old(intervalRequests) && interval == old(interval)
    }

    method RemoveIntervalRequest(session: SessionId)
      requires Layered() && forall n :: n in upstream ==> n.IntervalsSound()
      modifies upstream`intervalRequests, upstream`interval
      ensures forall n :: n in upstream ==>
                            n.IntervalsSound() && n.IntervalWithdrawn(session) && session !in n.intervalRequests
      decreases upstream, 1
    {
      AllUpstreamReached();
      RemoveFromSources(session);
      if intervalSource == null {
        intervalRequests := Without(intervalRequests, session);
        Reevaluate();
      }
    }

    method RemoveFromSources(session: SessionId)
      requires Layered() && forall n :: n in upstream ==> n.IntervalsSound()
      modifies (upstream - {this})`intervalRequests, (upstream - {this})`interval
      ensures forall n :: n in ReachedUp(sources) ==> n.IntervalsSound() && n.IntervalWithdrawn(session)
      decreases upstream, 0
    {
      var i := 0;
      while i < |sources|
        invariant 0 <= i <= |sources|
        invariant forall n :: n in upstream ==> n.IntervalsSound()
        invariant forall n :: n in ReachedUp(sources[..i]) ==> n.IntervalWithdrawn(session)
        invariant forall n :: n in upstream && n !in ReachedUp(sources[..i]) ==>
                                n.intervalRequests == old(n.intervalRequests) && n.interval == old(n.interval)
      {
        label before:
        sources[i].RemoveIntervalRequest(session);
        forall n | n in sources[i].upstream
          ensures n.IntervalWithdrawn(session)
        {
          assert n.IntervalWithdrawn@before(session);
          WithoutTwice(old(n.intervalRequests), session);
        }
        ReachedUpNext(sources, i);
        i := i + 1;
      }
      assert sources[..|sources|] == sources;
    }

    // ---------- Data range requests ----------

    /** The range of the request in force is the one that is applied; a node without ranges has no requests. */
    ghost predicate RangesSound()
      reads this`rangeQueue, this`appliedRange
    {
      && UniqueIds(rangeQueue)
      && AllAvailable(dataRanges, rangeQueue)
      && (dataRanges != [] ==> appliedRange == Current(dataRanges, rangeQueue).range)
    }

    method RequestLocalRange(session: SessionId, range: DataRange)
      requires RangesSound()
      modifies this`rangeQueue, this`appliedRange
      ensures RangesSound() && rangeQueue == Step(dataRanges, old(rangeQueue), Request(session, range))
    {
      if range !in dataRanges {
        return;
      }
      var rangeChanged := false;
      if rangeQueue == [] {
        if range != dataRanges[0] {
          rangeChanged := true;
        }
      } else if rangeQueue[0].id == session && rangeQueue[0].range != range {
        rangeChanged := true;
      }
      var hadPreviousRequest := false;
      var i := 0;
      while i < |rangeQueue| && !hadPreviousRequest
        invariant 0 <= i <= |rangeQueue|
        invariant !hadPreviousRequest ==> rangeQueue == old(rangeQueue) && i <= Place(rangeQueue, session)
        invariant hadPreviousRequest ==> Place(old(rangeQueue), session) < |old(rangeQueue)|
        invariant hadPreviousRequest ==> rangeQueue == Step(dataRanges, old(rangeQueue), Request(session, range))
        modifies this`rangeQueue
      {
        if rangeQueue[i].id == session {
          rangeQueue := rangeQueue[i := RangeRequest(session, range)];
          hadPreviousRequest := true;
        }
        i := i + 1;
      }
      if !hadPreviousRequest {
        rangeQueue := rangeQueue + [RangeRequest(session, range)];
      }
      StepPlaces(dataRanges, old(rangeQueue), Request(session, range));
      StepAvailable(dataRanges, old(rangeQueue), Request(session, range));
      RequestChangesRange(dataRanges, old(rangeQueue), session, range);
      if rangeChanged {
        appliedRange := Current(dataRanges, rangeQueue).range;
      }
    }

    method RemoveLocalRange(session: SessionId)
      requires RangesSound()
      modifies this`rangeQueue, this`appliedRange
      ensures RangesSound() && rangeQueue == Step(dataRanges, old(rangeQueue), Withdraw(session))
      ensures !Queued(rangeQueue, session)
    {
      var index := -1;
      var i := 0;
      while i < |rangeQueue| && index == -1
        invariant 0 <= i <= |rangeQueue|
        invariant index == -1 ==> i <= Place(rangeQueue, session)
        invariant index != -1 ==> index == Place(rangeQueue, session) < |rangeQueue|
      {
        if rangeQueue[i].id == session {
          index := i;
        }
        i := i + 1;
      }
      if index < 0 {
        return;
      }
      assert rangeQueue[index].range in dataRanges;
      TakeAt(index, session);
    }

    method TakeAt(index: nat, session: SessionId)
      requires RangesSound() && dataRanges != [] && index == Place(rangeQueue, session) < |rangeQueue|
      modifies this`rangeQueue, this`appliedRange
      ensures RangesSound() && rangeQueue == Step(dataRanges, old(rangeQueue), Withdraw(session))
      ensures !Queued(rangeQueue, session)
    {
      StepPlaces(dataRanges, rangeQueue, Withdraw(session));
      StepAvailable(dataRanges, rangeQueue, Withdraw(session));
      WithdrawChangesRange(dataRanges, rangeQueue, session);
      var request := rangeQueue[index];
      rangeQueue := rangeQueue[..index] + rangeQueue[index + 1..];
      assert rangeQueue == Step(dataRanges, old(rangeQueue), Withdraw(session));
      if index == 0 {
        if (|rangeQueue| > 0 && rangeQueue[0].range != request.range) || dataRanges[0] != request.range {
          appliedRange := Current(dataRanges, rangeQueue).range;
        }
      }
    }

    method RequestDataRange(session: SessionId, range: DataRange)
      requires Layered() && rangeRoot.RangesSound()
      modifies rangeRoot`rangeQueue, rangeRoot`appliedRange
      ensures rangeRoot.RangesSound()
      ensures rangeRoot.rangeQueue == Step(rangeRoot.dataRanges, old(rangeRoot.rangeQueue), Request(session, range))
      decreases upstream
    {
      if rangeSource == null {
        RequestLocalRange(session, range);
      } else {
        rangeSource.RequestDataRange(session, range);
      }
    }

    method RemoveDataRangeRequest(session: SessionId)
      requires Layered() && rangeRoot.RangesSound()
      modifies rangeRoot`rangeQueue, rangeRoot`appliedRange
      ensures rangeRoot.RangesSound() && !Queued(rangeRoot.rangeQueue, session)
      ensures rangeRoot.rangeQueue == Step(rangeRoot.dataRanges, old(rangeRoot.rangeQueue), Withdraw(session))
      decreases upstream
    {
      if rangeSource == null {
        RemoveLocalRange(session);
      } else {
        rangeSource.RemoveDataRangeRequest(session);
      }
    }

    // ---------- Removal of a session ----------

    method ClearBuffers(session: SessionId)
      modifies this`bufferSizes, this`bufferIntervals
      ensures bufferSizes == Without(old(bufferSizes), session)
      ensures bufferIntervals == Without(old(bufferIntervals), session)
    {
      bufferSizes := Without(bufferSizes, session);
      bufferIntervals := Without(bufferIntervals, session);
    }

    /** Erases a session from everything that this node and its sources store. */
    method RemoveSession(session: SessionId)
      requires Ordered() && Layered() && rangeRoot.RangesSound() && forall n :: n in upstream ==> n.IntervalsSound()
      modifies below`standbyRequests, below`standbyOverride
      modifies upstream`intervalRequests, upstream`interval
      modifies rangeRoot`rangeQueue, rangeRoot`appliedRange
      modifies this`bufferSizes, this`bufferIntervals
      ensures forall n :: n in below ==>
                            n.standbyRequests == RemoveAll(old(n.standbyRequests), session) && n.OverrideFollows()
      ensures forall n :: n in upstream ==>
                            n.IntervalsSound() && n.IntervalWithdrawn(session) && session !in n.intervalRequests
      ensures rangeRoot.RangesSound() && !Queued(rangeRoot.rangeQueue, session)
      ensures rangeRoot.rangeQueue == Step(rangeRoot.dataRanges, old(rangeRoot.rangeQueue), Withdraw(session))
      ensures bufferSizes == Without(old(bufferSizes), session)
      ensures bufferIntervals == Without(old(bufferIntervals), session)
    {
      WithdrawRequests(session);
      ClearBuffers(session);
    }

    method WithdrawRequests(session: SessionId)
      requires Ordered() && Layered() && rangeRoot.RangesSound() && forall n :: n in upstream ==> n.IntervalsSound()
      modifies below`standbyRequests, below`standbyOverride
      modifies upstream`intervalRequests, upstream`interval
      modifies rangeRoot`rangeQueue, rangeRoot`appliedRange
      ensures forall n :: n in below ==>
                            n.standbyRequests == RemoveAll(old(n.standbyRequests), session) && n.OverrideFollows()
      ensures forall n :: n in upstream ==>
                            n.IntervalsSound() && n.IntervalWithdrawn(session) && session !in n.intervalRequests
      ensures rangeRoot.RangesSound() && !Queued(rangeRoot.rangeQueue, session)
      ensures rangeRoot.rangeQueue == Step(rangeRoot.dataRanges, old(rangeRoot.rangeQueue), Withdraw(session))
    {
      RootsAreUpstream();
      WithdrawOverrideAndInterval(session);
      RemoveDataRangeRequest(session);
    }

    method WithdrawOverrideAndInterval(session: SessionId)
      requires Ordered() && Layered() && forall n :: n in upstream ==> n.IntervalsSound()
      modifies below`standbyRequests, below`standbyOverride
      modifies upstream`intervalRequests, upstream`interval
      ensures forall n :: n in below ==>
                            n.standbyRequests == RemoveAll(old(n.standbyRequests), session) && n.OverrideFollows()
      ensures forall n :: n in upstream ==>
                            n.IntervalsSound() && n.IntervalWithdrawn(session) && session !in n.intervalRequests
    {
      var _ := SetStandbyOverrideRequest(session, false);
      RemoveIntervalRequest(session);
    }
  }

  ghost function ReachedUp(nodes: seq<Node>): set<Node> {
    set k, n | k in nodes && n in k.upstream :: n
  }

  lemma ReachedUpNext(nodes: seq<Node>, i: nat)
    requires i < |nodes|
    ensures ReachedUp(nodes[..i + 1]) == ReachedUp(nodes[..i]) + nodes[i].upstream
  {
    assert nodes[..i + 1] == nodes[..i] + [nodes[i]];
  }

  ghost function Reached(nodes: seq<Node>): set<Node> {
    set k, n | k in nodes && n in k.below :: n
  }

  lemma ReachedNext(nodes: seq<Node>, i: nat)
    requires i < |nodes|
    ensures Reached(nodes[..i + 1]) == Reached(nodes[..i]) + nodes[i].below
  {
    assert nodes[..i + 1] == nodes[..i] + [nodes[i]];
  }
}
