/** The sensor manager together with the nodes of its channels: what is left of a client that has gone. */
module Daemons {
  import opened Channels
  import opened DataRanges
  import opened Lists
  import opened NodeGraph
  import opened SessionRegistry
  import opened Sessions

  class Daemon {
    const manager: SensorManager
    var channels: map<string, Node>   // the channels created so far
    ghost var nodes: set<Node>        // all nodes that their requests reach

    ghost predicate Valid()
      reads this, manager, nodes
    {
      && Apart(this, nodes) && Apart(manager, nodes)
      && manager.State().Valid() && HasChannels(manager.State()) && Wired(channels.Values, nodes) && AllSound(nodes)
    }

    /** Every sensor that was created has a channel. */
    ghost predicate HasChannels(r: Registry)
      reads `channels
    {
      forall id :: id in r.sensors && r.sensors[id].instantiated ==> id in channels
    }

    ghost function Stored(): Store
      reads this, nodes
    {
      Snapshot(nodes)
    }

    constructor (names: set<string>)
      requires forall name :: name in names ==> ';' !in name
      ensures Valid() && channels == map[] && nodes == {} && fresh(manager)
      ensures manager.State() ==
              Registry(map name | name in names :: Entry(false, {}, {}), map[], {}, {}, 0, NoError, false)
    {
      manager := new SensorManager(names);
      channels, nodes := map[], {};
    }

    /** A channel that is created is a node over sound ones. */
    method RequestSensor(id: string, caller: Option<Client>, creation: Creation, channel: Node) returns (s: SessionId)
      requires Valid() && Wired({channel}, Parts(channel)) && AllSound(Parts(channel))
      modifies this, manager
      ensures Valid() && (manager.State(), s) == old(manager.State()).Request(id, caller, creation)
      ensures if Creates(old(manager.State()), CleanId(id), creation)
              then channels == old(channels)[CleanId(id) := channel] && nodes == old(nodes) + Parts(channel)
              else channels == old(channels) && nodes == old(nodes)
    {
      var clean := CleanId(id);
      RequestKeepsValid(manager.State(), id, caller, creation);
      if Creates(manager.State(), clean, creation) {
        AddChannel(clean, channel);
      }
      s := manager.RequestSensor(id, caller, creation);
    }

    method AddChannel(id: string, channel: Node)
      requires Valid() && Wired({channel}, Parts(channel)) && AllSound(Parts(channel))
      modifies this`channels, this`nodes
      ensures Wired(channels.Values, nodes) && AllSound(nodes)
      ensures channels == old(channels)[id := channel] && nodes == old(nodes) + Parts(channel)
    {
      channels, nodes := channels[id := channel], nodes + Parts(channel);
    }

    /** Any client may request a range for any session at any channel. */
    method RequestDataRange(id: string, s: SessionId, range: DataRange)
      requires Valid() && id in channels
      modifies nodes
      ensures Valid() && Stored() == Requested(old(Stored()), channels[id].rangeRoot, s, range)
    {
      RequestAt(channels[id], s, range, channels.Values, nodes);
    }

    /** The requests of the session are removed at the named sensor, whichever sensor holds it. */
    method ReleaseSensor(id: string, s: SessionId, caller: Option<Client>) returns (ok: bool)
      requires Valid()
      modifies manager, nodes
      ensures Valid() && (manager.State(), ok) == old(manager.State()).Release(id, s, caller)
      ensures if Uses(old(manager.State()), id, s, caller) then id in channels && Without(old(Stored()), id, s)
              else Stored() == old(Stored())
    {
      ReleaseKeepsValid(manager.State(), id, s, caller);
      ghost var before := Stored();
      var used := Uses(manager.State(), id, s, caller);
      ok := manager.ReleaseSensor(id, s, caller);
      assert HasChannels(manager.State());
      assert Stored() == before;
      RemoveIfHeld(if used then Some(id) else None, s);
    }

    method RemoveIfHeld(holder: Option<string>, s: SessionId)
      requires Apart(this, nodes) && Wired(channels.Values, nodes) && AllSound(nodes)
      requires holder.Some? ==> holder.value in channels
      modifies nodes
      ensures AllSound(nodes)
      ensures if holder.Some? then Without(old(Stored()), holder.value, s) else Stored() == old(Stored())
    {
      if holder.Some? {
        RemoveAtSensor(holder.value, s);
      }
    }

    /** The session has been removed at that sensor, and nothing else, since `before`. */
    ghost predicate Without(before: Store, id: string, s: SessionId)
      requires id in channels
      reads this, nodes
    {
      Withdraws(before, Stored(), channels[id], s) && Keeps(before, Stored(), {s})
    }

    /** Stops and releases a session at the sensor that holds it. */
    method LostClient(s: SessionId) returns (holder: Option<string>)
      requires Valid()
      modifies manager, nodes
      ensures Valid() && manager.State() == old(manager.State()).Lost(s)
      ensures if holder.Some?
              then old(manager.State()).HeldBy(holder.value, s) && holder.value in channels
                   && Without(old(Stored()), holder.value, s)
              else !old(manager.State()).Held(s) && Stored() == old(Stored())
    {
      ghost var before := Stored();
      LostKeepsValid(manager.State(), s);
      holder := manager.LostClient(s);
      assert HasChannels(manager.State());
      assert Stored() == before;
      RemoveIfHeld(holder, s);
    }

    /**
      Of every session of the client exactly the requests are withdrawn that it
      made through the sensor that held it, and no other session loses any. So
      nothing of a session is left at the nodes that its sensor reaches exactly
      if none of them held a request of it that was made elsewhere.
     */
    method ClientLeaves(c: Client)
      requires Valid()
      modifies manager, nodes
      ensures Valid() && manager.State() == old(manager.State()).Without(old(manager.State()).Owned(c))
      ensures Keeps(old(Stored()), Stored(), old(manager.State()).Owned(c))
      ensures Erased(old(manager.State()), c, channels, old(Stored()), Stored())
    {
      ghost var r, before := manager.State(), Stored();
      var lost := manager.DbusClientUnregistered(c);
      HoldersAreUnique(r, lost);
      assert HasChannels(manager.State());
      NothingRemoved(before, channels, lost);
      ghost var after := RemoveEach(lost, lost.Keys, before, before);
      ErasedByRemoval(r, c, channels, before, after, lost);
    }

    /** Removes each of the sessions that are left at its sensor. */
    method RemoveEach(lost: map<SessionId, string>, left: set<SessionId>, ghost start: Store, ghost before: Store)
      returns (ghost after: Store)
      requires Apart(this, nodes) && Wired(channels.Values, nodes) && AllSound(nodes)
      requires forall s :: s in lost ==> lost[s] in channels
      requires left <= lost.Keys && before == Stored() && Removed(start, before, channels, lost, left)
      modifies nodes
      ensures AllSound(nodes) && after == Stored() && Removed(start, after, channels, lost, {})
      decreases left
    {
      after := before;
      if left != {} {
        assert (forall k :: k !in left) ==> left == {};
        var s :| s in left;
        RemoveAtSensor(lost[s], s);
        after := Stored();
        RemovedNext(start, before, after, channels, lost, left, s);
        after := RemoveEach(lost, left - {s}, start, after);
      }
    }

    method RemoveAtSensor(id: string, s: SessionId)
      requires Apart(this, nodes) && Wired(channels.Values, nodes) && AllSound(nodes) && id in channels
      modifies nodes
      ensures AllSound(nodes)
      ensures Without(old(Stored()), id, s)
    {
      RemoveAt(channels[id], s, channels.Values, nodes);
    }
  }

  lemma LostKeepsValid(r: Registry, s: SessionId)
    requires r.Valid()
    ensures r.Lost(s).Valid()
  {
    WithoutKeepsValid(r, {s});
  }

  /** The object is none of the nodes. */
  ghost predicate Apart(o: object, nodes: set<object>) {
    o !in nodes
  }

  /** The removals of all but the sessions that are left, and nothing else, have happened. */
  ghost predicate Removed(before: Store, after: Store, channels: map<string, Node>, lost: map<SessionId, string>,
                          left: set<SessionId>)
    requires forall s :: s in lost ==> lost[s] in channels
  {
    Keeps(before, after, lost.Keys - left) &&
    forall s :: s in lost && s !in left ==> Withdraws(before, after, channels[lost[s]], s)
  }

  lemma NothingRemoved(store: Store, channels: map<string, Node>, lost: map<SessionId, string>)
    requires forall t :: t in lost ==> lost[t] in channels
    ensures Removed(store, store, channels, lost, lost.Keys)
  {
  }

  lemma RemovedNext(start: Store, before: Store, after: Store, channels: map<string, Node>,
                    lost: map<SessionId, string>, left: set<SessionId>, s: SessionId)
    requires (forall t :: t in lost ==> lost[t] in channels) && s in left && left <= lost.Keys
    requires Removed(start, before, channels, lost, left)
    requires Withdraws(before, after, channels[lost[s]], s) && Keeps(before, after, {s})
    ensures Removed(start, after, channels, lost, left - {s})
  {
    KeepsBoth(start, before, after, lost.Keys - left, {s});
    assert lost.Keys - (left - {s}) == lost.Keys - left + {s};
    forall t | t in lost && t !in left - {s}
      ensures Withdraws(start, after, channels[lost[t]], t)
    {
      if t == s {
        WithdrawsStill(start, before, after, lost.Keys - left, channels[lost[s]], s);
      } else {
        WithdrawsStill(start, before, after, {s}, channels[lost[t]], t);
      }
    }
  }

  /** Of the sessions of the client that is withdrawn which they requested through the sensors that held them. */
  ghost predicate Erased(r: Registry, c: Client, channels: map<string, Node>, before: Store, after: Store) {
    forall id, s :: s in r.Owned(c) && r.HeldBy(id, s) ==>
                      && id in channels
                      && Withdraws(before, after, channels[id], s)
                      && (Clear(after, channels[id], s) <==> !HeldBeyond(before, channels[id], s))
  }

  lemma ErasedByRemoval(r: Registry, c: Client, channels: map<string, Node>, before: Store, after: Store,
                        lost: map<SessionId, string>)
    requires forall s :: s in lost ==> lost[s] in channels
    requires Removed(before, after, channels, lost, {}) && lost.Keys == r.Owned(c)
    requires forall id, s :: s in lost && r.HeldBy(id, s) ==> lost[s] == id
    ensures Keeps(before, after, r.Owned(c)) && Erased(r, c, channels, before, after)
  {
    assert lost.Keys - {} == r.Owned(c);
    forall id, s | s in r.Owned(c) && r.HeldBy(id, s)
      ensures Clear(after, channels[id], s) <==> !HeldBeyond(before, channels[id], s)
    {
      ClearIff(before, after, channels[id], s);
    }
  }

  lemma HoldersAreUnique(r: Registry, holders: map<SessionId, string>)
    requires r.Valid() && forall s :: s in holders ==> r.HeldBy(holders[s], s)
    ensures forall id, s :: s in holders && r.HeldBy(id, s) ==> holders[s] == id
  {
  }

  /** The release gets as far as using the channel of the named sensor, and there is one. */
  predicate Uses(r: Registry, id: string, s: SessionId, caller: Option<Client>) {
    r.MayRelease(s, caller) && ';' !in id && id in r.sensors && r.sensors[id].instantiated
  }

  /** The request creates the channel of the sensor. */
  predicate Creates(r: Registry, id: string, creation: Creation) {
    creation == Created && id in r.sensors && !r.sensors[id].instantiated
  }

  // ---------- What a client can leave behind ----------

  /**
    A client requests a range for its session at one sensor through another
    sensor, whose ranges are decided by a node that the first one reaches but
    does not take its ranges from. The request is queued there for good: after
    the client has left, nothing holds the session, and its request remains.
   */
  method RangeOutlivesClient(d: Daemon, c: Client, a: string, b: string, s: SessionId, range: DataRange)
    requires d.Valid() && s in d.manager.State().Owned(c) && d.manager.State().HeldBy(a, s)
    requires a in d.channels && b in d.channels && range in d.channels[b].rangeRoot.dataRanges
    requires d.channels[b].rangeRoot in Parts(d.channels[a]) && d.channels[b].rangeRoot != d.channels[a].rangeRoot
    modifies d.manager, d.nodes
    ensures d.Valid() && !d.manager.State().Held(s) && s !in d.manager.State().instances
    ensures Queued(d.channels[b].rangeRoot.rangeQueue, s)
  {
    ghost var root, r := d.channels[b].rangeRoot, d.manager.State();
    d.RequestDataRange(b, s, range);
    ghost var before := d.Stored();
    StepPlaces(root.dataRanges, old(root.rangeQueue), Request(s, range));
    d.ClientLeaves(c);
    RangeStays(before, d.Stored(), d.channels[a], root, s);
    WithoutHolds(r, r.Owned(c));
  }

  lemma RangeStays(before: Store, after: Store, channel: Node, n: Node, s: SessionId)
    requires Withdraws(before, after, channel, s) && n in before && n != channel.rangeRoot
    ensures n in after && (Queued(after[n].ranges, s) <==> Queued(before[n].ranges, s))
  {
    QueuedIff(before[n].ranges, s);
    QueuedIff(after[n].ranges, s);
  }

  const NARROW := DataRange(0.0, 1.0, 1.0)
  const WIDE := DataRange(0.0, 2.0, 1.0)

  /** A channel over one shared node. */
  method NewChannel(shared: Node, rangeSource: Node?, ranges: seq<DataRange>) returns (channel: Node)
    requires shared.Ordered() && shared.Layered() && shared.IntervalsSound() && shared.RangesSound()
    requires shared.below == shared.upstream == {shared} && (rangeSource == null || rangeSource == shared)
    requires shared.rangeRoot == shared
    ensures fresh(channel) && Parts(channel) == {channel, shared}
    ensures Wired({channel}, Parts(channel)) && AllSound(Parts(channel))
    ensures channel.rangeRoot == if rangeSource == null then channel else shared
  {
    channel := new Node(false, [shared], [shared], null, rangeSource, [], 0, ranges);
    channel.AllSourcesReached();
    channel.AllUpstreamReached();
    assert shared in [shared];
    assert Reached([shared]) == {shared} && ReachedUp([shared]) == {shared};
    assert channel.below == channel.below - {channel} + {channel};
    assert channel.upstream == channel.upstream - {channel} + {channel};
  }

  method NewShared() returns (shared: Node)
    ensures fresh(shared) && shared.Ordered() && shared.Layered() && shared.IntervalsSound() && shared.RangesSound()
    ensures shared.below == {shared} && shared.upstream == {shared} && shared.rangeRoot == shared
    ensures shared.dataRanges == [NARROW, WIDE] && shared.rangeQueue == []
  {
    shared := new Node(true, [], [], null, null, [], 0, [NARROW, WIDE]);
    shared.AllSourcesReached();
    shared.AllUpstreamReached();
    assert ReachedUp([]) == {};
  }

  /** Two channels over the same node, of which the first has ranges of its own. */
  ghost predicate Share(own: Node, delegating: Node, shared: Node)
    reads own, delegating, shared
  {
    && Parts(own) == {own, shared} && Parts(delegating) == {delegating, shared}
    && Wired({own}, Parts(own)) && Wired({delegating}, Parts(delegating))
    && AllSound({own, delegating, shared})
    && own.rangeRoot == own && delegating.rangeRoot == shared && own != shared
    && shared.dataRanges == [NARROW, WIDE] && shared.rangeQueue == []
  }

  method NewChannels() returns (own: Node, delegating: Node, shared: Node)
    ensures fresh(own) && fresh(delegating) && fresh(shared) && Share(own, delegating, shared)
  {
    shared := NewShared();
    own := NewChannel(shared, null, [NARROW]);
    delegating := NewChannel(shared, shared, []);
  }

  ghost predicate Registered(r: Registry, c: Client) {
    r.instances == map[1 := c, 2 := c] && r.HeldBy("a", 1) && r.HeldBy("b", 2)
  }

  lemma TwoRequests(names: set<string>, c: Client)
    requires names == {"a", "b"}
    ensures CleanId("a") == "a" && CleanId("b") == "b"
    ensures var none := Registry(map name | name in names :: Entry(false, {}, {}), map[], {}, {}, 0, NoError, false);
      var first := none.Request("a", Some(c), Created).0;
      Creates(none, "a", Created) && Creates(first, "b", Created) &&
      Registered(first.Request("b", Some(c), Created).0, c)
  {
    NamesAreClean();
  }

  /** A client with a session at each of the two channels. */
  method Connected(c: Client, own: Node, delegating: Node, shared: Node) returns (d: Daemon)
    requires Share(own, delegating, shared)
    ensures fresh(d) && fresh(d.manager) && d.Valid() && Registered(d.manager.State(), c)
    ensures d.channels == map["a" := own, "b" := delegating]
  {
    var names := {"a", "b"};
    TwoRequests(names, c);
    d := new Daemon(names);
    var first := d.RequestSensor("a", Some(c), Created, own);
    var second := d.RequestSensor("b", Some(c), Created, delegating);
  }
}
