/** The sensor channels of the daemon as nodes, and what is left of a session at a channel and at all it reaches. */
module Channels {
  import opened DataRanges
  import opened Lists
  import opened NodeGraph
  import opened Sessions

  // ---------- The requests that a node stores ----------

  datatype Requests = Requests(standby: seq<SessionId>, intervals: map<SessionId, nat>, ranges: seq<RangeRequest>,
                               sizes: map<SessionId, nat>, delays: map<SessionId, nat>)

  /** How a channel reaches a node, which decides what it removes there. */
  datatype Spot = Spot(below: bool, upstream: bool, root: bool, self: bool)

  function Itself(s: SessionId): SessionId { s }
  function IdOf(r: RangeRequest): SessionId { r.id }

  /** The first entry of a list for a session. */
  function First<T>(s: seq<T>, id: T -> SessionId, x: SessionId): Option<T> {
    if s == [] then None else if id(s[0]) == x then Some(s[0]) else First(s[1..], id, x)
  }

  function Value(m: map<SessionId, nat>, s: SessionId): Option<nat> {
    if s in m then Some(m[s]) else None
  }

  ghost predicate Holds(r: Requests, s: SessionId) {
    s in r.standby || s in r.intervals || Queued(r.ranges, s) || s in r.sizes || s in r.delays
  }

  /** A request of a kind that a removal does not withdraw at that spot. */
  ghost predicate HoldsBeyond(r: Requests, s: SessionId, spot: Spot) {
    || (s in r.standby && !spot.below)
    || (s in r.intervals && !spot.upstream)
    || (Queued(r.ranges, s) && !spot.root)
    || ((s in r.sizes || s in r.delays) && !spot.self)
  }

  /** Of the session exactly that has gone which a removal withdraws at the spot. */
  ghost predicate Gone(before: Requests, after: Requests, s: SessionId, spot: Spot) {
    && First(after.standby, Itself, s) == (if spot.below then None else First(before.standby, Itself, s))
    && Value(after.intervals, s) == (if spot.upstream then None else Value(before.intervals, s))
    && First(after.ranges, IdOf, s) == (if spot.root then None else First(before.ranges, IdOf, s))
    && Value(after.sizes, s) == (if spot.self then None else Value(before.sizes, s))
    && Value(after.delays, s) == (if spot.self then None else Value(before.delays, s))
  }

  lemma HoldsAfterIff(before: Requests, after: Requests, s: SessionId, spot: Spot)
    requires Gone(before, after, s, spot)
    ensures Holds(after, s) <==> HoldsBeyond(before, s, spot)
  {
    InIff(before.standby, s);
    InIff(after.standby, s);
    QueuedIff(before.ranges, s);
    QueuedIff(after.ranges, s);
  }

  lemma {:induction false} InIff(s: seq<SessionId>, x: SessionId)
    ensures x in s <==> First(s, Itself, x).Some?
  {
    if s != [] {
      InIff(s[1..], x);
    }
  }

  lemma {:induction false} QueuedIff(queue: seq<RangeRequest>, s: SessionId)
    ensures Queued(queue, s) <==> First(queue, IdOf, s).Some?
  {
    if queue != [] {
      QueuedIff(queue[1..], s);
    }
  }

  /** What a list holds of the sessions that have not gone, in order. */
  ghost function Others<T>(s: seq<T>, id: T -> SessionId, gone: set<SessionId>): seq<T> {
    if s == [] then [] else (if id(s[0]) in gone then [] else [s[0]]) + Others(s[1..], id, gone)
  }

  /** All other sessions keep their requests, with their values and in their order. */
  ghost predicate SameOthers(before: Requests, after: Requests, gone: set<SessionId>) {
    && Others(after.standby, Itself, gone) == Others(before.standby, Itself, gone)
    && after.intervals - gone == before.intervals - gone
    && Others(after.ranges, IdOf, gone) == Others(before.ranges, IdOf, gone)
    && after.sizes - gone == before.sizes - gone
    && after.delays - gone == before.delays - gone
  }

  lemma {:induction false} OthersOfOthers<T>(s: seq<T>, id: T -> SessionId, a: set<SessionId>, b: set<SessionId>)
    ensures Others(Others(s, id, a), id, b) == Others(s, id, a + b)
  {
    if s != [] {
      OthersOfOthers(s[1..], id, a, b);
      assert [] + Others(s[1..], id, a) == Others(s[1..], id, a);
      if id(s[0]) !in a {
        assert ([s[0]] + Others(s[1..], id, a))[1..] == Others(s[1..], id, a);
      }
    }
  }

  lemma {:induction false} OthersFirst<T>(s: seq<T>, id: T -> SessionId, gone: set<SessionId>, x: SessionId)
    requires x !in gone
    ensures First(Others(s, id, gone), id, x) == First(s, id, x)
  {
    if s != [] {
      OthersFirst(s[1..], id, gone, x);
      var rest := Others(s[1..], id, gone);
      assert [] + rest == rest && ([s[0]] + rest)[1..] == rest;
    }
  }

  lemma {:induction false} RemoveAllKeepsOthers(s: seq<SessionId>, x: SessionId, gone: set<SessionId>)
    requires x in gone
    ensures Others(RemoveAll(s, x), Itself, gone) == Others(s, Itself, gone)
  {
    if s != [] {
      RemoveAllKeepsOthers(s[1..], x, gone);
      assert s[0] != x ==> ([s[0]] + RemoveAll(s[1..], x))[1..] == RemoveAll(s[1..], x);
    }
  }

  lemma {:induction false} TakingKeepsOthers<T>(s: seq<T>, k: nat, id: T -> SessionId, gone: set<SessionId>)
    requires k < |s| && id(s[k]) in gone
    ensures Others(s[..k] + s[k + 1..], id, gone) == Others(s, id, gone)
    decreases k
  {
    if k == 0 {
      assert s[..0] + s[0 + 1..] == s[1..];
    } else {
      TakingKeepsOthers(s[1..], k - 1, id, gone);
      var taken := s[..k] + s[k + 1..];
      assert taken[0] == s[0] && taken[1..] == s[1..][..k - 1] + s[1..][k..];
    }
  }

  const NOWHERE := Spot(false, false, false, false)

  /** Sessions that have not gone hold what they held. */
  lemma OthersHold(before: Requests, after: Requests, gone: set<SessionId>, s: SessionId)
    requires SameOthers(before, after, gone) && s !in gone
    ensures Gone(before, after, s, NOWHERE)
  {
    OthersFirst(before.standby, Itself, gone, s);
    OthersFirst(after.standby, Itself, gone, s);
    OthersFirst(before.ranges, IdOf, gone, s);
    OthersFirst(after.ranges, IdOf, gone, s);
    ValueKept(before.intervals, after.intervals, gone, s);
    ValueKept(before.sizes, after.sizes, gone, s);
    ValueKept(before.delays, after.delays, gone, s);
  }

  lemma ValueKept(before: map<SessionId, nat>, after: map<SessionId, nat>, gone: set<SessionId>, s: SessionId)
    requires after - gone == before - gone && s !in gone
    ensures Value(after, s) == Value(before, s)
  {
    assert s in before <==> s in before - gone;
    assert s in after <==> s in after - gone;
    assert s in after ==> (after - gone)[s] == after[s] && (before - gone)[s] == before[s];
  }

  lemma SequencesCompose<T>(a: seq<T>, b: seq<T>, c: seq<T>, id: T -> SessionId, first: set<SessionId>,
                            second: set<SessionId>)
    requires Others(b, id, first) == Others(a, id, first) && Others(c, id, second) == Others(b, id, second)
    ensures Others(c, id, first + second) == Others(a, id, first + second)
  {
    OthersOfOthers(a, id, first, second);
    OthersOfOthers(b, id, first, second);
    OthersOfOthers(b, id, second, first);
    OthersOfOthers(c, id, second, first);
    assert first + second == second + first;
  }

  lemma MapsCompose(a: map<SessionId, nat>, b: map<SessionId, nat>, c: map<SessionId, nat>, first: set<SessionId>,
                    second: set<SessionId>)
    requires b - first == a - first && c - second == b - second
    ensures c - (first + second) == a - (first + second)
  {
    assert a - (first + second) == (a - first) - second;
    assert b - (first + second) == (b - first) - second == (b - second) - first;
    assert c - (first + second) == (c - second) - first;
  }

  lemma OthersCompose(a: Requests, b: Requests, c: Requests, first: set<SessionId>, second: set<SessionId>)
    requires SameOthers(a, b, first) && SameOthers(b, c, second)
    ensures SameOthers(a, c, first + second)
  {
    SequencesCompose(a.standby, b.standby, c.standby, Itself, first, second);
    SequencesCompose(a.ranges, b.ranges, c.ranges, IdOf, first, second);
    MapsCompose(a.intervals, b.intervals, c.intervals, first, second);
    MapsCompose(a.sizes, b.sizes, c.sizes, first, second);
    MapsCompose(a.delays, b.delays, c.delays, first, second);
  }

  /** Removals of different sessions do not disturb each other, whichever comes first. */
  lemma RemovalsCompose(a: Requests, b: Requests, c: Requests, s: SessionId, spot: Spot)
    requires (Gone(a, b, s, spot) && Gone(b, c, s, NOWHERE)) || (Gone(a, b, s, NOWHERE) && Gone(b, c, s, spot))
    ensures Gone(a, c, s, spot)
  {
  }

  // ---------- Removal at the nodes ----------

  /** The channel and the nodes that its requests reach. */
  ghost function Parts(channel: Node): set<Node> {
    {channel, channel.rangeRoot} + channel.below + channel.upstream
  }

  ghost function SpotOf(channel: Node, n: Node): Spot {
    Spot(n in channel.below, n in channel.upstream, n == channel.rangeRoot, n == channel)
  }

  ghost function RequestsAt(n: Node): Requests
    reads n
  {
    Requests(n.standbyRequests, n.intervalRequests, n.rangeQueue, n.bufferSizes, n.bufferIntervals)
  }

  /** What each node stores. */
  type Store = map<Node, Requests>

  ghost function Snapshot(nodes: set<Node>): (r: Store)
    reads nodes
    ensures r.Keys == nodes
  {
    map n | n in nodes :: RequestsAt(n)
  }

  /** Of the session exactly that has gone, at every node, which it requested through `channel`. */
  ghost predicate Withdraws(before: Store, after: Store, channel: Node, s: SessionId) {
    before.Keys == after.Keys && forall n :: n in before ==> Gone(before[n], after[n], s, SpotOf(channel, n))
  }

  /** All other sessions keep their requests at every node. */
  ghost predicate Keeps(before: Store, after: Store, gone: set<SessionId>) {
    before.Keys == after.Keys && forall n :: n in before ==> SameOthers(before[n], after[n], gone)
  }

  /** No node that `channel` reaches holds a request of the session. */
  ghost predicate Clear(store: Store, channel: Node, s: SessionId) {
    forall n :: n in Parts(channel) && n in store ==> !Holds(store[n], s)
  }

  /** Some node that `channel` reaches holds a request of the session that was not made through `channel`. */
  ghost predicate HeldBeyond(store: Store, channel: Node, s: SessionId) {
    exists n :: n in Parts(channel) && n in store && HoldsBeyond(store[n], s, SpotOf(channel, n))
  }

  /** A removal leaves nothing of the session exactly if it holds no request that was made elsewhere. */
  lemma ClearIff(before: Store, after: Store, channel: Node, s: SessionId)
    requires Withdraws(before, after, channel, s)
    ensures Clear(after, channel, s) <==> !HeldBeyond(before, channel, s)
  {
    forall n | n in before
      ensures Holds(after[n], s) <==> HoldsBeyond(before[n], s, SpotOf(channel, n))
    {
      HoldsAfterIff(before[n], after[n], s, SpotOf(channel, n));
    }
  }

  lemma KeepsBoth(a: Store, b: Store, c: Store, first: set<SessionId>, second: set<SessionId>)
    requires Keeps(a, b, first) && Keeps(b, c, second)
    ensures Keeps(a, c, first + second)
  {
    forall n | n in a
      ensures SameOthers(a[n], c[n], first + second)
    {
      OthersCompose(a[n], b[n], c[n], first, second);
    }
  }

  /** Removals of other sessions, before or after it, do not disturb a removal. */
  lemma WithdrawsStill(a: Store, b: Store, c: Store, gone: set<SessionId>, channel: Node, s: SessionId)
    requires s !in gone
    requires (Withdraws(a, b, channel, s) && Keeps(b, c, gone)) || (Keeps(a, b, gone) && Withdraws(b, c, channel, s))
    ensures Withdraws(a, c, channel, s)
  {
    forall n | n in a
      ensures Gone(a[n], c[n], s, SpotOf(channel, n))
    {
      if Withdraws(a, b, channel, s) && Keeps(b, c, gone) {
        OthersHold(b[n], c[n], gone, s);
      } else {
        OthersHold(a[n], b[n], gone, s);
      }
      RemovalsCompose(a[n], b[n], c[n], s, SpotOf(channel, n));
    }
  }

  /** All channels belong to acyclic graphs of the given nodes. */
  ghost predicate Wired(channels: set<Node>, nodes: set<Node>) {
    forall k :: k in channels ==> k.Ordered() && k.Layered() && Parts(k) <= nodes
  }

  /** What the nodes store is sound. */
  ghost predicate AllSound(nodes: set<Node>)
    reads nodes
  {
    forall n :: n in nodes ==> n.IntervalsSound() && n.RangesSound()
  }

  /**
    Removes a session at one channel: exactly what it requested through this
    channel is withdrawn, and the requests of all others stay as they are.
   */
  method RemoveAt(channel: Node, s: SessionId, ghost channels: set<Node>, ghost nodes: set<Node>)
    requires channel in channels && Wired(channels, nodes) && AllSound(nodes)
    modifies nodes
    ensures AllSound(nodes)
    ensures Withdraws(old(Snapshot(nodes)), Snapshot(nodes), channel, s)
    ensures Keeps(old(Snapshot(nodes)), Snapshot(nodes), {s})
  {
    channel.RemoveSession(s);
    forall n | n in nodes
      ensures Gone(old(RequestsAt(n)), RequestsAt(n), s, SpotOf(channel, n))
      ensures SameOthers(old(RequestsAt(n)), RequestsAt(n), {s})
    {
      RemovalAtNode(old(RequestsAt(n)), RequestsAt(n), s, SpotOf(channel, n), n.dataRanges);
    }
  }

  /** The store after a range was queued at a node. */
  ghost function Requested(store: Store, root: Node, s: SessionId, range: DataRange): Store {
    if root in store
    then store[root := store[root].(ranges := Step(root.dataRanges, store[root].ranges, Request(s, range)))]
    else store
  }

  /** Requests a range at a channel: its deciding node queues it, and nothing else changes. */
  method RequestAt(channel: Node, s: SessionId, range: DataRange, ghost channels: set<Node>, ghost nodes: set<Node>)
    requires channel in channels && Wired(channels, nodes) && AllSound(nodes)
    modifies nodes
    ensures AllSound(nodes)
    ensures Snapshot(nodes) == Requested(old(Snapshot(nodes)), channel.rangeRoot, s, range)
  {
    ghost var before, root := Snapshot(nodes), channel.rangeRoot;
    channel.RootsAreUpstream();
    channel.RequestDataRange(s, range);
    assert RequestsAt(root).ranges == Step(root.dataRanges, before[root].ranges, Request(s, range));
    forall n | n in nodes
      ensures RequestsAt(n) == Requested(before, root, s, range)[n]
    {
      if n != root {
        assert RequestsAt(n) == before[n];
      }
    }
  }

  /** What a removal makes of the requests at one node. */
  ghost predicate Removal(before: Requests, after: Requests, s: SessionId, spot: Spot, ranges: seq<DataRange>) {
    && after.standby == (if spot.below then RemoveAll(before.standby, s) else before.standby)
    && (after.intervals == before.intervals || (spot.upstream && after.intervals == before.intervals - {s}))
    && (spot.upstream ==> s !in after.intervals)
    && UniqueIds(before.ranges)
    && after.ranges == (if spot.root then Step(ranges, before.ranges, Withdraw(s)) else before.ranges)
    && after.sizes == (if spot.self then before.sizes - {s} else before.sizes)
    && after.delays == (if spot.self then before.delays - {s} else before.delays)
  }

  lemma RemovalAtNode(before: Requests, after: Requests, s: SessionId, spot: Spot, ranges: seq<DataRange>)
    requires Removal(before, after, s, spot, ranges)
    ensures Gone(before, after, s, spot) && SameOthers(before, after, {s})
  {
    GoneAtNode(before, after, s, spot, ranges);
    RemoveAllKeepsOthers(before.standby, s, {s});
    if Queued(before.ranges, s) {
      TakingKeepsOthers(before.ranges, Place(before.ranges, s), IdOf, {s});
    }
  }

  lemma GoneAtNode(before: Requests, after: Requests, s: SessionId, spot: Spot, ranges: seq<DataRange>)
    requires Removal(before, after, s, spot, ranges)
    ensures Gone(before, after, s, spot)
  {
    RemoveAllMembers(before.standby, s);
    InIff(after.standby, s);
    StepPlaces(ranges, before.ranges, Withdraw(s));
    QueuedIff(after.ranges, s);
  }
}
