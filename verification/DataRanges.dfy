/** The data range requests of a node: a queue in which the oldest outstanding request rules. */
module DataRanges {
  import opened Sessions

  datatype DataRange = DataRange(min: real, max: real, resolution: real)

  datatype RangeRequest = RangeRequest(id: SessionId, range: DataRange)

  datatype RangeOp = Request(id: SessionId, range: DataRange) | Withdraw(id: SessionId)

  /** The request in force: the head of the queue, or the default range for session -1. */
  function Current(ranges: seq<DataRange>, queue: seq<RangeRequest>): RangeRequest
    requires ranges != []
  {
    if queue == [] then RangeRequest(-1, ranges[0]) else queue[0]
  }

  ghost predicate UniqueIds(queue: seq<RangeRequest>) {
    forall i, j :: 0 <= i < j < |queue| ==> queue[i].id != queue[j].id
  }

  ghost predicate AllAvailable(ranges: seq<DataRange>, queue: seq<RangeRequest>) {
    forall i :: 0 <= i < |queue| ==> queue[i].range in ranges
  }

  /** The place of session `id` in the queue, or the length of the queue. */
  function Place(queue: seq<RangeRequest>, id: SessionId): (k: nat)
    ensures k <= |queue|
    ensures k < |queue| ==> queue[k].id == id
    ensures forall j :: 0 <= j < k ==> queue[j].id != id
  {
    if queue == [] || queue[0].id == id then 0 else 1 + Place(queue[1..], id)
  }

  ghost predicate Queued(queue: seq<RangeRequest>, id: SessionId) {
    Place(queue, id) < |queue|
  }

  /** The queue after one operation, seen from outside. */
  function Step(ranges: seq<DataRange>, queue: seq<RangeRequest>, op: RangeOp): seq<RangeRequest> {
    var k := Place(queue, op.id);
    match op
    case Request(id, range) =>
      if range !in ranges then queue
      else if k < |queue| then queue[k := RangeRequest(id, range)]
      else queue + [RangeRequest(id, range)]
    case Withdraw(id) =>
      if k < |queue| then queue[..k] + queue[k + 1..] else queue
  }

  /** A step changes the presence of no session but its own, and keeps the ids unique. */
  lemma StepPlaces(ranges: seq<DataRange>, queue: seq<RangeRequest>, op: RangeOp)
    requires UniqueIds(queue)
    ensures UniqueIds(Step(ranges, queue, op))
    ensures forall id :: Queued(Step(ranges, queue, op), id) <==>
                           if op.id != id then Queued(queue, id)
                           else op.Request? && (Queued(queue, id) || op.range in ranges)
  {
    var after, k := Step(ranges, queue, op), Place(queue, op.id);
    forall id
      ensures Queued(after, id) <==> if op.id != id then Queued(queue, id)
                                     else op.Request? && (Queued(queue, id) || op.range in ranges)
    {
      var p, a := Place(queue, id), Place(after, id);
      if op.Withdraw? && k < |queue| {
        if p < |queue| && id != op.id {
          assert after[if p < k then p else p - 1].id == id;
        }
        if a < |after| {
          assert queue[if a < k then a else a + 1].id == id;
        }
      } else if op.Request? && op.range in ranges {
        assert id == op.id ==> after[k].id == id;
        assert p < |queue| ==> after[p].id == id;
        assert a < |queue| ==> queue[a].id == after[a].id;
      }
    }
  }

  lemma StepAvailable(ranges: seq<DataRange>, queue: seq<RangeRequest>, op: RangeOp)
    requires AllAvailable(ranges, queue)
    ensures AllAvailable(ranges, Step(ranges, queue, op))
  {
  }

  /** When the range in force is the same before and after a request of a known range. */
  lemma RequestChangesRange(ranges: seq<DataRange>, queue: seq<RangeRequest>, session: SessionId, range: DataRange)
    requires ranges != [] && range in ranges
    ensures var after := Step(ranges, queue, Request(session, range));
      Current(ranges, after).range != Current(ranges, queue).range <==>
      if queue == [] then range != ranges[0] else queue[0].id == session && queue[0].range != range
  {
  }

  /** The test for a removal that makes the node apply a range again. */
  predicate Reapplies(ranges: seq<DataRange>, queue: seq<RangeRequest>, session: SessionId)
    requires ranges != []
  {
    var k, after := Place(queue, session), Step(ranges, queue, Withdraw(session));
    queue != [] && k == 0 && ((after != [] && after[0].range != queue[0].range) || ranges[0] != queue[0].range)
  }

  /**
    The range in force changes by a removal exactly if the head goes and what
    follows differs; the test covers this, and beyond it exactly the removal of
    a head whose successor asks for the same range, other than the default.
   */
  lemma WithdrawChangesRange(ranges: seq<DataRange>, queue: seq<RangeRequest>, session: SessionId)
    requires ranges != [] && UniqueIds(queue) && Queued(queue, session)
    ensures var k, after := Place(queue, session), Step(ranges, queue, Withdraw(session));
      var changes := Current(ranges, after).range != Current(ranges, queue).range;
      (changes <==> k == 0 && queue[0].range != (if |queue| > 1 then queue[1].range else ranges[0])) &&
      (changes ==> Reapplies(ranges, queue, session)) &&
      (Reapplies(ranges, queue, session) && !changes <==>
       k == 0 && |queue| > 1 && queue[0].range == queue[1].range != ranges[0])
  {
  }

  // ---------- First come, first served, over whole runs ----------

  /** When the outstanding request of `id` was first made, or -1. */
  ghost function Since(ranges: seq<DataRange>, ops: seq<RangeOp>, id: SessionId): int
    ensures -1 <= Since(ranges, ops, id) < |ops|
  {
    if ops == [] then -1
    else
      var before := Since(ranges, ops[..|ops| - 1], id);
      match ops[|ops| - 1]
      case Request(s, r) => if s == id && r in ranges && before == -1 then |ops| - 1 else before
      case Withdraw(s) => if s == id then -1 else before
  }

  /** The range that `id` asked for last, for an outstanding request. */
  ghost predicate AskedLast(ranges: seq<DataRange>, ops: seq<RangeOp>, id: SessionId, range: DataRange) {
    ops != [] &&
    match ops[|ops| - 1]
    case Request(s, r) =>
      if s == id && r in ranges then range == r else AskedLast(ranges, ops[..|ops| - 1], id, range)
    case Withdraw(s) => s != id && AskedLast(ranges, ops[..|ops| - 1], id, range)
  }

  /** What a run of the operations leaves, starting from an empty queue. */
  ghost function Run(ranges: seq<DataRange>, ops: seq<RangeOp>): seq<RangeRequest> {
    if ops == [] then [] else Step(ranges, Run(ranges, ops[..|ops| - 1]), ops[|ops| - 1])
  }

  ghost function Ids(queue: seq<RangeRequest>): seq<SessionId> {
    seq(|queue|, i requires 0 <= i < |queue| => queue[i].id)
  }

  /** Exactly the sessions with a time are in `ids`, and in the order of their times. */
  ghost predicate OldestFirst(since: SessionId -> int, ids: seq<SessionId>) {
    && (forall id :: since(id) >= 0 <==> id in ids)
    && (forall i, j :: 0 <= i < j < |ids| ==> since(ids[i]) < since(ids[j]))
  }

  /** Each queued request carries the range that its session asked for last. */
  ghost predicate LatestRanges(ranges: seq<DataRange>, ops: seq<RangeOp>, queue: seq<RangeRequest>) {
    forall i :: 0 <= i < |queue| ==>
                  queue[i].range in ranges && AskedLast(ranges, ops, queue[i].id, queue[i].range)
  }

  /**
    After any run the queue holds exactly the sessions with an outstanding
    request, ordered by when it was first made, each with its latest range.
   */
  lemma {:induction false} FirstComeFirstServed(ranges: seq<DataRange>, ops: seq<RangeOp>)
    ensures UniqueIds(Run(ranges, ops))
    ensures OldestFirst(id => Since(ranges, ops, id), Ids(Run(ranges, ops)))
    ensures LatestRanges(ranges, ops, Run(ranges, ops))
    decreases |ops|
  {
    if ops != [] {
      var before := Run(ranges, ops[..|ops| - 1]);
      FirstComeFirstServed(ranges, ops[..|ops| - 1]);
      StepPlaces(ranges, before, ops[|ops| - 1]);
      StepKeepsOrder(ranges, before, ops[|ops| - 1], |ops| - 1,
                     id => Since(ranges, ops[..|ops| - 1], id), id => Since(ranges, ops, id));
      StepKeepsRanges(ranges, ops, before);
    }
  }

  /** So the range in force is what the oldest outstanding session asked for last; without any it is the default. */
  lemma OldestRules(ranges: seq<DataRange>, ops: seq<RangeOp>)
    requires ranges != []
    ensures var force := Current(ranges, Run(ranges, ops));
      if Outstanding(ranges, ops) then
        && Since(ranges, ops, force.id) >= 0 && AskedLast(ranges, ops, force.id, force.range)
        && forall id :: Since(ranges, ops, id) >= 0 ==> Since(ranges, ops, force.id) <= Since(ranges, ops, id)
      else force == RangeRequest(-1, ranges[0])
  {
    FirstComeFirstServed(ranges, ops);
    var queue, since := Run(ranges, ops), id => Since(ranges, ops, id);
    HeadIsOldest(since, Ids(queue));
    assert forall id :: since(id) == Since(ranges, ops, id);
  }

  lemma HeadIsOldest(since: SessionId -> int, ids: seq<SessionId>)
    requires OldestFirst(since, ids)
    ensures ids == [] ==> forall id :: since(id) < 0
    ensures ids != [] ==> since(ids[0]) >= 0 && forall id :: since(id) >= 0 ==> since(ids[0]) <= since(id)
  {
    assert forall id :: since(id) >= 0 <==> id in ids;
    if ids == [] {
      assert forall id :: id !in ids;
    } else {
      var first := ids[0];
      assert first in ids && since(first) >= 0;
      forall id | since(id) >= 0
        ensures since(ids[0]) <= since(id)
      {
        var i :| 0 <= i < |ids| && ids[i] == id;
      }
    }
  }

  ghost predicate Outstanding(ranges: seq<DataRange>, ops: seq<RangeOp>) {
    exists id :: Since(ranges, ops, id) >= 0
  }

  /** How an operation at time `now` moves the time of a session. */
  ghost predicate SinceStep(ranges: seq<DataRange>, op: RangeOp, now: int, before: int, after: int, id: SessionId) {
    after == if op.id != id then before
             else if op.Withdraw? then -1
             else if op.range in ranges && before == -1 then now
             else before
  }

  lemma StepKeepsOrder(ranges: seq<DataRange>, queue: seq<RangeRequest>, op: RangeOp, now: nat,
                       since: SessionId -> int, sinceAfter: SessionId -> int)
    requires UniqueIds(queue) && OldestFirst(since, Ids(queue))
    requires forall id :: -1 <= since(id) < now && SinceStep(ranges, op, now, since(id), sinceAfter(id), id)
    ensures OldestFirst(sinceAfter, Ids(Step(ranges, queue, op)))
  {
    var ids, after := Ids(queue), Ids(Step(ranges, queue, op));
    IdsOfStep(ranges, queue, op);
    if op.id in ids {
      assert since(op.id) >= 0;
      if op.Withdraw? {
        var k :| 0 <= k < |ids| && ids[k] == op.id && after == ids[..k] + ids[k + 1..];
        RemovalKeepsOrder(ids, k, since, sinceAfter);
      } else {
        assert forall id :: since(id) == sinceAfter(id);
      }
    } else if op.Request? && op.range in ranges {
      assert after == ids + [op.id];
    } else {
      assert forall id :: since(id) == sinceAfter(id);
    }
  }

  lemma IdsOfStep(ranges: seq<DataRange>, queue: seq<RangeRequest>, op: RangeOp)
    ensures var ids, after := Ids(queue), Ids(Step(ranges, queue, op));
      if op.id in ids && op.Withdraw? then
        exists k :: 0 <= k < |ids| && ids[k] == op.id && after == ids[..k] + ids[k + 1..]
      else if op.id !in ids && op.Request? && op.range in ranges then after == ids + [op.id]
      else after == ids
  {
    var ids, after, k := Ids(queue), Ids(Step(ranges, queue, op)), Place(queue, op.id);
    if op.id in ids {
      assert ids[k] == op.id;
      assert op.Withdraw? ==> after == ids[..k] + ids[k + 1..];
    } else {
      assert forall j :: 0 <= j < |ids| ==> ids[j] == queue[j].id != op.id;
    }
  }

  lemma RemovalKeepsOrder(ids: seq<SessionId>, k: nat, since: SessionId -> int, sinceAfter: SessionId -> int)
    requires OldestFirst(since, ids) && k < |ids|
    requires forall id :: sinceAfter(id) == if id == ids[k] then -1 else since(id)
    ensures OldestFirst(sinceAfter, ids[..k] + ids[k + 1..])
  {
    RemovalKeepsMembers(ids, k);
    var after := ids[..k] + ids[k + 1..];
    forall i, j | 0 <= i < j < |after|
      ensures sinceAfter(after[i]) < sinceAfter(after[j])
    {
      RemovalKeepsPair(ids, k, i, j, since);
    }
  }

  lemma RemovalKeepsMembers(ids: seq<SessionId>, k: nat)
    requires k < |ids| && forall i, j :: 0 <= i < j < |ids| ==> ids[i] != ids[j]
    ensures forall id :: id in ids[..k] + ids[k + 1..] <==> id in ids && id != ids[k]
  {
    assert ids == ids[..k] + [ids[k]] + ids[k + 1..];
    assert ids[k] !in ids[..k] && ids[k] !in ids[k + 1..];
  }

  lemma RemovalKeepsPair(ids: seq<SessionId>, k: nat, i: nat, j: nat, since: SessionId -> int)
    requires k < |ids| && i < j < |ids| - 1
    requires forall i, j :: 0 <= i < j < |ids| ==> since(ids[i]) < since(ids[j])
    ensures var after := ids[..k] + ids[k + 1..];
      after[i] != ids[k] && after[j] != ids[k] && since(after[i]) < since(after[j])
  {
    var i', j' := if i < k then i else i + 1, if j < k then j else j + 1;
    assert since(ids[i']) < since(ids[j']);
    assert since(ids[i']) != since(ids[k]) && since(ids[j']) != since(ids[k]);
  }

  lemma StepKeepsRanges(ranges: seq<DataRange>, ops: seq<RangeOp>, before: seq<RangeRequest>)
    requires ops != [] && UniqueIds(before)
    requires LatestRanges(ranges, ops[..|ops| - 1], before)
    ensures LatestRanges(ranges, ops, Step(ranges, before, ops[|ops| - 1]))
  {
    var earlier, op := ops[..|ops| - 1], ops[|ops| - 1];
    var after, k := Step(ranges, before, op), Place(before, op.id);
    forall i | 0 <= i < |after|
      ensures after[i].range in ranges && AskedLast(ranges, ops, after[i].id, after[i].range)
    {
      if op.Withdraw? && k < |before| {
        var i' := if i < k then i else i + 1;
        assert after[i] == before[i'] && before[i'].id != before[k].id;
      } else if i < |before| && i != k {
        assert after[i] == before[i];
      }
    }
  }
}
