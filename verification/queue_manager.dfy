/** Queue-position bookkeeping of the student client (code_student/queue_manager.py).
    Every outstanding request is an (id, time) entry in arrival order; `globalPos` counts
    them, and `localPos`/`active` track this client's own request and its rank. */
module QueueManager {
  import opened Wrappers
  import opened HelpRequests

  /** A `(req_id, time)` tuple; the source's datetime is an integer clock reading. */
  datatype Entry = Entry(id: Id, time: int)

  datatype Queue = Queue(reqList: seq<Entry>, globalPos: int, localPos: Option<int>, active: Option<Entry>)

  /** The state the constructor sets up. */
  const Init: Queue := Queue([], 0, None, None)

  // ---------------------------------------------------------------------------
  // List helpers (the module-level functions of the source)
  // ---------------------------------------------------------------------------

  /** Index of the first entry carrying `id`, or |l| when there is none. */
  function IndexOf(l: seq<Entry>, id: Id): (k: nat)
    ensures k <= |l|
    ensures k < |l| ==> l[k].id == id
    ensures forall j :: 0 <= j < k ==> l[j].id != id
  {
    if |l| == 0 then 0
    else if l[0].id == id then 0
    else 1 + IndexOf(l[1..], id)
  }

  function IsIn(l: seq<Entry>, id: Id): (b: bool)
    ensures b <==> exists i :: 0 <= i < |l| && l[i].id == id
    ensures b <==> IndexOf(l, id) < |l|
  {
    if |l| == 0 then false
    else if l[0].id == id then true
    else
      var b := IsIn(l[1..], id);
      assert b ==> l[1 + IndexOf(l[1..], id)].id == id;
      b
  }

  /** Removing index k + 1 from a non-empty list is keeping its head and removing index k
      from its tail. */
  lemma ConsRemoveAt(l: seq<Entry>, k: nat)
    requires |l| > 0
    ensures k + 1 < |l| ==> l[..k + 1] + l[k + 2..] == [l[0]] + (l[1..][..k] + l[1..][k + 1..])
  {
    if k + 1 < |l| {
      assert l[..k + 1] == [l[0]] + l[1..][..k];
      assert l[k + 2..] == l[1..][k + 1..];
    }
  }

  /** Removes the first entry carrying `id`, keeping the others in order. */
  function RemoveFrom(l: seq<Entry>, id: Id): (r: seq<Entry>)
    ensures IndexOf(l, id) == |l| ==> r == l
    ensures IndexOf(l, id) < |l| ==> r == l[..IndexOf(l, id)] + l[IndexOf(l, id) + 1..]
  {
    if |l| == 0 then []
    else if l[0].id == id then l[1..]
    else
      ConsRemoveAt(l, IndexOf(l[1..], id));
      [l[0]] + RemoveFrom(l[1..], id)
  }

  /** The time of the first entry carrying `id`. */
  function GetRequestTime(l: seq<Entry>, id: Id): (t: Option<int>)
    ensures t.Some? <==> IsIn(l, id)
    ensures t.Some? ==> t.value == l[IndexOf(l, id)].time
  {
    if |l| == 0 then None
    else if l[0].id == id then Some(l[0].time)
    else GetRequestTime(l[1..], id)
  }

  // ---------------------------------------------------------------------------
  // The three QueueManager operations
  // ---------------------------------------------------------------------------

  /** `localPos` is set exactly when an active request is. */
  predicate Paired(q: Queue)
  {
    q.localPos.Some? <==> q.active.Some?
  }

  /** A request leaves the queue. An unknown id changes nothing; otherwise the entry goes,
      the global counter drops, and the local position either disappears (it was this
      client's request) or drops by one exactly when the leaver was strictly earlier. The
      source decrements `local_q_pos` unguarded, so it needs `Paired`. */
  function OnCancel(q: Queue, id: Id): (q': Queue)
    requires Paired(q)
    ensures Paired(q')
    ensures !IsIn(q.reqList, id) ==> q' == q
    ensures IsIn(q.reqList, id) ==>
      && q'.reqList == RemoveFrom(q.reqList, id)
      && |q'.reqList| == |q.reqList| - 1
      && q'.globalPos == q.globalPos - 1
    ensures IsIn(q.reqList, id) && q.active.Some? && q.active.value.id == id ==>
      q'.active == None && q'.localPos == None
    ensures IsIn(q.reqList, id) && !(q.active.Some? && q.active.value.id == id) ==>
      && q'.active == q.active
      && (if q.active.Some? && q.reqList[IndexOf(q.reqList, id)].time < q.active.value.time
          then q'.localPos == Some(q.localPos.value - 1)
          else q'.localPos == q.localPos)
  {
    var isMine := q.active.Some? && q.active.value.id == id;
    if !IsIn(q.reqList, id) then q
    else
      var reqTime := GetRequestTime(q.reqList, id);
      var rest := RemoveFrom(q.reqList, id);
      if isMine then
        Queue(rest, q.globalPos - 1, None, None)
      else if q.active.Some? && reqTime.Some? && reqTime.value < q.active.value.time then
        Queue(rest, q.globalPos - 1, Some(q.localPos.value - 1), q.active)
      else
        Queue(rest, q.globalPos - 1, q.localPos, q.active)
  }

  /** Resolving is cancelling under another name. */
  function OnResolve(q: Queue, id: Id): (q': Queue)
    requires Paired(q)
    ensures q' == OnCancel(q, id)
  {
    OnCancel(q, id)
  }

  /** A request joins the queue. A known id changes nothing (duplicate delivery); a new one
      goes to the back, and when it is this client's own it becomes the active request
      with the new global count as its position. */
  function OnAdd(q: Queue, id: Id, time: int, isMine: bool): (q': Queue)
    ensures IsIn(q.reqList, id) ==> q' == q
    ensures !IsIn(q.reqList, id) ==>
      && q'.reqList == q.reqList + [Entry(id, time)]
      && q'.globalPos == q.globalPos + 1
    ensures !IsIn(q.reqList, id) && isMine ==>
      q'.active == Some(Entry(id, time)) && q'.localPos == Some(q'.globalPos)
    ensures !IsIn(q.reqList, id) && !isMine ==>
      q'.active == q.active && q'.localPos == q.localPos
    ensures Paired(q) ==> Paired(q')
  {
    if IsIn(q.reqList, id) then q
    else
      var globalPos := q.globalPos + 1;
      if isMine then Queue(q.reqList + [Entry(id, time)], globalPos, Some(globalPos), Some(Entry(id, time)))
      else Queue(q.reqList + [Entry(id, time)], globalPos, q.localPos, q.active)
  }

  // ---------------------------------------------------------------------------
  // Invariants kept by every operation
  // ---------------------------------------------------------------------------

  ghost predicate DistinctIds(l: seq<Entry>)
  {
    forall i, j :: 0 <= i < j < |l| ==> l[i].id != l[j].id
  }

  /** The global counter is the queue length, ids are unique, the local position is set
      exactly when an active request is, and the active request is queued. */
  ghost predicate Valid(q: Queue)
  {
    && q.globalPos == |q.reqList|
    && DistinctIds(q.reqList)
    && Paired(q)
    && (q.active.Some? ==> q.active.value in q.reqList)
  }

  lemma InitValid()
    ensures Valid(Init)
  {
  }

  /** Entries other than the removed one survive a removal. */
  lemma RemoveFromKeeps(l: seq<Entry>, id: Id, x: Entry)
    requires x in l && x.id != id
    ensures x in RemoveFrom(l, id)
  {
    var k := IndexOf(l, id);
    if k < |l| {
      var p :| 0 <= p < |l| && l[p] == x;
      var r := RemoveFrom(l, id);
      if p < k {
        assert r[p] == x;
      } else {
        assert r[p - 1] == x;
      }
    }
  }

  /** Where each survivor of removing index `k` sat before. */
  lemma RemoveAtIndex(l: seq<Entry>, k: nat, i: nat)
    requires k < |l| && i < |l| - 1
    ensures (l[..k] + l[k + 1..])[i] == if i < k then l[i] else l[i + 1]
  {
  }

  lemma RemoveFromDistinct(l: seq<Entry>, id: Id)
    requires DistinctIds(l)
    ensures DistinctIds(RemoveFrom(l, id))
  {
    var k := IndexOf(l, id);
    if k < |l| {
      var r := RemoveFrom(l, id);
      assert |r| == |l| - 1;
      forall i, j | 0 <= i < j < |r|
        ensures r[i].id != r[j].id
      {
        RemoveAtIndex(l, k, i);
        RemoveAtIndex(l, k, j);
        var i' := if i < k then i else i + 1;
        var j' := if j < k then j else j + 1;
        assert i' < j' < |l|;
        assert r[i] == l[i'] && r[j] == l[j'];
      }
    }
  }

  lemma OnAddValid(q: Queue, id: Id, time: int, isMine: bool)
    requires Valid(q)
    ensures Valid(OnAdd(q, id, time, isMine))
  {
    if !IsIn(q.reqList, id) {
      var l := q.reqList + [Entry(id, time)];
      forall i, j | 0 <= i < j < |l|
        ensures l[i].id != l[j].id
      {
        if j == |q.reqList| {
          assert l[i] == q.reqList[i];
        }
      }
    }
  }

  lemma OnCancelValid(q: Queue, id: Id)
    requires Valid(q)
    ensures Valid(OnCancel(q, id))
  {
    if IsIn(q.reqList, id) {
      RemoveFromDistinct(q.reqList, id);
      if q.active.Some? && q.active.value.id != id {
        RemoveFromKeeps(q.reqList, id, q.active.value);
      }
    }
  }

  /** The events the client's message handler feeds into the manager. */
  datatype Event = Add(id: Id, time: int, isMine: bool) | Cancel(id: Id) | Resolve(id: Id)

  function Apply(q: Queue, e: Event): (q': Queue)
    requires Valid(q)
    ensures Valid(q')
  {
    match e
    case Add(id, time, isMine) =>
      OnAddValid(q, id, time, isMine);
      OnAdd(q, id, time, isMine)
    case Cancel(id) =>
      OnCancelValid(q, id);
      OnCancel(q, id)
    case Resolve(id) =>
      OnCancelValid(q, id);
      OnResolve(q, id)
  }

  /** Feeds a sequence of events through the manager; every state reached from a valid
      one (in particular from `Init`) is valid. */
  function Run(q: Queue, es: seq<Event>): (q': Queue)
    requires Valid(q)
    ensures Valid(q')
    decreases |es|
  {
    if |es| == 0 then q else Run(Apply(q, es[0]), es[1..])
  }

  // ---------------------------------------------------------------------------
  // What the local position means
  // ---------------------------------------------------------------------------

  /** Number of queued entries that arrived no later than time `t`. */
  function CountUpTo(l: seq<Entry>, t: int): (n: nat)
    ensures n <= |l|
  {
    if |l| == 0 then 0
    else (if l[0].time <= t then 1 else 0) + CountUpTo(l[1..], t)
  }

  ghost predicate Increasing(l: seq<Entry>)
  {
    forall i, j :: 0 <= i < j < |l| ==> l[i].time < l[j].time
  }

  /** With arrival times increasing along the queue, the local position is the rank of the
      active request: the number of queued entries that arrived no later than it. */
  ghost predicate Ranked(q: Queue)
  {
    && Valid(q)
    && Increasing(q.reqList)
    && (q.active.Some? ==> q.localPos == Some(CountUpTo(q.reqList, q.active.value.time)))
  }

  /** A new id arrives with a clock reading later than every queued entry (re-delivery of
      a known id may carry any time, since it changes nothing). */
  ghost predicate OnTime(q: Queue, e: Event)
  {
    e.Add? && !IsIn(q.reqList, e.id) ==> forall i :: 0 <= i < |q.reqList| ==> q.reqList[i].time < e.time
  }

  lemma {:induction false} CountAppend(a: seq<Entry>, b: seq<Entry>, t: int)
    ensures CountUpTo(a + b, t) == CountUpTo(a, t) + CountUpTo(b, t)
    decreases |a|
  {
    if |a| == 0 {
      assert a + b == b;
    } else {
      assert (a + b)[0] == a[0];
      assert (a + b)[1..] == a[1..] + b;
      CountAppend(a[1..], b, t);
    }
  }

  lemma {:induction false} CountAllEarlier(l: seq<Entry>, t: int)
    requires forall i :: 0 <= i < |l| ==> l[i].time < t
    ensures CountUpTo(l, t) == |l|
    decreases |l|
  {
    if |l| > 0 {
      CountAllEarlier(l[1..], t);
    }
  }

  lemma CountRemoveAt(l: seq<Entry>, k: nat, t: int)
    requires k < |l|
    ensures CountUpTo(l[..k] + l[k + 1..], t) + (if l[k].time <= t then 1 else 0) == CountUpTo(l, t)
  {
    assert l == l[..k] + ([l[k]] + l[k + 1..]);
    CountAppend(l[..k], [l[k]] + l[k + 1..], t);
    CountAppend([l[k]], l[k + 1..], t);
    CountAppend(l[..k], l[k + 1..], t);
  }

  lemma OnAddRanked(q: Queue, id: Id, time: int, isMine: bool)
    requires Ranked(q) && OnTime(q, Add(id, time, isMine))
    ensures Ranked(OnAdd(q, id, time, isMine))
  {
    OnAddValid(q, id, time, isMine);
    if !IsIn(q.reqList, id) {
      var l := q.reqList + [Entry(id, time)];
      CountAppend(q.reqList, [Entry(id, time)], time);
      CountAllEarlier(q.reqList, time);
      if !isMine && q.active.Some? {
        var a := q.active.value;
        CountAppend(q.reqList, [Entry(id, time)], a.time);
      }
    }
  }

  lemma RemoveFromIncreasing(l: seq<Entry>, id: Id)
    requires Increasing(l)
    ensures Increasing(RemoveFrom(l, id))
  {
    var k := IndexOf(l, id);
    if k < |l| {
      var r := RemoveFrom(l, id);
      forall i, j | 0 <= i < j < |r|
        ensures r[i].time < r[j].time
      {
        RemoveAtIndex(l, k, i);
        RemoveAtIndex(l, k, j);
      }
    }
  }

  /** Removing a queued id lowers the count up to `t` by one exactly when its entry arrived
      no later than `t`. */
  lemma CountRemoveFrom(l: seq<Entry>, id: Id, t: int)
    requires IsIn(l, id)
    ensures CountUpTo(RemoveFrom(l, id), t) + (if l[IndexOf(l, id)].time <= t then 1 else 0) == CountUpTo(l, t)
  {
    CountRemoveAt(l, IndexOf(l, id), t);
  }

  /** Removing an entry other than the active one shifts the active request's rank by one
      exactly when the removed entry arrived earlier. */
  lemma RemoveOtherRank(l: seq<Entry>, id: Id, a: Entry)
    requires Increasing(l) && a in l && a.id != id && IsIn(l, id)
    ensures CountUpTo(RemoveFrom(l, id), a.time) + (if l[IndexOf(l, id)].time < a.time then 1 else 0)
            == CountUpTo(l, a.time)
  {
    var k := IndexOf(l, id);
    assert k < |l| && l[k].id == id;
    var p :| 0 <= p < |l| && l[p] == a;
    assert p != k;
    assert l[k].time != a.time by {
      if p < k {
        assert l[p].time < l[k].time;
      } else {
        assert l[k].time < l[p].time;
      }
    }
    CountRemoveFrom(l, id, a.time);
  }

  lemma OnCancelRanked(q: Queue, id: Id)
    requires Ranked(q)
    ensures Ranked(OnCancel(q, id))
  {
    OnCancelValid(q, id);
    RemoveFromIncreasing(q.reqList, id);
    if IsIn(q.reqList, id) && q.active.Some? && q.active.value.id != id {
      RemoveOtherRank(q.reqList, id, q.active.value);
    }
  }

  lemma ApplyRanked(q: Queue, e: Event)
    requires Ranked(q) && OnTime(q, e)
    ensures Ranked(Apply(q, e))
  {
    match e
    case Add(id, time, isMine) => OnAddRanked(q, id, time, isMine);
    case Cancel(id) => OnCancelRanked(q, id);
    case Resolve(id) => OnCancelRanked(q, id);
  }

  /** Every add in the run is on time for the state it meets. */
  ghost predicate OnTimeRun(q: Queue, es: seq<Event>)
    requires Valid(q)
    decreases |es|
  {
    |es| == 0 || (OnTime(q, es[0]) && OnTimeRun(Apply(q, es[0]), es[1..]))
  }

  /** Under a monotone clock the local position stays the rank of the active request
      through any run of adds, cancels and resolves. */
  lemma {:induction false} RunRanked(q: Queue, es: seq<Event>)
    requires Ranked(q) && OnTimeRun(q, es)
    ensures Ranked(Run(q, es))
    decreases |es|
  {
    if |es| > 0 {
      ApplyRanked(q, es[0]);
      RunRanked(Apply(q, es[0]), es[1..]);
    }
  }

  /** Without a monotone clock the rank is lost: an add that arrives after this client's
      request but carries an earlier time is counted behind it, so the local position stays
      1 although two queued entries are no later than this client's request. */
  lemma LateAddBreaksRank()
    ensures var q := OnAdd(OnAdd(Init, "C", 5, true), "X", 3, false);
      && q.localPos == Some(1)
      && CountUpTo(q.reqList, 5) == 2
      && !Ranked(q)
  {
    var q1 := OnAdd(Init, "C", 5, true);
    assert q1 == Queue([Entry("C", 5)], 1, Some(1), Some(Entry("C", 5)));
    assert !IsIn(q1.reqList, "X");
    var q := OnAdd(q1, "X", 3, false);
    assert q.reqList == [Entry("C", 5), Entry("X", 3)];
    assert q.reqList[1..] == [Entry("X", 3)];
    assert q.reqList[1..][1..] == [];
  }

  /** Consequently the local position lies between 1 and the global counter. */
  lemma RankedBounds(q: Queue)
    requires Ranked(q) && q.active.Some?
    ensures 1 <= q.localPos.value <= q.globalPos
  {
    var a := q.active.value;
    var p :| 0 <= p < |q.reqList| && q.reqList[p] == a;
    CountRemoveAt(q.reqList, p, a.time);
  }

  // ---------------------------------------------------------------------------
  // The scenario of the module's test block
  // ---------------------------------------------------------------------------

  /** A new id joins an already built queue: one add of the scenario at a time. */
  lemma ScenarioAddC()
    ensures OnAdd(Queue([Entry("A", 1), Entry("B", 2)], 2, None, None), "C", 3, true)
            == Queue([Entry("A", 1), Entry("B", 2), Entry("C", 3)], 3, Some(3), Some(Entry("C", 3)))
  {
    assert !IsIn([Entry("A", 1), Entry("B", 2)], "C");
  }

  lemma ScenarioAddD()
    ensures OnAdd(Queue([Entry("A", 1), Entry("B", 2), Entry("C", 3)], 3, Some(3), Some(Entry("C", 3))), "D", 4, false)
            == Queue([Entry("A", 1), Entry("B", 2), Entry("C", 3), Entry("D", 4)], 4, Some(3), Some(Entry("C", 3)))
  {
    assert !IsIn([Entry("A", 1), Entry("B", 2), Entry("C", 3)], "D");
  }

  /** The four adds: A, B, C (this client's) and D join at times 1..4. */
  lemma ScenarioAdds()
    ensures OnAdd(OnAdd(OnAdd(OnAdd(Init, "A", 1, false), "B", 2, false), "C", 3, true), "D", 4, false)
            == Queue([Entry("A", 1), Entry("B", 2), Entry("C", 3), Entry("D", 4)], 4, Some(3), Some(Entry("C", 3)))
  {
    var q1 := OnAdd(Init, "A", 1, false);
    assert q1 == Queue([Entry("A", 1)], 1, None, None);
    var q2 := OnAdd(q1, "B", 2, false);
    assert q2 == Queue([Entry("A", 1), Entry("B", 2)], 2, None, None);
    ScenarioAddC();
    ScenarioAddD();
  }

  /** Resolving A, which was ahead of C. */
  lemma ScenarioResolveA()
    ensures OnResolve(Queue([Entry("A", 1), Entry("B", 2), Entry("C", 3), Entry("D", 4)], 4, Some(3), Some(Entry("C", 3))), "A")
            == Queue([Entry("B", 2), Entry("C", 3), Entry("D", 4)], 3, Some(2), Some(Entry("C", 3)))
  {
  }

  /** Resolving C, this client's own request. */
  lemma ScenarioResolveC()
    ensures OnResolve(Queue([Entry("B", 2), Entry("C", 3), Entry("D", 4)], 3, Some(2), Some(Entry("C", 3))), "C")
            == Queue([Entry("B", 2), Entry("D", 4)], 2, None, None)
  {
    var l := [Entry("B", 2), Entry("C", 3), Entry("D", 4)];
    assert IndexOf(l, "C") == 1;
    assert l[..1] + l[2..] == [Entry("B", 2), Entry("D", 4)];
  }

  /** Resolving B with no request of this client's queued, then adding C again at time 5. */
  lemma ScenarioResolveBAddC()
    ensures OnResolve(Queue([Entry("B", 2), Entry("D", 4)], 2, None, None), "B") == Queue([Entry("D", 4)], 1, None, None)
    ensures OnAdd(Queue([Entry("D", 4)], 1, None, None), "C", 5, true)
            == Queue([Entry("D", 4), Entry("C", 5)], 2, Some(2), Some(Entry("C", 5)))
  {
  }

  /** The whole test block: A, B, C (this client's) and D join at times 1..4; A, C and B
      are resolved; C is added again at time 5. */
  lemma TestBlockScenario()
    ensures var q4 := OnAdd(OnAdd(OnAdd(OnAdd(Init, "A", 1, false), "B", 2, false), "C", 3, true), "D", 4, false);
      && q4.localPos == Some(3) && q4.globalPos == 4
      && var q5 := OnResolve(q4, "A");
      && q5.localPos == Some(2) && q5.globalPos == 3
      && var q6 := OnResolve(q5, "C");
      && q6.localPos == None && q6.active == None && q6.globalPos == 2
      && var q7 := OnResolve(q6, "B");
      && q7.localPos == None && q7.globalPos == 1
      && var q8 := OnAdd(q7, "C", 5, true);
      && q8.localPos == Some(2) && q8.globalPos == 2
  {
    ScenarioAdds();
    ScenarioResolveA();
    ScenarioResolveC();
    ScenarioResolveBAddC();
  }
}
