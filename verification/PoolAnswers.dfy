/** Which task an answer belongs to: the laws about results in terms of correlation ids and the dispatcher alone. */
module PoolAnswers {
  import opened WorkerPool
  import opened PoolLedger
  import opened PoolInvariant
  import opened PoolProgress
  import opened Tally

  /** r carries t's correlation id and what the dispatcher says to t's payload. */
  predicate Answers(c: Config, r: Result, t: Task) {
    r.correlationId == t.correlationId && r.outcome == c.dispatch(t.payload)
  }

  /** The answers to a list of tasks, one by one. */
  predicate AnswersAll(c: Config, rs: seq<Result>, ts: seq<Task>) {
    |rs| == |ts| && forall i :: 0 <= i < |rs| ==> Answers(c, rs[i], ts[i])
  }

  lemma HandlingAnswers(c: Config, ts: seq<Task>)
    ensures AnswersAll(c, HandleAll(c, ts), ts)
  {
  }

  /** r was popped, is queued, was evicted or discarded, or is in some worker's hands. */
  predicate SomewhereAfterDispatch(s: State, r: Result) {
    || r in s.log.popped || r in s.results || r in s.log.evictedResults || r in s.log.discarded
    || exists i :: 0 <= i < |s.workers| && r in Finished(s.workers[i])
  }

  lemma {:induction false} InTheBag(ws: seq<WorkerPc>, i: nat, r: Result)
    requires i < |ws| && r in Finished(ws[i])
    ensures r in BagOf(ws, Finished)
    decreases i
  {
    if i > 0 {
      InTheBag(ws[1..], i - 1, r);
    }
  }

  /** No answer is made up: every result there is answers an accepted task, with its correlation id. */
  lemma EveryAnswerHasItsTask(c: Config, s: State, r: Result)
    requires ValidConfig(c) && Reachable(c, s) && SomewhereAfterDispatch(s, r)
    ensures exists t :: t in s.log.accepted && Answers(c, r, t)
  {
    hide Finished, Reachable, HandleAll;
    Conservation(c, s);
    SomewhereIsWhereabouts(c, s, r);
    hide Whereabouts;
    assert r in multiset(HandleAll(c, s.log.accepted));
    AnswersHaveTheirTasks(c, s.log.accepted, r);
  }

  lemma SomewhereIsWhereabouts(c: Config, s: State, r: Result)
    requires SomewhereAfterDispatch(s, r)
    ensures r in Whereabouts(c, s)
  {
    hide HandleAll, UndispatchedTasks, Finished, BagOf;
    if i: nat :| i < |s.workers| && r in Finished(s.workers[i]) {
      InTheBag(s.workers, i, r);
    }
  }

  lemma AnswersHaveTheirTasks(c: Config, ts: seq<Task>, r: Result)
    requires r in HandleAll(c, ts)
    ensures exists t :: t in ts && Answers(c, r, t)
  {
    HandlingAnswers(c, ts);
    var answers := HandleAll(c, ts);
    var k :| 0 <= k < |answers| && answers[k] == r;
    assert ts[k] in ts;
  }

  // ---------------------------------------------------------------- correlation ids

  function TaskIds(ts: seq<Task>): (ids: seq<nat>)
    ensures |ids| == |ts| && forall i :: 0 <= i < |ts| ==> ids[i] == ts[i].correlationId
  {
    seq(|ts|, i requires 0 <= i < |ts| => ts[i].correlationId)
  }

  function ResultIds(rs: seq<Result>): (ids: seq<nat>)
    ensures |ids| == |rs| && forall i :: 0 <= i < |rs| ==> ids[i] == rs[i].correlationId
  {
    seq(|rs|, i requires 0 <= i < |rs| => rs[i].correlationId)
  }

  lemma AnswersCarryTheIds(c: Config, ts: seq<Task>)
    ensures ResultIds(HandleAll(c, ts)) == TaskIds(ts)
  {
    HandlingAnswers(c, ts);
  }

  lemma IdsWithout(rs: seq<Result>, i: nat)
    requires i < |rs|
    ensures multiset(ResultIds(rs)) == multiset(ResultIds(rs[..i] + rs[i + 1..])) + multiset{rs[i].correlationId}
  {
    WithoutOne(ResultIds(rs), i);
    assert ResultIds(rs)[..i] + ResultIds(rs)[i + 1..] == ResultIds(rs[..i] + rs[i + 1..]);
  }

  /** Fewer results carry fewer ids. */
  lemma {:induction false} IdsOfPart(part: seq<Result>, whole: seq<Result>)
    requires multiset(part) <= multiset(whole)
    ensures multiset(ResultIds(part)) <= multiset(ResultIds(whole))
    decreases |part|
  {
    if part != [] {
      var r := part[0];
      assert part == [r] + part[1..];
      assert r in multiset(part) && r in multiset(whole);
      var i: nat :| i < |whole| && whole[i] == r;
      var others := whole[..i] + whole[i + 1..];
      WithoutOne(whole, i);
      assert multiset(part) == multiset(part[1..]) + multiset{r};
      assert multiset(part[1..]) == multiset(part) - multiset{r};
      assert multiset(others) == multiset(whole) - multiset{r};
      IdsOfPart(part[1..], others);
      IdsWithout(whole, i);
      assert part[..0] + part[1..] == part[1..];
      IdsWithout(part, 0);
    }
  }

  /** Each popped result stands for one accepted task: no id is popped more often than it was accepted. */
  lemma PoppedIdsWereAccepted(c: Config, s: State)
    requires ValidConfig(c) && Reachable(c, s)
    ensures multiset(ResultIds(s.log.popped)) <= multiset(TaskIds(s.log.accepted))
  {
    Conservation(c, s);
    IdsOfPart(s.log.popped, HandleAll(c, s.log.accepted));
    AnswersCarryTheIds(c, s.log.accepted);
  }

  /** Lossless delivery, id by id: where a pool that has not been stopped comes to rest with room among its results, the
      ids popped or ready are exactly those accepted. */
  lemma EveryIdIsDelivered(c: Config, s: State)
    requires ValidConfig(c) && Lossless(c) && Reachable(c, s) && Quiescent(s) && !s.stop
    requires |s.results| < c.resultCapacity
    ensures multiset(ResultIds(s.log.popped + s.results)) == multiset(TaskIds(s.log.accepted))
  {
    EverythingIsDelivered(c, s);
    var answers, out := HandleAll(c, s.log.accepted), s.log.popped + s.results;
    assert multiset(out) == multiset(answers);
    IdsOfPart(out, answers);
    IdsOfPart(answers, out);
    AnswersCarryTheIds(c, s.log.accepted);
  }

  /** With one worker and the lossless policies the i-th result ever published answers the i-th task accepted. */
  lemma LoneWorkerAnswersOneByOne(c: Config, s: State, i: nat)
    requires ValidConfig(c) && Reachable(c, s) && c.workers == 1 && Lossless(c)
    requires i < |s.log.popped + s.results|
    ensures i < |s.log.accepted| && Answers(c, (s.log.popped + s.results)[i], s.log.accepted[i])
  {
    LoneWorkerAnswersInOrder(c, s);
    HandlingAnswers(c, s.log.accepted);
  }
}
