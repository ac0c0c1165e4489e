/** The lock-free shutdown coordinator: any number of threads, one load or compare-and-swap per step,
    weak compare-and-swap allowed to fail spuriously. */
module Lifecycle {

  datatype Phase = Running | Draining | Stopped

  function Rank(p: Phase): nat {
    match p
    case Running => 0
    case Draining => 1
    case Stopped => 2
  }

  /** The arguments of try_advance_to_stopped_if_drained. */
  datatype Report = Report(listenerStopped: bool, activeConnections: nat, pendingWrites: bool)

  predicate Drained(r: Report) {
    r.listenerStopped && r.activeConnections == 0 && !r.pendingWrites
  }

  datatype Pc =
    | Idle
    | RequestLoad
    | RequestCas                       // read Running
    | RequestAssert                    // won Running -> Draining, about to assert Draining
    | AdvanceLoad(report: Report)
    | AdvanceAssert                    // read Draining with a drained report, about to assert Draining
    | AdvanceCas
    | AdvanceCheck                     // after the strong compare-and-swap, about to assert Stopped

  /** The two counters record which compare-and-swaps have won; the program does not store them. */
  datatype State = State(phase: Phase, threads: seq<Pc>, requestWins: nat, stopWins: nat)

  datatype Label = Request(thread: nat) | Advance(thread: nat, report: Report) | Step(thread: nat, spurious: bool)

  function Initial(n: nat): State {
    State(Running, seq(n, _ => Idle), 0, 0)
  }

  predicate Enabled(s: State, l: Label) {
    l.thread < |s.threads| && (s.threads[l.thread].Idle? <==> !l.Step?)
  }

  function Goto(s: State, i: nat, pc: Pc): State
    requires i < |s.threads|
  {
    s.(threads := s.threads[i := pc])
  }

  function Fire(s: State, l: Label): State
    requires Enabled(s, l)
  {
    match l
    case Request(i) => Goto(s, i, RequestLoad)
    case Advance(i, r) => Goto(s, i, AdvanceLoad(r))
    case Step(i, spurious) =>
      match s.threads[i]
      case Idle => s
      case RequestLoad => Goto(s, i, if s.phase != Running then Idle else RequestCas)
      case RequestCas =>
        if s.phase == Running && !spurious then
          Goto(s, i, RequestAssert).(phase := Draining, requestWins := s.requestWins + 1)
        else Goto(s, i, RequestLoad)
      case RequestAssert => Goto(s, i, Idle)
      case AdvanceLoad(r) => Goto(s, i, if s.phase == Draining && Drained(r) then AdvanceAssert else Idle)
      case AdvanceAssert => Goto(s, i, AdvanceCas)
      case AdvanceCas =>
        if s.phase == Draining then Goto(s, i, AdvanceCheck).(phase := Stopped, stopWins := s.stopWins + 1)
        else Goto(s, i, AdvanceCheck)
      case AdvanceCheck => Goto(s, i, Idle)
  }

  predicate Run(s: State, ls: seq<Label>)
    decreases |ls|
  {
    ls == [] || (Enabled(s, ls[0]) && Run(Fire(s, ls[0]), ls[1..]))
  }

  function After(s: State, ls: seq<Label>): State
    requires Run(s, ls)
    decreases |ls|
  {
    if ls == [] then s else After(Fire(s, ls[0]), ls[1..])
  }

  ghost predicate Reachable(s: State) {
    exists n: nat, ls :: Run(Initial(n), ls) && After(Initial(n), ls) == s
  }

  // ---------------------------------------------------------------- the invariant

  predicate ThreadKnows(phase: Phase, pc: Pc) {
    match pc
    case RequestAssert => phase != Running
    case AdvanceAssert => phase != Running
    case AdvanceCas => phase != Running
    case AdvanceCheck => phase == Stopped
    case _ => true
  }

  /** The phase records exactly which transitions have been won, each at most once. */
  predicate Invariant(s: State) {
    && s.requestWins == (if s.phase == Running then 0 else 1)
    && s.stopWins == (if s.phase == Stopped then 1 else 0)
    && forall i :: 0 <= i < |s.threads| ==> ThreadKnows(s.phase, s.threads[i])
  }

  lemma StepKeepsInvariant(s: State, l: Label)
    requires Invariant(s) && Enabled(s, l)
    ensures Invariant(Fire(s, l))
    ensures Rank(s.phase) <= Rank(Fire(s, l).phase) <= Rank(s.phase) + 1
  {
    assert ThreadKnows(s.phase, s.threads[l.thread]);
  }

  lemma {:induction false} RunKeepsInvariant(s: State, ls: seq<Label>)
    requires Invariant(s) && Run(s, ls)
    ensures Invariant(After(s, ls)) && Rank(s.phase) <= Rank(After(s, ls).phase)
    decreases |ls|
  {
    if ls != [] {
      StepKeepsInvariant(s, ls[0]);
      RunKeepsInvariant(Fire(s, ls[0]), ls[1..]);
    }
  }

  /** Over every run of any number of threads: phases only move forward, Running to Draining and Draining to
      Stopped each have exactly one winner once they have happened, and nobody else ever wins. */
  lemma PhasesOnlyAdvance(s: State, ls: seq<Label>)
    requires Reachable(s) && Run(s, ls)
    ensures var t := After(s, ls);
            && Rank(s.phase) <= Rank(t.phase)
            && t.requestWins <= 1 && (t.requestWins == 1 <==> t.phase != Running)
            && t.stopWins <= 1 && (t.stopWins == 1 <==> t.phase == Stopped)
  {
    var n: nat, before :| Run(Initial(n), before) && After(Initial(n), before) == s;
    RunKeepsInvariant(Initial(n), before);
    RunKeepsInvariant(s, ls);
  }

  /** request_shutdown returns only when the phase is no longer Running, and the assertion after the strong
      compare-and-swap holds under every interleaving. */
  lemma ReturnsAndFinalAssert(s: State, l: Label)
    requires Reachable(s) && Enabled(s, l) && l.Step?
    ensures var pc := s.threads[l.thread];
            (pc.RequestLoad? || pc.RequestCas? || pc.RequestAssert?) && Fire(s, l).threads[l.thread].Idle? ==>
              Fire(s, l).phase != Running
    ensures s.threads[l.thread].AdvanceCheck? ==> s.phase == Stopped
  {
    var n: nat, before :| Run(Initial(n), before) && After(Initial(n), before) == s;
    RunKeepsInvariant(Initial(n), before);
    assert ThreadKnows(s.phase, s.threads[l.thread]);
  }

  /** The other two assertions say Draining. Whoever evaluates one of them finds Draining or Stopped, and Stopped
      exactly if somebody has already won the swap to it. */
  lemma DrainingOrStopped(s: State, i: nat)
    requires Reachable(s) && i < |s.threads| && (s.threads[i].RequestAssert? || s.threads[i].AdvanceAssert?)
    ensures s.phase == Draining <==> s.stopWins == 0
    ensures s.phase == Draining || s.phase == Stopped
  {
    var n: nat, before :| Run(Initial(n), before) && After(Initial(n), before) == s;
    RunKeepsInvariant(Initial(n), before);
    assert ThreadKnows(s.phase, s.threads[i]);
  }

  lemma {:induction false} RunConcat(s: State, a: seq<Label>, b: seq<Label>)
    requires Run(s, a) && Run(After(s, a), b)
    ensures Run(s, a + b) && After(s, a + b) == After(After(s, a), b)
    decreases |a|
  {
    if a == [] {
      assert a + b == b;
    } else {
      RunConcat(Fire(s, a[0]), a[1..], b);
      assert (a + b)[1..] == a[1..] + b;
    }
  }

  lemma One(s: State, l: Label)
    requires Enabled(s, l)
    ensures Run(s, [l]) && After(s, [l]) == Fire(s, l)
  {
    assert [l][1..] == [];
  }

  lemma Two(s: State, l: Label, m: Label)
    requires Enabled(s, l) && Enabled(Fire(s, l), m)
    ensures Run(s, [l, m]) && After(s, [l, m]) == Fire(Fire(s, l), m)
  {
    hide Fire, Enabled;
    One(Fire(s, l), m);
    assert [l, m][1..] == [m];
  }

  // ---------------------------------------------------------------- when the assertions of Draining hold

  /** The only threads that call try_advance with a drained report are those in `who`. */
  predicate DrainedOnlyFrom(ls: seq<Label>, who: set<nat>) {
    forall k :: 0 <= k < |ls| && ls[k].Advance? && Drained(ls[k].report) ==> ls[k].thread in who
  }

  /** On the way to the swap to Stopped. */
  predicate Advancing(pc: Pc) {
    (pc.AdvanceLoad? && Drained(pc.report)) || pc.AdvanceAssert? || pc.AdvanceCas?
  }

  predicate AdvancersAmong(s: State, who: set<nat>) {
    forall i :: 0 <= i < |s.threads| && Advancing(s.threads[i]) ==> i in who
  }

  /** Of the n threads none but i is in `who`. */
  predicate NobodyBut(who: set<nat>, n: nat, i: nat) {
    forall j :: j in who && j < n ==> j == i
  }

  predicate AtMostOne(who: set<nat>, n: nat) {
    forall j, k :: j in who && k in who && j < n && k < n ==> j == k
  }

  lemma {:induction false} RequestAssertRun(s: State, ls: seq<Label>, who: set<nat>, i: nat)
    requires Invariant(s) && AdvancersAmong(s, who) && Run(s, ls) && DrainedOnlyFrom(ls, who)
    requires i < |s.threads| && NobodyBut(who, |s.threads|, i)
    requires s.threads[i].RequestAssert? ==> s.phase == Draining
    ensures |After(s, ls).threads| == |s.threads|
    ensures After(s, ls).threads[i].RequestAssert? ==> After(s, ls).phase == Draining
    decreases |ls|
  {
    if ls != [] {
      var l := ls[0];
      StepKeepsInvariant(s, l);
      assert s.threads[l.thread].AdvanceCas? ==> l.thread == i;
      RequestAssertRun(Fire(s, l), ls[1..], who, i);
    }
  }

  predicate AdvancersSeeDraining(s: State) {
    forall i :: 0 <= i < |s.threads| && (s.threads[i].AdvanceAssert? || s.threads[i].AdvanceCas?) ==>
                  s.phase == Draining
  }

  lemma {:induction false} AdvanceAssertRun(s: State, ls: seq<Label>, who: set<nat>)
    requires Invariant(s) && AdvancersAmong(s, who) && Run(s, ls) && DrainedOnlyFrom(ls, who)
    requires AtMostOne(who, |s.threads|) && AdvancersSeeDraining(s)
    ensures |After(s, ls).threads| == |s.threads| && AdvancersSeeDraining(After(s, ls))
    decreases |ls|
  {
    if ls != [] {
      var l := ls[0];
      StepKeepsInvariant(s, l);
      AdvanceAssertRun(Fire(s, l), ls[1..], who);
    }
  }

  const DRAINED := Report(true, 0, false)

  /** Thread i takes the phase from Running to the point of its assertion. */
  lemma RequestWins(n: nat, i: nat) returns (ls: seq<Label>)
    requires i < n
    ensures Run(Initial(n), ls) && forall k :: 0 <= k < |ls| ==> !ls[k].Advance?
    ensures After(Initial(n), ls) == State(Draining, Initial(n).threads[i := RequestAssert], 1, 0)
  {
    var s0 := Initial(n);
    var s2 := Goto(s0, i, RequestCas);
    var s3 := State(Draining, s0.threads[i := RequestAssert], 1, 0);
    Two(s0, Request(i), Step(i, false));
    assert Fire(Fire(s0, Request(i)), Step(i, false)) == s2;
    One(s2, Step(i, false));
    assert Fire(s2, Step(i, false)) == s3;
    hide Fire, Enabled, Run, After, Initial;
    ls := [Request(i), Step(i, false)] + [Step(i, false)];
    RunConcat(s0, [Request(i), Step(i, false)], [Step(i, false)]);
  }

  /** In a draining coordinator, thread j calls try_advance with a drained report and is about to assert. */
  lemma AdvanceBegins(s: State, j: nat)
    requires j < |s.threads| && s.threads[j].Idle? && s.phase == Draining
    ensures var ls := [Advance(j, DRAINED), Step(j, false)];
            Run(s, ls) && After(s, ls) == Goto(s, j, AdvanceAssert)
  {
    Two(s, Advance(j, DRAINED), Step(j, false));
    assert Fire(Fire(s, Advance(j, DRAINED)), Step(j, false)) == Goto(s, j, AdvanceAssert);
  }

  lemma AdvanceWins(s: State, j: nat)
    requires j < |s.threads| && s.threads[j].AdvanceAssert? && s.phase == Draining
    ensures var ls := [Step(j, false), Step(j, false)];
            Run(s, ls) && After(s, ls) == Goto(s, j, AdvanceCheck).(phase := Stopped, stopWins := s.stopWins + 1)
  {
    Two(s, Step(j, false), Step(j, false));
    assert Fire(Fire(s, Step(j, false)), Step(j, false))
        == Goto(s, j, AdvanceCheck).(phase := Stopped, stopWins := s.stopWins + 1);
  }

  /** The assertion in request_shutdown fails in this run: thread i wins Running -> Draining; before it can
      assert, thread j advances to Stopped. */
  lemma RequestAssertCanFail(n: nat, i: nat, j: nat) returns (ls: seq<Label>)
    requires i < n && j < n && i != j
    ensures Run(Initial(n), ls) && DrainedOnlyFrom(ls, {j})
    ensures var s := After(Initial(n), ls); |s.threads| == n && s.threads[i].RequestAssert? && s.phase == Stopped
  {
    var won := RequestWins(n, i);
    var s3 := After(Initial(n), won);
    var begin, end := [Advance(j, DRAINED), Step(j, false)], [Step(j, false), Step(j, false)];
    AdvanceBegins(s3, j);
    AdvanceWins(After(s3, begin), j);
    RunConcat(Initial(n), won, begin);
    RunConcat(Initial(n), won + begin, end);
    hide Fire, Enabled, Run, After;
    ls := won + begin + end;
  }

  /** The assertion in try_advance fails in this run: threads j and k both read Draining with a drained report;
      j wins before k asserts. */
  lemma AdvanceAssertCanFail(n: nat, j: nat, k: nat) returns (ls: seq<Label>)
    requires j < n && k < n && j != k
    ensures Run(Initial(n), ls) && DrainedOnlyFrom(ls, {j, k})
    ensures var s := After(Initial(n), ls); |s.threads| == n && s.threads[k].AdvanceAssert? && s.phase == Stopped
  {
    var won := RequestWins(n, j);
    var s3 := After(Initial(n), won);
    var s4 := Goto(s3, j, Idle);
    One(s3, Step(j, false));
    assert After(s3, [Step(j, false)]) == s4;
    var beginJ, beginK := [Advance(j, DRAINED), Step(j, false)], [Advance(k, DRAINED), Step(k, false)];
    var end := [Step(j, false), Step(j, false)];
    AdvanceBegins(s4, j);
    var s6 := Goto(s4, j, AdvanceAssert);
    AdvanceBegins(s6, k);
    var s8 := Goto(s6, k, AdvanceAssert);
    AdvanceWins(s8, j);
    hide Fire, Enabled, Run, After, Initial;
    RunConcat(Initial(n), won, [Step(j, false)]);
    RunConcat(Initial(n), won + [Step(j, false)], beginJ);
    RunConcat(Initial(n), won + [Step(j, false)] + beginJ, beginK);
    RunConcat(Initial(n), won + [Step(j, false)] + beginJ + beginK, end);
    ls := won + [Step(j, false)] + beginJ + beginK + end;
  }

  lemma DrainedFromMore(ls: seq<Label>, some: set<nat>, who: set<nat>)
    requires DrainedOnlyFrom(ls, some) && forall j :: j in some ==> j in who
    ensures DrainedOnlyFrom(ls, who)
  {
  }

  /** The exact condition for the assertion in request_shutdown, in terms of who may report drained: thread i
      finds Draining there in every run if and only if no other thread submits drained reports. */
  lemma RequestAssertHoldsIff(n: nat, i: nat, who: set<nat>)
    requires i < n
    ensures (forall ls :: Run(Initial(n), ls) && DrainedOnlyFrom(ls, who) ==>
               var s := After(Initial(n), ls);
               |s.threads| == n && (s.threads[i].RequestAssert? ==> s.phase == Draining))
       <==> NobodyBut(who, n, i)
  {
    hide Run, After, DrainedOnlyFrom;
    if NobodyBut(who, n, i) {
      forall ls | Run(Initial(n), ls) && DrainedOnlyFrom(ls, who)
        ensures var s := After(Initial(n), ls);
                |s.threads| == n && (s.threads[i].RequestAssert? ==> s.phase == Draining)
      {
        RequestAssertRun(Initial(n), ls, who, i);
      }
    } else {
      var j :| j in who && j < n && j != i;
      var ls := RequestAssertCanFail(n, i, j);
      DrainedFromMore(ls, {j}, who);
    }
  }

  predicate AdvanceAssertsHold(s: State) {
    forall k :: 0 <= k < |s.threads| && s.threads[k].AdvanceAssert? ==> s.phase == Draining
  }

  /** The exact condition for the assertion in try_advance: every thread finds Draining there in every run if and
      only if at most one thread submits drained reports. */
  lemma AdvanceAssertHoldsIff(n: nat, who: set<nat>)
    ensures (forall ls :: Run(Initial(n), ls) && DrainedOnlyFrom(ls, who) ==> AdvanceAssertsHold(After(Initial(n), ls)))
       <==> AtMostOne(who, n)
  {
    hide Run, After, DrainedOnlyFrom;
    if AtMostOne(who, n) {
      forall ls | Run(Initial(n), ls) && DrainedOnlyFrom(ls, who)
        ensures AdvanceAssertsHold(After(Initial(n), ls))
      {
        AdvanceAssertRun(Initial(n), ls, who);
      }
    } else {
      var j, k :| j in who && k in who && j < n && k < n && j != k;
      var ls := AdvanceAssertCanFail(n, j, k);
      DrainedFromMore(ls, {j, k}, who);
      assert !AdvanceAssertsHold(After(Initial(n), ls));
    }
  }

  /** With a single advancing thread, as documented, the assertion inside try_advance always holds. */
  lemma AdvanceAssertHolds(n: nat, ls: seq<Label>, io: nat, i: nat)
    requires Run(Initial(n), ls)
    requires forall k :: 0 <= k < |ls| && ls[k].Advance? ==> ls[k].thread == io
    requires var s := After(Initial(n), ls); i < |s.threads| && s.threads[i].AdvanceAssert?
    ensures After(Initial(n), ls).phase == Draining
  {
    hide Run, After;
    assert DrainedOnlyFrom(ls, {io});
    AdvanceAssertRun(Initial(n), ls, {io});
  }

  // ---------------------------------------------------------------- the object

  class ShutdownCoordinator {
    var phase: Phase

    constructor ()
      ensures phase == Running
    {
      phase := Running;
    }

    /** `spuriousFailures` is how often the weak compare-and-swap fails for no reason. */
    method RequestShutdown(spuriousFailures: nat)
      modifies this
      ensures phase == if old(phase) == Running then Draining else old(phase)
    {
      var failures := spuriousFailures;
      while true
        invariant phase == old(phase)
        decreases failures
      {
        var expected := phase;
        if expected != Running {
          return;
        }
        if failures == 0 {
          phase := Draining;
          assert phase == Draining;
          return;
        }
        failures := failures - 1;
      }
    }

    predicate ShouldAcceptNewConnections()
      reads this
    {
      phase == Running
    }

    predicate ShouldPollNetwork()
      reads this
    {
      phase != Stopped
    }

    method TryAdvanceToStoppedIfDrained(listenerStopped: bool, activeConnections: nat, pendingWrites: bool)
      modifies this
      ensures phase ==
              if old(phase) == Draining && listenerStopped && activeConnections == 0 && !pendingWrites then Stopped
              else old(phase)
    {
      if phase != Draining {
        return;
      }
      if !listenerStopped || activeConnections > 0 || pendingWrites {
        return;
      }
      if phase == Draining {
        phase := Stopped;
      }
      assert phase == Stopped;
    }
  }

  /** The steps of a lone call of try_advance by thread i. */
  function AdvanceCall(i: nat, p: Phase, r: Report): seq<Label> {
    if p == Draining && Drained(r) then
      [Advance(i, r), Step(i, false)] + [Step(i, false), Step(i, false)] + [Step(i, false)]
    else [Advance(i, r), Step(i, false)]
  }

  /** The object's call and the step system agree: a call that nobody disturbs takes the phase from Draining to Stopped
      exactly if the listener has stopped, nobody is connected and no write is pending, and leaves every thread where it
      was. */
  lemma UndisturbedAdvance(s: State, i: nat, r: Report)
    requires i < |s.threads| && s.threads[i].Idle?
    ensures var ls := AdvanceCall(i, s.phase, r);
            && Run(s, ls) && After(s, ls).threads == s.threads
            && After(s, ls).phase ==
               if s.phase == Draining && r.listenerStopped && r.activeConnections == 0 && !r.pendingWrites then Stopped
               else s.phase
  {
    var begin := [Advance(i, r), Step(i, false)];
    Two(s, begin[0], begin[1]);
    if s.phase == Draining && Drained(r) {
      var s2 := After(s, begin);
      assert s2 == Goto(s, i, AdvanceAssert);
      var middle, end := [Step(i, false), Step(i, false)], [Step(i, false)];
      AdvanceWins(s2, i);
      var s4 := After(s2, middle);
      assert s4.phase == Stopped && s4.threads == s.threads[i := AdvanceCheck];
      One(s4, end[0]);
      assert After(s4, end) == Goto(s4, i, Idle);
      RunConcat(s, begin, middle);
      RunConcat(s, begin + middle, end);
      assert After(s, begin + middle + end).threads == s.threads;
    } else {
      assert After(s, begin).threads == s.threads;
    }
  }

  /** The same for request_shutdown without spurious failures. */
  function RequestCall(i: nat, p: Phase): seq<Label> {
    if p == Running then [Request(i), Step(i, false)] + [Step(i, false), Step(i, false)]
    else [Request(i), Step(i, false)]
  }

  lemma UndisturbedRequest(s: State, i: nat)
    requires i < |s.threads| && s.threads[i].Idle?
    ensures var ls := RequestCall(i, s.phase);
            && Run(s, ls) && After(s, ls).threads == s.threads
            && After(s, ls).phase == if s.phase == Running then Draining else s.phase
  {
    var begin, end := [Request(i), Step(i, false)], [Step(i, false), Step(i, false)];
    Two(s, begin[0], begin[1]);
    if s.phase == Running {
      var s2 := Goto(s, i, RequestCas);
      assert After(s, begin) == s2;
      Two(s2, end[0], end[1]);
      assert After(s2, end).phase == Draining && After(s2, end).threads == s.threads;
      RunConcat(s, begin, end);
    } else {
      assert After(s, begin).threads == s.threads;
    }
  }
}
