/** If evaluating a wait predicate and blocking were one step, every run that sets the stop flag could be brought to
    its end, and there everybody would be gone. */
module PoolAtomicParking {
  import opened WorkerPool
  import opened PoolSafety
  import opened PoolInvariant
  import opened PoolProgress
  import opened PoolShutdown

  predicate Parks(pc: WorkerPc) {
    pc.ParkTask? || pc.ParkResult?
  }

  /** At most one worker sits between its predicate check and its park. */
  predicate ParkingAlone(s: State) {
    forall v, w :: 0 <= v < |s.workers| && 0 <= w < |s.workers| && Parks(s.workers[v]) && Parks(s.workers[w]) ==> v == w
  }

  /** Only the worker that moves can come to sit there, and one that sits there and moves leaves. */
  lemma MoverParks(c: Config, s: State, l: Label)
    requires Enabled(s, l)
    ensures |Fire(c, s, l).workers| == |s.workers|
    ensures forall w :: 0 <= w < |s.workers| && !(l.Work? && l.worker == w) && Parks(Fire(c, s, l).workers[w]) ==>
              Parks(s.workers[w])
    ensures l.Work? && Parks(s.workers[l.worker]) ==> !Parks(Fire(c, s, l).workers[l.worker])
  {
    if l.Work? && Parks(s.workers[l.worker]) {
      hide ClientStep;
    } else {
      hide ClientStep, WorkerStep;
    }
  }

  lemma StepKeepsParkingAlone(c: Config, s: State, l: Label)
    requires ParkingAlone(s) && Enabled(s, l) && ParksAtOnce(s, l)
    ensures ParkingAlone(Fire(c, s, l))
  {
    MoverParks(c, s, l);
    hide Fire, Enabled;
  }

  lemma {:induction false} AtomicRunKeepsParkingAlone(c: Config, s: State, ls: seq<Label>)
    requires ParkingAlone(s) && Run(c, s, ls) && AtomicParking(c, s, ls)
    ensures ParkingAlone(After(c, s, ls))
    decreases |ls|
  {
    if ls != [] {
      StepKeepsParkingAlone(c, s, ls[0]);
      hide Fire, ParkingAlone, ParksAtOnce;
      AtomicRunKeepsParkingAlone(c, Fire(c, s, ls[0]), ls[1..]);
    }
  }

  /** A step that respects atomic parking, unless nothing is left to do. */
  lemma NextAtomicStep(s: State) returns (l: Label)
    requires ParkingAlone(s) && !Quiescent(s)
    ensures Internal(l) && Enabled(s, l) && ParksAtOnce(s, l)
  {
    if w: nat :| w < |s.workers| && Parks(s.workers[w]) {
      l := Work(w, 0);
    } else {
      l :| Internal(l) && Enabled(s, l);
    }
  }

  lemma AtomicCons(c: Config, s: State, l: Label, rest: seq<Label>)
    requires Enabled(s, l) && ParksAtOnce(s, l)
    requires Run(c, Fire(c, s, l), rest) && AtomicParking(c, Fire(c, s, l), rest)
    ensures Run(c, s, [l] + rest) && AtomicParking(c, s, [l] + rest)
    ensures After(c, s, [l] + rest) == After(c, Fire(c, s, l), rest)
  {
    RunCons(c, s, l, rest);
    hide Fire, Enabled, ParksAtOnce;
    assert ([l] + rest)[1..] == rest;
  }

  /** From every safe state the threads' own steps lead to rest with atomic parking. */
  lemma {:induction false} RunToRestAtomically(c: Config, s: State) returns (ls: seq<Label>)
    requires Safe(c, s) && ParkingAlone(s)
    ensures Run(c, s, ls) && AllInternal(ls) && AtomicParking(c, s, ls) && Quiescent(After(c, s, ls))
    decreases Fuel(s)
  {
    if Quiescent(s) {
      ls := [];
    } else {
      var l := NextAtomicStep(s);
      hide Locks, Guards, Fire, Fuel, Falls, Quiescent, Enabled, Run, After, ParkingAlone, ParksAtOnce, AtomicParking;
      var t := Fire(c, s, l);
      StepKeepsSafe(c, s, l);
      StepKeepsParkingAlone(c, s, l);
      InternalStepFalls(c, s, l);
      SizesStay(c, s, l);
      FallingBurnsFuel(s, t);
      var rest := RunToRestAtomically(c, t);
      ls := [l] + rest;
      AtomicCons(c, s, l, rest);
    }
  }

  lemma {:induction false} AtomicConcat(c: Config, s: State, a: seq<Label>, b: seq<Label>)
    requires Run(c, s, a) && Run(c, After(c, s, a), b)
    requires AtomicParking(c, s, a) && AtomicParking(c, After(c, s, a), b)
    ensures Run(c, s, a + b) && AtomicParking(c, s, a + b) && After(c, s, a + b) == After(c, After(c, s, a), b)
    decreases |a|
  {
    hide Fire, Enabled, ParksAtOnce;
    RunConcat(c, s, a, b);
    if a == [] {
      assert a + b == b;
    } else {
      AtomicConcat(c, Fire(c, s, a[0]), a[1..], b);
      assert (a + b)[1..] == a[1..] + b;
    }
  }

  lemma {:induction false} StopStays(c: Config, s: State, ls: seq<Label>)
    requires Run(c, s, ls) && s.stop
    ensures After(c, s, ls).stop
    decreases |ls|
  {
    if ls != [] {
      StopStep(c, s, ls[0]);
      hide Fire, Enabled;
      StopStays(c, Fire(c, s, ls[0]), ls[1..]);
    }
  }

  lemma StopStep(c: Config, s: State, l: Label)
    requires Enabled(s, l) && s.stop
    ensures Fire(c, s, l).stop
  {
    hide ClientStep, WorkerStep;
  }

  /** With atomic parking every run that has set the flag extends, by steps that keep atomic parking, to one that
      ends with every worker gone and every call returned. */
  lemma AtomicParkingGetsThere(c: Config, clients: nat, ls: seq<Label>) returns (more: seq<Label>)
    requires ValidConfig(c)
    requires Run(c, Initial(c, clients), ls) && AtomicParking(c, Initial(c, clients), ls)
    requires After(c, Initial(c, clients), ls).stop
    ensures AllInternal(more) && Run(c, Initial(c, clients), ls + more)
    ensures AtomicParking(c, Initial(c, clients), ls + more)
    ensures var t := After(c, Initial(c, clients), ls + more);
            && (forall i :: 0 <= i < |t.workers| ==> t.workers[i].Exited?)
            && (forall j :: 0 <= j < |t.clients| ==> t.clients[j].Idle?)
  {
    var s0 := Initial(c, clients);
    var s := After(c, s0, ls);
    InitialInvariant(c, clients);
    hide Run, After, AtomicParking, Locks, Guards, Fire, Enabled, Quiescent;
    AtomicRunKeepsParkingAlone(c, s0, ls);
    RunKeepsInvariant(c, s0, ls);
    more := RunToRestAtomically(c, s);
    AtomicConcat(c, s0, ls, more);
    StopStays(c, s, more);
    AtomicParkingAlwaysExits(c, clients, ls + more);
  }
}
