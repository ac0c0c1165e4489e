/** Idle tracking: a map edited in place, specified by the history of calls made on it. */
module IdleTimeout {
  import opened Connection

  /** Clock readings are in nanoseconds, the threshold in milliseconds. */
  const NS_PER_MS: int := 1_000_000

  datatype Event =
    | Register(socket: NativeSocket, now: int)
    | Unregister(socket: NativeSocket)
    | Touch(socket: NativeSocket, now: int)
    | Poll(now: int)

  /** A threshold of zero switches eviction off. */
  predicate Expires(idleMs: int, now: int, last: int) {
    idleMs != 0 && now - last >= idleMs * NS_PER_MS
  }

  function Apply(idleMs: int, m: map<NativeSocket, int>, e: Event): map<NativeSocket, int> {
    match e
    case Register(s, now) => m[s := now]
    case Unregister(s) => m - {s}
    case Touch(s, now) => if s in m then m[s := now] else m
    case Poll(now) => map s | s in m && !Expires(idleMs, now, m[s]) :: m[s]
  }

  /** The table after a history of calls. */
  function Tracked(idleMs: int, h: seq<Event>): map<NativeSocket, int> {
    if h == [] then map[] else Apply(idleMs, Tracked(idleMs, h[..|h| - 1]), h[|h| - 1])
  }

  class IdleTimeoutManager {
    const idleMs: int
    var lastActivity: map<NativeSocket, int>
    ghost var history: seq<Event>

    ghost predicate Valid()
      reads this
    {
      lastActivity == Tracked(idleMs, history)
    }

    constructor (idleMs: int)
      ensures Valid() && this.idleMs == idleMs && history == []
    {
      this.idleMs := idleMs;
      lastActivity := map[];
      history := [];
    }

    method RegisterConnection(socket: NativeSocket, now: int)
      requires Valid()
      modifies this
      ensures Valid() && history == old(history) + [Register(socket, now)]
    {
      lastActivity := lastActivity[socket := now];
      history := history + [Register(socket, now)];
    }

    method UnregisterConnection(socket: NativeSocket)
      requires Valid()
      modifies this
      ensures Valid() && history == old(history) + [Unregister(socket)]
    {
      lastActivity := lastActivity - {socket};
      history := history + [Unregister(socket)];
    }

    method TouchActivity(socket: NativeSocket, now: int)
      requires Valid()
      modifies this
      ensures Valid() && history == old(history) + [Touch(socket, now)]
    {
      if socket in lastActivity {
        lastActivity := lastActivity[socket := now];
      }
      history := history + [Touch(socket, now)];
    }

    /** Walks the table in any order, erasing as it goes. */
    method PollExpired(now: int) returns (expired: seq<NativeSocket>)
      requires Valid()
      modifies this
      ensures Valid() && history == old(history) + [Poll(now)]
      ensures forall i, j :: 0 <= i < j < |expired| ==> expired[i] != expired[j]
      ensures forall s :: s in expired <==>
                && s in old(lastActivity) && idleMs != 0
                && now - old(lastActivity)[s] >= idleMs * 1_000_000
      ensures lastActivity == map s | s in old(lastActivity) && s !in expired :: old(lastActivity)[s]
    {
      ghost var before := lastActivity;
      PollExtends(idleMs, history, now);
      history := history + [Poll(now)];
      expired := [];
      if idleMs != 0 {
        var unvisited: set<NativeSocket> := lastActivity.Keys;
        while unvisited != {}
          invariant unvisited <= lastActivity.Keys <= before.Keys
          invariant history == old(history) + [Poll(now)]
          invariant forall i, j :: 0 <= i < j < |expired| ==> expired[i] != expired[j]
          invariant forall s :: s in expired <==> s in before && s !in unvisited && Expires(idleMs, now, before[s])
          invariant forall s :: s in lastActivity ==> lastActivity[s] == before[s]
          invariant forall s :: s in before ==> (s in lastActivity <==> s !in expired)
          decreases unvisited
        {
          var s :| s in unvisited;
          unvisited := unvisited - {s};
          if now - lastActivity[s] >= idleMs * NS_PER_MS {
            expired := expired + [s];
            lastActivity := lastActivity - {s};
          }
        }
      }
      PollKeepsTheRest(idleMs, before, now, lastActivity);
    }
  }

  lemma PollKeepsTheRest(idleMs: int, before: map<NativeSocket, int>, now: int, after: map<NativeSocket, int>)
    requires forall s :: s in after ==> s in before && after[s] == before[s]
    requires forall s :: s in before ==> (s in after <==> !Expires(idleMs, now, before[s]))
    ensures after == Apply(idleMs, before, Poll(now))
  {
  }

  lemma PollExtends(idleMs: int, h: seq<Event>, now: int)
    ensures Tracked(idleMs, h + [Poll(now)]) == Apply(idleMs, Tracked(idleMs, h), Poll(now))
  {
    assert (h + [Poll(now)])[..|h|] == h;
  }

  // ---------------------------------------------------------------- what the table means

  datatype Time = Never | At(now: int)

  /** The most recent register or touch of s anywhere in the history. */
  function LatestActivity(h: seq<Event>, s: NativeSocket): Time {
    if h == [] then Never
    else
      var e := h[|h| - 1];
      if (e.Register? || e.Touch?) && e.socket == s then At(e.now) else LatestActivity(h[..|h| - 1], s)
  }

  /** The poll at position j would report s, going by s's latest activity before it. */
  predicate EvictsAt(idleMs: int, h: seq<Event>, s: NativeSocket, j: nat)
    requires j < |h|
  {
    && h[j].Poll? && LatestActivity(h[..j], s).At?
    && idleMs != 0 && h[j].now - LatestActivity(h[..j], s).now >= idleMs * 1_000_000
  }

  /** The registration of s at position r is still in force: neither unregistered nor evicted since. */
  predicate InForce(idleMs: int, h: seq<Event>, s: NativeSocket, r: nat) {
    && r < |h| && h[r].Register? && h[r].socket == s
    && forall j :: r < j < |h| ==> h[j] != Unregister(s) && !EvictsAt(idleMs, h, s, j)
  }

  lemma InForceExtends(idleMs: int, h: seq<Event>, e: Event, s: NativeSocket, r: nat)
    requires r < |h|
    ensures InForce(idleMs, h + [e], s, r)
       <==> InForce(idleMs, h, s, r) && e != Unregister(s) && !EvictsAt(idleMs, h + [e], s, |h|)
  {
    var h' := h + [e];
    forall j | 0 <= j < |h|
      ensures h'[j] == h[j] && EvictsAt(idleMs, h', s, j) == EvictsAt(idleMs, h, s, j)
    {
      assert h'[..j] == h[..j];
    }
    assert h'[|h|] == e;
  }

  /** The table agrees with the history: a socket is tracked if and only if some registration of it is still in
      force, and its entry is the time of its latest register or touch. */
  lemma {:induction false} TrackedIffInForce(idleMs: int, h: seq<Event>, s: NativeSocket)
    ensures s in Tracked(idleMs, h) <==> exists r :: InForce(idleMs, h, s, r)
    ensures s in Tracked(idleMs, h) ==> LatestActivity(h, s) == At(Tracked(idleMs, h)[s])
    decreases |h|
  {
    if h != [] {
      var last := |h| - 1;
      var before, e := h[..last], h[last];
      assert h == before + [e] && h[..last] == before;
      TrackedIffInForce(idleMs, before, s);
      forall r: nat | r < last
        ensures InForce(idleMs, h, s, r) <==>
                InForce(idleMs, before, s, r) && e != Unregister(s) && !EvictsAt(idleMs, h, s, last)
      {
        InForceExtends(idleMs, before, e, s, r);
      }
      if s in Tracked(idleMs, before) && s in Tracked(idleMs, h) {
        var r :| InForce(idleMs, before, s, r);
        assert InForce(idleMs, h, s, r);
      }
      if e.Register? && e.socket == s {
        assert InForce(idleMs, h, s, last);
      }
      if r :| InForce(idleMs, h, s, r) {
        assert r == last || InForce(idleMs, before, s, r);
      }
    }
  }

  /** What poll_expired reports, in terms of the history alone: the sockets with a registration in force whose
      latest activity is at least the threshold, in milliseconds, before a clock reading in nanoseconds. */
  lemma PollReportsTheIdle(idleMs: int, h: seq<Event>, now: int, s: NativeSocket)
    ensures s in Tracked(idleMs, h) && Expires(idleMs, now, Tracked(idleMs, h)[s])
       <==> && (exists r :: InForce(idleMs, h, s, r)) && LatestActivity(h, s).At?
            && idleMs != 0 && now - LatestActivity(h, s).now >= idleMs * 1_000_000
  {
    TrackedIffInForce(idleMs, h, s);
  }

  /** The poll at position i reports s. */
  predicate Reports(idleMs: int, h: seq<Event>, i: nat, s: NativeSocket) {
    && i < |h| && h[i].Poll?
    && s in Tracked(idleMs, h[..i]) && Expires(idleMs, h[i].now, Tracked(idleMs, h[..i])[s])
  }

  /** A socket only enters the table by being registered. */
  lemma {:induction false} EntersByRegistration(idleMs: int, h: seq<Event>, s: NativeSocket, a: nat, b: nat)
    requires a <= b <= |h|
    requires s !in Tracked(idleMs, h[..a]) && s in Tracked(idleMs, h[..b])
    ensures exists k :: a <= k < b && h[k].Register? && h[k].socket == s
    decreases b
  {
    var before := h[..b - 1];
    assert h[..b][..b - 1] == before;
    if s in Tracked(idleMs, before) {
      EntersByRegistration(idleMs, h, s, a, b - 1);
    } else {
      assert h[b - 1].Register? && h[b - 1].socket == s;
    }
  }

  /** No registration is reported twice: between two reports of a socket it was registered again. */
  lemma NoRegistrationReportedTwice(idleMs: int, h: seq<Event>, i: nat, j: nat, s: NativeSocket)
    requires i < j && Reports(idleMs, h, i, s) && Reports(idleMs, h, j, s)
    ensures exists k :: i < k < j && h[k].Register? && h[k].socket == s
  {
    assert h[..i + 1][..i] == h[..i];
    assert s !in Tracked(idleMs, h[..i + 1]);
    EntersByRegistration(idleMs, h, s, i + 1, j);
  }

  /** Threshold zero: nothing is ever reported. */
  lemma ZeroDisablesEviction(h: seq<Event>, i: nat, s: NativeSocket)
    ensures !Reports(0, h, i, s)
  {
  }
}
