/** The dataset cache under any number of threads: every step of ensureFlightInfoCache, interleaved in any order. */
module FlightCacheRuns {
  import opened Wrappers
  import opened QoreValues
  import opened FlightCache

  /** Where a thread is. `Failing` holds the lock with the exception of ListFlights on its way out. */
  datatype Place =
    | Outside
    | AtFirstCheck
    | AtLock
    | AtSecondCheck
    | Loading
    | Built(newCache: seq<Entry>)
    | Stored
    | Leaving
    | Failing
    | Returned
    | Thrown

  /** `listed` records the responses of the calls of ListFlights that succeeded. */
  datatype State = State(
    cache: seq<Entry>,
    loaded: bool,
    lock: Option<nat>,
    threads: seq<Place>,
    listed: seq<Flights>)

  /** The model's reading of flight infos: how they are named. */
  datatype Naming = Naming(rt: Runtime, utf8: Utf8Text)

  function Complete(n: Naming, flights: Flights): seq<Entry> {
    CacheOf(n.rt, n.utf8, flights, |flights|)
  }

  predicate Init(s: State) {
    && s.cache == [] && !s.loaded && s.lock == None && s.listed == []
    && forall t :: 0 <= t < |s.threads| ==> s.threads[t] == Outside
  }

  function Move(s: State, t: nat, p: Place): State
    requires t < |s.threads|
  {
    s.(threads := s.threads[t := p])
  }

  /** One step of thread t. ListFlights may give any flights, or throw, each time. */
  ghost predicate Step(n: Naming, s: State, t: nat, r: State)
    requires t < |s.threads|
  {
    match s.threads[t]
    case Outside => r == Move(s, t, AtFirstCheck)
    case AtFirstCheck => r == Move(s, t, if s.loaded then Returned else AtLock)
    case AtLock => s.lock == None && r == Move(s, t, AtSecondCheck).(lock := Some(t))
    case AtSecondCheck => r == Move(s, t, if s.loaded then Leaving else Loading)
    case Loading =>
      || r == Move(s, t, Failing)
      || exists flights: Flights ::
           r == Move(s, t, Built(Complete(n, flights))).(listed := s.listed + [flights])
    case Built(newCache) => r == Move(s, t, Stored).(cache := newCache)
    case Stored => r == Move(s, t, Leaving).(loaded := true)
    case Leaving => r == Move(s, t, Returned).(lock := None)
    case Failing => r == Move(s, t, Thrown).(lock := None)
    case Returned => r == Move(s, t, Outside)
    case Thrown => r == Move(s, t, Outside)
  }

  ghost predicate Next(n: Naming, s: State, r: State) {
    exists t: nat :: t < |s.threads| && Step(n, s, t, r)
  }

  ghost predicate Run(n: Naming, states: seq<State>) {
    && states != [] && Init(states[0])
    && forall i :: 0 <= i < |states| - 1 ==> Next(n, states[i], states[i + 1])
  }

  // The invariant

  predicate InLock(p: Place) {
    p == AtSecondCheck || p == Loading || p.Built? || p == Stored || p == Leaving || p == Failing
  }

  predicate Mutex(s: State) {
    && (forall t :: 0 <= t < |s.threads| && InLock(s.threads[t]) ==> s.lock == Some(t))
    && (s.lock.Some? ==> s.lock.value < |s.threads| && InLock(s.threads[s.lock.value]))
  }

  /** What the cache and the list of responses are, by the place of the thread that holds the lock. */
  predicate CacheOk(n: Naming, s: State) {
    var holder := if s.lock.Some? && s.lock.value < |s.threads| then s.threads[s.lock.value] else Outside;
    if s.loaded then
      |s.listed| == 1 && s.cache == Complete(n, s.listed[0]) && (holder == AtSecondCheck || holder == Leaving || s.lock == None)
    else if holder.Built? then |s.listed| == 1 && s.cache == [] && holder.newCache == Complete(n, s.listed[0])
    else if holder == Stored then |s.listed| == 1 && s.cache == Complete(n, s.listed[0])
    else s.listed == [] && s.cache == [] && holder != Leaving
  }

  predicate Inv(n: Naming, s: State) {
    && Mutex(s) && CacheOk(n, s)
    && (forall t :: 0 <= t < |s.threads| && s.threads[t] == Returned ==> s.loaded)
  }

  lemma StepKeepsMutex(n: Naming, s: State, t: nat, r: State)
    requires t < |s.threads| && Step(n, s, t, r) && Mutex(s)
    ensures Mutex(r)
  {
  }

  lemma StepKeepsInv(n: Naming, s: State, t: nat, r: State)
    requires t < |s.threads| && Step(n, s, t, r) && Inv(n, s)
    ensures Inv(n, r)
    ensures s.loaded ==> r.loaded && r.cache == s.cache && r.listed == s.listed
    ensures |s.threads| == |r.threads|
  {
    hide Complete;
    StepKeepsMutex(n, s, t, r);
    StepKeepsCache(n, s, t, r);
    hide Mutex, CacheOk;
  }

  lemma StepKeepsCache(n: Naming, s: State, t: nat, r: State)
    requires t < |s.threads| && Step(n, s, t, r) && Mutex(s) && Mutex(r) && CacheOk(n, s)
    requires s.threads[t] == Returned ==> s.loaded
    ensures CacheOk(n, r)
    ensures s.loaded ==> r.loaded && r.cache == s.cache && r.listed == s.listed
    ensures r.threads[t] == Returned ==> r.loaded
  {
    hide Complete;
  }

  /** The thread whose step led from one state of a run to the next. */
  lemma StepTaken(n: Naming, states: seq<State>, i: nat, j: nat) returns (t: nat)
    requires Run(n, states) && j == i + 1 < |states|
    ensures t < |states[i].threads| && Step(n, states[i], t, states[j])
  {
    hide Step;
    assert Next(n, states[i], states[i + 1]);
    t := ThreadOf(n, states[i], states[j]);
  }

  lemma ThreadOf(n: Naming, s: State, r: State) returns (t: nat)
    requires Next(n, s, r)
    ensures t < |s.threads| && Step(n, s, t, r)
  {
    hide Step;
    t :| t < |s.threads| && Step(n, s, t, r);
  }

  lemma {:induction false} RunKeepsInv(n: Naming, states: seq<State>, i: nat)
    requires Run(n, states) && i < |states|
    ensures Inv(n, states[i])
  {
    hide Inv, Step;
    if i == 0 {
      InitHolds(n, states[0]);
    } else {
      RunKeepsInv(n, states, i - 1);
      var t := StepTaken(n, states, i - 1, i);
      StepKeepsInv(n, states[i - 1], t, states[i]);
    }
  }

  lemma InitHolds(n: Naming, s: State)
    requires Init(s)
    ensures Inv(n, s)
  {
  }

  /** Inside ensureFlightInfoCache. */
  predicate InCall(p: Place) {
    InLock(p) || p == AtFirstCheck || p == AtLock
  }

  // What every run has

  /** At most one call of ListFlights ever succeeds, and a loaded cache is exactly what its flights make. */
  lemma AtMostOneList(n: Naming, states: seq<State>, i: nat)
    requires Run(n, states) && i < |states|
    ensures |states[i].listed| <= 1
    ensures states[i].loaded ==> |states[i].listed| == 1 && states[i].cache == Complete(n, states[i].listed[0])
  {
    RunKeepsInv(n, states, i);
  }

  /** Once loaded, the cache never changes again. */
  lemma {:induction false} PublishedIsFinal(n: Naming, states: seq<State>, i: nat, j: nat)
    requires Run(n, states) && i <= j < |states| && states[i].loaded
    ensures states[j].loaded && states[j].cache == states[i].cache && states[j].listed == states[i].listed
  {
    hide Inv, Step;
    if i < j {
      PublishedIsFinal(n, states, i, j - 1);
      RunKeepsInv(n, states, j - 1);
      var t := StepTaken(n, states, j - 1, j);
      StepKeepsInv(n, states[j - 1], t, states[j]);
    }
  }

  /** Every normal return finds the complete cache, and any two returns, of any threads at any times, find the same. */
  lemma ReturnsAgree(n: Naming, states: seq<State>, i: nat, t: nat, j: nat, u: nat)
    requires Run(n, states) && i < |states| && j < |states|
    requires t < |states[i].threads| && states[i].threads[t] == Returned
    requires u < |states[j].threads| && states[j].threads[u] == Returned
    ensures |states[i].listed| == 1 && states[i].cache == Complete(n, states[i].listed[0])
    ensures states[j].cache == states[i].cache
  {
    RunKeepsInv(n, states, i);
    RunKeepsInv(n, states, j);
    if i <= j {
      PublishedIsFinal(n, states, i, j);
    } else {
      PublishedIsFinal(n, states, j, i);
    }
  }

  /** A load that throws leaves the lock free and the cache as it was before any load: empty and not loaded. */
  lemma ThrowingLoadLeavesNothing(n: Naming, states: seq<State>, i: nat, t: nat)
    requires Run(n, states) && i + 1 < |states|
    requires t < |states[i].threads| == |states[i + 1].threads|
    requires states[i].threads[t] == Failing && states[i + 1].threads[t] == Thrown
    ensures var s := states[i + 1]; s.lock == None && !s.loaded && s.cache == [] && s.listed == []
  {
    RunKeepsInv(n, states, i);
    var u := StepTaken(n, states, i, i + 1);
    assert u == t;
  }

  /** No run gets stuck: while some thread is inside the call, a thread inside the call can take a step. */
  lemma SomeThreadCanStep(n: Naming, states: seq<State>, i: nat, t: nat)
    requires Run(n, states) && i < |states|
    requires t < |states[i].threads| && InCall(states[i].threads[t])
    ensures exists u: nat, r: State :: u < |states[i].threads| && InCall(states[i].threads[u]) && Step(n, states[i], u, r)
  {
    RunKeepsInv(n, states, i);
    var s := states[i];
    var u := if s.threads[t] == AtLock && s.lock.Some? then s.lock.value else t;
    assert InCall(s.threads[u]) && (s.threads[u] == AtLock ==> s.lock == None);
    StepOf(n, s, u);
  }

  lemma StepOf(n: Naming, s: State, t: nat)
    requires t < |s.threads| && (s.threads[t] == AtLock ==> s.lock == None)
    ensures exists r: State :: Step(n, s, t, r)
  {
    var p := s.threads[t];
    if p == Outside {
      assert Step(n, s, t, Move(s, t, AtFirstCheck));
    } else if p == AtFirstCheck {
      assert Step(n, s, t, Move(s, t, if s.loaded then Returned else AtLock));
    } else if p == AtLock {
      assert Step(n, s, t, Move(s, t, AtSecondCheck).(lock := Some(t)));
    } else if p == AtSecondCheck {
      assert Step(n, s, t, Move(s, t, if s.loaded then Leaving else Loading));
    } else if p == Loading {
      assert Step(n, s, t, Move(s, t, Failing));
    } else if p.Built? {
      assert Step(n, s, t, Move(s, t, Stored).(cache := p.newCache));
    } else if p == Stored {
      assert Step(n, s, t, Move(s, t, Leaving).(loaded := true));
    } else if p == Leaving {
      assert Step(n, s, t, Move(s, t, Returned).(lock := None));
    } else if p == Failing {
      assert Step(n, s, t, Move(s, t, Thrown).(lock := None));
    } else {
      assert Step(n, s, t, Move(s, t, Outside));
    }
  }
}
