/**
 * The registry of opened databases as a system of concurrent calls. Each step is one stretch of
 * code a call runs while it holds the mutex; opening a file happens between two steps.
 */
module Registries {
  import opened Numbers

  type Cycle = nat

  /** An opened database, by the address it stays at. */
  type Database = nat

  type CallId = nat

  datatype Answer = Served(db: Database) | UnknownCycle | NothingLoaded | OpenFailed

  /** What the mutex guards. */
  datatype Shared = Shared(cache: map<Cycle, Database>, opening: set<Cycle>)

  /** Where a call is: about to lock, asleep on the condition variable, woken, opening the file, or done. */
  datatype Call =
    | Called(key: Cycle)
    | Sleeping(key: Cycle)
    | Woken(key: Cycle)
    | Opening(key: Cycle)
    | Returned(answer: Answer, asked: Option<Cycle>)

  // ---- The inventory --------------------------------------------------------------------------

  ghost predicate Ascending(entries: seq<Cycle>) {
    forall i, j :: 0 <= i < j < |entries| ==> entries[i] < entries[j]
  }

  function Latest(entries: seq<Cycle>): Option<Cycle> {
    if entries == [] then None else Some(entries[|entries| - 1])
  }

  /** Looks a cycle up by halving the sorted entries. */
  method Find(entries: seq<Cycle>, cycle: Cycle) returns (found: Option<Cycle>)
    requires Ascending(entries)
    ensures found == if cycle in entries then Some(cycle) else None
  {
    var lo, hi := 0, |entries|;
    while lo < hi
      invariant 0 <= lo <= hi <= |entries|
      invariant forall i :: 0 <= i < lo ==> entries[i] < cycle
      invariant forall i :: hi <= i < |entries| ==> cycle <= entries[i]
    {
      var mid := lo + (hi - lo) / 2;
      if entries[mid] < cycle {
        lo := mid + 1;
      } else {
        hi := mid;
      }
    }
    found := if lo < |entries| && entries[lo] == cycle then Some(cycle) else None;
    assert found.None? ==> forall i :: 0 <= i < |entries| ==> entries[i] != cycle;
  }

  /** The newest cycle is no older than any other. */
  lemma LatestIsNewest(entries: seq<Cycle>)
    requires Ascending(entries)
    ensures Latest(entries).Some? <==> entries != []
    ensures Latest(entries).Some? ==>
              Latest(entries).value in entries && forall c :: c in entries ==> c <= Latest(entries).value
  {
  }

  /** How a call begins: with the key it will serve, or with an error. */
  function Begin(entries: seq<Cycle>, asked: Option<Cycle>): Call {
    match asked
    case Some(c) => if c in entries then Called(c) else Returned(UnknownCycle, asked)
    case None => if entries == [] then Returned(NothingLoaded, asked) else Called(entries[|entries| - 1])
  }

  // ---- The critical sections ------------------------------------------------------------------

  function Claim(s: Shared, key: Cycle): Shared { s.(opening := s.opening + {key}) }

  /** The first time under the lock: serve from the cache, wait for the opener, or become it. */
  function Enter(s: Shared, key: Cycle): (Shared, Call) {
    if key in s.cache then (s, Returned(Served(s.cache[key]), Some(key)))
    else if key in s.opening then (s, Sleeping(key))
    else (Claim(s, key), Opening(key))
  }

  /** Back under the lock after waking: wait on while the cycle is being opened. */
  function Reenter(s: Shared, key: Cycle): (Shared, Call) {
    if key in s.opening then (s, Sleeping(key))
    else if key in s.cache then (s, Returned(Served(s.cache[key]), Some(key)))
    else (Claim(s, key), Opening(key))
  }

  /** The opener reports: a success is cached unless an entry exists, and the cycle is released either way. */
  function Publish(s: Shared, key: Cycle, outcome: Option<Database>): (Shared, Call) {
    var cache := if outcome.Some? && key !in s.cache then s.cache[key := outcome.value] else s.cache;
    var answer := if outcome.None? || key !in cache then OpenFailed else Served(cache[key]);
    (Shared(cache, s.opening - {key}), Returned(answer, Some(key)))
  }

  class NavDatabaseRegistry {
    const entries: seq<Cycle>
    var cache: map<Cycle, Database>
    var opening: set<Cycle>

    ghost function State(): Shared
      reads this
    {
      Shared(cache, opening)
    }

    constructor (inventory: seq<Cycle>)
      ensures entries == inventory && State() == Shared(map[], {})
    {
      entries := inventory;
      cache, opening := map[], {};
    }

    method Resolve(asked: Option<Cycle>) returns (next: Call)
      requires Ascending(entries)
      ensures asked.Some? && asked.value in entries ==> next == Called(asked.value)
      ensures asked.Some? && asked.value !in entries ==> next == Returned(UnknownCycle, asked)
      ensures asked.None? && entries == [] ==> next == Returned(NothingLoaded, asked)
      ensures asked.None? && entries != [] ==> next.Called? && next.key in entries && forall c :: c in entries ==> c <= next.key
      ensures next == Begin(entries, asked)
    {
      var entry := Latest(entries);
      if asked.Some? {
        entry := Find(entries, asked.value);
      }
      if entry.None? {
        return if asked.Some? then Returned(UnknownCycle, asked) else Returned(NothingLoaded, asked);
      }
      next := Called(entry.value);
    }

    /** Served exactly what is cached, asleep exactly behind another opener, and otherwise the opener itself. */
    method EnterLocked(key: Cycle) returns (next: Call)
      modifies this
      ensures key in old(cache) <==> next.Returned?
      ensures key in old(cache) ==> next == Returned(Served(old(cache)[key]), Some(key))
      ensures key !in old(cache) && key in old(opening) <==> next == Sleeping(key)
      ensures key !in old(cache) && key !in old(opening) <==> next == Opening(key)
      ensures cache == old(cache) && opening == old(opening) + if next.Opening? then {key} else {}
      ensures (State(), next) == Enter(old(State()), key)
    {
      if key in cache {
        return Returned(Served(cache[key]), Some(key));
      }
      if key in opening {
        return Sleeping(key);
      }
      opening := opening + {key};
      next := Opening(key);
    }

    /** Never leaves while the cycle is being opened; then served what is cached, or the opener itself. */
    method ReenterLocked(key: Cycle) returns (next: Call)
      modifies this
      ensures key in old(opening) <==> next == Sleeping(key)
      ensures key !in old(opening) && key in old(cache) <==> next.Returned?
      ensures next.Returned? ==> key in old(cache) && next == Returned(Served(old(cache)[key]), Some(key))
      ensures key !in old(opening) && key !in old(cache) <==> next == Opening(key)
      ensures cache == old(cache) && opening == old(opening) + if next.Opening? then {key} else {}
      ensures (State(), next) == Reenter(old(State()), key)
    {
      if key in opening {
        return Sleeping(key);
      }
      if key in cache {
        return Returned(Served(cache[key]), Some(key));
      }
      opening := opening + {key};
      next := Opening(key);
    }

    /** No entry that was there changes; a success leaves the cycle cached, a failure leaves the cache alone. */
    method PublishLocked(key: Cycle, outcome: Option<Database>) returns (next: Call)
      modifies this
      ensures forall k :: k in old(cache) ==> k in cache && cache[k] == old(cache)[k]
      ensures forall k :: k in cache <==> k in old(cache) || (k == key && outcome.Some?)
      ensures key !in old(cache) && outcome.Some? ==> cache[key] == outcome.value
      ensures opening == old(opening) - {key}
      ensures outcome.None? ==> next == Returned(OpenFailed, Some(key))
      ensures outcome.Some? ==> key in cache && next == Returned(Served(cache[key]), Some(key))
      ensures (State(), next) == Publish(old(State()), key, outcome)
    {
      if outcome.Some? && key !in cache {
        cache := cache[key := outcome.value];
      }
      opening := opening - {key};
      if outcome.None? || key !in cache {
        return Returned(OpenFailed, Some(key));
      }
      next := Returned(Served(cache[key]), Some(key));
    }
  }

  // ---- The system -----------------------------------------------------------------------------

  datatype System = System(shared: Shared, calls: map<CallId, Call>)

  /** A wake-up may come for any reason; an opener's file opens or fails. */
  datatype Event =
    | Arrive(id: CallId, asked: Option<Cycle>)
    | EnterLock(id: CallId)
    | WakeUp(id: CallId)
    | ReenterLock(id: CallId)
    | Finish(id: CallId, outcome: Option<Database>)

  predicate Enabled(sys: System, e: Event) {
    match e
    case Arrive(id, _) => id !in sys.calls
    case EnterLock(id) => id in sys.calls && sys.calls[id].Called?
    case WakeUp(id) => id in sys.calls && sys.calls[id].Sleeping?
    case ReenterLock(id) => id in sys.calls && sys.calls[id].Woken?
    case Finish(id, _) => id in sys.calls && sys.calls[id].Opening?
  }

  function Notified(c: Call): Call {
    if c.Sleeping? then Woken(c.key) else c
  }

  function Put(sys: System, id: CallId, r: (Shared, Call)): System {
    System(r.0, sys.calls[id := r.1])
  }

  /** notify_all wakes every sleeper, whatever it waits for. */
  function NotifyAll(calls: map<CallId, Call>): map<CallId, Call> {
    map id | id in calls :: Notified(calls[id])
  }

  function After(entries: seq<Cycle>, sys: System, e: Event): System
    requires Enabled(sys, e)
  {
    match e
    case Arrive(id, asked) => sys.(calls := sys.calls[id := Begin(entries, asked)])
    case EnterLock(id) => Put(sys, id, Enter(sys.shared, sys.calls[id].key))
    case WakeUp(id) => sys.(calls := sys.calls[id := Woken(sys.calls[id].key)])
    case ReenterLock(id) => Put(sys, id, Reenter(sys.shared, sys.calls[id].key))
    case Finish(id, outcome) =>
      var r := Publish(sys.shared, sys.calls[id].key, outcome);
      System(r.0, NotifyAll(sys.calls)[id := r.1])
  }

  const START := System(Shared(map[], {}), map[])

  ghost predicate Runs(entries: seq<Cycle>, sys: System, es: seq<Event>)
    decreases |es|
  {
    es == [] || (Enabled(sys, es[0]) && Runs(entries, After(entries, sys, es[0]), es[1..]))
  }

  ghost function EndOf(entries: seq<Cycle>, sys: System, es: seq<Event>): System
    requires Runs(entries, sys, es)
    decreases |es|
  {
    if es == [] then sys else EndOf(entries, After(entries, sys, es[0]), es[1..])
  }

  // ---- What every interleaving keeps ------------------------------------------------------------

  ghost predicate Opens(sys: System, id: CallId, key: Cycle) {
    id in sys.calls && sys.calls[id] == Opening(key)
  }

  ghost predicate Inv(sys: System) {
    // A cycle is marked exactly while a call is opening it, and only one call is.
    && (forall key :: key in sys.shared.opening <==> exists id :: Opens(sys, id, key))
    && (forall id, other, key :: Opens(sys, id, key) && Opens(sys, other, key) ==> id == other)
    && sys.shared.opening !! sys.shared.cache.Keys
    // Nobody sleeps on a cycle that nobody is opening.
    && (forall id :: id in sys.calls && sys.calls[id].Sleeping? ==> sys.calls[id].key in sys.shared.opening)
    // What was handed out is what the cache holds.
    && (forall id :: id in sys.calls && sys.calls[id].Returned? && sys.calls[id].answer.Served? ==>
          sys.calls[id].asked.Some? && sys.calls[id].asked.value in sys.shared.cache
          && sys.shared.cache[sys.calls[id].asked.value] == sys.calls[id].answer.db)
  }

  /** Cached databases are never replaced or dropped. */
  ghost predicate CacheKept(a: Shared, b: Shared) {
    forall key :: key in a.cache ==> key in b.cache && b.cache[key] == a.cache[key]
  }

  lemma PutKeeps(sys: System, id: CallId, key: Cycle, r: (Shared, Call))
    requires Inv(sys) && id in sys.calls && (sys.calls[id] == Called(key) || sys.calls[id] == Woken(key))
    requires r == Enter(sys.shared, key) || r == Reenter(sys.shared, key)
    ensures Inv(Put(sys, id, r)) && CacheKept(sys.shared, r.0)
  {
    var next := Put(sys, id, r);
    assert forall o, k :: o != id ==> (Opens(next, o, k) <==> Opens(sys, o, k));
    assert forall k :: !Opens(sys, id, k);
    forall k
      ensures k in next.shared.opening <==> exists o :: Opens(next, o, k)
    {
      if k in sys.shared.opening {
        var o :| Opens(sys, o, k);
        assert Opens(next, o, k);
      }
      if r.1 == Opening(k) {
        assert Opens(next, id, k);
      }
    }
  }

  lemma FinishKeeps(sys: System, id: CallId, key: Cycle, outcome: Option<Database>, next: System)
    requires Inv(sys) && Opens(sys, id, key)
    requires var r := Publish(sys.shared, key, outcome); next == System(r.0, NotifyAll(sys.calls)[id := r.1])
    ensures Inv(next) && CacheKept(sys.shared, next.shared)
    ensures key !in sys.shared.cache && key !in next.shared.opening
    ensures key in next.shared.cache <==> outcome.Some?
  {
    assert key in sys.shared.opening;
    assert forall o, k :: o != id ==> (Opens(next, o, k) <==> Opens(sys, o, k));
    assert forall k :: !Opens(next, id, k);
    forall k
      ensures k in next.shared.opening <==> exists o :: Opens(next, o, k)
    {
      if k in sys.shared.opening && k != key {
        var o :| Opens(sys, o, k);
        assert Opens(next, o, k);
      }
    }
    assert forall o :: o in next.calls && o != id ==> !next.calls[o].Sleeping?;
  }

  lemma CallsKeep(sys: System, id: CallId, c: Call)
    requires Inv(sys) && (id in sys.calls ==> !sys.calls[id].Opening?)
    requires !c.Opening? && !c.Sleeping? && (c.Returned? ==> !c.answer.Served?)
    ensures Inv(sys.(calls := sys.calls[id := c]))
  {
    var next := sys.(calls := sys.calls[id := c]);
    assert forall o, k :: Opens(next, o, k) <==> Opens(sys, o, k);
  }

  /** Every step of every call keeps the invariant and the cache. */
  lemma StepKeeps(entries: seq<Cycle>, sys: System, e: Event)
    requires Inv(sys) && Enabled(sys, e)
    ensures Inv(After(entries, sys, e)) && CacheKept(sys.shared, After(entries, sys, e).shared)
  {
    hide Inv, Enter, Reenter, Publish, NotifyAll;
    match e
    case Arrive(id, asked) => CallsKeep(sys, id, Begin(entries, asked));
    case EnterLock(id) => PutKeeps(sys, id, sys.calls[id].key, Enter(sys.shared, sys.calls[id].key));
    case WakeUp(id) => CallsKeep(sys, id, Woken(sys.calls[id].key));
    case ReenterLock(id) => PutKeeps(sys, id, sys.calls[id].key, Reenter(sys.shared, sys.calls[id].key));
    case Finish(id, outcome) => FinishKeeps(sys, id, sys.calls[id].key, outcome, After(entries, sys, e));
  }

  lemma {:induction false} RunKeeps(entries: seq<Cycle>, sys: System, es: seq<Event>)
    requires Inv(sys) && Runs(entries, sys, es)
    ensures Inv(EndOf(entries, sys, es)) && CacheKept(sys.shared, EndOf(entries, sys, es).shared)
    decreases |es|
  {
    hide Inv, Enabled, After;
    if es != [] {
      StepKeeps(entries, sys, es[0]);
      RunKeeps(entries, After(entries, sys, es[0]), es[1..]);
    }
  }

  lemma StartIsSafe()
    ensures Inv(START)
  {
  }

  /** In every reachable state: one opener per cycle, no stranded sleeper, one database per cycle for everyone. */
  lemma ReachableIsSafe(entries: seq<Cycle>, es: seq<Event>)
    requires Runs(entries, START, es)
    ensures Inv(EndOf(entries, START, es))
  {
    hide Inv, Runs, EndOf;
    StartIsSafe();
    RunKeeps(entries, START, es);
  }

  /** The cycle a call is for: what it works on, or what it was answered for. */
  ghost function KeyOf(c: Call): Option<Cycle> {
    if c.Returned? then c.asked else Some(c.key)
  }

  lemma KeyStands(entries: seq<Cycle>, sys: System, e: Event, id: CallId)
    requires Enabled(sys, e) && id in sys.calls
    ensures var next := After(entries, sys, e); id in next.calls && KeyOf(next.calls[id]) == KeyOf(sys.calls[id])
  {
  }

  /** Whatever the other calls do, a call stays with its cycle. */
  lemma {:induction false} KeyStays(entries: seq<Cycle>, sys: System, es: seq<Event>, id: CallId)
    requires Runs(entries, sys, es) && id in sys.calls
    ensures var end := EndOf(entries, sys, es); id in end.calls && KeyOf(end.calls[id]) == KeyOf(sys.calls[id])
    decreases |es|
  {
    hide Enabled, After, KeyOf;
    if es != [] {
      KeyStands(entries, sys, es[0], id);
      KeyStays(entries, After(entries, sys, es[0]), es[1..], id);
    }
  }

  /** A call that names no cycle is, however the calls interleave, for the newest one listed, and served what is cached for it. */
  lemma ServedNewest(entries: seq<Cycle>, sys: System, id: CallId, es: seq<Event>)
    requires Ascending(entries) && entries != [] && Inv(sys) && Enabled(sys, Arrive(id, None))
    requires Runs(entries, After(entries, sys, Arrive(id, None)), es)
    ensures var end := EndOf(entries, After(entries, sys, Arrive(id, None)), es);
            && id in end.calls && KeyOf(end.calls[id]).Some? && KeyOf(end.calls[id]).value in entries
            && (forall c :: c in entries ==> c <= KeyOf(end.calls[id]).value)
            && (end.calls[id].Returned? && end.calls[id].answer.Served? ==>
                  && KeyOf(end.calls[id]).value in end.shared.cache
                  && end.calls[id].answer.db == end.shared.cache[KeyOf(end.calls[id]).value])
  {
    hide Runs, EndOf, Enabled, Inv;
    var next := After(entries, sys, Arrive(id, None));
    LatestIsNewest(entries);
    assert KeyOf(next.calls[id]) == Latest(entries);
    StepKeeps(entries, sys, Arrive(id, None));
    KeyStays(entries, next, es, id);
    RunKeeps(entries, next, es);
    var end := EndOf(entries, next, es);
    if end.calls[id].Returned? && end.calls[id].answer.Served? {
      ServedFromCache(end, id);
    }
  }

  lemma ServedFromCache(sys: System, id: CallId)
    requires Inv(sys) && id in sys.calls && sys.calls[id].Returned? && sys.calls[id].answer.Served?
    ensures var key := KeyOf(sys.calls[id]);
            key.Some? && key.value in sys.shared.cache && sys.calls[id].answer.db == sys.shared.cache[key.value]
  {
  }

  /** Two calls served for the same cycle got the same database. */
  lemma ServedAlike(entries: seq<Cycle>, es: seq<Event>, id: CallId, other: CallId)
    requires Runs(entries, START, es)
    requires var calls := EndOf(entries, START, es).calls;
             && id in calls && other in calls && calls[id].Returned? && calls[other].Returned?
             && calls[id].answer.Served? && calls[other].answer.Served? && calls[id].asked == calls[other].asked
    ensures var calls := EndOf(entries, START, es).calls; calls[id] == calls[other]
  {
    hide Runs, EndOf;
    ReachableIsSafe(entries, es);
  }

  /** A failed open leaves no trace, so the next call for the cycle opens it again. */
  lemma FailureIsRetried(entries: seq<Cycle>, sys: System, id: CallId, key: Cycle, other: CallId)
    requires Inv(sys) && Opens(sys, id, key)
    requires other in sys.calls && other != id
    ensures var next := After(entries, sys, Finish(id, None));
            && next.shared.cache == sys.shared.cache && key !in next.shared.cache && key !in next.shared.opening
            && (sys.calls[other] == Called(key) ==> After(entries, next, EnterLock(other)).calls[other] == Opening(key))
            && (sys.calls[other] == Sleeping(key) ==> After(entries, next, ReenterLock(other)).calls[other] == Opening(key))
  {
    FinishKeeps(sys, id, key, None, After(entries, sys, Finish(id, None)));
  }

  // ---- Coalescing -----------------------------------------------------------------------------

  /** Whether this step caches a database for the cycle. */
  ghost predicate Succeeds(sys: System, e: Event, key: Cycle) {
    e.Finish? && e.outcome.Some? && Opens(sys, e.id, key)
  }

  ghost function Successes(entries: seq<Cycle>, sys: System, es: seq<Event>, key: Cycle): nat
    requires Runs(entries, sys, es)
    decreases |es|
  {
    if es == [] then 0
    else (if Succeeds(sys, es[0], key) then 1 else 0) + Successes(entries, After(entries, sys, es[0]), es[1..], key)
  }

  lemma OneSuccess(entries: seq<Cycle>, sys: System, e: Event, key: Cycle)
    requires Inv(sys) && Enabled(sys, e)
    ensures key in After(entries, sys, e).shared.cache <==> key in sys.shared.cache || Succeeds(sys, e, key)
    ensures key in sys.shared.cache ==> !Succeeds(sys, e, key)
  {
    if e.Finish? {
      FinishKeeps(sys, e.id, sys.calls[e.id].key, e.outcome, After(entries, sys, e));
      hide Inv;
      assert Succeeds(sys, e, key) <==> e.outcome.Some? && sys.calls[e.id].key == key;
    }
  }

  /** However many calls ask, a cycle's file is opened successfully at most once, and exactly once if it is cached. */
  lemma {:induction false} OpenedAtMostOnce(entries: seq<Cycle>, sys: System, es: seq<Event>, key: Cycle)
    requires Inv(sys) && Runs(entries, sys, es)
    ensures Successes(entries, sys, es, key) ==
            if key !in sys.shared.cache && key in EndOf(entries, sys, es).shared.cache then 1 else 0
    decreases |es|
  {
    hide Inv, Enabled, After, Succeeds;
    if es != [] {
      var next := After(entries, sys, es[0]);
      OneSuccess(entries, sys, es[0], key);
      StepKeeps(entries, sys, es[0]);
      RunKeeps(entries, next, es[1..]);
      OpenedAtMostOnce(entries, next, es[1..], key);
    }
  }

  // ---- Progress -------------------------------------------------------------------------------

  /** A step that neither brings a new call nor wakes a sleeper for no reason. */
  predicate Works(e: Event) {
    !e.Arrive? && !e.WakeUp?
  }

  /** While a call is unfinished there is a step to take: nobody waits for ever. */
  lemma NoDeadlock(sys: System, id: CallId) returns (e: Event)
    requires Inv(sys) && id in sys.calls && !sys.calls[id].Returned?
    ensures Works(e) && Enabled(sys, e)
  {
    match sys.calls[id]
    case Called(_) => e := EnterLock(id);
    case Woken(_) => e := ReenterLock(id);
    case Opening(_) => e := Finish(id, None);
    case Sleeping(key) =>
      var opener :| Opens(sys, opener, key);
      e := Finish(opener, None);
  }

  ghost function Unfinished(calls: map<CallId, Call>): set<CallId> {
    set id | id in calls && !calls[id].Returned?
  }

  /** Calls with a critical section to run before they next rest. */
  ghost function Awake(calls: map<CallId, Call>): set<CallId> {
    set id | id in calls && (calls[id].Called? || calls[id].Woken?)
  }

  ghost function Potential(sys: System): nat {
    |Unfinished(sys.calls)| * (|sys.calls| + 1) + |Awake(sys.calls)|
  }

  lemma SubsetIsSmaller(a: set<CallId>, b: set<CallId>)
    requires a <= b
    ensures |a| <= |b|
  {
    assert b == a + (b - a);
  }

  /** Every working step uses up potential: it ends a call, or puts one to rest. */
  lemma WorkUsesPotential(entries: seq<Cycle>, sys: System, e: Event)
    requires Enabled(sys, e) && Works(e)
    ensures Potential(After(entries, sys, e)) < Potential(sys)
    ensures |After(entries, sys, e).calls| == |sys.calls|
  {
    var next := After(entries, sys, e);
    var id := e.id;
    SameCalls(entries, sys, e);
    var u, v := Unfinished(sys.calls), Unfinished(next.calls);
    var a, b := Awake(sys.calls), Awake(next.calls);
    SubsetIsSmaller(b, next.calls.Keys);
    if next.calls[id].Returned? {
      assert v == u - {id};
      LessWork(|u|, |v|, |sys.calls|, |a|, |b|);
    } else {
      assert v == u && b == a - {id};
    }
  }

  lemma LessWork(u: nat, v: nat, n: nat, a: nat, b: nat)
    requires v == u - 1 && b <= n
    ensures v * (n + 1) + b < u * (n + 1) + a
  {
    assert u * (n + 1) == v * (n + 1) + (n + 1);
  }

  lemma SameCalls(entries: seq<Cycle>, sys: System, e: Event)
    requires Enabled(sys, e) && Works(e)
    ensures After(entries, sys, e).calls.Keys == sys.calls.Keys && e.id in sys.calls
    ensures |After(entries, sys, e).calls| == |sys.calls|
    ensures forall o :: o in sys.calls && o != e.id ==>
              After(entries, sys, e).calls[o] == if e.Finish? then Notified(sys.calls[o]) else sys.calls[o]
    ensures e.Finish? ==> After(entries, sys, e).calls[e.id].Returned?
    ensures !e.Finish? ==> var c := After(entries, sys, e).calls[e.id]; !c.Called? && !c.Woken?
  {
    var next := After(entries, sys, e);
    assert next.calls.Keys == sys.calls.Keys;
    assert |next.calls.Keys| == |sys.calls.Keys|;
  }

  /** Left alone, the calls finish: no schedule of working steps is longer than the potential it starts with. */
  lemma {:induction false} CallsFinish(entries: seq<Cycle>, sys: System, es: seq<Event>)
    requires Runs(entries, sys, es) && forall i :: 0 <= i < |es| ==> Works(es[i])
    ensures |es| <= Potential(sys)
    decreases |es|
  {
    hide Potential, Enabled, After, Works;
    if es != [] {
      WorkUsesPotential(entries, sys, es[0]);
      CallsFinish(entries, After(entries, sys, es[0]), es[1..]);
    }
  }
}
