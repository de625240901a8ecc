/** The positive and negative lookup caches in front of a directory backend. */
module LookupCache {
  import opened Wrappers

  // ---- The cache as a value ----

  datatype Cache = Cache(positive: map<string, nat>, negative: map<string, nat>, ttlPositive: nat, ttlNegative: nat)

  // An entry is good until the instant it carries, that instant included.
  predicate Unexpired(entries: map<string, nat>, name: string, now: nat) {
    name in entries && entries[name] >= now
  }

  // The clock is read once for each of the two caches. An expired negative entry stays.
  function Fetch(c: Cache, name: string, now: nat, later: nat): (Cache, Option<bool>) {
    if Unexpired(c.positive, name, now) then (c, Some(true))
    else (c.(positive := c.positive - {name}), if Unexpired(c.negative, name, later) then Some(false) else None)
  }

  // `evicted` is whatever the bounded map drops to make room.
  function Set(c: Cache, name: string, found: bool, now: nat, evicted: set<string>): Cache {
    if found then c.(positive := c.positive[name := now + c.ttlPositive] - evicted)
    else c.(negative := c.negative[name := now + c.ttlNegative] - evicted)
  }

  // One lookup: three clock readings, what the backend says if asked (nothing on error), what is evicted.
  datatype Lookup = Lookup(name: string, now: nat, later: nat, stored: nat, backend: Option<bool>, evicted: set<string>)

  predicate InOrder(e: Lookup) {
    e.now <= e.later <= e.stored
  }

  // What the backend has said, in order.
  datatype Said = Said(name: string, answer: bool, at: nat)

  datatype State = State(cache: Cache, said: seq<Said>)

  function Asked(c: Cache, e: Lookup): bool {
    Fetch(c, e.name, e.now, e.later).1.None?
  }

  function Answer(c: Cache, e: Lookup): Option<bool> {
    var cached := Fetch(c, e.name, e.now, e.later).1;
    if cached.Some? then cached else e.backend
  }

  function Resolved(c: Cache, e: Lookup): Cache {
    var left := Fetch(c, e.name, e.now, e.later).0;
    if Asked(c, e) && e.backend.Some? then Set(left, e.name, e.backend.value, e.stored, e.evicted) else left
  }

  function Step(s: State, e: Lookup): State {
    State(Resolved(s.cache, e),
          if Asked(s.cache, e) && e.backend.Some? then s.said + [Said(e.name, e.backend.value, e.stored)] else s.said)
  }

  function Run(s: State, events: seq<Lookup>): State {
    if events == [] then s else Step(Run(s, events[..|events| - 1]), events[|events| - 1])
  }

  // ---- What the cache knows ----

  // The most recent thing the backend said of a name.
  function Latest(said: seq<Said>, name: string): Option<Said> {
    if said == [] then None
    else if said[|said| - 1].name == name then Some(said[|said| - 1])
    else Latest(said[..|said| - 1], name)
  }

  // An unexpired entry records the latest answer and when it was stored.
  ghost predicate Records(entries: map<string, nat>, answer: bool, ttl: nat, said: seq<Said>, now: nat) {
    forall name | Unexpired(entries, name, now) ::
      entries[name] >= ttl && Latest(said, name) == Some(Said(name, answer, entries[name] - ttl))
  }

  ghost predicate Inv(s: State, now: nat) {
    && Records(s.cache.positive, true, s.cache.ttlPositive, s.said, now)
    && Records(s.cache.negative, false, s.cache.ttlNegative, s.said, now)
  }

  lemma RecordsLater(entries: map<string, nat>, answer: bool, ttl: nat, said: seq<Said>, now: nat, later: nat)
    requires Records(entries, answer, ttl, said, now) && now <= later
    ensures Records(entries, answer, ttl, said, later)
  {
    forall name | Unexpired(entries, name, later)
      ensures entries[name] >= ttl && Latest(said, name) == Some(Said(name, answer, entries[name] - ttl))
    {
      assert Unexpired(entries, name, now);
    }
  }

  lemma LatestSnoc(said: seq<Said>, x: Said, name: string)
    ensures Latest(said + [x], name) == if x.name == name then Some(x) else Latest(said, name)
  {
    assert (said + [x])[..|said|] == said;
  }

  // The answer was just stored here.
  lemma RecordsStored(entries: map<string, nat>, answer: bool, ttl: nat, said: seq<Said>, now: nat, name: string, evicted: set<string>)
    requires Records(entries, answer, ttl, said, now)
    ensures Records(entries[name := now + ttl] - evicted, answer, ttl, said + [Said(name, answer, now)], now)
  {
    var next := entries[name := now + ttl] - evicted;
    forall n | Unexpired(next, n, now)
      ensures next[n] >= ttl && Latest(said + [Said(name, answer, now)], n) == Some(Said(n, answer, next[n] - ttl))
    {
      LatestSnoc(said, Said(name, answer, now), n);
      assert n != name ==> Unexpired(entries, n, now);
    }
  }

  // The answer was stored in the other map; what is left here of the name has expired.
  lemma RecordsOther(entries: map<string, nat>, answer: bool, ttl: nat, said: seq<Said>, now: nat, x: Said)
    requires Records(entries, answer, ttl, said, now) && !Unexpired(entries, x.name, now)
    ensures Records(entries, answer, ttl, said + [x], now)
  {
    forall n | Unexpired(entries, n, now)
      ensures entries[n] >= ttl && Latest(said + [x], n) == Some(Said(n, answer, entries[n] - ttl))
    {
      LatestSnoc(said, x, n);
    }
  }

  lemma RecordsFewer(entries: map<string, nat>, answer: bool, ttl: nat, said: seq<Said>, now: nat, gone: set<string>)
    requires Records(entries, answer, ttl, said, now)
    ensures Records(entries - gone, answer, ttl, said, now)
  {
    forall n | Unexpired(entries - gone, n, now)
      ensures (entries - gone)[n] >= ttl && Latest(said, n) == Some(Said(n, answer, (entries - gone)[n] - ttl))
    {
      assert Unexpired(entries, n, now);
    }
  }

  lemma GetKeeps(s: State, name: string, now: nat, later: nat)
    requires Inv(s, now) && now <= later
    ensures Inv(State(Fetch(s.cache, name, now, later).0, s.said), later)
  {
    var c := s.cache;
    RecordsFewer(c.positive, true, c.ttlPositive, s.said, now, {name});
    RecordsLater(c.positive, true, c.ttlPositive, s.said, now, later);
    RecordsLater(c.positive - {name}, true, c.ttlPositive, s.said, now, later);
    RecordsLater(c.negative, false, c.ttlNegative, s.said, now, later);
  }

  lemma SetKeeps(s: State, name: string, found: bool, now: nat, evicted: set<string>)
    requires Inv(s, now)
    requires !Unexpired(s.cache.positive, name, now) && !Unexpired(s.cache.negative, name, now)
    ensures Inv(State(Set(s.cache, name, found, now, evicted), s.said + [Said(name, found, now)]), now)
  {
    var c := s.cache;
    if found {
      RecordsStored(c.positive, true, c.ttlPositive, s.said, now, name, evicted);
      RecordsOther(c.negative, false, c.ttlNegative, s.said, now, Said(name, true, now));
    } else {
      RecordsStored(c.negative, false, c.ttlNegative, s.said, now, name, evicted);
      RecordsOther(c.positive, true, c.ttlPositive, s.said, now, Said(name, false, now));
    }
  }

  /** A lookup keeps the cache in agreement with the backend. */
  lemma StepKeeps(s: State, e: Lookup, now: nat)
    requires Inv(s, now) && now <= e.now && InOrder(e)
    ensures Inv(Step(s, e), e.stored)
  {
    InvLater(s, now, e.now);
    GetKeeps(s, e.name, e.now, e.later);
    var mid := State(Fetch(s.cache, e.name, e.now, e.later).0, s.said);
    InvLater(mid, e.later, e.stored);
    if Asked(s.cache, e) && e.backend.Some? {
      SetKeeps(mid, e.name, e.backend.value, e.stored, e.evicted);
    }
  }

  lemma InvLater(s: State, now: nat, later: nat)
    requires Inv(s, now) && now <= later
    ensures Inv(s, later)
  {
    RecordsLater(s.cache.positive, true, s.cache.ttlPositive, s.said, now, later);
    RecordsLater(s.cache.negative, false, s.cache.ttlNegative, s.said, now, later);
  }

  // ---- Whole runs ----

  predicate Clocked(events: seq<Lookup>) {
    && (forall i | 0 <= i < |events| :: InOrder(events[i]))
    && (forall i, j | 0 <= i < j < |events| :: events[i].stored <= events[j].now)
  }

  function Empty(ttlPositive: nat, ttlNegative: nat): State {
    State(Cache(map[], map[], ttlPositive, ttlNegative), [])
  }

  function Clock(events: seq<Lookup>): nat {
    if events == [] then 0 else events[|events| - 1].stored
  }

  lemma {:induction false} RunKeeps(s: State, events: seq<Lookup>)
    requires Inv(s, 0) && Clocked(events)
    ensures Inv(Run(s, events), Clock(events))
    decreases |events|
  {
    if events != [] {
      var most, last := events[..|events| - 1], events[|events| - 1];
      RunKeeps(s, most);
      StepKeeps(Run(s, most), last, Clock(most));
    }
  }

  /** In every run at most one of the two entries of a name is unexpired. */
  lemma AtMostOneUnexpired(ttlPositive: nat, ttlNegative: nat, events: seq<Lookup>, name: string, now: nat)
    requires Clocked(events) && Clock(events) <= now
    ensures var c := Run(Empty(ttlPositive, ttlNegative), events).cache;
      !(Unexpired(c.positive, name, now) && Unexpired(c.negative, name, now))
  {
    RunKeeps(Empty(ttlPositive, ttlNegative), events);
    InvLater(Run(Empty(ttlPositive, ttlNegative), events), Clock(events), now);
  }

  lemma {:induction false} TtlsStay(s: State, events: seq<Lookup>)
    ensures Run(s, events).cache.ttlPositive == s.cache.ttlPositive
    ensures Run(s, events).cache.ttlNegative == s.cache.ttlNegative
    decreases |events|
  {
    if events != [] {
      TtlsStay(s, events[..|events| - 1]);
    }
  }

  /** In every run, an answer given without asking the backend is the latest one the backend gave
      for that name, stored no longer ago than the time to live of such an answer. */
  lemma CachedAnswerIsLatest(ttlPositive: nat, ttlNegative: nat, events: seq<Lookup>, e: Lookup)
    requires Clocked(events + [e])
    ensures var s := Run(Empty(ttlPositive, ttlNegative), events);
      !Asked(s.cache, e) ==>
        && Answer(s.cache, e).Some?
        && var last := Latest(s.said, e.name);
           && last.Some? && last.value.answer == Answer(s.cache, e).value
           && e.now <= last.value.at + (if last.value.answer then ttlPositive else ttlNegative)
  {
    var start := Empty(ttlPositive, ttlNegative);
    assert forall i | 0 <= i < |events| :: events[i] == (events + [e])[i];
    assert (events + [e])[|events|] == e;
    RunKeeps(start, events);
    TtlsStay(start, events);
    var s := Run(start, events);
    InvLater(s, Clock(events), e.now);
    InvLater(s, e.now, e.later);
  }

  // What is kept of a name that is never evicted: its latest answer, unless that was found expired.
  ghost predicate Kept(s: State, name: string, now: nat) {
    var last, c := Latest(s.said, name), s.cache;
    match last
    case None => name !in c.positive && name !in c.negative
    case Some(x) =>
      if x.answer then (name in c.positive && c.positive[name] == x.at + c.ttlPositive) || x.at + c.ttlPositive < now
      else name in c.negative && c.negative[name] == x.at + c.ttlNegative
  }

  lemma KeptStep(s: State, e: Lookup, name: string, now: nat)
    requires Kept(s, name, now) && now <= e.now && InOrder(e) && name !in e.evicted
    ensures Kept(Step(s, e), name, e.stored)
  {
    if Asked(s.cache, e) && e.backend.Some? {
      LatestSnoc(s.said, Said(e.name, e.backend.value, e.stored), name);
    }
  }

  lemma {:induction false} KeptRun(s: State, events: seq<Lookup>, name: string)
    requires Kept(s, name, 0) && Clocked(events) && forall i | 0 <= i < |events| :: name !in events[i].evicted
    ensures Kept(Run(s, events), name, Clock(events))
    decreases |events|
  {
    if events != [] {
      var most, last := events[..|events| - 1], events[|events| - 1];
      KeptRun(s, most, name);
      KeptStep(Run(s, most), last, name, Clock(most));
    }
  }

  /** In every run that does not evict a name, the backend is asked for it exactly when it has given no answer yet
      or its latest one is older than the time to live of such an answer. */
  lemma AskedExactly(ttlPositive: nat, ttlNegative: nat, events: seq<Lookup>, e: Lookup)
    requires Clocked(events + [e]) && forall i | 0 <= i < |events| :: e.name !in events[i].evicted
    ensures var s := Run(Empty(ttlPositive, ttlNegative), events);
      var last := Latest(s.said, e.name);
      Asked(s.cache, e) <==>
        last.None? || (if last.value.answer then last.value.at + ttlPositive < e.now else last.value.at + ttlNegative < e.later)
  {
    var start := Empty(ttlPositive, ttlNegative);
    assert forall i | 0 <= i < |events| :: events[i] == (events + [e])[i];
    assert (events + [e])[|events|] == e;
    RunKeeps(start, events);
    TtlsStay(start, events);
    KeptRun(start, events, e.name);
    var s := Run(start, events);
    InvLater(s, Clock(events), e.now);
    InvLater(s, e.now, e.later);
  }

  /** With a backend that always says the same of a name, so does every lookup that succeeds. */
  lemma SteadyBackend(ttlPositive: nat, ttlNegative: nat, events: seq<Lookup>, e: Lookup, truth: bool)
    requires Clocked(events + [e])
    requires forall i | 0 <= i < |events + [e]| && (events + [e])[i].name == e.name ::
               (events + [e])[i].backend.Some? ==> (events + [e])[i].backend.value == truth
    ensures var a := Answer(Run(Empty(ttlPositive, ttlNegative), events).cache, e); a.Some? ==> a.value == truth
  {
    var s := Run(Empty(ttlPositive, ttlNegative), events);
    assert (events + [e])[|events|] == e;
    CachedAnswerIsLatest(ttlPositive, ttlNegative, events, e);
    forall i | 0 <= i < |events| && events[i].name == e.name && events[i].backend.Some?
      ensures events[i].backend.value == truth
    {
      assert (events + [e])[i] == events[i];
    }
    LatestIsSaid(Empty(ttlPositive, ttlNegative), events, e.name, truth);
  }

  lemma {:induction false} LatestIsSaid(s: State, events: seq<Lookup>, name: string, truth: bool)
    requires s.said == []
    requires forall i | 0 <= i < |events| && events[i].name == name && events[i].backend.Some? ::
               events[i].backend.value == truth
    ensures var last := Latest(Run(s, events).said, name); last.Some? ==> last.value.answer == truth
    decreases |events|
  {
    if events != [] {
      var most, e := events[..|events| - 1], events[|events| - 1];
      LatestIsSaid(s, most, name, truth);
      if e.backend.Some? {
        LatestSnoc(Run(s, most).said, Said(e.name, e.backend.value, e.stored), name);
      }
    }
  }

  // ---- The cache as an object ----

  class CachedLookups {
    var positive: map<string, nat>
    var negative: map<string, nat>
    const ttlPositive: nat
    const ttlNegative: nat

    ghost function View(): Cache
      reads this
    {
      Cache(positive, negative, ttlPositive, ttlNegative)
    }

    constructor (ttlPositive: nat, ttlNegative: nat)
      ensures View() == Empty(ttlPositive, ttlNegative).cache
    {
      positive, negative := map[], map[];
      this.ttlPositive, this.ttlNegative := ttlPositive, ttlNegative;
    }

    method Get(name: string, now: nat, later: nat) returns (r: Option<bool>)
      modifies this
      ensures (View(), r) == Fetch(old(View()), name, now, later)
    {
      if name in positive {
        if positive[name] >= now {
          return Some(true);
        }
        positive := positive - {name};
      }
      assert positive == old(positive) - {name};
      if name !in negative {
        return None;
      }
      if negative[name] >= later {
        return Some(false);
      }
      positive := positive - {name};
      assert positive == old(positive) - {name};
      r := None;
    }

    method InsertPositive(name: string, now: nat, evicted: set<string>)
      modifies this
      ensures View() == Set(old(View()), name, true, now, evicted)
    {
      positive := positive[name := now + ttlPositive] - evicted;
    }

    method InsertNegative(name: string, now: nat, evicted: set<string>)
      modifies this
      ensures View() == Set(old(View()), name, false, now, evicted)
    {
      negative := negative[name := now + ttlNegative] - evicted;
    }

    /** One recipient or domain lookup through the cache. */
    method Resolve(e: Lookup) returns (r: Option<bool>)
      modifies this
      ensures r == Answer(old(View()), e)
      ensures View() == Resolved(old(View()), e)
    {
      r := Get(e.name, e.now, e.later);
      if r.Some? {
        return;
      }
      r := e.backend;
      if r.None? {
        return;
      }
      if r.value {
        InsertPositive(e.name, e.stored, e.evicted);
      } else {
        InsertNegative(e.name, e.stored, e.evicted);
      }
    }
  }
}
