/** The in-memory TTL cache.

    `Cache` is the cache as one caller at a time sees it. Several callers interleave: a Get is up to four separate
    steps (read under the read lock, look at the clock, delete under the write lock, count), and other calls may come
    in between. The second half of the file is that protocol, for any number of concurrent Gets. */
module TtlCache {
  import opened Options

  datatype Entry = Entry(data: string, expiresAt: int)

  datatype Counters = Counters(hits: nat, misses: nat, sets: nat, evictions: nat)

  datatype Store = Store(items: map<string, Entry>, counters: Counters)

  function Lookup(s: Store, key: string): Option<Entry> {
    if key in s.items then Some(s.items[key]) else None
  }

  predicate Stale(e: Entry, now: int) {
    now > e.expiresAt
  }

  // The critical sections, one by one.

  function CountHit(s: Store): Store {
    s.(counters := s.counters.(hits := s.counters.hits + 1))
  }

  function CountMiss(s: Store): Store {
    s.(counters := s.counters.(misses := s.counters.misses + 1))
  }

  function CountEviction(s: Store): Store {
    s.(counters := s.counters.(misses := s.counters.misses + 1, evictions := s.counters.evictions + 1))
  }

  function Delete(s: Store, key: string): Store {
    s.(items := s.items - {key})
  }

  function Put(s: Store, key: string, data: string, expiry: int): Store {
    s.(items := s.items[key := Entry(data, expiry)], counters := s.counters.(sets := s.counters.sets + 1))
  }

  function PutAll(s: Store, values: map<string, string>, expiry: int): Store {
    s.(items := s.items + map k | k in values :: Entry(values[k], expiry))
  }

  /** `items` is `m` with all values filled in but those of the keys in `left`. */
  ghost predicate Warmed(items: map<string, Entry>, m: map<string, Entry>, values: map<string, string>,
          left: set<string>, expiry: int)
  {
    && items.Keys == m.Keys + (values.Keys - left)
    && forall k :: k in items ==> items[k] == if k in values && k !in left then Entry(values[k], expiry) else m[k]
  }

  lemma WarmOne(items: map<string, Entry>, m: map<string, Entry>, values: map<string, string>, left: set<string>,
          expiry: int, k: string)
    requires Warmed(items, m, values, left, expiry) && left <= values.Keys && k in left
    ensures Warmed(items[k := Entry(values[k], expiry)], m, values, left - {k}, expiry)
  {
  }

  lemma WarmedAll(s: Store, s': Store, values: map<string, string>, expiry: int)
    requires Warmed(s'.items, s.items, values, {}, expiry) && s'.counters == s.counters
    ensures s' == PutAll(s, values, expiry)
  {
    assert s'.items == s.items + map k | k in values :: Entry(values[k], expiry);
  }

  function Clear(s: Store): Store {
    s.(items := map[])
  }

  /** A Get that nobody interrupts. */
  function GetAlone(s: Store, key: string, now: int): (Store, Option<string>) {
    match Lookup(s, key)
    case None => (CountMiss(s), None)
    case Some(e) => if Stale(e, now) then (CountEviction(Delete(s, key)), None) else (CountHit(s), Some(e.data))
  }

  /** What a Get answers and leaves: a value that is there and in date, and otherwise nothing under the key. */
  lemma GetAloneIff(s: Store, key: string, now: int, data: string)
    ensures GetAlone(s, key, now).1 == Some(data)
            <==> key in s.items && s.items[key].data == data && now <= s.items[key].expiresAt
    ensures GetAlone(s, key, now).1.None? ==> key !in GetAlone(s, key, now).0.items
    ensures forall k :: k != key ==>
              && (k in GetAlone(s, key, now).0.items <==> k in s.items)
              && (k in s.items ==> GetAlone(s, key, now).0.items[k] == s.items[k])
    ensures var c, c' := s.counters, GetAlone(s, key, now).0.counters;
            var found, stale := GetAlone(s, key, now).1.Some?, key in s.items && now > s.items[key].expiresAt;
            && c'.hits == c.hits + (if found then 1 else 0) && c'.misses == c.misses + (if found then 0 else 1)
            && c'.evictions == c.evictions + (if stale then 1 else 0) && c'.sets == c.sets
  {
  }

  class Cache {
    var items: map<string, Entry>
    var counters: Counters
    const ttl: int

    function View(): Store
      reads this
    {
      Store(items, counters)
    }

    constructor (ttl: int)
      ensures View() == Store(map[], Counters(0, 0, 0, 0)) && this.ttl == ttl
    {
      items, counters := map[], Counters(0, 0, 0, 0);
      this.ttl := ttl;
    }

    method Get(key: string, now: int) returns (found: Option<string>)
      modifies this
      ensures (View(), found) == GetAlone(old(View()), key, now)
      ensures found.Some? <==> key in old(items) && now <= old(items)[key].expiresAt
      ensures found.Some? ==> found.value == old(items)[key].data && items == old(items)
      ensures found.None? ==> key !in items && items == old(items) - {key}
      ensures counters.hits + counters.misses == old(counters).hits + old(counters).misses + 1
      ensures counters.hits == old(counters).hits + if found.Some? then 1 else 0
    {
      if key !in items {
        counters := counters.(misses := counters.misses + 1);
        return None;
      }
      var e := items[key];
      if now > e.expiresAt {
        items := items - {key};
        counters := counters.(misses := counters.misses + 1);
        counters := counters.(evictions := counters.evictions + 1);
        return None;
      }
      counters := counters.(hits := counters.hits + 1);
      return Some(e.data);
    }

    method Set(key: string, data: string, now: int)
      modifies this
      ensures View() == Put(old(View()), key, data, now + ttl)
    {
      items := items[key := Entry(data, now + ttl)];
      counters := counters.(sets := counters.sets + 1);
    }

    method ClearAll()
      modifies this`items
      ensures View() == Clear(old(View()))
    {
      items := map[];
    }

    method Count() returns (n: nat)
      ensures n == |items.Keys|
    {
      n := |items|;
    }

    method Warm(values: map<string, string>, now: int)
      modifies this`items
      ensures View() == PutAll(old(View()), values, now + ttl)
    {
      WarmEach(values, now + ttl);
      WarmedAll(old(View()), View(), values, now + ttl);
    }

    /** The loop over the values, which all get one expiry. */
    method WarmEach(values: map<string, string>, expiry: int)
      modifies this`items
      ensures Warmed(items, old(items), values, {}, expiry)
    {
      var left := values.Keys;
      while left != {}
        invariant left <= values.Keys
        invariant Warmed(items, old(items), values, left, expiry)
        decreases |left|
      {
        var k :| k in left;
        WarmOne(items, old(items), values, left, expiry, k);
        items := items[k := Entry(values[k], expiry)];
        left := left - {k};
      }
    }
  }

  // ---------------------------------------------------------------- interleaved calls

  /** What has happened to the stored entries, in order: the yardstick for hits. */
  datatype Write = Stored(key: string, data: string, at: int) | Cleared | Evicted(key: string)

  /** A Get in progress. `readAt` is how many writes preceded its read. */
  datatype Call =
    | Read(key: string, entry: Option<Entry>, readAt: nat)
    | Evicting(key: string, stale: Entry, readAt: nat)
    | Deleted(key: string, readAt: nat)

  datatype Finished = Hit(key: string, data: string, readAt: nat, at: int) | Miss(key: string, readAt: nat)

  datatype State = State(store: Store, calls: map<nat, Call>, log: seq<Write>, done: seq<Finished>)

  datatype Step =
    | ReadEntry(id: nat, key: string)
    | Decide(id: nat, now: int)
    | Evict(id: nat)
    | Finish(id: nat)
    | SetKey(key: string, data: string, now: int)
    | ClearItems
    | WarmItems(key: string, data: string, now: int)   // once per key: more interleavings than the one lock allows

  const INIT: State := State(Store(map[], Counters(0, 0, 0, 0)), map[], [], [])

  predicate Enabled(s: State, step: Step) {
    match step
    case ReadEntry(id, _) => id !in s.calls
    case Decide(id, _) => id in s.calls && s.calls[id].Read?
    case Evict(id) => id in s.calls && s.calls[id].Evicting?
    case Finish(id) => id in s.calls && s.calls[id].Deleted?
    case _ => true
  }

  function Apply(s: State, step: Step, ttl: int): State
    requires Enabled(s, step)
  {
    match step
    case ReadEntry(id, key) => s.(calls := s.calls[id := Read(key, Lookup(s.store, key), |s.log|)])
    case Decide(id, now) =>
      var c := s.calls[id];
      if c.entry.None? then
        s.(store := CountMiss(s.store), calls := s.calls - {id}, done := s.done + [Miss(c.key, c.readAt)])
      else if Stale(c.entry.value, now) then
        s.(calls := s.calls[id := Evicting(c.key, c.entry.value, c.readAt)])
      else
        s.(store := CountHit(s.store), calls := s.calls - {id},
           done := s.done + [Hit(c.key, c.entry.value.data, c.readAt, now)])
    case Evict(id) =>
      var c := s.calls[id];
      s.(store := Delete(s.store, c.key), calls := s.calls[id := Deleted(c.key, c.readAt)],
         log := s.log + [Evicted(c.key)])
    case Finish(id) =>
      s.(store := CountEviction(s.store), calls := s.calls - {id},
         done := s.done + [Miss(s.calls[id].key, s.calls[id].readAt)])
    case SetKey(key, data, now) =>
      s.(store := Put(s.store, key, data, now + ttl), log := s.log + [Stored(key, data, now)])
    case ClearItems => s.(store := Clear(s.store), log := s.log + [Cleared])
    case WarmItems(key, data, now) =>
      s.(store := PutAll(s.store, map[key := data], now + ttl), log := s.log + [Stored(key, data, now)])
  }

  /** A step that is not enabled does not happen. */
  function After(steps: seq<Step>, ttl: int): State {
    if steps == [] then INIT
    else
      var s, step := After(steps[..|steps| - 1], ttl), steps[|steps| - 1];
      if Enabled(s, step) then Apply(s, step, ttl) else s
  }

  // ---------------------------------------------------------------- the class within the protocol

  /** The steps of one Get, taken without interruption. */
  function GetSteps(s: State, id: nat, key: string, now: int): seq<Step> {
    [ReadEntry(id, key), Decide(id, now)]
    + if key in s.store.items && Stale(s.store.items[key], now) then [Evict(id), Finish(id)] else []
  }

  ghost predicate Leads(s: State, steps: seq<Step>, ttl: int, t: State)
    decreases |steps|
  {
    if steps == [] then s == t else Enabled(s, steps[0]) && Leads(Apply(s, steps[0], ttl), steps[1..], ttl, t)
  }

  lemma LeadsOn(s: State, step: Step, rest: seq<Step>, ttl: int, t: State)
    requires Enabled(s, step) && Leads(Apply(s, step, ttl), rest, ttl, t)
    ensures Leads(s, [step] + rest, ttl, t)
  {
    assert ([step] + rest)[1..] == rest;
  }

  /** They end in the store and with the answer of `Cache.Get`, and leave the other Gets in progress alone. */
  lemma GetIsItsSteps(s: State, id: nat, key: string, now: int, ttl: int) returns (t: State)
    requires id !in s.calls
    ensures Leads(s, GetSteps(s, id, key, now), ttl, t)
    ensures t.store == GetAlone(s.store, key, now).0 && t.calls == s.calls
    ensures t.done == s.done + [match GetAlone(s.store, key, now).1
                                case Some(data) => Hit(key, data, |s.log|, now)
                                case None => Miss(key, |s.log|)]
  {
    var read := Apply(s, ReadEntry(id, key), ttl);
    var decided := Apply(read, Decide(id, now), ttl);
    if key in s.store.items && Stale(s.store.items[key], now) {
      var evicted := Apply(decided, Evict(id), ttl);
      t := Apply(evicted, Finish(id), ttl);
      LeadsOn(evicted, Finish(id), [], ttl, t);
      LeadsOn(decided, Evict(id), [Finish(id)] + [], ttl, t);
      LeadsOn(read, Decide(id, now), [Evict(id)] + ([Finish(id)] + []), ttl, t);
      LeadsOn(s, ReadEntry(id, key), [Decide(id, now)] + ([Evict(id)] + ([Finish(id)] + [])), ttl, t);
      assert GetSteps(s, id, key, now)
             == [ReadEntry(id, key)] + ([Decide(id, now)] + ([Evict(id)] + ([Finish(id)] + [])));
    } else {
      t := decided;
      LeadsOn(read, Decide(id, now), [], ttl, t);
      LeadsOn(s, ReadEntry(id, key), [Decide(id, now)] + [], ttl, t);
      assert [ReadEntry(id, key)] + ([Decide(id, now)] + []) == GetSteps(s, id, key, now);
    }
  }

  /** Set and Clear are one step each. */
  lemma SetAndClearAreSteps(s: State, key: string, data: string, now: int, ttl: int)
    ensures Apply(s, SetKey(key, data, now), ttl).store == Put(s.store, key, data, now + ttl)
    ensures Apply(s, ClearItems, ttl).store == Clear(s.store)
    ensures Put(s.store, key, data, now + ttl).items[key] == Entry(data, now + ttl)
    ensures Put(s.store, key, data, now + ttl).counters == s.store.counters.(sets := s.store.counters.sets + 1)
    ensures Clear(s.store).counters == s.store.counters
    ensures forall k :: k in s.store.items && k != key ==>
              Put(s.store, key, data, now + ttl).items[k] == s.store.items[k]
    ensures Clear(s.store).items == map[]
  {
  }

  function WarmSteps(keys: seq<string>, values: map<string, string>, now: int): seq<Step>
    requires forall k :: k in keys ==> k in values
  {
    if keys == [] then [] else [WarmItems(keys[0], values[keys[0]], now)] + WarmSteps(keys[1..], values, now)
  }

  /** The store after those steps. */
  function WarmedBy(s: Store, keys: seq<string>, values: map<string, string>, expiry: int): Store
    requires forall k :: k in keys ==> k in values
    decreases |keys|
  {
    if keys == [] then s else WarmedBy(PutAll(s, map[keys[0] := values[keys[0]]], expiry), keys[1..], values, expiry)
  }

  lemma PutOne(s: Store, key: string, data: string, expiry: int)
    ensures PutAll(s, map[key := data], expiry) == s.(items := s.items[key := Entry(data, expiry)])
  {
    assert (map k | k in map[key := data] :: Entry(map[key := data][k], expiry)) == map[key := Entry(data, expiry)];
  }

  lemma {:induction false} WarmedByIs(s: Store, keys: seq<string>, values: map<string, string>, expiry: int)
    requires forall k :: k in keys ==> k in values
    ensures var t := WarmedBy(s, keys, values, expiry);
            && t.counters == s.counters
            && (forall k :: k in t.items <==> k in s.items || k in keys)
            && (forall k :: k in t.items ==> t.items[k] == if k in keys then Entry(values[k], expiry) else s.items[k])
    decreases |keys|
  {
    if keys != [] {
      PutOne(s, keys[0], values[keys[0]], expiry);
      WarmedByIs(PutAll(s, map[keys[0] := values[keys[0]]], expiry), keys[1..], values, expiry);
      assert keys == [keys[0]] + keys[1..];
    }
  }

  lemma WarmedByAll(s: Store, keys: seq<string>, values: map<string, string>, expiry: int)
    requires forall k :: k in keys <==> k in values
    ensures WarmedBy(s, keys, values, expiry) == PutAll(s, values, expiry)
  {
    WarmedByIs(s, keys, values, expiry);
    assert WarmedBy(s, keys, values, expiry).items == PutAll(s, values, expiry).items;
  }

  lemma WarmFirst(s: State, keys: seq<string>, values: map<string, string>, now: int, ttl: int, warmed: State, t: State)
    requires keys != [] && forall k :: k in keys ==> k in values
    requires warmed == Apply(s, WarmItems(keys[0], values[keys[0]], now), ttl)
    requires Leads(warmed, WarmSteps(keys[1..], values, now), ttl, t)
    ensures Leads(s, WarmSteps(keys, values, now), ttl, t)
  {
    LeadsOn(s, WarmItems(keys[0], values[keys[0]], now), WarmSteps(keys[1..], values, now), ttl, t);
  }

  lemma {:induction false} WarmingSome(s: State, keys: seq<string>, values: map<string, string>, now: int, ttl: int)
    returns (t: State)
    requires forall k :: k in keys ==> k in values
    ensures Leads(s, WarmSteps(keys, values, now), ttl, t)
    ensures t.store == WarmedBy(s.store, keys, values, now + ttl) && t.calls == s.calls && t.done == s.done
    decreases |keys|
  {
    if keys == [] {
      t := s;
    } else {
      var warmed := Apply(s, WarmItems(keys[0], values[keys[0]], now), ttl);
      t := WarmingSome(warmed, keys[1..], values, now, ttl);
      WarmFirst(s, keys, values, now, ttl, warmed, t);
    }
  }

  /** Warm is one step for each of its keys, in any order. */
  lemma WarmIsItsSteps(s: State, keys: seq<string>, values: map<string, string>, now: int, ttl: int) returns (t: State)
    requires forall k :: k in keys <==> k in values
    ensures Leads(s, WarmSteps(keys, values, now), ttl, t)
    ensures t.store == PutAll(s.store, values, now + ttl) && t.calls == s.calls && t.done == s.done
  {
    t := WarmingSome(s, keys, values, now, ttl);
    WarmedByAll(s.store, keys, values, now + ttl);
  }

  // ---------------------------------------------------------------- the yardstick

  /** The last write to `key` that no Clear has followed. Evictions are not writes. */
  function LastWrite(log: seq<Write>, key: string): Option<Write> {
    if log == [] then None
    else
      match log[|log| - 1]
      case Stored(k, _, _) => if k == key then Some(log[|log| - 1]) else LastWrite(log[..|log| - 1], key)
      case Cleared => None
      case Evicted(_) => LastWrite(log[..|log| - 1], key)
  }

  /** Whether an eviction has removed the key since its last write. */
  predicate EvictedSince(log: seq<Write>, key: string) {
    log != [] &&
    match log[|log| - 1]
    case Stored(k, _, _) => k != key && EvictedSince(log[..|log| - 1], key)
    case Cleared => false
    case Evicted(k) => k == key || EvictedSince(log[..|log| - 1], key)
  }

  predicate Comes(e: Entry, w: Option<Write>, ttl: int) {
    w.Some? && w.value.Stored? && e == Entry(w.value.data, w.value.at + ttl)
  }

  predicate GoodCall(log: seq<Write>, c: Call, ttl: int) {
    && c.readAt <= |log|
    && (c.Read? && c.entry.Some? ==> Comes(c.entry.value, LastWrite(log[..c.readAt], c.key), ttl))
    && (c.Evicting? ==> Comes(c.stale, LastWrite(log[..c.readAt], c.key), ttl))
  }

  /** A finished hit returned the last write before its read, no more than a ttl old. */
  predicate GoodHit(log: seq<Write>, f: Finished, ttl: int) {
    f.readAt <= |log|
    && (f.Hit? ==> var w := LastWrite(log[..f.readAt], f.key);
                   w.Some? && w.value.Stored? && w.value.data == f.data && f.at - w.value.at <= ttl)
  }

  /** The map holds exactly the last writes that no eviction has followed. */
  ghost predicate ItemsTrack(items: map<string, Entry>, log: seq<Write>, ttl: int) {
    && (forall k :: k in items <==> LastWrite(log, k).Some? && !EvictedSince(log, k))
    && (forall k :: k in items ==> Comes(items[k], LastWrite(log, k), ttl))
  }

  function HitsIn(done: seq<Finished>): nat {
    if done == [] then 0 else HitsIn(done[..|done| - 1]) + if done[|done| - 1].Hit? then 1 else 0
  }

  ghost predicate CallsGood(s: State, ttl: int) {
    && (forall id :: id in s.calls ==> GoodCall(s.log, s.calls[id], ttl))
    && (forall f :: f in s.done ==> GoodHit(s.log, f, ttl))
  }

  ghost predicate Inv(s: State, ttl: int) {
    && ItemsTrack(s.store.items, s.log, ttl)
    && CallsGood(s, ttl)
    && s.store.counters.hits == HitsIn(s.done)
    && s.store.counters.hits + s.store.counters.misses == |s.done|
  }

  lemma LogGrows(s: State, w: Write, ttl: int)
    requires CallsGood(s, ttl)
    ensures CallsGood(s.(log := s.log + [w]), ttl)
  {
    var log' := s.log + [w];
    forall id | id in s.calls ensures GoodCall(log', s.calls[id], ttl) {
      assert log'[..s.calls[id].readAt] == s.log[..s.calls[id].readAt];
    }
    forall f | f in s.done ensures GoodHit(log', f, ttl) {
      assert log'[..f.readAt] == s.log[..f.readAt];
    }
  }

  /** The effect of a write on the map. */
  function Written(items: map<string, Entry>, w: Write, ttl: int): map<string, Entry> {
    match w
    case Stored(k, data, at) => items[k := Entry(data, at + ttl)]
    case Cleared => map[]
    case Evicted(k) => items - {k}
  }

  lemma WriteTracks(items: map<string, Entry>, log: seq<Write>, w: Write, ttl: int)
    requires ItemsTrack(items, log, ttl)
    ensures ItemsTrack(Written(items, w, ttl), log + [w], ttl)
  {
    assert (log + [w])[..|log|] == log;
  }

  /** The steps that change the map. */
  lemma WritingStepKeepsInv(s: State, step: Step, w: Write, ttl: int)
    requires Inv(s, ttl) && Enabled(s, step)
    requires match step
             case SetKey(key, data, now) => w == Stored(key, data, now)
             case WarmItems(key, data, now) => w == Stored(key, data, now)
             case ClearItems => w == Cleared
             case Evict(id) => w == Evicted(s.calls[id].key)
             case _ => false
    ensures Inv(Apply(s, step, ttl), ttl)
  {
    var s' := Apply(s, step, ttl);
    WriteTracks(s.store.items, s.log, w, ttl);
    assert s'.store.items == Written(s.store.items, w, ttl);
    LogGrows(s, w, ttl);
    forall id | id in s'.calls ensures GoodCall(s'.log, s'.calls[id], ttl) {
      assert id in s.calls && GoodCall(s'.log, s.calls[id], ttl);
    }
  }

  // The steps of a Get that do not.

  lemma ReadKeepsInv(s: State, step: Step, ttl: int)
    requires Inv(s, ttl) && Enabled(s, step) && step.ReadEntry?
    ensures Inv(Apply(s, step, ttl), ttl)
  {
    assert s.log[..|s.log|] == s.log;
  }

  lemma HitsInMore(done: seq<Finished>, f: Finished)
    ensures HitsIn(done + [f]) == HitsIn(done) + if f.Hit? then 1 else 0
  {
    assert (done + [f])[..|done|] == done;
  }

  /** A Get ends: it is counted, and its answer is good. */
  lemma EndingKeepsInv(s: State, id: nat, f: Finished, store: Store, ttl: int)
    requires Inv(s, ttl) && GoodHit(s.log, f, ttl) && store.items == s.store.items
    requires store.counters.hits == s.store.counters.hits + if f.Hit? then 1 else 0
    requires store.counters.misses == s.store.counters.misses + if f.Hit? then 0 else 1
    ensures Inv(State(store, s.calls - {id}, s.log, s.done + [f]), ttl)
  {
    HitsInMore(s.done, f);
  }

  lemma DecideKeepsInv(s: State, id: nat, now: int, ttl: int)
    requires Inv(s, ttl) && Enabled(s, Decide(id, now))
    ensures Inv(Apply(s, Decide(id, now), ttl), ttl)
  {
    var c := s.calls[id];
    assert GoodCall(s.log, c, ttl);
    if c.entry.None? {
      EndingKeepsInv(s, id, Miss(c.key, c.readAt), CountMiss(s.store), ttl);
    } else if !Stale(c.entry.value, now) {
      EndingKeepsInv(s, id, Hit(c.key, c.entry.value.data, c.readAt, now), CountHit(s.store), ttl);
    }
  }

  lemma FinishKeepsInv(s: State, id: nat, ttl: int)
    requires Inv(s, ttl) && Enabled(s, Finish(id))
    ensures Inv(Apply(s, Finish(id), ttl), ttl)
  {
    assert GoodCall(s.log, s.calls[id], ttl);
    EndingKeepsInv(s, id, Miss(s.calls[id].key, s.calls[id].readAt), CountEviction(s.store), ttl);
  }

  lemma {:induction false} AlwaysInv(steps: seq<Step>, ttl: int)
    ensures Inv(After(steps, ttl), ttl)
  {
    if steps != [] {
      var s, step := After(steps[..|steps| - 1], ttl), steps[|steps| - 1];
      AlwaysInv(steps[..|steps| - 1], ttl);
      if Enabled(s, step) {
        match step
        case SetKey(key, data, now) => WritingStepKeepsInv(s, step, Stored(key, data, now), ttl);
        case WarmItems(key, data, now) => WritingStepKeepsInv(s, step, Stored(key, data, now), ttl);
        case ClearItems => WritingStepKeepsInv(s, step, Cleared, ttl);
        case Evict(id) => WritingStepKeepsInv(s, step, Evicted(s.calls[id].key), ttl);
        case ReadEntry(_, _) => ReadKeepsInv(s, step, ttl);
        case Decide(id, now) => DecideKeepsInv(s, id, now, ttl);
        case Finish(id) => FinishKeepsInv(s, id, ttl);
      }
    }
  }

  // ---------------------------------------------------------------- what every interleaving guarantees

  /** The counters account for every finished Get, and for nothing else. */
  lemma {:induction false} FinishedAreCounted(steps: seq<Step>, ttl: int)
    ensures var s := After(steps, ttl);
            s.store.counters.hits == HitsIn(s.done) && s.store.counters.misses == |s.done| - HitsIn(s.done)
  {
    AlwaysInv(steps, ttl);
  }

  /** A hit returns the value of the last write to its key before its read, a write that no Clear had followed and that
      is no older than the ttl. */
  lemma HitsAreFreshAndLast(steps: seq<Step>, ttl: int, i: nat)
    requires i < |After(steps, ttl).done| && After(steps, ttl).done[i].Hit?
    ensures var s := After(steps, ttl);
            var f := s.done[i];
            f.readAt <= |s.log| && LastWrite(s.log[..f.readAt], f.key).Some?
            && var w := LastWrite(s.log[..f.readAt], f.key).value;
               w.Stored? && w.key == f.key && w.data == f.data && f.at <= w.at + ttl
  {
    AlwaysInv(steps, ttl);
    var s := After(steps, ttl);
    assert GoodHit(s.log, s.done[i], ttl);
    LastWriteIsToKey(s.log[..s.done[i].readAt], s.done[i].key);
  }

  lemma {:induction false} LastWriteIsToKey(log: seq<Write>, key: string)
    ensures LastWrite(log, key).Some? ==> LastWrite(log, key).value.Stored? && LastWrite(log, key).value.key == key
  {
    if log != [] {
      LastWriteIsToKey(log[..|log| - 1], key);
    }
  }

  /** What a Get finds: the entry of the last write, unless that write has been evicted since. */
  lemma {:induction false} ReadsFindIff(steps: seq<Step>, ttl: int, key: string)
    ensures var s := After(steps, ttl);
            Lookup(s.store, key).Some? <==> LastWrite(s.log, key).Some? && !EvictedSince(s.log, key)
  {
    AlwaysInv(steps, ttl);
  }

  /** The writes since the call's read that are still in force: what its delete would destroy. */
  function NewerWrite(log: seq<Write>, readAt: nat, key: string): Option<Write>
    requires readAt <= |log|
  {
    if EvictedSince(log[readAt..], key) then None else LastWrite(log[readAt..], key)
  }

  /** A write after position `n` that is in force in the rest of the log is in force in the whole of it. */
  lemma {:induction false} TailDecides(log: seq<Write>, n: nat, key: string)
    requires n <= |log| && LastWrite(log[n..], key).Some?
    ensures LastWrite(log, key) == LastWrite(log[n..], key)
    ensures EvictedSince(log, key) == EvictedSince(log[n..], key)
    decreases |log|
  {
    var before := log[..|log| - 1];
    assert n < |log|;
    assert log[n..][..|log| - n - 1] == before[n..];
    if LastWrite(before[n..], key).Some? {
      TailDecides(before, n, key);
    }
  }

  /** With no such write, the key's last write is still the one before position `n`, or is gone. */
  lemma {:induction false} TailLeaves(log: seq<Write>, n: nat, key: string)
    requires n <= |log| && (LastWrite(log[n..], key).None? || EvictedSince(log[n..], key))
    ensures LastWrite(log, key).None? || EvictedSince(log, key) || LastWrite(log, key) == LastWrite(log[..n], key)
    decreases |log|
  {
    if n == |log| {
      assert log[..n] == log;
    } else if LastWrite(log[n..], key).Some? {
      TailDecides(log, n, key);
    } else {
      var before := log[..|log| - 1];
      assert log[n..][..|log| - n - 1] == before[n..];
      assert before[..n] == log[..n];
      if log[|log| - 1] != Cleared {
        TailLeaves(before, n, key);
      }
    }
  }

  /** What an eviction deletes: a newer entry if and only if the key has been stored since the Get's read and that write
      has been neither cleared nor evicted; otherwise nothing but the stale entry it read. */
  lemma EvictionDestroysIff(steps: seq<Step>, ttl: int, id: nat)
    requires Enabled(After(steps, ttl), Evict(id))
    ensures var s := After(steps, ttl);
            var c := s.calls[id];
            c.readAt <= |s.log| &&
            match NewerWrite(s.log, c.readAt, c.key)
            case Some(w) => w.Stored? && Lookup(s.store, c.key) == Some(Entry(w.data, w.at + ttl))
            case None => Lookup(s.store, c.key).None? || Lookup(s.store, c.key) == Some(c.stale)
    ensures Lookup(Apply(After(steps, ttl), Evict(id), ttl).store, After(steps, ttl).calls[id].key).None?
  {
    AlwaysInv(steps, ttl);
    var s := After(steps, ttl);
    var c := s.calls[id];
    assert GoodCall(s.log, c, ttl);
    if NewerWrite(s.log, c.readAt, c.key).Some? {
      TailDecides(s.log, c.readAt, c.key);
      LastWriteIsToKey(s.log, c.key);
    } else {
      TailLeaves(s.log, c.readAt, c.key);
    }
  }

  /** So the entry lost is a fresh one exactly if there is such a write and it is no older than the ttl. */
  lemma FreshEntryIsLostIff(steps: seq<Step>, ttl: int, id: nat, now: int)
    requires Enabled(After(steps, ttl), Evict(id)) && Stale(After(steps, ttl).calls[id].stale, now)
    ensures var s := After(steps, ttl);
            var c := s.calls[id];
            c.readAt <= |s.log| &&
            ((Lookup(s.store, c.key).Some? && !Stale(Lookup(s.store, c.key).value, now))
             <==> match NewerWrite(s.log, c.readAt, c.key)
                  case Some(w) => w.Stored? && now <= w.at + ttl
                  case None => false)
  {
    EvictionDestroysIff(steps, ttl, id);
  }

  /** It happens: here a Get reads "old" when it is stale, "new" is stored, and the Get's delete
      removes "new", which nobody has cleared and which is as young as can be. */
  lemma FreshEntryCanBeLost(ttl: nat)
    ensures var steps := [SetKey("k", "old", 0), ReadEntry(0, "k"), Decide(0, ttl + 1),
                          SetKey("k", "new", ttl + 1), Evict(0)];
            var s := After(steps, ttl);
            LastWrite(s.log, "k") == Some(Stored("k", "new", ttl + 1)) && Lookup(s.store, "k").None?
  {
    assert After([], ttl) == INIT;
    var p1 := AndThen([], SetKey("k", "old", 0), ttl);
    var p2 := AndThen(p1, ReadEntry(0, "k"), ttl);
    var p3 := AndThen(p2, Decide(0, ttl + 1), ttl);
    assert After(p3, ttl).calls[0] == Evicting("k", Entry("old", ttl), 1);
    var p4 := AndThen(p3, SetKey("k", "new", ttl + 1), ttl);
    assert After(p4, ttl).calls[0].key == "k";
    var p5 := AndThen(p4, Evict(0), ttl);
    assert p5 == [SetKey("k", "old", 0), ReadEntry(0, "k"), Decide(0, ttl + 1), SetKey("k", "new", ttl + 1), Evict(0)];
    assert Lookup(After(p5, ttl).store, "k").None?;
    var log := After(p4, ttl).log;
    assert LastWrite(log, "k") == Some(Stored("k", "new", ttl + 1));
    assert (log + [Evicted("k")])[..|log|] == log;
  }

  lemma AndThen(steps: seq<Step>, step: Step, ttl: int) returns (longer: seq<Step>)
    requires Enabled(After(steps, ttl), step)
    ensures longer == steps + [step] && After(longer, ttl) == Apply(After(steps, ttl), step, ttl)
  {
    longer := steps + [step];
    assert longer[..|steps|] == steps;
  }
}
