/** The distributed cache: any number of instances, each with an `enabled` flag and a local TTL cache to fall back on,
    in front of one Redis.

    Calls are split into the steps between which others can run. Redis may fail to answer any request, may apply a Set
    whose answer is lost, and may apply it late; pings fail and recover at will. Values are their JSON text. */
module RedisCache {
  import opened Options

  datatype Entry = Entry(data: string, expiresAt: int)

  /** Where an entry lives: in Redis, or in the local cache of one instance. */
  datatype Site = Redis | Local(instance: nat)

  datatype SetPhase = Begun | Sent | ToLocal | Finished

  /** `mayApply`: the request is with Redis, which has not applied it yet. */
  datatype SetCall = SetCall(instance: nat, key: string, data: string, phase: SetPhase, mayApply: bool)

  datatype GetPhase = Asking | AtRedis | AtLocal | GotLocal(entry: Entry, readAt: nat)

  datatype GetCall = GetCall(instance: nat, key: string, phase: GetPhase)

  /** One entry written at one site, by the Set call `writer`. */
  datatype Write = Write(site: Site, key: string, data: string, at: int, writer: nat)

  datatype Hit = Hit(site: Site, key: string, data: string, readAt: nat, at: int)

  datatype State = State(
    enabled: map<nat, bool>,
    stores: map<(Site, string), Entry>,
    sets: map<nat, SetCall>,
    gets: map<nat, GetCall>,
    log: seq<Write>,
    hits: seq<Hit>)

  const INIT: State := State(map[], map[], map[], map[], [], [])

  datatype Step =
    | Boot(instance: nat)
    | CheckHealth(instance: nat, healthy: bool)   // the flag follows the ping
    | CloseCache(instance: nat)
    | ClearLocal(instance: nat)                   // Redis entries are left to expire
    | EvictLocal(instance: nat, key: string)      // the lazy eviction of the local cache, at any moment
    | SetBegin(id: nat, instance: nat, key: string, data: string)
    | SetChoose(id: nat)
    | SetApply(id: nat, at: int)                  // Redis applies the SET
    | SetAnswer(id: nat, ok: bool)
    | SetLocal(id: nat, at: int)
    | GetBegin(id: nat, instance: nat, key: string)
    | GetChoose(id: nat)
    | GetAnswer(id: nat, at: int, lost: bool)     // Redis looks the key up at `at`
    | GetReadLocal(id: nat)
    | GetDecide(id: nat, at: int)

  predicate Enabled(s: State, step: Step) {
    match step
    case Boot(i) => i !in s.enabled
    case CheckHealth(i, _) => i in s.enabled
    case CloseCache(i) => i in s.enabled
    case ClearLocal(_) => true
    case EvictLocal(_, _) => true
    case SetBegin(id, i, _, _) => id !in s.sets && i in s.enabled
    case SetChoose(id) => id in s.sets && s.sets[id].phase.Begun? && s.sets[id].instance in s.enabled
    case SetApply(id, _) => id in s.sets && s.sets[id].mayApply
    case SetAnswer(id, ok) => id in s.sets && s.sets[id].phase.Sent? && (ok ==> !s.sets[id].mayApply)
    case SetLocal(id, _) => id in s.sets && s.sets[id].phase.ToLocal?
    case GetBegin(id, i, _) => id !in s.gets && i in s.enabled
    case GetChoose(id) => id in s.gets && s.gets[id].phase.Asking? && s.gets[id].instance in s.enabled
    case GetAnswer(id, _, _) => id in s.gets && s.gets[id].phase.AtRedis?
    case GetReadLocal(id) => id in s.gets && s.gets[id].phase.AtLocal?
    case GetDecide(id, _) => id in s.gets && s.gets[id].phase.GotLocal?
  }

  function Store(s: State, w: Write, ttl: int): State {
    s.(stores := s.stores[(w.site, w.key) := Entry(w.data, w.at + ttl)], log := s.log + [w])
  }

  function SetTo(s: State, id: nat, phase: SetPhase): State
    requires id in s.sets
  {
    s.(sets := s.sets[id := s.sets[id].(phase := phase)])
  }

  function GetTo(s: State, id: nat, phase: GetPhase): State
    requires id in s.gets
  {
    s.(gets := s.gets[id := s.gets[id].(phase := phase)])
  }

  function Apply(s: State, step: Step, ttl: int): State
    requires Enabled(s, step)
  {
    match step
    case Boot(i) => s.(enabled := s.enabled[i := true])
    case CheckHealth(i, healthy) => s.(enabled := s.enabled[i := healthy])
    case CloseCache(i) => s.(enabled := s.enabled[i := false])
    case ClearLocal(i) => s.(stores := map k | k in s.stores && k.0 != Local(i) :: s.stores[k])
    case EvictLocal(i, key) => s.(stores := s.stores - {(Local(i), key)})
    case SetBegin(id, i, key, data) => s.(sets := s.sets[id := SetCall(i, key, data, Begun, false)])
    case SetChoose(id) =>
      if s.enabled[s.sets[id].instance]
      then s.(sets := s.sets[id := s.sets[id].(phase := Sent, mayApply := true)])
      else SetTo(s, id, ToLocal)
    case SetApply(id, at) =>
      var c := s.sets[id];
      Store(s.(sets := s.sets[id := c.(mayApply := false)]), Write(Redis, c.key, c.data, at, id), ttl)
    case SetAnswer(id, ok) => SetTo(s, id, if ok then Finished else ToLocal)
    case SetLocal(id, at) =>
      var c := s.sets[id];
      Store(SetTo(s, id, Finished), Write(Local(c.instance), c.key, c.data, at, id), ttl)
    case GetBegin(id, i, key) => s.(gets := s.gets[id := GetCall(i, key, Asking)])
    case GetChoose(id) => GetTo(s, id, if s.enabled[s.gets[id].instance] then AtRedis else AtLocal)
    case GetAnswer(id, at, lost) =>
      var k := (Redis, s.gets[id].key);
      if !lost && k in s.stores && at < s.stores[k].expiresAt
      then s.(gets := s.gets - {id}, hits := s.hits + [Hit(Redis, k.1, s.stores[k].data, |s.log|, at)])
      else GetTo(s, id, AtLocal)
    case GetReadLocal(id) =>
      var k := (Local(s.gets[id].instance), s.gets[id].key);
      if k in s.stores then GetTo(s, id, GotLocal(s.stores[k], |s.log|)) else s.(gets := s.gets - {id})
    case GetDecide(id, at) =>
      var c := s.gets[id];
      if at > c.phase.entry.expiresAt then s.(gets := s.gets - {id})
      else s.(gets := s.gets - {id},
              hits := s.hits + [Hit(Local(c.instance), c.key, c.phase.entry.data, c.phase.readAt, at)])
  }

  /** A step that is not enabled does not happen. */
  function After(steps: seq<Step>, ttl: int): State {
    if steps == [] then INIT
    else
      var s, step := After(steps[..|steps| - 1], ttl), steps[|steps| - 1];
      if Enabled(s, step) then Apply(s, step, ttl) else s
  }

  // ---------------------------------------------------------------- the yardstick

  /** The last write to a key at a site. */
  function LastAt(log: seq<Write>, site: Site, key: string): Option<Write> {
    if log == [] then None
    else if log[|log| - 1].site == site && log[|log| - 1].key == key then Some(log[|log| - 1])
    else LastAt(log[..|log| - 1], site, key)
  }

  predicate Comes(e: Entry, w: Option<Write>, ttl: int) {
    w.Some? && e == Entry(w.value.data, w.value.at + ttl)
  }

  ghost predicate StoresTrack(s: State, ttl: int) {
    forall site, key :: (site, key) in s.stores ==> Comes(s.stores[(site, key)], LastAt(s.log, site, key), ttl)
  }

  /** Every write is a Set call's: its key and its data are those of the call, and a local write is in the cache of the
      calling instance. */
  predicate WrittenByItsCall(s: State, w: Write) {
    w.writer in s.sets && s.sets[w.writer].key == w.key && s.sets[w.writer].data == w.data
    && (w.site.Local? ==> w.site.instance == s.sets[w.writer].instance)
  }

  predicate GoodGet(log: seq<Write>, c: GetCall, ttl: int) {
    c.phase.GotLocal? ==>
      c.phase.readAt <= |log| && Comes(c.phase.entry, LastAt(log[..c.phase.readAt], Local(c.instance), c.key), ttl)
  }

  predicate GoodHit(log: seq<Write>, h: Hit, ttl: int) {
    h.readAt <= |log|
    && var w := LastAt(log[..h.readAt], h.site, h.key);
       w.Some? && w.value.data == h.data && h.at - w.value.at <= ttl
  }

  ghost predicate CallsGood(s: State, ttl: int) {
    && (forall id :: id in s.gets ==> GoodGet(s.log, s.gets[id], ttl))
    && (forall h :: h in s.hits ==> GoodHit(s.log, h, ttl))
  }

  ghost predicate Inv(s: State, ttl: int) {
    StoresTrack(s, ttl) && CallsGood(s, ttl) && forall w :: w in s.log ==> WrittenByItsCall(s, w)
  }

  lemma StoreKeepsInv(s: State, w: Write, ttl: int)
    requires Inv(s, ttl) && WrittenByItsCall(s, w)
    ensures Inv(Store(s, w, ttl), ttl)
  {
    var log' := s.log + [w];
    assert log'[..|s.log|] == s.log;
    forall id | id in s.gets ensures GoodGet(log', s.gets[id], ttl) {
      if s.gets[id].phase.GotLocal? {
        assert log'[..s.gets[id].phase.readAt] == s.log[..s.gets[id].phase.readAt];
      }
    }
    forall h | h in s.hits ensures GoodHit(log', h, ttl) {
      assert log'[..h.readAt] == s.log[..h.readAt];
    }
  }

  // The steps of a Get.

  lemma GetStartKeepsInv(s: State, step: Step, ttl: int)
    requires Inv(s, ttl) && Enabled(s, step) && (step.GetBegin? || step.GetChoose?)
    ensures Inv(Apply(s, step, ttl), ttl)
  {
  }

  lemma GetAnswerKeepsInv(s: State, step: Step, ttl: int)
    requires Inv(s, ttl) && Enabled(s, step) && step.GetAnswer?
    ensures Inv(Apply(s, step, ttl), ttl)
  {
    assert s.log[..|s.log|] == s.log;
    var k := (Redis, s.gets[step.id].key);
    assert k in s.stores ==> Comes(s.stores[k], LastAt(s.log, k.0, k.1), ttl);
  }

  lemma GetLocalKeepsInv(s: State, step: Step, ttl: int)
    requires Inv(s, ttl) && Enabled(s, step) && (step.GetReadLocal? || step.GetDecide?)
    ensures Inv(Apply(s, step, ttl), ttl)
  {
    assert s.log[..|s.log|] == s.log;
    assert GoodGet(s.log, s.gets[step.id], ttl);
  }

  lemma StepKeepsInv(s: State, step: Step, ttl: int)
    requires Inv(s, ttl) && Enabled(s, step)
    ensures Inv(Apply(s, step, ttl), ttl)
  {
    match step
    case SetApply(id, at) =>
      var c := s.sets[id];
      StoreKeepsInv(s.(sets := s.sets[id := c.(mayApply := false)]), Write(Redis, c.key, c.data, at, id), ttl);
    case SetLocal(id, at) =>
      var c := s.sets[id];
      StoreKeepsInv(SetTo(s, id, Finished), Write(Local(c.instance), c.key, c.data, at, id), ttl);
    case GetBegin(_, _, _) => GetStartKeepsInv(s, step, ttl);
    case GetChoose(_) => GetStartKeepsInv(s, step, ttl);
    case GetAnswer(_, _, _) => GetAnswerKeepsInv(s, step, ttl);
    case GetReadLocal(_) => GetLocalKeepsInv(s, step, ttl);
    case GetDecide(_, _) => GetLocalKeepsInv(s, step, ttl);
    case _ =>
  }

  lemma {:induction false} AlwaysInv(steps: seq<Step>, ttl: int)
    ensures Inv(After(steps, ttl), ttl)
  {
    if steps != [] {
      var s, step := After(steps[..|steps| - 1], ttl), steps[|steps| - 1];
      AlwaysInv(steps[..|steps| - 1], ttl);
      if Enabled(s, step) {
        StepKeepsInv(s, step, ttl);
      }
    }
  }

  lemma {:induction false} LastAtIsThere(log: seq<Write>, site: Site, key: string)
    ensures LastAt(log, site, key).Some? ==>
              LastAt(log, site, key).value in log && LastAt(log, site, key).value.site == site
              && LastAt(log, site, key).value.key == key
  {
    if log != [] {
      LastAtIsThere(log[..|log| - 1], site, key);
    }
  }

  /** Under any mix of Redis errors, failed pings and recoveries, every hit returns the last value written under its key
      at the site it was read from, by a Set call for that very key and value, and no more than a ttl before. */
  lemma HitsWereSetWithinTtl(steps: seq<Step>, ttl: int, i: nat)
    requires i < |After(steps, ttl).hits|
    ensures var s := After(steps, ttl);
            var h := s.hits[i];
            h.readAt <= |s.log| && LastAt(s.log[..h.readAt], h.site, h.key).Some?
            && var w := LastAt(s.log[..h.readAt], h.site, h.key).value;
               w.writer in s.sets && s.sets[w.writer].key == h.key && s.sets[w.writer].data == h.data
               && h.at <= w.at + ttl
               && (h.site.Local? ==> s.sets[w.writer].instance == h.site.instance)
  {
    AlwaysInv(steps, ttl);
    var s := After(steps, ttl);
    var h := s.hits[i];
    assert GoodHit(s.log, h, ttl);
    LastAtIsThere(s.log[..h.readAt], h.site, h.key);
    var w := LastAt(s.log[..h.readAt], h.site, h.key).value;
    assert w in s.log && WrittenByItsCall(s, w);
  }

  // ---------------------------------------------------------------- what calls find and leave

  ghost predicate Leads(s: State, steps: seq<Step>, ttl: int, t: State)
    decreases |steps|
  {
    if steps == [] then s == t else Enabled(s, steps[0]) && Leads(Apply(s, steps[0], ttl), steps[1..], ttl, t)
  }

  lemma LeadsOn(s: State, step: Step, rest: seq<Step>, ttl: int, t: State)
    requires Enabled(s, step) && Leads(Apply(s, step, ttl), rest, ttl, t)
    ensures Leads(s, [step] + rest, ttl, t)
  {
    assert ([step] + rest)[1..] == rest;
  }

  /** The entry is at the site and in date: Redis has dropped it at its expiry, the local cache serves it until then. */
  predicate InDate(s: State, site: Site, key: string, at: int) {
    (site, key) in s.stores &&
    if site.Redis? then at < s.stores[(site, key)].expiresAt else at <= s.stores[(site, key)].expiresAt
  }

  /** Where an uninterrupted Get finds its value: in Redis if the instance has it enabled and the answer comes, else in
      the instance's own cache. */
  function Finds(s: State, i: nat, key: string, at: int, lost: bool): Option<Site>
    requires i in s.enabled
  {
    if s.enabled[i] && !lost && InDate(s, Redis, key, at) then Some(Redis)
    else if InDate(s, Local(i), key, at) then Some(Local(i))
    else None
  }

  /** The part of a Get that looks into the local cache. */
  lemma LocalGet(s: State, id: nat, at: int, ttl: int) returns (steps: seq<Step>, t: State)
    requires id in s.gets && s.gets[id].phase.AtLocal?
    ensures Leads(s, steps, ttl, t) && t.stores == s.stores && t.enabled == s.enabled && t.gets == s.gets - {id}
    ensures var c := s.gets[id];
            var site := Local(c.instance);
            t.hits == s.hits + if InDate(s, site, c.key, at)
                               then [Hit(site, c.key, s.stores[(site, c.key)].data, |s.log|, at)] else []
  {
    var k := (Local(s.gets[id].instance), s.gets[id].key);
    var read := Apply(s, GetReadLocal(id), ttl);
    if k in s.stores {
      t := Apply(read, GetDecide(id, at), ttl);
      LeadsOn(read, GetDecide(id, at), [], ttl, t);
      LeadsOn(s, GetReadLocal(id), [GetDecide(id, at)] + [], ttl, t);
      steps := [GetReadLocal(id)] + ([GetDecide(id, at)] + []);
      assert read.gets - {id} == s.gets - {id};
    } else {
      t := read;
      LeadsOn(s, GetReadLocal(id), [], ttl, t);
      steps := [GetReadLocal(id)] + [];
    }
  }

  /** The part of a Get that asks Redis, and looks into the local cache if that yields nothing. */
  lemma RedisGet(s: State, id: nat, at: int, lost: bool, ttl: int) returns (steps: seq<Step>, t: State)
    requires id in s.gets && s.gets[id].phase.AtRedis?
    ensures Leads(s, steps, ttl, t) && t.stores == s.stores && t.enabled == s.enabled && t.gets == s.gets - {id}
    ensures var c := s.gets[id];
            var site := if !lost && InDate(s, Redis, c.key, at) then Redis else Local(c.instance);
            t.hits == s.hits + if InDate(s, site, c.key, at)
                               then [Hit(site, c.key, s.stores[(site, c.key)].data, |s.log|, at)] else []
  {
    var answered := Apply(s, GetAnswer(id, at, lost), ttl);
    if !lost && InDate(s, Redis, s.gets[id].key, at) {
      t := answered;
      LeadsOn(s, GetAnswer(id, at, lost), [], ttl, t);
      steps := [GetAnswer(id, at, lost)] + [];
    } else {
      var rest;
      rest, t := LocalGet(answered, id, at, ttl);
      LeadsOn(s, GetAnswer(id, at, lost), rest, ttl, t);
      steps := [GetAnswer(id, at, lost)] + rest;
      assert answered.gets - {id} == s.gets - {id};
    }
  }

  /** An uninterrupted Get hits with the value at the site where it finds one, and otherwise misses; it changes no
      entry. */
  lemma GetHitsIff(s: State, id: nat, i: nat, key: string, at: int, lost: bool, ttl: int)
    returns (steps: seq<Step>, t: State)
    requires id !in s.gets && i in s.enabled
    ensures Leads(s, steps, ttl, t) && t.stores == s.stores && t.enabled == s.enabled && t.gets == s.gets
    ensures t.hits == s.hits + match Finds(s, i, key, at, lost)
                               case Some(site) => [Hit(site, key, s.stores[(site, key)].data, |s.log|, at)]
                               case None => []
  {
    var begun := Apply(s, GetBegin(id, i, key), ttl);
    var chosen := Apply(begun, GetChoose(id), ttl);
    var rest;
    if s.enabled[i] {
      rest, t := RedisGet(chosen, id, at, lost, ttl);
    } else {
      rest, t := LocalGet(chosen, id, at, ttl);
    }
    LeadsOn(begun, GetChoose(id), rest, ttl, t);
    LeadsOn(s, GetBegin(id, i, key), [GetChoose(id)] + rest, ttl, t);
    steps := [GetBegin(id, i, key)] + ([GetChoose(id)] + rest);
    assert chosen.gets - {id} == s.gets;
  }

  lemma RedisSet(s: State, id: nat, at: int, ttl: int) returns (steps: seq<Step>, t: State)
    requires id in s.sets && s.sets[id].phase.Sent? && s.sets[id].mayApply
    ensures Leads(s, steps, ttl, t) && id in t.sets && t.sets[id].phase.Finished?
    ensures t.enabled == s.enabled && t.gets == s.gets && t.hits == s.hits
    ensures t.stores == s.stores[(Redis, s.sets[id].key) := Entry(s.sets[id].data, at + ttl)]
  {
    var applied := Apply(s, SetApply(id, at), ttl);
    t := Apply(applied, SetAnswer(id, true), ttl);
    LeadsOn(applied, SetAnswer(id, true), [], ttl, t);
    LeadsOn(s, SetApply(id, at), [SetAnswer(id, true)] + [], ttl, t);
    steps := [SetApply(id, at)] + ([SetAnswer(id, true)] + []);
  }

  lemma LocalSet(s: State, id: nat, at: int, ttl: int) returns (steps: seq<Step>, t: State)
    requires id in s.sets && (s.sets[id].phase.Sent? || s.sets[id].phase.ToLocal?)
    ensures Leads(s, steps, ttl, t) && id in t.sets && t.sets[id].phase.Finished?
    ensures t.enabled == s.enabled && t.gets == s.gets && t.hits == s.hits
    ensures t.stores == s.stores[(Local(s.sets[id].instance), s.sets[id].key) := Entry(s.sets[id].data, at + ttl)]
  {
    var local := if s.sets[id].phase.Sent? then Apply(s, SetAnswer(id, false), ttl) else s;
    t := Apply(local, SetLocal(id, at), ttl);
    LeadsOn(local, SetLocal(id, at), [], ttl, t);
    steps := [SetLocal(id, at)] + [];
    if s.sets[id].phase.Sent? {
      LeadsOn(s, SetAnswer(id, false), steps, ttl, t);
      steps := [SetAnswer(id, false)] + steps;
    }
  }

  /** An uninterrupted Set leaves its value with a full ttl in Redis if the instance has it enabled and the answer
      comes, else in the instance's own cache; and nothing else changes. */
  lemma SetWrites(s: State, id: nat, i: nat, key: string, data: string, at: int, lost: bool, ttl: int)
    returns (steps: seq<Step>, t: State)
    requires id !in s.sets && i in s.enabled
    ensures Leads(s, steps, ttl, t) && id in t.sets && t.sets[id].phase.Finished?
    ensures t.enabled == s.enabled && t.gets == s.gets && t.hits == s.hits
    ensures var site := if s.enabled[i] && !lost then Redis else Local(i);
            t.stores == s.stores[(site, key) := Entry(data, at + ttl)]
  {
    var begun := Apply(s, SetBegin(id, i, key, data), ttl);
    var chosen := Apply(begun, SetChoose(id), ttl);
    var rest;
    if s.enabled[i] && !lost {
      rest, t := RedisSet(chosen, id, at, ttl);
    } else {
      rest, t := LocalSet(chosen, id, at, ttl);
    }
    LeadsOn(begun, SetChoose(id), rest, ttl, t);
    LeadsOn(s, SetBegin(id, i, key, data), [SetChoose(id)] + rest, ttl, t);
    steps := [SetBegin(id, i, key, data)] + ([SetChoose(id)] + rest);
  }

  /** Its Set call has written. */
  ghost predicate HasWritten(s: State, id: nat) {
    exists w :: w in s.log && w.writer == id
  }

  ghost predicate DoneHaveWritten(s: State) {
    forall id :: id in s.sets && (s.sets[id].phase.Finished? || (s.sets[id].phase.Sent? && !s.sets[id].mayApply)) ==>
      HasWritten(s, id)
  }

  lemma StepKeepsWritten(s: State, step: Step, ttl: int)
    requires DoneHaveWritten(s) && Enabled(s, step)
    ensures DoneHaveWritten(Apply(s, step, ttl))
  {
    var t := Apply(s, step, ttl);
    assert s.log <= t.log;
    forall id | HasWritten(s, id) ensures HasWritten(t, id) {
      var w :| w in s.log && w.writer == id;
      assert w in t.log;
    }
    if step.SetApply? || step.SetLocal? {
      assert t.log[|s.log|].writer == step.id && t.log[|s.log|] in t.log;
    }
  }

  /** Whatever happens in between, a Set that has finished has written its value somewhere: no failure loses it
      silently. */
  lemma {:induction false} FinishedSetsHaveWritten(steps: seq<Step>, ttl: int, id: nat)
    requires id in After(steps, ttl).sets && After(steps, ttl).sets[id].phase.Finished?
    ensures exists w :: w in After(steps, ttl).log && w.writer == id
                        && w.key == After(steps, ttl).sets[id].key && w.data == After(steps, ttl).sets[id].data
  {
    WrittenAlways(steps, ttl);
    AlwaysInv(steps, ttl);
    var w :| w in After(steps, ttl).log && w.writer == id;
    assert WrittenByItsCall(After(steps, ttl), w);
  }

  lemma {:induction false} WrittenAlways(steps: seq<Step>, ttl: int)
    ensures DoneHaveWritten(After(steps, ttl))
  {
    if steps != [] {
      var s, step := After(steps[..|steps| - 1], ttl), steps[|steps| - 1];
      WrittenAlways(steps[..|steps| - 1], ttl);
      if Enabled(s, step) {
        StepKeepsWritten(s, step, ttl);
      }
    }
  }

  /** The flag of an instance is what its last ping said, off once it is closed, and changed by nothing else. */
  lemma FlagFollowsThePing(s: State, step: Step, i: nat, ttl: int)
    requires Enabled(s, step)
    ensures step.CheckHealth? && step.instance == i ==>
              i in Apply(s, step, ttl).enabled && Apply(s, step, ttl).enabled[i] == step.healthy
    ensures step == CloseCache(i) ==> i in Apply(s, step, ttl).enabled && !Apply(s, step, ttl).enabled[i]
    ensures i in s.enabled && !(step.CheckHealth? && step.instance == i) && step != CloseCache(i) ==>
              i in Apply(s, step, ttl).enabled && Apply(s, step, ttl).enabled[i] == s.enabled[i]
  {
  }

  /** Clearing and evicting take away entries of the instance's own cache only. */
  lemma RemovalIsLocal(s: State, step: Step, site: Site, key: string, ttl: int)
    requires Enabled(s, step) && (step.ClearLocal? || step.EvictLocal?)
    ensures (site, key) in Apply(s, step, ttl).stores <==>
            (site, key) in s.stores && !(site == Local(step.instance) && (step.ClearLocal? || step.key == key))
    ensures (site, key) in Apply(s, step, ttl).stores ==>
              Apply(s, step, ttl).stores[(site, key)] == s.stores[(site, key)]
  {
  }
}
