/** Keys of the shared cache, and the marker that binds one Redis to one chain. */
module CacheKey {
  import opened Decimal
  import opened Options

  // ---------------------------------------------------------------- keys

  function Appended(parts: seq<string>): string {
    if parts == [] then "" else ":" + parts[0] + Appended(parts[1..])
  }

  function KeyOf(chainId: nat, parts: seq<string>): string {
    "mw:" + Numeral(chainId) + Appended(parts)
  }

  method Key(chainId: nat, parts: seq<string>) returns (key: string)
    ensures key == KeyOf(chainId, parts)
  {
    var b := "mw:";
    b := b + Numeral(chainId);
    for i := 0 to |parts|
      invariant b + Appended(parts[i..]) == KeyOf(chainId, parts)
    {
      assert parts[i..][0] == parts[i] && parts[i..][1..] == parts[i + 1..];
      b := b + ":";
      b := b + parts[i];
    }
    assert parts[|parts|..] == [];
    key := b;
  }

  /** The pieces between the colons. */
  function Split(s: string): (ps: seq<string>)
    ensures ps != []
  {
    if s == "" then [""]
    else if s[0] == ':' then [""] + Split(s[1..])
    else [[s[0]] + Split(s[1..])[0]] + Split(s[1..])[1..]
  }

  function Unsplit(ps: seq<string>): string
    requires ps != []
  {
    if |ps| == 1 then ps[0] else ps[0] + ":" + Unsplit(ps[1..])
  }

  lemma {:induction false} UnsplitOfSplit(s: string)
    ensures Unsplit(Split(s)) == s
  {
    if s != "" {
      var rest := Split(s[1..]);
      UnsplitOfSplit(s[1..]);
      assert s == [s[0]] + s[1..];
      if s[0] == ':' {
        assert Split(s)[1..] == rest;
      } else {
        assert Split(s)[1..] == rest[1..];
        if |rest| > 1 {
          assert ([s[0]] + rest[0]) + ":" + Unsplit(rest[1..]) == [s[0]] + (rest[0] + ":" + Unsplit(rest[1..]));
        }
      }
    }
  }

  lemma {:induction false} SplitAtColon(s: string, t: string)
    ensures Split(s + ":" + t) == Split(s) + Split(t)
  {
    var all := s + ":" + t;
    if s == "" {
      assert all[1..] == t;
    } else {
      assert all[0] == s[0] && all[1..] == s[1..] + ":" + t;
      SplitAtColon(s[1..], t);
    }
  }

  lemma {:induction false} SplitWithoutColon(s: string)
    requires ':' !in s
    ensures Split(s) == [s]
  {
    if s != "" {
      SplitWithoutColon(s[1..]);
      assert s == [s[0]] + s[1..];
    }
  }

  /** What of the parts a key keeps: where a part ends is lost, where a colon stands is not. */
  function Pieces(parts: seq<string>): seq<string> {
    if parts == [] then [] else Split(parts[0]) + Pieces(parts[1..])
  }

  lemma {:induction false} SplitOfAppended(head: string, parts: seq<string>)
    ensures Split(head + Appended(parts)) == Split(head) + Pieces(parts)
    decreases |parts|
  {
    if parts == [] {
      assert head + "" == head;
    } else {
      var next := head + ":" + parts[0];
      assert head + Appended(parts) == next + Appended(parts[1..]);
      SplitOfAppended(next, parts[1..]);
      SplitAtColon(head, parts[0]);
    }
  }

  lemma SplitOfKey(chainId: nat, parts: seq<string>)
    ensures Split(KeyOf(chainId, parts)) == ["mw", Numeral(chainId)] + Pieces(parts)
  {
    var head := "mw:" + Numeral(chainId);
    SplitOfAppended(head, parts);
    assert head == "mw" + ":" + Numeral(chainId);
    SplitAtColon("mw", Numeral(chainId));
    SplitWithoutColon("mw");
    SplitWithoutColon(Numeral(chainId));
  }

  /** Two keys are the same exactly when the chains are and the parts have the same pieces. */
  lemma SameKeyIff(c1: nat, ps1: seq<string>, c2: nat, ps2: seq<string>)
    ensures KeyOf(c1, ps1) == KeyOf(c2, ps2) <==> c1 == c2 && Pieces(ps1) == Pieces(ps2)
  {
    var k1, k2 := KeyOf(c1, ps1), KeyOf(c2, ps2);
    SplitOfKey(c1, ps1);
    SplitOfKey(c2, ps2);
    if k1 == k2 {
      assert Split(k1)[1] == Split(k2)[1];
      NumeralIsInjective(c1, c2);
      assert Split(k1)[2..] == Pieces(ps1) && Split(k2)[2..] == Pieces(ps2);
    } else if c1 == c2 && Pieces(ps1) == Pieces(ps2) {
      UnsplitOfSplit(k1);
      UnsplitOfSplit(k2);
      assert false;
    }
  }

  lemma {:induction false} PiecesWithoutColon(parts: seq<string>)
    requires forall p :: p in parts ==> ':' !in p
    ensures Pieces(parts) == parts
  {
    if parts != [] {
      SplitWithoutColon(parts[0]);
      PiecesWithoutColon(parts[1..]);
    }
  }

  /** Chains never share a key; and one chain's keys differ where their parts do, if no part holds a colon. */
  lemma KeysAreDistinct(c1: nat, ps1: seq<string>, c2: nat, ps2: seq<string>)
    requires KeyOf(c1, ps1) == KeyOf(c2, ps2)
    ensures c1 == c2
    ensures (forall p :: p in ps1 + ps2 ==> ':' !in p) ==> ps1 == ps2
  {
    SameKeyIff(c1, ps1, c2, ps2);
    if forall p :: p in ps1 + ps2 ==> ':' !in p {
      PiecesWithoutColon(ps1);
      PiecesWithoutColon(ps2);
    }
  }

  /** With colons inside, different parts do meet. */
  lemma ColonsMeet()
    ensures KeyOf(1, ["a:b"]) == KeyOf(1, ["a", "b"])
  {
    SplitWithoutColon("a");
    SplitWithoutColon("b");
    assert "a:b" == "a" + ":" + "b";
    SplitAtColon("a", "b");
    var ab := ["a", "b"];
    assert ab[1..] == ["b"];
    assert ["b"][1..] == [];
    assert Pieces(["b"]) == ["b"];
    assert ["a:b"][1..] == [];
    SameKeyIff(1, ["a:b"], 1, ab);
  }

  const BOOT_CHAIN_KEY := "mw:boot:chain"

  lemma NoKeyIsTheMarker(chainId: nat, parts: seq<string>)
    ensures KeyOf(chainId, parts) != BOOT_CHAIN_KEY
  {
    var key := KeyOf(chainId, parts);
    assert key[3] == Numeral(chainId)[0];
  }

  // ---------------------------------------------------------------- the marker

  /** What `strings.TrimSpace` takes off. */
  predicate IsSpace(c: char) {
    || '\U{0009}' <= c <= '\U{000D}' || '\U{2000}' <= c <= '\U{200A}'
    || c in [' ', '\U{0085}', '\U{00A0}', '\U{1680}', '\U{2028}', '\U{2029}', '\U{202F}', '\U{205F}', '\U{3000}']
  }

  function TrimSpace(s: string): string {
    if s != "" && IsSpace(s[0]) then TrimSpace(s[1..])
    else if s != "" && IsSpace(s[|s| - 1]) then TrimSpace(s[..|s| - 1])
    else s
  }

  lemma NumeralIsTrimmed(n: nat)
    ensures TrimSpace(Numeral(n)) == Numeral(n)
  {
    var s := Numeral(n);
    assert IsDigit(s[0]) && IsDigit(s[|s| - 1]);
  }

  /** The text names the chain: its numeral, with nothing but spaces around it. */
  ghost predicate Names(text: string, chainId: nat) {
    exists before, after :: text == before + Numeral(chainId) + after && AllSpaces(before) && AllSpaces(after)
  }

  predicate AllSpaces(s: string) {
    forall c :: c in s ==> IsSpace(c)
  }

  lemma {:induction false} TrimSpaceCuts(s: string) returns (before: string, after: string)
    ensures s == before + TrimSpace(s) + after && AllSpaces(before) && AllSpaces(after)
    decreases |s|
  {
    before, after := "", "";
    if s != "" && IsSpace(s[0]) {
      before, after := TrimSpaceCuts(s[1..]);
      assert s == [s[0]] + s[1..];
      before := [s[0]] + before;
    } else if s != "" && IsSpace(s[|s| - 1]) {
      before, after := TrimSpaceCuts(s[..|s| - 1]);
      assert s == s[..|s| - 1] + [s[|s| - 1]];
      after := after + [s[|s| - 1]];
    }
  }

  lemma {:induction false} TrimSpaceOfCut(before: string, s: string, after: string)
    requires AllSpaces(before) && AllSpaces(after)
    requires s != "" && !IsSpace(s[0]) && !IsSpace(s[|s| - 1])
    ensures TrimSpace(before + s + after) == s
    decreases |before| + |after|
  {
    var all := before + s + after;
    if before != "" {
      assert all[0] == before[0] && all[1..] == before[1..] + s + after;
      TrimSpaceOfCut(before[1..], s, after);
    } else if after != "" {
      assert all[0] == s[0] && all[|all| - 1] == after[|after| - 1];
      assert all[..|all| - 1] == before + s + after[..|after| - 1];
      TrimSpaceOfCut(before, s, after[..|after| - 1]);
    } else {
      assert all == s;
    }
  }

  /** Comparing the trimmed text with the numeral asks just that. */
  lemma NamesIff(text: string, chainId: nat)
    ensures TrimSpace(text) == Numeral(chainId) <==> Names(text, chainId)
  {
    if TrimSpace(text) == Numeral(chainId) {
      var before, after := TrimSpaceCuts(text);
    }
    if before, after :|
      text == before + Numeral(chainId) + after && AllSpaces(before) && AllSpaces(after)
    {
      var n := Numeral(chainId);
      assert IsDigit(n[0]) && IsDigit(n[|n| - 1]);
      TrimSpaceOfCut(before, n, after);
    }
  }

  type Store = map<string, string>

  /** SET key value NX. */
  function SetNX(store: Store, key: string, value: string): Store {
    if key in store then store else store[key := value]
  }

  /** `Answered`, or lost on the way back; a lost SetNX may have been applied or not. */
  datatype Reply = Answered | Lost(applied: bool)

  datatype Binding = Bound | Mismatch | Unreachable

  /** What a call makes of the marker it reads. */
  function Judge(store: Store, chainId: nat): Binding {
    if BOOT_CHAIN_KEY !in store then Unreachable
    else if TrimSpace(store[BOOT_CHAIN_KEY]) != Numeral(chainId) then Mismatch
    else Bound
  }

  function Claimed(store: Store, chainId: nat): Store {
    SetNX(store, BOOT_CHAIN_KEY, Numeral(chainId))
  }

  class Redis {
    var store: Store

    /** One binder at a time. Bound is answered exactly when the marker, old or just set, names this chain; an existing
        marker is never touched. */
    method BindChain(chainId: nat, setNX: Reply, get: Reply) returns (result: Binding)
      modifies this
      ensures store == if setNX.Answered? || setNX.applied then Claimed(old(store), chainId) else old(store)
      ensures setNX.Lost? ==> result == Unreachable
      ensures setNX.Answered? && get.Lost? ==>
                result == if BOOT_CHAIN_KEY in old(store) then Unreachable else Bound
      ensures setNX.Answered? && get.Answered? ==> result == Judge(store, chainId)
      ensures result == Bound <==>
                && setNX.Answered?
                && (BOOT_CHAIN_KEY !in old(store) || (get.Answered? && Names(old(store)[BOOT_CHAIN_KEY], chainId)))
      ensures result == Mismatch <==>
                && setNX.Answered? && get.Answered?
                && BOOT_CHAIN_KEY in old(store) && !Names(old(store)[BOOT_CHAIN_KEY], chainId)
      ensures forall k :: k in old(store) ==> k in store && store[k] == old(store)[k]
      ensures forall k :: k in store && k !in old(store) ==> k == BOOT_CHAIN_KEY && store[k] == Numeral(chainId)
    {
      var want := Numeral(chainId);
      NumeralIsTrimmed(chainId);
      var ok := BOOT_CHAIN_KEY !in store;
      if setNX.Answered? || setNX.applied {
        store := SetNX(store, BOOT_CHAIN_KEY, want);
      }
      if setNX.Lost? {
        return Unreachable;
      }
      if ok {
        return Bound;
      }
      if get.Lost? {
        return Unreachable;
      }
      var have := store[BOOT_CHAIN_KEY];
      NamesIff(have, chainId);
      if TrimSpace(have) != want {
        return Mismatch;
      }
      return Bound;
    }
  }

  // ---------------------------------------------------------------- many processes

  datatype Call = Claiming(chainId: nat) | Reading(chainId: nat) | Ended(chainId: nat, result: Binding)

  datatype State = State(store: Store, calls: map<nat, Call>)

  /** The two requests of each call are steps of their own; the caches of all chains write and lose entries in between.
      */
  datatype Step =
    | Begin(id: nat, chain: nat)
    | SendSetNX(id: nat, reply: Reply)
    | SendGet(id: nat, reply: Reply)
    | CacheSet(chain: nat, parts: seq<string>, data: string)
    | CacheExpire(chain: nat, parts: seq<string>)

  predicate Enabled(s: State, step: Step) {
    match step
    case Begin(id, _) => id !in s.calls
    case SendSetNX(id, _) => id in s.calls && s.calls[id].Claiming?
    case SendGet(id, _) => id in s.calls && s.calls[id].Reading?
    case CacheSet(_, _, _) => true
    case CacheExpire(_, _) => true
  }

  function Next(s: State, step: Step): State
    requires Enabled(s, step)
  {
    match step
    case Begin(id, chain) =>
      s.(calls := s.calls[id := Claiming(chain)])
    case SendSetNX(id, reply) =>
      var chain := s.calls[id].chainId;
      var call :=
        if reply.Lost? then Ended(chain, Unreachable)
        else if BOOT_CHAIN_KEY in s.store then Reading(chain)
        else Ended(chain, Bound);
      State(if reply.Answered? || reply.applied then Claimed(s.store, chain) else s.store, s.calls[id := call])
    case SendGet(id, reply) =>
      var chain := s.calls[id].chainId;
      s.(calls := s.calls[id := Ended(chain, if reply.Lost? then Unreachable else Judge(s.store, chain))])
    case CacheSet(chain, parts, data) =>
      s.(store := s.store[KeyOf(chain, parts) := data])
    case CacheExpire(chain, parts) =>
      s.(store := s.store - {KeyOf(chain, parts)})
  }

  ghost predicate Possible(s: State, run: seq<Step>)
    decreases |run|
  {
    run == [] || (Enabled(s, run[0]) && Possible(Next(s, run[0]), run[1..]))
  }

  function After(s: State, run: seq<Step>): State
    requires Possible(s, run)
    decreases |run|
  {
    if run == [] then s else After(Next(s, run[0]), run[1..])
  }

  function Marker(s: State): Option<string> {
    if BOOT_CHAIN_KEY in s.store then Some(s.store[BOOT_CHAIN_KEY]) else None
  }

  /** Once there, the marker stays. */
  predicate MarkerStays(s: State, t: State) {
    Marker(s).Some? ==> Marker(t) == Marker(s)
  }

  lemma StepKeepsMarker(s: State, step: Step)
    requires Enabled(s, step)
    ensures MarkerStays(s, Next(s, step))
  {
    match step
    case CacheSet(chain, parts, _) => NoKeyIsTheMarker(chain, parts);
    case CacheExpire(chain, parts) => NoKeyIsTheMarker(chain, parts);
    case _ =>
  }

  /** Whoever is bound is bound to the chain in the marker. */
  ghost predicate Inv(s: State) {
    && (forall id :: id in s.calls && s.calls[id].Ended? && s.calls[id].result == Bound ==>
          Marker(s).Some? && TrimSpace(Marker(s).value) == Numeral(s.calls[id].chainId))
    && (forall id :: id in s.calls && s.calls[id].Reading? ==> Marker(s).Some?)
  }

  lemma StepKeepsInv(s: State, step: Step)
    requires Inv(s) && Enabled(s, step)
    ensures Inv(Next(s, step))
  {
    StepKeepsMarker(s, step);
    if step.SendSetNX? {
      NumeralIsTrimmed(s.calls[step.id].chainId);
    }
  }

  lemma {:induction false} RunKeepsInv(s: State, run: seq<Step>)
    requires Inv(s) && Possible(s, run)
    ensures Inv(After(s, run)) && MarkerStays(s, After(s, run))
    decreases |run|
  {
    if run != [] {
      StepKeepsMarker(s, run[0]);
      StepKeepsInv(s, run[0]);
      RunKeepsInv(Next(s, run[0]), run[1..]);
    }
  }

  /** However binders and caches of however many chains interleave, and whatever Redis held before, all that end bound
      are of one chain: the one the marker names, which no cache entry can replace. */
  lemma OneChainPerRedis(store: Store, run: seq<Step>, i: nat, j: nat)
    requires Possible(State(store, map[]), run)
    requires var calls := After(State(store, map[]), run).calls;
             && i in calls && calls[i].Ended? && calls[i].result == Bound
             && j in calls && calls[j].Ended? && calls[j].result == Bound
    ensures var s := After(State(store, map[]), run);
            s.calls[i].chainId == s.calls[j].chainId &&
            Marker(s).Some? && TrimSpace(Marker(s).value) == Numeral(s.calls[i].chainId)
    ensures BOOT_CHAIN_KEY in store ==> Marker(After(State(store, map[]), run)) == Some(store[BOOT_CHAIN_KEY])
  {
    RunKeepsInv(State(store, map[]), run);
    var calls := After(State(store, map[]), run).calls;
    NumeralIsInjective(calls[i].chainId, calls[j].chainId);
  }

  /** Uninterrupted, the two requests of a call answer and write as the class does. */
  lemma BindAlone(s: State, id: nat, chain: nat, setNX: Reply, get: Reply)
    requires id !in s.calls
    ensures var looks := setNX.Answered? && BOOT_CHAIN_KEY in s.store;
            var run := [Begin(id, chain), SendSetNX(id, setNX)] + if looks then [SendGet(id, get)] else [];
            && Possible(s, run)
            && var t := After(s, run);
            && t.store == (if setNX.Answered? || setNX.applied then Claimed(s.store, chain) else s.store)
            && t.calls == s.calls[id := Ended(chain,
                 if setNX.Lost? || (looks && get.Lost?) then Unreachable
                 else if !looks || Names(s.store[BOOT_CHAIN_KEY], chain) then Bound
                 else Mismatch)]
  {
    if BOOT_CHAIN_KEY in s.store {
      NamesIff(s.store[BOOT_CHAIN_KEY], chain);
    }
    var s1 := Next(s, Begin(id, chain));
    var s2 := Next(s1, SendSetNX(id, setNX));
    AfterTwo(s, Begin(id, chain), SendSetNX(id, setNX), []);
    AfterTwo(s, Begin(id, chain), SendSetNX(id, setNX), [SendGet(id, get)]);
    assert [SendGet(id, get)][1..] == [];
  }

  lemma AfterTwo(s: State, a: Step, b: Step, more: seq<Step>)
    requires Enabled(s, a) && Enabled(Next(s, a), b)
    ensures var run := [a, b] + more;
            (Possible(s, run) <==> Possible(Next(Next(s, a), b), more)) &&
            (Possible(s, run) ==> After(s, run) == After(Next(Next(s, a), b), more))
  {
    var run := [a, b] + more;
    assert run[1..] == [b] + more && run[1..][1..] == more;
  }
}
