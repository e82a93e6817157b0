/** The storage-layout gate for upgrades behind a proxy: `Compare` lists what a new layout breaks of the committed one.

    Labels and type ids are text, as the compiler prints them with its AST ids stripped. */
module StorageLayout {
  import opened Decimal
  import opened Options

  datatype Variable = Variable(name: string, slot: nat, offset: nat, typ: string)

  type Layout = seq<Variable>

  datatype Problem =
    | Moved(name: string, slot: nat, offset: nat, to: seq<Variable>)
    | Disappeared(name: string, slot: nat)
    | TypeChanged(name: string, before: string, after: string)
    | NotAppended(name: string, slot: nat)

  datatype Key = Key(name: string, slot: nat, offset: nat)

  function KeyOf(v: Variable): Key {
    Key(v.name, v.slot, v.offset)
  }

  // ---------------------------------------------------------------- gaps

  function LowerChar(c: char): char {
    if 'A' <= c <= 'Z' then 'a' + (c - 'A') else c
  }

  predicate GapAt(name: string, i: nat)
    requires i <= |name| - 3
  {
    LowerChar(name[i]) == 'g' && LowerChar(name[i + 1]) == 'a' && LowerChar(name[i + 2]) == 'p'
  }

  predicate IsGap(name: string) {
    exists i | 0 <= i <= |name| - 3 :: GapAt(name, i)
  }

  const PREFIX := "t_array(t_uint256)"
  const SUFFIX := "_storage"

  /** The length in the type id of an array of words. */
  function GapLen(t: string): Option<nat> {
    if |t| > |PREFIX| + |SUFFIX| && PREFIX <= t && t[|t| - |SUFFIX|..] == SUFFIX then
      var digits := t[|PREFIX|..|t| - |SUFFIX|];
      if AllDigits(digits) then Some(Value(digits)) else None
    else
      None
  }

  function GapType(n: nat): string {
    PREFIX + Numeral(n) + SUFFIX
  }

  /** The length printed into a type id is the length read out of it. */
  lemma GapLenOfGapType(n: nat)
    ensures GapLen(GapType(n)) == Some(n)
  {
    var t := GapType(n);
    assert t[|PREFIX|..|t| - |SUFFIX|] == Numeral(n);
    assert t[|t| - |SUFFIX|..] == SUFFIX;
    ValueOfNumeral(n);
  }

  // ---------------------------------------------------------------- what the gate reports

  /** Of several variables with one key, the dictionary keeps the last. */
  function Last(vs: Layout, k: Key): (r: Option<Variable>)
    ensures r.Some? ==> r.value in vs && KeyOf(r.value) == k
    ensures r.None? ==> forall v :: v in vs ==> KeyOf(v) != k
  {
    if vs == [] then None
    else if KeyOf(vs[|vs| - 1]) == k then Some(vs[|vs| - 1])
    else Last(vs[..|vs| - 1], k)
  }

  function Labelled(vs: Layout, name: string): (r: Layout)
    ensures forall v :: v in r <==> v in vs && v.name == name
  {
    if vs == [] then []
    else Labelled(vs[..|vs| - 1], name) + (if vs[|vs| - 1].name == name then [vs[|vs| - 1]] else [])
  }

  /** A gap may shrink; every other type must stay. */
  predicate TypeKept(b: Variable, c: Variable) {
    || c.typ == b.typ
    || (IsGap(b.name) && GapLen(b.typ).Some? && GapLen(c.typ).Some? && GapLen(c.typ).value <= GapLen(b.typ).value)
  }

  function OfOld(b: Variable, cur: Layout): seq<Problem> {
    match Last(cur, KeyOf(b))
    case None =>
      if Labelled(cur, b.name) != [] then [Moved(b.name, b.slot, b.offset, Labelled(cur, b.name))]
      else [Disappeared(b.name, b.slot)]
    case Some(c) =>
      if TypeKept(b, c) then [] else [TypeChanged(b.name, b.typ, c.typ)]
  }

  predicate IsOld(base: Layout, c: Variable) {
    exists b :: b in base && KeyOf(b) == KeyOf(c)
  }

  predicate Above(base: Layout, c: Variable) {
    forall b :: b in base ==> b.slot < c.slot
  }

  function LenOr0(t: string): nat {
    if GapLen(t).Some? then GapLen(t).value else 0
  }

  predicate InGap(b: Variable, c: Variable) {
    IsGap(b.name) && b.slot < c.slot <= b.slot + LenOr0(b.typ)
  }

  predicate InsideGap(base: Layout, c: Variable) {
    exists b :: b in base && InGap(b, c)
  }

  predicate Admitted(base: Layout, c: Variable) {
    IsOld(base, c) || Above(base, c) || InsideGap(base, c)
  }

  function OfNew(base: Layout, c: Variable): seq<Problem> {
    if Admitted(base, c) then [] else [NotAppended(c.name, c.slot)]
  }

  function OfOlds(base: Layout, cur: Layout): seq<Problem> {
    if base == [] then [] else OfOlds(base[..|base| - 1], cur) + OfOld(base[|base| - 1], cur)
  }

  function OfNews(base: Layout, cur: Layout): seq<Problem> {
    if cur == [] then [] else OfNews(base, cur[..|cur| - 1]) + OfNew(base, cur[|cur| - 1])
  }

  function Problems(base: Layout, cur: Layout): seq<Problem> {
    OfOlds(base, cur) + OfNews(base, cur)
  }

  // ---------------------------------------------------------------- the gate, with its dictionaries

  ghost predicate IndexesKeys(byKey: map<Key, Variable>, cur: Layout) {
    forall k :: if k in byKey then Last(cur, k) == Some(byKey[k]) else Last(cur, k).None?
  }

  ghost predicate IndexesLabels(byLabel: map<string, Layout>, cur: Layout) {
    forall l :: Labelled(cur, l) == if l in byLabel then byLabel[l] else []
  }

  lemma LastOfMore(vs: Layout, v: Variable, k: Key)
    ensures Last(vs + [v], k) == if KeyOf(v) == k then Some(v) else Last(vs, k)
  {
    assert (vs + [v])[..|vs|] == vs;
  }

  lemma LabelledOfMore(vs: Layout, v: Variable, l: string)
    ensures Labelled(vs + [v], l) == Labelled(vs, l) + if v.name == l then [v] else []
  {
    assert (vs + [v])[..|vs|] == vs;
  }

  method IndexByKey(cur: Layout) returns (byKey: map<Key, Variable>)
    ensures IndexesKeys(byKey, cur)
  {
    byKey := map[];
    for i := 0 to |cur|
      invariant IndexesKeys(byKey, cur[..i])
    {
      forall k {
        LastOfMore(cur[..i], cur[i], k);
      }
      assert cur[..i + 1] == cur[..i] + [cur[i]];
      byKey := byKey[KeyOf(cur[i]) := cur[i]];
    }
    assert cur[..|cur|] == cur;
  }

  method IndexByLabel(cur: Layout) returns (byLabel: map<string, Layout>)
    ensures IndexesLabels(byLabel, cur)
  {
    byLabel := map[];
    for i := 0 to |cur|
      invariant IndexesLabels(byLabel, cur[..i])
    {
      var v := cur[i];
      forall l {
        LabelledOfMore(cur[..i], v, l);
      }
      assert cur[..i + 1] == cur[..i] + [v];
      byLabel := byLabel[v.name := (if v.name in byLabel then byLabel[v.name] else []) + [v]];
    }
    assert cur[..|cur|] == cur;
  }

  /** `max(..., default=-1)` of the slots. */
  method MaxSlot(base: Layout) returns (m: int)
    ensures forall c: Variable :: c.slot > m <==> Above(base, c)
  {
    m := -1;
    for i := 0 to |base|
      invariant m == -1 || exists b :: b in base[..i] && b.slot == m
      invariant forall b :: b in base[..i] ==> b.slot <= m
    {
      assert base[..i + 1] == base[..i] + [base[i]];
      if base[i].slot > m {
        m := base[i].slot;
      }
    }
    assert base[..|base|] == base;
  }

  method CheckOld(base: Layout, cur: Layout) returns (problems: seq<Problem>)
    ensures problems == OfOlds(base, cur)
  {
    problems := [];
    var byKey := IndexByKey(cur);
    var byLabel := IndexByLabel(cur);
    for i := 0 to |base|
      invariant problems == OfOlds(base[..i], cur)
    {
      var problem := CheckOne(base[i], cur, byKey, byLabel);
      problems := problems + problem;
      OneMoreOld(base, i, cur);
    }
    assert base[..|base|] == base;
  }

  lemma OneMoreOld(base: Layout, i: nat, cur: Layout)
    requires i < |base|
    ensures OfOlds(base[..i + 1], cur) == OfOlds(base[..i], cur) + OfOld(base[i], cur)
  {
    assert base[..i + 1][..i] == base[..i];
  }

  /** The body of the loop over the old variables: nothing or one problem. */
  method CheckOne(b: Variable, cur: Layout, byKey: map<Key, Variable>, byLabel: map<string, Layout>)
    returns (problem: seq<Problem>)
    requires IndexesKeys(byKey, cur) && IndexesLabels(byLabel, cur)
    ensures problem == OfOld(b, cur)
  {
    assert Labelled(cur, b.name) == if b.name in byLabel then byLabel[b.name] else [];
    if KeyOf(b) !in byKey {
      if b.name in byLabel && byLabel[b.name] != [] {
        return [Moved(b.name, b.slot, b.offset, byLabel[b.name])];
      }
      return [Disappeared(b.name, b.slot)];
    }
    var c := byKey[KeyOf(b)];
    if c.typ == b.typ {
      return [];
    }
    var gb, gc := GapLen(b.typ), GapLen(c.typ);
    if IsGap(b.name) && gb.Some? && gc.Some? && gc.value <= gb.value {
      return [];
    }
    return [TypeChanged(b.name, b.typ, c.typ)];
  }

  method CheckNew(base: Layout, cur: Layout) returns (problems: seq<Problem>)
    ensures problems == OfNews(base, cur)
  {
    problems := [];
    var maxBaseSlot := MaxSlot(base);
    var baseKeys := set b | b in base :: KeyOf(b);
    for i := 0 to |cur|
      invariant problems == OfNews(base, cur[..i])
    {
      var c := cur[i];
      assert cur[..i + 1][..i] == cur[..i];
      if KeyOf(c) !in baseKeys && c.slot <= maxBaseSlot {
        var insideGap := exists b :: b in base && InGap(b, c);
        if !insideGap {
          problems := problems + [NotAppended(c.name, c.slot)];
        }
      }
    }
    assert cur[..|cur|] == cur;
  }

  method Compare(base: Layout, cur: Layout) returns (problems: seq<Problem>)
    ensures problems == Problems(base, cur)
  {
    var ofOld := CheckOld(base, cur);
    var ofNew := CheckNew(base, cur);
    problems := ofOld + ofNew;
  }

  // ---------------------------------------------------------------- what an accepted layout keeps

  predicate KeptIn(b: Variable, cur: Layout) {
    Last(cur, KeyOf(b)).Some? && TypeKept(b, Last(cur, KeyOf(b)).value)
  }

  ghost predicate AllKept(base: Layout, cur: Layout) {
    forall b :: b in base ==> KeptIn(b, cur)
  }

  /** Every old variable is still there with its type, save a gap that shrank; every new one is above or in a gap. */
  ghost predicate Accepts(base: Layout, cur: Layout) {
    AllKept(base, cur) && forall c :: c in cur ==> Admitted(base, c)
  }

  lemma OldIsQuiet(b: Variable, cur: Layout)
    ensures OfOld(b, cur) == [] <==> KeptIn(b, cur)
  {
  }

  lemma AllKeptOfMore(base: Layout, n: nat, cur: Layout)
    requires n < |base|
    ensures AllKept(base[..n + 1], cur) <==> AllKept(base[..n], cur) && KeptIn(base[n], cur)
  {
    assert base[..n + 1] == base[..n] + [base[n]];
  }

  lemma BothQuiet(ps: seq<Problem>, qs: seq<Problem>)
    ensures ps + qs == [] <==> ps == [] && qs == []
  {
    assert |ps + qs| == |ps| + |qs|;
  }

  lemma {:induction false} OldsAreQuiet(base: Layout, cur: Layout, n: nat)
    requires n <= |base|
    ensures OfOlds(base[..n], cur) == [] <==> AllKept(base[..n], cur)
  {
    if n > 0 {
      var b, olds := base[n - 1], OfOlds(base[..n - 1], cur);
      OldsAreQuiet(base, cur, n - 1);
      OneMoreOld(base, n - 1, cur);
      BothQuiet(olds, OfOld(b, cur));
      OldIsQuiet(b, cur);
      AllKeptOfMore(base, n - 1, cur);
    }
  }

  lemma {:induction false} NewsAreQuiet(base: Layout, cur: Layout)
    ensures OfNews(base, cur) == [] <==> forall c :: c in cur ==> Admitted(base, c)
  {
    if cur != [] {
      var rest, c := cur[..|cur| - 1], cur[|cur| - 1];
      NewsAreQuiet(base, rest);
      assert cur == rest + [c];
    }
  }

  /** Nothing is reported exactly when nothing old is lost and nothing new intrudes. */
  lemma QuietIff(base: Layout, cur: Layout)
    ensures Problems(base, cur) == [] <==> Accepts(base, cur)
  {
    OldsAreQuiet(base, cur, |base|);
    assert base[..|base|] == base;
    NewsAreQuiet(base, cur);
  }

  // ---------------------------------------------------------------- what each report means

  predicate IsGone(b: Variable, cur: Layout) {
    forall c :: c in cur ==> KeyOf(c) != KeyOf(b)
  }

  /** Both types are arrays of words and the later is no longer. */
  predicate Shrinks(before: string, after: string) {
    GapLen(before).Some? && GapLen(after).Some? && GapLen(after).value <= GapLen(before).value
  }

  /** The report is true of this old variable. */
  predicate TrueOfOld(b: Variable, cur: Layout, p: Problem) {
    match p
    case Moved(name, slot, offset, to) =>
      KeyOf(b) == Key(name, slot, offset) && IsGone(b, cur) && to != [] && to == Labelled(cur, name)
    case Disappeared(name, slot) =>
      b.name == name && b.slot == slot && forall c :: c in cur ==> c.name != name
    case TypeChanged(name, before, after) =>
      && b.name == name && b.typ == before && Last(cur, KeyOf(b)) == Some(b.(typ := after))
      && before != after && !(IsGap(name) && Shrinks(before, after))
    case NotAppended(_, _) => false
  }

  /** The report is true of this new variable: some old one is at its slot or above, and no gap below reaches it. */
  predicate TrueOfNew(base: Layout, c: Variable, p: Problem) {
    && p == NotAppended(c.name, c.slot) && IsGone(c, base)
    && (exists b :: b in base && c.slot <= b.slot)
    && forall b :: b in base && IsGap(b.name) && b.slot < c.slot ==> b.slot + LenOr0(b.typ) < c.slot
  }

  ghost predicate ReportedOfOld(base: Layout, cur: Layout, p: Problem) {
    exists b :: b in base && p in OfOld(b, cur)
  }

  ghost predicate ReportedOfNew(base: Layout, cur: Layout, p: Problem) {
    exists c :: c in cur && p in OfNew(base, c)
  }

  lemma InEither(ps: seq<Problem>, qs: seq<Problem>, p: Problem)
    ensures p in ps + qs <==> p in ps || p in qs
  {
  }

  lemma MoreReported(vs: Layout, n: nat, other: Layout, p: Problem)
    requires n < |vs|
    ensures ReportedOfOld(vs[..n + 1], other, p) <==> ReportedOfOld(vs[..n], other, p) || p in OfOld(vs[n], other)
    ensures ReportedOfNew(other, vs[..n + 1], p) <==> ReportedOfNew(other, vs[..n], p) || p in OfNew(other, vs[n])
  {
    assert vs[..n + 1] == vs[..n] + [vs[n]];
    assert vs[n] in vs[..n + 1];
  }

  lemma {:induction false} OfOldsIff(base: Layout, cur: Layout, n: nat, p: Problem)
    requires n <= |base|
    ensures p in OfOlds(base[..n], cur) <==> ReportedOfOld(base[..n], cur, p)
  {
    if n > 0 {
      OfOldsIff(base, cur, n - 1, p);
      OneMoreOld(base, n - 1, cur);
      InEither(OfOlds(base[..n - 1], cur), OfOld(base[n - 1], cur), p);
      MoreReported(base, n - 1, cur, p);
    }
  }

  lemma OneMoreNew(base: Layout, cur: Layout, i: nat)
    requires i < |cur|
    ensures OfNews(base, cur[..i + 1]) == OfNews(base, cur[..i]) + OfNew(base, cur[i])
  {
    assert cur[..i + 1][..i] == cur[..i];
  }

  lemma {:induction false} OfNewsIff(base: Layout, cur: Layout, n: nat, p: Problem)
    requires n <= |cur|
    ensures p in OfNews(base, cur[..n]) <==> ReportedOfNew(base, cur[..n], p)
  {
    if n > 0 {
      OfNewsIff(base, cur, n - 1, p);
      OneMoreNew(base, cur, n - 1);
      InEither(OfNews(base, cur[..n - 1]), OfNew(base, cur[n - 1]), p);
      MoreReported(cur, n - 1, base, p);
    }
  }

  lemma GoneIff(b: Variable, cur: Layout)
    ensures IsGone(b, cur) <==> Last(cur, KeyOf(b)).None?
    ensures Labelled(cur, b.name) == [] <==> forall c :: c in cur ==> c.name != b.name
  {
    var named := Labelled(cur, b.name);
    if named != [] {
      assert named[0] in named;
    }
  }

  lemma OldProblemIff(b: Variable, cur: Layout, p: Problem)
    ensures p in OfOld(b, cur) <==> TrueOfOld(b, cur, p)
  {
    GoneIff(b, cur);
    if Last(cur, KeyOf(b)).Some? {
      var c := Last(cur, KeyOf(b)).value;
      assert c == b.(typ := c.typ) && c.name == b.name;
    }
  }

  lemma NewProblemIff(base: Layout, c: Variable, p: Problem)
    ensures p in OfNew(base, c) <==> TrueOfNew(base, c, p)
  {
    assert IsOld(base, c) <==> !IsGone(c, base);
  }

  /** The gate reports exactly what is wrong: each report is true of some variable, and whatever is true of one is
      reported. */
  lemma ReportedIff(base: Layout, cur: Layout, p: Problem)
    ensures p in Problems(base, cur) <==>
            (exists b :: b in base && TrueOfOld(b, cur, p)) || exists c :: c in cur && TrueOfNew(base, c, p)
  {
    OfOldsIff(base, cur, |base|, p);
    OfNewsIff(base, cur, |cur|, p);
    assert base[..|base|] == base && cur[..|cur|] == cur;
    InEither(OfOlds(base, cur), OfNews(base, cur), p);
    forall b {
      OldProblemIff(b, cur, p);
    }
    forall c {
      NewProblemIff(base, c, p);
    }
  }

  ghost predicate UniqueKeys(vs: Layout) {
    forall v, w :: v in vs && w in vs && KeyOf(v) == KeyOf(w) ==> v == w
  }

  lemma SameLayoutIsAccepted(vs: Layout)
    requires UniqueKeys(vs)
    ensures Problems(vs, vs) == []
  {
    QuietIff(vs, vs);
  }

  /** The layouts of successive releases, each accepted against the one before. */
  ghost predicate AcceptedChain(ls: seq<Layout>) {
    forall i :: 0 < i < |ls| ==> Problems(ls[i - 1], ls[i]) == []
  }

  /** `w` is `v`, or what is left of the gap `v`. */
  ghost predicate Keeps(v: Variable, w: Variable) {
    KeyOf(v) == KeyOf(w) && TypeKept(v, w)
  }

  lemma AcceptedKeeps(base: Layout, cur: Layout, v: Variable, u: Variable) returns (w: Variable)
    requires Problems(base, cur) == [] && u in base && Keeps(v, u)
    ensures w in cur && Keeps(v, w)
  {
    QuietIff(base, cur);
    w := Last(cur, KeyOf(u)).value;
  }

  lemma {:induction false} ChainKeeps(ls: seq<Layout>, i: nat, j: nat, v: Variable)
    requires AcceptedChain(ls) && i <= j < |ls| && v in ls[i]
    ensures exists w :: w in ls[j] && Keeps(v, w)
    decreases j
  {
    if i < j {
      ChainKeeps(ls, i, j - 1, v);
      var u :| u in ls[j - 1] && Keeps(v, u);
      var w := AcceptedKeeps(ls[j - 1], ls[j], v, u);
    }
  }

  /** A variable that is no gap keeps its slot, offset and type through every later release. */
  lemma VariablesStay(ls: seq<Layout>, i: nat, j: nat, v: Variable)
    requires AcceptedChain(ls) && i <= j < |ls| && v in ls[i] && !IsGap(v.name)
    ensures v in ls[j]
  {
    ChainKeeps(ls, i, j, v);
  }

  /** A gap keeps its place, and its length never grows. */
  lemma GapsOnlyShrink(ls: seq<Layout>, i: nat, j: nat, v: Variable)
    requires AcceptedChain(ls) && i <= j < |ls| && v in ls[i] && GapLen(v.typ).Some?
    ensures exists w :: w in ls[j] && KeyOf(w) == KeyOf(v) && GapLen(w.typ).Some?
                      && GapLen(w.typ).value <= GapLen(v.typ).value
  {
    ChainKeeps(ls, i, j, v);
  }

  // ---------------------------------------------------------------- bytes

  const WORD: nat := 32

  /** How many bytes a type takes: any function of the type id for which an array of n words takes n words. */
  ghost predicate GapsAreWords(size: string -> nat) {
    forall t :: GapLen(t).Some? ==> size(t) == WORD * GapLen(t).value
  }

  function Start(v: Variable): nat {
    WORD * v.slot + v.offset
  }

  predicate Apart(size: string -> nat, v: Variable, w: Variable) {
    Start(v) + size(v.typ) <= Start(w) || Start(w) + size(w.typ) <= Start(v)
  }

  /** One entry per key, no two in the same bytes: what the compiler lays out. */
  ghost predicate Sound(size: string -> nat, vs: Layout) {
    && UniqueKeys(vs)
    && forall v, w :: v in vs && w in vs && v != w ==> Apart(size, v, w)
  }

  /** What is new in `cur` shares no byte with anything else in it. */
  ghost predicate NewAreFree(size: string -> nat, base: Layout, cur: Layout) {
    forall c, w :: c in cur && w in cur && c != w && !IsOld(base, c) ==> Apart(size, c, w)
  }

  lemma KeptTakesNoMore(size: string -> nat, base: Layout, cur: Layout, b: Variable, c: Variable)
    requires GapsAreWords(size) && UniqueKeys(cur) && Accepts(base, cur)
    requires b in base && c in cur && KeyOf(b) == KeyOf(c)
    ensures size(c.typ) <= size(b.typ)
  {
    assert Last(cur, KeyOf(b)) == Some(c);
  }

  /** What the gate keeps stays apart: shrinking gaps never makes two old variables meet. */
  lemma KeptStayApart(size: string -> nat, base: Layout, cur: Layout, c: Variable, d: Variable)
    requires GapsAreWords(size) && UniqueKeys(cur) && Sound(size, base) && Accepts(base, cur)
    requires c in cur && d in cur && c != d && IsOld(base, c) && IsOld(base, d)
    ensures Apart(size, c, d)
  {
    var b :| b in base && KeyOf(b) == KeyOf(c);
    var e :| e in base && KeyOf(e) == KeyOf(d);
    KeptTakesNoMore(size, base, cur, b, c);
    KeptTakesNoMore(size, base, cur, e, d);
    assert Apart(size, b, e);
  }

  lemma FreeMakesApart(size: string -> nat, base: Layout, cur: Layout, c: Variable, d: Variable)
    requires GapsAreWords(size) && UniqueKeys(cur) && Sound(size, base) && Accepts(base, cur)
    requires NewAreFree(size, base, cur)
    requires c in cur && d in cur && c != d
    ensures Apart(size, c, d)
  {
    if IsOld(base, c) {
      if IsOld(base, d) {
        KeptStayApart(size, base, cur, c, d);
      } else {
        assert Apart(size, d, c);
      }
    }
  }

  /** Of an accepted layout, only the new variables have to be looked at: it is sound exactly when they are free. */
  lemma SoundIff(size: string -> nat, base: Layout, cur: Layout)
    requires GapsAreWords(size) && UniqueKeys(cur) && Sound(size, base) && Problems(base, cur) == []
    ensures Sound(size, cur) <==> NewAreFree(size, base, cur)
  {
    QuietIff(base, cur);
    if NewAreFree(size, base, cur) {
      forall c, d | c in cur && d in cur && c != d ensures Apart(size, c, d) {
        FreeMakesApart(size, base, cur, c, d);
      }
    }
  }

  /** Each release: accepted against the one before, keys unique, its new variables in free bytes. */
  ghost predicate CarefulChain(size: string -> nat, ls: seq<Layout>) {
    && AcceptedChain(ls)
    && forall i :: 0 < i < |ls| ==> UniqueKeys(ls[i]) && NewAreFree(size, ls[i - 1], ls[i])
  }

  lemma {:induction false} ChainStaysSound(size: string -> nat, ls: seq<Layout>, j: nat)
    requires GapsAreWords(size) && CarefulChain(size, ls) && j < |ls| && Sound(size, ls[0])
    ensures Sound(size, ls[j])
  {
    if j > 0 {
      ChainStaysSound(size, ls, j - 1);
      SoundIff(size, ls[j - 1], ls[j]);
    }
  }

  /** Through any number of upgrades, a variable that is no gap is still there and no other variable has any of its
      bytes. */
  lemma NobodyTakesItsBytes(size: string -> nat, ls: seq<Layout>, i: nat, j: nat, v: Variable, w: Variable)
    requires i <= j < |ls| && v in ls[i] && !IsGap(v.name) && w in ls[j]
    requires GapsAreWords(size) && CarefulChain(size, ls) && Sound(size, ls[0])
    ensures v in ls[j] && (w == v || Apart(size, v, w))
  {
    VariablesStay(ls, i, j, v);
    ChainStaysSound(size, ls, j);
  }

  // ---------------------------------------------------------------- how much of that the gate sees by itself

  predicate FitsItsSlot(size: string -> nat, v: Variable) {
    v.offset + size(v.typ) <= WORD
  }

  /** A new variable of one slot strictly inside a gap meets no other old variable, and meets what is left of the gap
      exactly when the gap did not shrink below it. */
  lemma InsideAGapIsFree(size: string -> nat, base: Layout, gap: Variable, c: Variable, v: Variable, left: Variable)
    requires GapsAreWords(size) && Sound(size, base) && gap in base && v in base && v != gap
    requires InGap(gap, c) && c.slot < gap.slot + LenOr0(gap.typ) && gap.offset == 0
    requires FitsItsSlot(size, c) && size(c.typ) >= 1
    requires Keeps(gap, left)
    ensures Apart(size, c, v)
    ensures Apart(size, c, left) <==> left.slot + LenOr0(left.typ) <= c.slot
  {
    assert Apart(size, gap, v);
  }

  /** A new variable above every old one meets none that fits its slot. */
  lemma AboveIsFree(size: string -> nat, base: Layout, c: Variable, v: Variable)
    requires Above(base, c) && v in base && FitsItsSlot(size, v)
    ensures Apart(size, c, v)
  {
    assert v.slot < c.slot;
  }

  // ---------------------------------------------------------------- the rule the gate documents

  /** What else the compiler sees to: no type is empty, and a variable starts within its slot. */
  ghost predicate Laid(size: string -> nat, vs: Layout) {
    Sound(size, vs) && forall v :: v in vs ==> v.offset < WORD && size(v.typ) >= 1
  }

  /** In a word of the gap that what is left of it no longer has. */
  predicate TakesFreed(gap: Variable, left: Variable, c: Variable) {
    IsGap(gap.name) && left.slot + LenOr0(left.typ) <= c.slot < gap.slot + LenOr0(gap.typ)
  }

  /** A new variable is appended, in a higher slot than every old one, or takes a slot freed by shrinking a gap. */
  ghost predicate FollowsTheRule(base: Layout, cur: Layout, c: Variable) {
    Above(base, c) || exists gap, left :: gap in base && left in cur && Keeps(gap, left) && TakesFreed(gap, left, c)
  }

  /** The guard with `<` where the gate has `<=`. */
  predicate StrictlyIn(gap: Variable, c: Variable) {
    IsGap(gap.name) && gap.slot < c.slot < gap.slot + LenOr0(gap.typ)
  }

  lemma InsideIsFreed(size: string -> nat, base: Layout, cur: Layout, gap: Variable, c: Variable)
    returns (left: Variable)
    requires GapsAreWords(size) && Laid(size, cur) && Accepts(base, cur)
    requires gap in base && c in cur && !IsOld(base, c) && StrictlyIn(gap, c)
    ensures left in cur && Keeps(gap, left) && TakesFreed(gap, left, c)
  {
    left := Last(cur, KeyOf(gap)).value;
    assert Apart(size, left, c);
  }

  lemma FreedIsInside(size: string -> nat, cur: Layout, gap: Variable, left: Variable, c: Variable)
    requires GapsAreWords(size) && Laid(size, cur)
    requires left in cur && Keeps(gap, left) && TakesFreed(gap, left, c)
    ensures StrictlyIn(gap, c)
  {
    assert size(left.typ) >= 1;
  }

  /** In layouts of the compiler an accepted new variable follows the documented rule if and only if it is above every
      old one or strictly inside some gap. The gate's own guard also lets in the slot just behind a gap. */
  lemma RuleIsFollowedIff(size: string -> nat, base: Layout, cur: Layout, c: Variable)
    requires GapsAreWords(size) && Laid(size, cur) && Problems(base, cur) == []
    requires c in cur && !IsOld(base, c)
    ensures FollowsTheRule(base, cur, c) <==> Above(base, c) || exists gap :: gap in base && StrictlyIn(gap, c)
  {
    QuietIff(base, cur);
    if gap :| gap in base && StrictlyIn(gap, c) {
      var left := InsideIsFreed(size, base, cur, gap, c);
    }
    if gap, left :| gap in base && left in cur && Keeps(gap, left) && TakesFreed(gap, left, c) {
      FreedIsInside(size, cur, gap, left, c);
    }
  }

  // Behind a gap of two words, a second flag packed into the slot of the first.

  const GAP := Variable("__gap", 0, 0, GapType(2))
  const PAUSED := Variable("paused", 2, 0, "t_bool")
  const FROZEN := Variable("frozen", 2, 1, "t_bool")

  lemma FlagsAreNotInTheGap()
    ensures InGap(GAP, FROZEN) && !StrictlyIn(GAP, FROZEN) && !StrictlyIn(PAUSED, FROZEN)
  {
    GapLenOfGapType(2);
    assert GapAt("__gap", 2);
  }

  lemma FlagsAreLaid(size: string -> nat)
    requires GapsAreWords(size) && size("t_bool") == 1
    ensures Laid(size, [GAP, PAUSED]) && Laid(size, [GAP, PAUSED, FROZEN])
  {
    GapLenOfGapType(2);
    assert size(GAP.typ) == 2 * WORD;
  }

  lemma FlagIsAccepted()
    ensures Problems([GAP, PAUSED], [GAP, PAUSED, FROZEN]) == []
  {
    FlagsAreNotInTheGap();
    assert GAP in [GAP, PAUSED];
    AcceptsByKeys([GAP, PAUSED], [GAP, PAUSED, FROZEN]);
  }

  /** It does happen: the gap has not shrunk, nothing was appended above, and the gate accepts. */
  lemma SlotBehindAGapIsAdmitted(size: string -> nat) returns (base: Layout, cur: Layout, c: Variable)
    requires GapsAreWords(size) && size("t_bool") == 1
    ensures Problems(base, cur) == [] && Laid(size, base) && Laid(size, cur)
    ensures c in cur && !IsOld(base, c) && !FollowsTheRule(base, cur, c)
  {
    base, cur, c := [GAP, PAUSED], [GAP, PAUSED, FROZEN], FROZEN;
    FlagsAreLaid(size);
    FlagIsAccepted();
    FlagsAreNotInTheGap();
    assert !Above(base, c) by {
      assert PAUSED in base;
    }
    RuleIsFollowedIff(size, base, cur, c);
  }

  /** Keeping every old variable as it is leaves only the new ones to admit. */
  lemma AcceptsByKeys(base: Layout, cur: Layout)
    requires UniqueKeys(cur) && (forall b :: b in base ==> b in cur) && (forall c :: c in cur ==> Admitted(base, c))
    ensures Problems(base, cur) == []
  {
    QuietIff(base, cur);
  }
}
