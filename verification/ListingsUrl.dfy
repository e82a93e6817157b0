/** The listings page keeps its filters in the URL: reading them from the query parameters and printing them back.

    Parameters are the list of decoded names and values, as URLSearchParams holds them; percent-encoding is not part of
    this model. What `Number(text)` makes of a text is a parameter, `number`: the integer, or None for anything else. */
module ListingsUrl {
  import opened Decimal
  import opened Options
  import WeiFormat

  // ---------------------------------------------------------------- parameters

  /** The names the page reads; the query may hold any others. */
  datatype Name = Collection | Min | Max | Sort | Page | Traits | Other(text: string)

  datatype Param = Param(name: Name, value: string)

  type Params = seq<Param>

  /** The first value of the name; the empty text where there is none, which the reader treats alike. */
  function Get(p: Params, name: Name): string {
    if p == [] then "" else if p[0].name == name then p[0].value else Get(p[1..], name)
  }

  function Without(p: Params, name: Name): Params {
    if p == [] then [] else (if p[0].name == name then [] else [p[0]]) + Without(p[1..], name)
  }

  /** `set`: overwrite the first, drop the others, or append. */
  function Set(p: Params, name: Name, value: string): Params {
    if p == [] then [Param(name, value)]
    else if p[0].name == name then [Param(name, value)] + Without(p[1..], name)
    else [p[0]] + Set(p[1..], name, value)
  }

  lemma {:induction false} GetOfWithout(p: Params, name: Name, other: Name)
    requires other != name
    ensures Get(Without(p, name), other) == Get(p, other)
  {
    if p != [] {
      GetOfWithout(p[1..], name, other);
      assert p[0].name != name ==> Without(p, name)[1..] == Without(p[1..], name);
      assert p[0].name == name ==> Without(p, name) == Without(p[1..], name);
    }
  }

  lemma {:induction false} GetOfSet(p: Params, name: Name, value: string, other: Name)
    ensures Get(Set(p, name, value), other) == if other == name then value else Get(p, other)
  {
    var q := Set(p, name, value);
    if p == [] {
      assert q[1..] == [];
    } else if p[0].name == name {
      assert q[1..] == Without(p[1..], name);
      if other != name {
        GetOfWithout(p[1..], name, other);
      }
    } else {
      assert q[1..] == Set(p[1..], name, value);
      GetOfSet(p[1..], name, value, other);
    }
  }

  // ---------------------------------------------------------------- values

  predicate IsHex(c: char) {
    IsDigit(c) || 'a' <= c <= 'f' || 'A' <= c <= 'F'
  }

  /** `/^0x[0-9a-fA-F]{40}$/`. */
  predicate IsAddress(s: string) {
    |s| == 42 && s[..2] == "0x" && forall i :: 2 <= i < 42 ==> IsHex(s[i])
  }

  function LowerChar(c: char): char {
    if 'A' <= c <= 'Z' then 'a' + (c - 'A') else c
  }

  /** `toLowerCase`, on the addresses it is applied to. */
  function Lower(s: string): (t: string)
    ensures |t| == |s|
  {
    seq(|s|, i requires 0 <= i < |s| => LowerChar(s[i]))
  }

  lemma LowerAddress(s: string)
    requires IsAddress(s)
    ensures IsAddress(Lower(s)) && Lower(Lower(s)) == Lower(s)
  {
    assert s[..2][0] == '0' && s[..2][1] == 'x';
    assert Lower(s)[..2] == "0x";
  }

  /** `/^\d+(\.\d+)?$/`. */
  predicate IsPrice(s: string) {
    (s != "" && AllDigits(s)) || exists i | 0 < i < |s| - 1 :: PointAt(s, i)
  }

  predicate PointAt(s: string, i: int)
    requires 0 < i < |s| - 1
  {
    s[i] == '.' && AllDigits(s[..i]) && AllDigits(s[i + 1..])
  }

  datatype Sorting = Recent | PriceAsc | PriceDesc | Ending

  function SortText(s: Sorting): string {
    match s
    case Recent => "recent"
    case PriceAsc => "price_asc"
    case PriceDesc => "price_desc"
    case Ending => "ending"
  }

  function SortOf(text: string): Option<Sorting> {
    if text == "recent" then Some(Recent)
    else if text == "price_asc" then Some(PriceAsc)
    else if text == "price_desc" then Some(PriceDesc)
    else if text == "ending" then Some(Ending)
    else None
  }

  lemma SortReadsBack(s: Sorting)
    ensures SortText(s) != "" && SortOf(SortText(s)) == Some(s)
  {
    assert "price_asc"[6] != "price_desc"[6];
  }

  /** A sorting is read from its own text only. */
  lemma SortIsItsText(text: string, s: Sorting)
    ensures SortOf(text) == Some(s) <==> text == SortText(s)
  {
    SortReadsBack(s);
  }

  datatype TraitState = AtName | InName | AtValue | InValue

  /** `/^[^:,]+:[^:,]+(,[^:,]+:[^:,]+)*$/`, from a state of its automaton. */
  predicate TraitsFrom(s: string, state: TraitState) {
    if s == "" then state.InValue?
    else if s[0] == ':' then state.InName? && TraitsFrom(s[1..], AtValue)
    else if s[0] == ',' then state.InValue? && TraitsFrom(s[1..], AtName)
    else TraitsFrom(s[1..], if state.AtName? || state.InName? then InName else InValue)
  }

  predicate IsTraits(s: string) {
    TraitsFrom(s, AtName)
  }

  const MAX_PAGE: int := 10_000

  /** Numbers print in decimal and read back. */
  ghost predicate ReadsNumerals(number: string -> Option<int>) {
    forall n: nat :: 1 <= n <= MAX_PAGE ==> number(Numeral(n)) == Some(n)
  }

  predicate IsPage(n: Option<int>) {
    n.Some? && 1 <= n.value <= MAX_PAGE
  }

  // ---------------------------------------------------------------- filters

  datatype Filters = Filters(collection: string, min: string, max: string, sort: Sorting, page: int, traits: string,
                             seller: string)

  const EMPTY := Filters("", "", "", Recent, 1, "", "")

  datatype Parsed = Parsed(filters: Filters, invalid: seq<Name>)

  predicate IsCollection(s: string) {
    s == "" || (IsAddress(s) && Lower(s) == s)
  }

  predicate IsBound(s: string) {
    s == "" || IsPrice(s)
  }

  /** What a page's URL can express: each value unset or well-formed, addresses in lower case, traits only within a
      collection, and never a seller. */
  predicate Valid(f: Filters) {
    && IsCollection(f.collection)
    && IsBound(f.min) && IsBound(f.max)
    && 1 <= f.page <= MAX_PAGE
    && (f.traits == "" || (f.collection != "" && IsTraits(f.traits)))
    && f.seller == ""
  }

  // What one parameter does to the state read so far: nothing if it is missing, a report if it is not well-formed.

  function Report(r: Parsed, name: Name): Parsed {
    r.(invalid := r.invalid + [name])
  }

  function TakeCollection(r: Parsed, v: string): Parsed {
    if v == "" then r
    else if IsAddress(v) then r.(filters := r.filters.(collection := Lower(v)))
    else Report(r, Collection)
  }

  function TakeBound(r: Parsed, name: Name, v: string): Parsed {
    if v == "" then r
    else if IsPrice(v) then r.(filters := if name.Min? then r.filters.(min := v) else r.filters.(max := v))
    else Report(r, name)
  }

  function TakeSort(r: Parsed, v: string): Parsed {
    if v == "" then r
    else if SortOf(v).Some? then r.(filters := r.filters.(sort := SortOf(v).value))
    else Report(r, Sort)
  }

  function TakePage(r: Parsed, v: string, number: string -> Option<int>): Parsed {
    if v == "" then r
    else if IsPage(number(v)) then r.(filters := r.filters.(page := number(v).value))
    else Report(r, Page)
  }

  function TakeTraits(r: Parsed, v: string): Parsed {
    if v == "" then r
    else if r.filters.collection != "" && IsTraits(v) then r.(filters := r.filters.(traits := v))
    else Report(r, Traits)
  }

  function Parse(p: Params, number: string -> Option<int>): Parsed {
    var r := TakeCollection(Parsed(EMPTY, []), Get(p, Collection));
    var r := TakeBound(r, Min, Get(p, Min));
    var r := TakeBound(r, Max, Get(p, Max));
    var r := TakeSort(r, Get(p, Sort));
    var r := TakePage(r, Get(p, Page), number);
    TakeTraits(r, Get(p, Traits))
  }

  method ParseListingsParams(p: Params, number: string -> Option<int>) returns (f: Filters, invalid: seq<Name>)
    ensures Parsed(f, invalid) == Parse(p, number)
  {
    f, invalid := EMPTY, [];
    var coll := Get(p, Collection);
    if coll != "" {
      if IsAddress(coll) { f := f.(collection := Lower(coll)); } else { invalid := invalid + [Collection]; }
    }
    f, invalid := ParseBounds(p, f, invalid);
    var sort := Get(p, Sort);
    if sort != "" {
      if SortOf(sort).Some? { f := f.(sort := SortOf(sort).value); } else { invalid := invalid + [Sort]; }
    }
    var page := Get(p, Page);
    if page != "" {
      var n := number(page);
      if IsPage(n) { f := f.(page := n.value); } else { invalid := invalid + [Page]; }
    }
    var traits := Get(p, Traits);
    if traits != "" {
      if f.collection != "" && IsTraits(traits) { f := f.(traits := traits); } else { invalid := invalid + [Traits]; }
    }
  }

  /** The loop over the two price bounds. */
  method ParseBounds(p: Params, f0: Filters, invalid0: seq<Name>) returns (f: Filters, invalid: seq<Name>)
    ensures Parsed(f, invalid) == TakeBound(TakeBound(Parsed(f0, invalid0), Min, Get(p, Min)), Max, Get(p, Max))
  {
    f, invalid := f0, invalid0;
    var names := [Min, Max];
    ghost var r0 := Parsed(f0, invalid0);
    ghost var r1 := TakeBound(r0, Min, Get(p, Min));
    for i := 0 to 2
      invariant Parsed(f, invalid) == if i == 0 then r0 else if i == 1 then r1 else TakeBound(r1, Max, Get(p, Max))
    {
      var v := Get(p, names[i]);
      if v != "" {
        if IsPrice(v) {
          f := if names[i].Min? then f.(min := v) else f.(max := v);
        } else {
          invalid := invalid + [names[i]];
        }
      }
    }
  }

  function SetIf(p: Params, cond: bool, name: Name, value: string): Params {
    if cond then Set(p, name, value) else p
  }

  function PageText(page: int): string {
    if page > 1 then Numeral(page) else ""
  }

  function Print(f: Filters): Params {
    var p := SetIf([], f.collection != "", Collection, f.collection);
    var p := SetIf(p, f.min != "", Min, f.min);
    var p := SetIf(p, f.max != "", Max, f.max);
    var p := SetIf(p, f.sort != Recent, Sort, SortText(f.sort));
    var p := SetIf(p, f.page > 1, Page, PageText(f.page));
    SetIf(p, f.traits != "", Traits, f.traits)
  }

  method ListingsSearch(f: Filters) returns (p: Params)
    ensures p == Print(f)
  {
    p := [];
    if f.collection != "" { p := Set(p, Collection, f.collection); }
    if f.min != "" { p := Set(p, Min, f.min); }
    if f.max != "" { p := Set(p, Max, f.max); }
    if f.sort != Recent { p := Set(p, Sort, SortText(f.sort)); }
    if f.page > 1 { p := Set(p, Page, Numeral(f.page)); }
    if f.traits != "" { p := Set(p, Traits, f.traits); }
  }

  // ---------------------------------------------------------------- what is read is valid

  lemma TakingKeepsValid(r: Parsed, v: string, number: string -> Option<int>)
    requires Valid(r.filters)
    ensures Valid(TakeCollection(r, v).filters)
    ensures Valid(TakeBound(r, Min, v).filters) && Valid(TakeBound(r, Max, v).filters)
    ensures Valid(TakeSort(r, v).filters)
    ensures Valid(TakePage(r, v, number).filters)
    ensures Valid(TakeTraits(r, v).filters)
  {
    if IsAddress(v) {
      LowerAddress(v);
    }
  }

  /** Whatever the query, what is read from it is a valid state. */
  lemma ParsedIsValid(p: Params, number: string -> Option<int>)
    ensures Valid(Parse(p, number).filters)
  {
    var r0 := Parsed(EMPTY, []);
    var r1 := TakeCollection(r0, Get(p, Collection));
    TakingKeepsValid(r0, Get(p, Collection), number);
    var r2 := TakeBound(r1, Min, Get(p, Min));
    TakingKeepsValid(r1, Get(p, Min), number);
    var r3 := TakeBound(r2, Max, Get(p, Max));
    TakingKeepsValid(r2, Get(p, Max), number);
    var r4 := TakeSort(r3, Get(p, Sort));
    TakingKeepsValid(r3, Get(p, Sort), number);
    var r5 := TakePage(r4, Get(p, Page), number);
    TakingKeepsValid(r4, Get(p, Page), number);
    TakingKeepsValid(r5, Get(p, Traits), number);
  }

  /** Whether a value under this name is taken; traits only count within a collection. */
  predicate WellFormed(p: Params, name: Name, number: string -> Option<int>) {
    var v := Get(p, name);
    match name
    case Collection => IsAddress(v)
    case Min => IsPrice(v)
    case Max => IsPrice(v)
    case Sort => SortOf(v).Some?
    case Page => IsPage(number(v))
    case Traits => IsAddress(Get(p, Collection)) && IsTraits(v)
    case Other(_) => true
  }

  predicate Reported(p: Params, name: Name, number: string -> Option<int>) {
    Get(p, name) != "" && !WellFormed(p, name, number)
  }

  function Tally(r: Parsed, name: Name): nat {
    multiset(r.invalid)[name]
  }

  lemma ReportTallies(r: Parsed, taken: Name, name: Name)
    ensures Tally(Report(r, taken), name)
            == Tally(r, name) + if name == taken then 1 else 0
  {
    assert multiset([taken])[name] == if name == taken then 1 else 0;
  }

  lemma BoundTallies(p: Params, number: string -> Option<int>, r: Parsed, taken: Name, name: Name)
    requires taken.Min? || taken.Max?
    ensures Tally(TakeBound(r, taken, Get(p, taken)), name)
            == Tally(r, name) + if name == taken && Reported(p, taken, number) then 1 else 0
  {
    ReportTallies(r, taken, name);
  }

  lemma CollectionTallies(p: Params, number: string -> Option<int>, r: Parsed, name: Name)
    ensures Tally(TakeCollection(r, Get(p, Collection)), name)
            == Tally(r, name) + if name == Collection && Reported(p, Collection, number) then 1 else 0
  {
    ReportTallies(r, Collection, name);
  }

  lemma SortTallies(p: Params, number: string -> Option<int>, r: Parsed, name: Name)
    ensures Tally(TakeSort(r, Get(p, Sort)), name)
            == Tally(r, name) + if name == Sort && Reported(p, Sort, number) then 1 else 0
  {
    ReportTallies(r, Sort, name);
  }

  lemma PageTallies(p: Params, number: string -> Option<int>, r: Parsed, name: Name)
    ensures Tally(TakePage(r, Get(p, Page), number), name)
            == Tally(r, name) + if name == Page && Reported(p, Page, number) then 1 else 0
  {
    ReportTallies(r, Page, name);
  }

  lemma TraitsTallies(p: Params, number: string -> Option<int>, r: Parsed, name: Name)
    requires r.filters.collection != "" <==> IsAddress(Get(p, Collection))
    ensures Tally(TakeTraits(r, Get(p, Traits)), name)
            == Tally(r, name) + if name == Traits && Reported(p, Traits, number) then 1 else 0
  {
    ReportTallies(r, Traits, name);
  }

  /** The collection that later parameters see. */
  lemma CollectionIsTaken(p: Params, number: string -> Option<int>, r: Parsed)
    requires r.filters.collection == ""
    ensures var r1 := TakeCollection(r, Get(p, Collection));
            var r3 := TakeBound(TakeBound(r1, Min, Get(p, Min)), Max, Get(p, Max));
            var r5 := TakePage(TakeSort(r3, Get(p, Sort)), Get(p, Page), number);
            r5.filters.collection != "" <==> IsAddress(Get(p, Collection))
  {
    assert |Lower(Get(p, Collection))| == |Get(p, Collection)|;
  }

  /** The names reported are exactly those of values that are there and not well-formed, and each is reported once. */
  lemma ReportedIff(p: Params, number: string -> Option<int>, name: Name)
    ensures multiset(Parse(p, number).invalid)[name] == if Reported(p, name, number) then 1 else 0
  {
    var r0 := Parsed(EMPTY, []);
    var r1 := TakeCollection(r0, Get(p, Collection));
    CollectionTallies(p, number, r0, name);
    var r2 := TakeBound(r1, Min, Get(p, Min));
    BoundTallies(p, number, r1, Min, name);
    var r3 := TakeBound(r2, Max, Get(p, Max));
    BoundTallies(p, number, r2, Max, name);
    var r4 := TakeSort(r3, Get(p, Sort));
    SortTallies(p, number, r3, name);
    var r5 := TakePage(r4, Get(p, Page), number);
    PageTallies(p, number, r4, name);
    CollectionIsTaken(p, number, r0);
    TraitsTallies(p, number, r5, name);
    assert Tally(r0, name) == 0;
    assert Parse(p, number) == TakeTraits(r5, Get(p, Traits));
  }

  /** Each field is the value under its name if that is well-formed, in lower case for the collection, and the default
      otherwise; traits need a collection beside them. No value influences another field. */
  lemma FieldsAre(p: Params, number: string -> Option<int>)
    ensures var f, c, n := Parse(p, number).filters, Get(p, Collection), Get(p, Page);
            && f.collection == (if IsAddress(c) then Lower(c) else "")
            && f.min == (if IsPrice(Get(p, Min)) then Get(p, Min) else "")
            && f.max == (if IsPrice(Get(p, Max)) then Get(p, Max) else "")
            && f.sort == (if SortOf(Get(p, Sort)).Some? then SortOf(Get(p, Sort)).value else Recent)
            && f.page == (if n != "" && IsPage(number(n)) then number(n).value else 1)
            && f.traits == (if IsAddress(c) && IsTraits(Get(p, Traits)) then Get(p, Traits) else "")
            && f.seller == ""
  {
    var c := if IsAddress(Get(p, Collection)) then Lower(Get(p, Collection)) else "";
    var r1 := TakeCollection(Parsed(EMPTY, []), Get(p, Collection));
    assert r1.filters == EMPTY.(collection := c);
    var r3 := TakeBound(TakeBound(r1, Min, Get(p, Min)), Max, Get(p, Max));
    BoundsAre(r1, Get(p, Min), Get(p, Max));
    OthersAre(r3, Get(p, Sort), Get(p, Page), Get(p, Traits), number);
    assert c != "" <==> IsAddress(Get(p, Collection)) by {
      assert |Lower(Get(p, Collection))| == |Get(p, Collection)|;
    }
  }

  lemma BoundsAre(r: Parsed, min: string, max: string)
    requires r.filters.min == r.filters.max == ""
    ensures TakeBound(TakeBound(r, Min, min), Max, max).filters ==
            r.filters.(min := if IsPrice(min) then min else "", max := if IsPrice(max) then max else "")
  {
  }

  lemma OthersAre(r: Parsed, sort: string, page: string, traits: string, number: string -> Option<int>)
    requires r.filters.sort == Recent && r.filters.page == 1 && r.filters.traits == ""
    ensures TakeTraits(TakePage(TakeSort(r, sort), page, number), traits).filters ==
            r.filters.(sort := if SortOf(sort).Some? then SortOf(sort).value else Recent,
                       page := if page != "" && IsPage(number(page)) then number(page).value else 1,
                       traits := if r.filters.collection != "" && IsTraits(traits) then traits else "")
  {
  }

  // ---------------------------------------------------------------- what the patterns match

  predicate IsPart(s: string) {
    s != "" && ':' !in s && ',' !in s
  }

  datatype Trait = Trait(name: string, value: string)

  /** `name:value`, joined by commas. */
  function TraitsText(ts: seq<Trait>): string
    requires ts != []
  {
    ts[0].name + ":" + ts[0].value + if |ts| == 1 then "" else "," + TraitsText(ts[1..])
  }

  predicate AreParts(ts: seq<Trait>) {
    forall t :: t in ts ==> IsPart(t.name) && IsPart(t.value)
  }

  /** A part takes the automaton from before it to within it. */
  lemma {:induction false} PartIsSkipped(s: string, rest: string, state: TraitState)
    requires IsPart(s)
    ensures TraitsFrom(s + rest, state) == TraitsFrom(rest, if state.AtName? || state.InName? then InName else InValue)
  {
    assert (s + rest)[0] == s[0] && (s + rest)[1..] == s[1..] + rest;
    if s[1..] != "" {
      PartIsSkipped(s[1..], rest, if state.AtName? || state.InName? then InName else InValue);
    } else {
      assert s[1..] + rest == rest;
    }
  }

  lemma {:induction false} TextIsTraits(ts: seq<Trait>)
    requires ts != [] && AreParts(ts)
    ensures IsTraits(TraitsText(ts))
  {
    var t := ts[0];
    var more := if |ts| == 1 then "" else "," + TraitsText(ts[1..]);
    var rest := ":" + (t.value + more);
    assert TraitsText(ts) == t.name + rest;
    PartIsSkipped(t.name, rest, AtName);
    assert rest[1..] == t.value + more;
    PartIsSkipped(t.value, more, AtValue);
    if |ts| > 1 {
      TextIsTraits(ts[1..]);
      assert more[1..] == TraitsText(ts[1..]);
    }
  }

  /** The longest part at the front. */
  lemma {:induction false} FrontPart(s: string) returns (front: string, rest: string)
    ensures s == front + rest && (front == "" || IsPart(front))
    ensures rest == "" || rest[0] == ':' || rest[0] == ','
  {
    if s == "" || s[0] == ':' || s[0] == ',' {
      front, rest := "", s;
    } else {
      front, rest := FrontPart(s[1..]);
      front := [s[0]] + front;
      assert s == [s[0]] + s[1..];
    }
  }

  lemma {:induction false} TraitsAreText(s: string) returns (ts: seq<Trait>)
    requires IsTraits(s)
    ensures ts != [] && AreParts(ts) && s == TraitsText(ts)
    decreases |s|
  {
    var name, s1 := FrontPart(s);
    assert name != "" by {
      assert name == "" ==> s == s1;
    }
    PartIsSkipped(name, s1, AtName);
    assert s1[0] == ':';
    var value, s2 := FrontPart(s1[1..]);
    assert value + s2 == s1[1..];
    assert value != "";
    PartIsSkipped(value, s2, AtValue);
    assert s1 == ":" + (value + s2);
    if s2 == "" {
      ts := [Trait(name, value)];
    } else {
      var more := TraitsAreText(s2[1..]);
      ts := [Trait(name, value)] + more;
      assert ts[1..] == more && s2 == "," + s2[1..];
    }
  }

  /** The pattern for traits matches the lists of `name:value` whose parts are not empty and hold no colon or comma. */
  lemma TraitsIff(s: string)
    ensures IsTraits(s) <==> exists ts :: ts != [] && AreParts(ts) && s == TraitsText(ts)
  {
    if IsTraits(s) {
      var ts := TraitsAreText(s);
    }
    if ts :| ts != [] && AreParts(ts) && s == TraitsText(ts) {
      TextIsTraits(ts);
    }
  }

  // ---------------------------------------------------------------- the round trip

  lemma GetOfSetIf(p: Params, cond: bool, name: Name, value: string, other: Name)
    ensures Get(SetIf(p, cond, name, value), other) == if cond && other == name then value else Get(p, other)
  {
    GetOfSet(p, name, value, other);
  }

  /** The value the printed form has under each name. */
  function Shown(f: Filters, name: Name): string {
    match name
    case Collection => f.collection
    case Min => f.min
    case Max => f.max
    case Sort => if f.sort != Recent then SortText(f.sort) else ""
    case Page => PageText(f.page)
    case Traits => f.traits
    case Other(_) => ""
  }

  lemma Printed(f: Filters, name: Name)
    ensures Get(Print(f), name) == Shown(f, name)
  {
    var p1 := SetIf([], f.collection != "", Collection, f.collection);
    GetOfSetIf([], f.collection != "", Collection, f.collection, name);
    var p2 := SetIf(p1, f.min != "", Min, f.min);
    GetOfSetIf(p1, f.min != "", Min, f.min, name);
    var p3 := SetIf(p2, f.max != "", Max, f.max);
    GetOfSetIf(p2, f.max != "", Max, f.max, name);
    var p4 := SetIf(p3, f.sort != Recent, Sort, SortText(f.sort));
    GetOfSetIf(p3, f.sort != Recent, Sort, SortText(f.sort), name);
    var p5 := SetIf(p4, f.page > 1, Page, PageText(f.page));
    GetOfSetIf(p4, f.page > 1, Page, PageText(f.page), name);
    GetOfSetIf(p5, f.traits != "", Traits, f.traits, name);
  }

  lemma TakesSort(r: Parsed, f: Filters)
    requires r.filters.sort == Recent
    ensures TakeSort(r, Shown(f, Sort)) == r.(filters := r.filters.(sort := f.sort))
  {
    SortReadsBack(f.sort);
  }

  lemma TakesPage(r: Parsed, f: Filters, number: string -> Option<int>)
    requires ReadsNumerals(number) && 1 <= f.page <= MAX_PAGE && r.filters.page == 1
    ensures TakePage(r, Shown(f, Page), number) == r.(filters := r.filters.(page := f.page))
  {
    if f.page > 1 {
      var n: nat := f.page;
      assert number(Numeral(n)) == Some(n);
    }
  }

  lemma TakesTexts(r: Parsed, f: Filters)
    requires Valid(f)
    ensures r.filters.collection == "" ==>
              TakeCollection(r, f.collection) == r.(filters := r.filters.(collection := f.collection))
    ensures r.filters.min == "" ==> TakeBound(r, Min, f.min) == r.(filters := r.filters.(min := f.min))
    ensures r.filters.max == "" ==> TakeBound(r, Max, f.max) == r.(filters := r.filters.(max := f.max))
    ensures r.filters.collection == f.collection && r.filters.traits == "" ==>
              TakeTraits(r, f.traits) == r.(filters := r.filters.(traits := f.traits))
  {
  }

  lemma ValidReadsBack(f: Filters, number: string -> Option<int>)
    requires ReadsNumerals(number) && Valid(f)
    ensures Parse(Print(f), number) == Parsed(f, [])
  {
    forall name {
      Printed(f, name);
    }
    var r0 := Parsed(EMPTY, []);
    TakesTexts(r0, f);
    var r1 := Parsed(EMPTY.(collection := f.collection), []);
    TakesTexts(r1, f);
    var r2 := Parsed(r1.filters.(min := f.min), []);
    TakesTexts(r2, f);
    var r3 := Parsed(r2.filters.(max := f.max), []);
    TakesSort(r3, f);
    var r4 := Parsed(r3.filters.(sort := f.sort), []);
    TakesPage(r4, f, number);
    var r5 := Parsed(r4.filters.(page := f.page), []);
    TakesTexts(r5, f);
  }

  /** Printing a state and reading it back gives the state, and no complaint, exactly when it is valid. */
  lemma RoundTripIff(f: Filters, number: string -> Option<int>)
    requires ReadsNumerals(number)
    ensures Parse(Print(f), number) == Parsed(f, []) <==> Valid(f)
  {
    if Valid(f) {
      ValidReadsBack(f, number);
    } else {
      ParsedIsValid(Print(f), number);
    }
  }

  /** For any query at all: reading, printing and reading again is reading, and the printed form draws no complaint. */
  lemma ReadingSettles(p: Params, number: string -> Option<int>)
    requires ReadsNumerals(number)
    ensures Parse(Print(Parse(p, number).filters), number) == Parsed(Parse(p, number).filters, [])
  {
    ParsedIsValid(p, number);
    ValidReadsBack(Parse(p, number).filters, number);
  }

  /** Different valid states have different URLs. */
  lemma PrintIsInjective(f: Filters, g: Filters, number: string -> Option<int>)
    requires ReadsNumerals(number) && Valid(f) && Valid(g) && Print(f) == Print(g)
    ensures f == g
  {
    ValidReadsBack(f, number);
    ValidReadsBack(g, number);
  }

  // ---------------------------------------------------------------- on to wei

  lemma {:induction false} SplitAtPoint(s: string, i: nat)
    requires i < |s| && s[i] == '.' && AllDigits(s[..i])
    ensures WeiFormat.SplitDot(s) == (s[..i], s[i + 1..])
  {
    if i > 0 {
      assert s[..i][0] == s[0] && s[1..][..i - 1] == s[..i][1..];
      SplitAtPoint(s[1..], i - 1);
      assert [s[0]] + s[1..][..i - 1] == s[..i];
    }
  }

  lemma {:induction false} SplitOfDigits(s: string)
    requires AllDigits(s)
    ensures WeiFormat.SplitDot(s) == (s, "")
  {
    if s != "" {
      SplitOfDigits(s[1..]);
      assert [s[0]] + s[1..] == s;
    }
  }

  /** A price bound that was read from the URL always converts to wei: the request builder's fallback is never taken. */
  lemma BoundsConvert(v: string)
    requires IsPrice(v)
    ensures WeiFormat.ToWei(v) != WeiFormat.NotANumber
  {
    WeiFormat.TrimmingDigits(v);
    if AllDigits(v) {
      SplitOfDigits(v);
    } else {
      var i :| 0 < i < |v| - 1 && PointAt(v, i);
      assert IsDigit(v[..i][0]) && IsDigit(v[i + 1..][|v| - i - 2]);
      SplitAtPoint(v, i);
    }
  }
}
