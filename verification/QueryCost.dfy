/** The price of a GraphQL query against what the resolvers can return for it.

    A query is the tree of its selected fields, fragments expanded. Of a response, what is counted are its scalar
    leaves. */
module QueryCost {
  import opened Options

  // ---------------------------------------------------------------- the schema

  /** Fields that resolve to one object. */
  datatype ObjectField =
    | Collection | Listing | Auction | OfferPositions | TokenMeta | TokenFullMetadata | Profile | Metrics
    | CollectionStats | Stats

  /** Fields that resolve to a list of objects. */
  datatype ListField =
    | Collections | Listings | Auctions | Offers | TokenActivity | Activity | Search | Trending | Notifications
    | SavedSearches | WalletNfts | TokenAttributes | Bids | EffectiveBids | Positions

  datatype Field =
    | Scalar
    | One(object: ObjectField, parts: Selection)
    | Many(list: ListField, limit: Option<int>, items: Selection)

  datatype Selection = Done | With(field: Field, others: Selection)

  /** Object types; all that have only scalar fields are `Plain`. */
  datatype Type = QueryRoot | CollectionType | AuctionType | OfferSummaryType | Plain

  function TypeOf(o: ObjectField): Type {
    match o
    case Collection => CollectionType
    case Auction => AuctionType
    case OfferPositions => OfferSummaryType
    case _ => Plain
  }

  function ItemType(l: ListField): Type {
    match l
    case Collections => CollectionType
    case Auctions => AuctionType
    case _ => Plain
  }

  function OwnerOfObject(o: ObjectField): Type {
    if o.Stats? then CollectionType else QueryRoot
  }

  predicate HasList(t: Type, l: ListField) {
    match l
    case Bids => t.AuctionType?
    case EffectiveBids => t.AuctionType?
    case Positions => t.OfferSummaryType?
    case Listings => t.QueryRoot? || t.CollectionType?
    case Auctions => t.QueryRoot? || t.CollectionType?
    case _ => t.QueryRoot?
  }

  predicate Typed(t: Type, f: Field)
    decreases f
  {
    match f
    case Scalar => true
    case One(o, sel) => t == OwnerOfObject(o) && AllTyped(TypeOf(o), sel)
    case Many(l, _, sel) => HasList(t, l) && AllTyped(ItemType(l), sel)
  }

  predicate AllTyped(t: Type, sel: Selection)
    decreases sel
  {
    sel.With? ==> Typed(t, sel.field) && AllTyped(t, sel.others)
  }

  // ---------------------------------------------------------------- the price

  const COST_SCALAR := 1
  const COST_OBJECT := 5
  const COST_LIST_BASE := 10
  const COST_CONN_BASE := 5
  const COST_PER_ITEM := 2
  const MAX_COST_ITEMS := 200
  const DEFAULT_ITEMS := 50
  const MAX_QUERY_COST := 1000

  /** The number of items `listCost` charges for. */
  function ChargedItems(limit: Option<int>): nat {
    var n := if limit.Some? && limit.value > 0 then limit.value else DEFAULT_ITEMS;
    if n > MAX_COST_ITEMS then MAX_COST_ITEMS else n
  }

  function ListCost(child: nat, limit: Option<int>): nat {
    COST_LIST_BASE + child * ChargedItems(limit)
  }

  function ObjectCost(o: ObjectField, child: nat): nat {
    match o
    case Collection => COST_LIST_BASE + child
    case Listing => COST_LIST_BASE + child
    case Auction => COST_LIST_BASE + child
    case OfferPositions => COST_CONN_BASE + child * COST_PER_ITEM
    case TokenMeta => COST_SCALAR + child
    case _ => COST_OBJECT + child
  }

  function ManyCost(l: ListField, child: nat, limit: Option<int>): nat {
    match l
    case WalletNfts => ListCost(child, None)
    case TokenAttributes => COST_OBJECT + child
    case Bids => COST_CONN_BASE + child * COST_PER_ITEM
    case EffectiveBids => COST_CONN_BASE + child * COST_PER_ITEM
    case Positions => COST_CONN_BASE + child * COST_PER_ITEM
    case _ => ListCost(child, limit)
  }

  function Cost(f: Field): nat {
    match f
    case Scalar => COST_SCALAR
    case One(o, sel) => ObjectCost(o, CostOf(sel))
    case Many(l, limit, sel) => ManyCost(l, CostOf(sel), limit)
  }

  function CostOf(sel: Selection): nat {
    if sel.Done? then 0 else Cost(sel.field) + CostOf(sel.others)
  }

  // ---------------------------------------------------------------- what the resolvers fetch

  /** A limit in range is taken; any other is replaced by the default, not clamped. */
  function Within(limit: Option<int>, cap: nat, default: nat): nat {
    if limit.Some? && 0 < limit.value <= cap then limit.value else default
  }

  /** The lists whose price counts their limit. */
  predicate Counted(l: ListField) {
    !(l.WalletNfts? || l.TokenAttributes? || l.Bids? || l.EffectiveBids? || l.Positions?)
  }

  /** The largest limit the resolver of the list takes. */
  function Largest(l: ListField): nat
    requires Counted(l)
  {
    match l
    case Collections => 200
    case Auctions => 200
    case Activity => 200
    case Search => 50
    case _ => 100
  }

  /** How many rows it asks for otherwise. */
  function Default(l: ListField): nat
    requires Counted(l)
  {
    match l
    case TokenActivity => 30
    case Search => 20
    case Trending => 20
    case _ => 50
  }

  /** The most rows a list can have; None where no resolver and no statement limits it. */
  function RowCap(l: ListField, limit: Option<int>): Option<nat> {
    match l
    case WalletNfts => Some(500)
    case Positions => Some(200)
    case TokenAttributes => None
    case Bids => None
    case EffectiveBids => None
    case _ => Some(Within(limit, Largest(l), Default(l)))
  }

  /** No resolver returns more than is charged for, for any limit: missing, negative, zero or huge. */
  lemma ChargedCoversFetched(l: ListField, limit: Option<int>)
    requires Counted(l)
    ensures RowCap(l, limit).Some? && 1 <= RowCap(l, limit).value <= ChargedItems(limit)
  {
  }

  /** What is charged is what is fetched if and only if the limit is one the resolver takes, or there is none and the
      resolver's default is the price's. */
  lemma ChargeIsExactIff(l: ListField, limit: Option<int>)
    requires Counted(l)
    ensures RowCap(l, limit) == Some(ChargedItems(limit))
            <==> if limit.Some? && limit.value > 0 then limit.value <= Largest(l) else Default(l) == 50
  {
  }

  // ---------------------------------------------------------------- responses

  datatype Response = Null | Leaf | Object(fields: Answers) | List(rows: Rows)

  datatype Answers = NoAnswer | Answer(response: Response, rest: Answers)

  datatype Rows = NoRows | Row(row: Answers, more: Rows)

  function RowCount(rows: Rows): nat {
    if rows.NoRows? then 0 else 1 + RowCount(rows.more)
  }

  predicate Conforms(r: Response, f: Field) {
    match r
    case Null => true
    case Leaf => f.Scalar?
    case Object(fields) => f.One? && AllConform(fields, f.parts)
    case List(rows) =>
      && f.Many? && RowsConform(rows, f.items)
      && (RowCap(f.list, f.limit).Some? ==> RowCount(rows) <= RowCap(f.list, f.limit).value)
  }

  predicate AllConform(a: Answers, sel: Selection) {
    match a
    case NoAnswer => sel.Done?
    case Answer(r, rest) => sel.With? && Conforms(r, sel.field) && AllConform(rest, sel.others)
  }

  predicate RowsConform(rows: Rows, sel: Selection) {
    match rows
    case NoRows => true
    case Row(row, more) => AllConform(row, sel) && RowsConform(more, sel)
  }

  function Leaves(r: Response): nat {
    match r
    case Null => 0
    case Leaf => 1
    case Object(fields) => LeavesOf(fields)
    case List(rows) => LeavesOfRows(rows)
  }

  function LeavesOf(a: Answers): nat {
    if a.NoAnswer? then 0 else Leaves(a.response) + LeavesOf(a.rest)
  }

  function LeavesOfRows(rows: Rows): nat {
    if rows.NoRows? then 0 else LeavesOf(rows.row) + LeavesOfRows(rows.more)
  }

  // ---------------------------------------------------------------- the price bounds the response

  predicate AllCounted(sel: Selection) {
    sel.With? ==> FieldCounted(sel.field) && AllCounted(sel.others)
  }

  predicate FieldCounted(f: Field) {
    match f
    case Scalar => true
    case One(_, sel) => AllCounted(sel)
    case Many(l, _, sel) => Counted(l) && AllCounted(sel)
  }

  lemma Monotone(a: nat, b: nat, c: nat)
    requires a <= b
    ensures a * c <= b * c && c * a <= c * b
  {
    assert b * c == a * c + (b - a) * c;
  }

  lemma OneMore(n: nat, c: nat)
    ensures (1 + n) * c == c + n * c
  {
  }

  /** Whatever the data, a query without uncounted lists costs at least the leaves of its response. */
  lemma {:induction false} CostCoversLeaves(r: Response, f: Field)
    requires Conforms(r, f) && FieldCounted(f)
    ensures Leaves(r) <= Cost(f)
    decreases r
  {
    match r
    case Null =>
    case Leaf =>
    case Object(fields) =>
      CostCoversAnswers(fields, f.parts);
    case List(rows) =>
      CostCoversRows(rows, f.items);
      ChargedCoversFetched(f.list, f.limit);
      Monotone(RowCount(rows), ChargedItems(f.limit), CostOf(f.items));
  }

  lemma {:induction false} CostCoversAnswers(a: Answers, sel: Selection)
    requires AllConform(a, sel) && AllCounted(sel)
    ensures LeavesOf(a) <= CostOf(sel)
    decreases a
  {
    if a.Answer? {
      CostCoversLeaves(a.response, sel.field);
      CostCoversAnswers(a.rest, sel.others);
    }
  }

  lemma {:induction false} CostCoversRows(rows: Rows, sel: Selection)
    requires RowsConform(rows, sel) && AllCounted(sel)
    ensures LeavesOfRows(rows) <= RowCount(rows) * CostOf(sel)
    decreases rows
  {
    if rows.Row? {
      CostCoversAnswers(rows.row, sel);
      CostCoversRows(rows.more, sel);
      OneMore(RowCount(rows.more), CostOf(sel));
    }
  }

  /** A query that is let through, without uncounted lists, returns no more leaves than the budget. */
  lemma AdmittedIsBounded(a: Answers, query: Selection, budget: nat)
    requires AllConform(a, query) && AllCounted(query) && CostOf(query) <= budget
    ensures LeavesOf(a) <= budget
  {
    CostCoversAnswers(a, query);
  }

  // ---------------------------------------------------------------- the uncounted lists

  function Scalars(n: nat): Selection {
    if n == 0 then Done else With(Scalar, Scalars(n - 1))
  }

  function LeafAnswers(n: nat): Answers {
    if n == 0 then NoAnswer else Answer(Leaf, LeafAnswers(n - 1))
  }

  function RepeatedRow(a: Answers, m: nat): Rows {
    if m == 0 then NoRows else Row(a, RepeatedRow(a, m - 1))
  }

  lemma {:induction false} OfScalars(n: nat)
    ensures CostOf(Scalars(n)) == n && LeavesOf(LeafAnswers(n)) == n
    ensures AllConform(LeafAnswers(n), Scalars(n)) && AllCounted(Scalars(n))
  {
    if n > 0 {
      OfScalars(n - 1);
    }
  }

  lemma {:induction false} OfRepeated(a: Answers, sel: Selection, m: nat)
    requires AllConform(a, sel)
    ensures RowCount(RepeatedRow(a, m)) == m && RowsConform(RepeatedRow(a, m), sel)
    ensures LeavesOfRows(RepeatedRow(a, m)) == m * LeavesOf(a)
  {
    if m > 0 {
      OfRepeated(a, sel, m - 1);
      assert m * LeavesOf(a) == LeavesOf(a) + (m - 1) * LeavesOf(a);
    }
  }

  // ---------------------------------------------------------------- the most a query can return

  function Plus(a: Option<nat>, b: Option<nat>): Option<nat> {
    if a.Some? && b.Some? then Some(a.value + b.value) else None
  }

  /** Rows times leaves per row, where None is no bound: nothing in each row is nothing in all. */
  function Times(rows: Option<nat>, each: Option<nat>): Option<nat> {
    if each == Some(0) then Some(0)
    else if rows.Some? && each.Some? then Some(rows.value * each.value)
    else None
  }

  /** The most leaves the resolvers can return for a field, read off the query alone; None if there is no bound. */
  function MaxLeaves(f: Field): Option<nat> {
    match f
    case Scalar => Some(1)
    case One(_, sel) => MaxOf(sel)
    case Many(l, limit, sel) => Times(RowCap(l, limit), MaxOf(sel))
  }

  function MaxOf(sel: Selection): Option<nat> {
    if sel.Done? then Some(0) else Plus(MaxLeaves(sel.field), MaxOf(sel.others))
  }

  lemma {:induction false} LeavesAreBounded(r: Response, f: Field)
    requires Conforms(r, f) && MaxLeaves(f).Some?
    ensures Leaves(r) <= MaxLeaves(f).value
    decreases r
  {
    match r
    case Null =>
    case Leaf =>
    case Object(fields) => AnswersAreBounded(fields, f.parts);
    case List(rows) =>
      RowsAreBounded(rows, f.items);
      var each := MaxOf(f.items).value;
      if each > 0 {
        Monotone(RowCount(rows), RowCap(f.list, f.limit).value, each);
      }
  }

  lemma {:induction false} AnswersAreBounded(a: Answers, sel: Selection)
    requires AllConform(a, sel) && MaxOf(sel).Some?
    ensures LeavesOf(a) <= MaxOf(sel).value
    decreases a
  {
    if a.Answer? {
      LeavesAreBounded(a.response, sel.field);
      AnswersAreBounded(a.rest, sel.others);
    }
  }

  lemma {:induction false} RowsAreBounded(rows: Rows, sel: Selection)
    requires RowsConform(rows, sel) && MaxOf(sel).Some?
    ensures LeavesOfRows(rows) <= RowCount(rows) * MaxOf(sel).value
    decreases rows
  {
    if rows.Row? {
      AnswersAreBounded(rows.row, sel);
      RowsAreBounded(rows.more, sel);
      OneMore(RowCount(rows.more), MaxOf(sel).value);
    }
  }

  /** The bound is attained; and where there is none, any number of leaves is. */
  predicate Reaches(leaves: nat, most: Option<nat>, target: nat) {
    if most.Some? then leaves == most.value else leaves >= target
  }

  lemma RowCapIsPositive(l: ListField, limit: Option<int>)
    ensures RowCap(l, limit).Some? ==> RowCap(l, limit).value >= 1
  {
  }

  /** As many rows as reach the target, if each row reaches what it can. */
  lemma EnoughRows(cap: Option<nat>, each: Option<nat>, leaves: nat, target: nat) returns (m: nat)
    requires cap.Some? ==> cap.value >= 1
    requires Reaches(leaves, each, target)
    ensures cap.Some? ==> m <= cap.value
    ensures Reaches(m * leaves, Times(cap, each), target)
  {
    m := if cap.Some? then cap.value else if each.Some? then target else 1;
    if each.Some? && leaves >= 1 {
      Monotone(1, leaves, m);
    }
    if each.None? {
      Monotone(1, m, leaves);
    }
  }

  lemma {:induction false} FieldReaches(f: Field, target: nat) returns (r: Response)
    ensures Conforms(r, f) && Reaches(Leaves(r), MaxLeaves(f), target)
    decreases f
  {
    match f
    case Scalar => r := Leaf;
    case One(_, sel) =>
      var a := SelectionReaches(sel, target);
      r := Object(a);
    case Many(l, limit, sel) =>
      var a := SelectionReaches(sel, target);
      RowCapIsPositive(l, limit);
      var m := EnoughRows(RowCap(l, limit), MaxOf(sel), LeavesOf(a), target);
      OfRepeated(a, sel, m);
      r := List(RepeatedRow(a, m));
  }

  lemma {:induction false} SelectionReaches(sel: Selection, target: nat) returns (a: Answers)
    ensures AllConform(a, sel) && Reaches(LeavesOf(a), MaxOf(sel), target)
    decreases sel
  {
    if sel.Done? {
      a := NoAnswer;
    } else {
      var r := FieldReaches(sel.field, target);
      var rest := SelectionReaches(sel.others, target);
      a := Answer(r, rest);
    }
  }

  predicate AtMost(most: Option<nat>, limit: nat) {
    most.Some? && most.value <= limit
  }

  /** No response has more leaves than that. */
  ghost predicate Bounds(f: Field, leaves: nat) {
    forall r :: Conforms(r, f) ==> Leaves(r) <= leaves
  }

  ghost predicate BoundsAll(query: Selection, leaves: nat) {
    forall a :: AllConform(a, query) ==> LeavesOf(a) <= leaves
  }

  /** For any field, lists in lists included: its price bounds every response exactly when the query's own row limits
      do. */
  lemma PriceCoversIff(f: Field)
    ensures Bounds(f, Cost(f)) <==> AtMost(MaxLeaves(f), Cost(f))
  {
    if AtMost(MaxLeaves(f), Cost(f)) {
      forall r | Conforms(r, f) ensures Leaves(r) <= Cost(f) {
        LeavesAreBounded(r, f);
      }
    } else {
      var r := FieldReaches(f, Cost(f) + 1);
      assert Conforms(r, f) && Leaves(r) > Cost(f);
      assert !Bounds(f, Cost(f));
    }
  }

  /** The same for a whole query and any budget, its own price or the one it has to keep to. */
  lemma BudgetCoversIff(query: Selection, budget: nat)
    ensures BoundsAll(query, budget) <==> AtMost(MaxOf(query), budget)
  {
    if AtMost(MaxOf(query), budget) {
      forall a | AllConform(a, query) ensures LeavesOf(a) <= budget {
        AnswersAreBounded(a, query);
      }
    } else {
      var a := SelectionReaches(query, budget + 1);
      assert AllConform(a, query) && LeavesOf(a) > budget;
      assert !BoundsAll(query, budget);
    }
  }

  // ---------------------------------------------------------------- list fields of the schema

  /** Every object and every list selects something, as GraphQL demands. */
  predicate Selects(f: Field) {
    match f
    case Scalar => true
    case One(_, sel) => sel.With? && AllSelect(sel)
    case Many(_, _, sel) => sel.With? && AllSelect(sel)
  }

  predicate AllSelect(sel: Selection) {
    sel.With? ==> Selects(sel.field) && AllSelect(sel.others)
  }

  lemma {:induction false} MaxIsPositive(f: Field)
    requires Selects(f)
    ensures MaxLeaves(f) != Some(0)
    decreases f
  {
    match f
    case Scalar =>
    case One(_, sel) => SelectionMaxIsPositive(sel);
    case Many(l, limit, sel) =>
      SelectionMaxIsPositive(sel);
      RowCapIsPositive(l, limit);
      if RowCap(l, limit).Some? && MaxOf(sel).Some? {
        Monotone(1, RowCap(l, limit).value, MaxOf(sel).value);
      }
  }

  lemma {:induction false} SelectionMaxIsPositive(sel: Selection)
    requires sel.With? && AllSelect(sel)
    ensures MaxOf(sel) != Some(0)
    decreases sel
  {
    MaxIsPositive(sel.field);
  }

  /** Below a list only the bids of auctions are uncounted, and they have no bound. */
  lemma {:induction false} UncountedBelowIsUnbounded(t: Type, f: Field)
    requires t.CollectionType? || t.AuctionType? || t.Plain?
    requires Typed(t, f) && Selects(f) && !FieldCounted(f)
    ensures MaxLeaves(f).None?
    decreases f
  {
    match f
    case One(o, sel) => UncountedSelectionIsUnbounded(TypeOf(o), sel);
    case Many(l, limit, sel) =>
      SelectionMaxIsPositive(sel);
      if Counted(l) {
        UncountedSelectionIsUnbounded(ItemType(l), sel);
      }
  }

  lemma {:induction false} UncountedSelectionIsUnbounded(t: Type, sel: Selection)
    requires t.CollectionType? || t.AuctionType? || t.Plain?
    requires AllTyped(t, sel) && AllSelect(sel) && !AllCounted(sel)
    ensures MaxOf(sel).None?
    decreases sel
  {
    if !FieldCounted(sel.field) {
      UncountedBelowIsUnbounded(t, sel.field);
    } else {
      UncountedSelectionIsUnbounded(t, sel.others);
    }
  }

  lemma {:induction false} PlainIsScalars(sel: Selection)
    requires AllTyped(Plain, sel)
    ensures MaxOf(sel) == Some(CostOf(sel))
    decreases sel
  {
    if sel.With? {
      PlainIsScalars(sel.others);
    }
  }

  lemma UncountedOutgrows(l: ListField, limit: Option<int>, n: nat)
    requires !Counted(l) && n > 0
    ensures !AtMost(Times(RowCap(l, limit), Some(n)), ManyCost(l, n, limit))
  {
  }

  /** Of the list fields of the schema, whatever they select: the price bounds every response exactly when neither the
      list nor one inside it is uncounted. */
  lemma PriceHoldsIff(t: Type, f: Field)
    requires f.Many? && Typed(t, f) && Selects(f)
    ensures Bounds(f, Cost(f)) <==> FieldCounted(f)
  {
    PriceCoversIff(f);
    if FieldCounted(f) {
      forall r | Conforms(r, f) ensures Leaves(r) <= Cost(f) {
        CostCoversLeaves(r, f);
      }
    } else if Counted(f.list) {
      ChargedCoversFetched(f.list, f.limit);
      UncountedSelectionIsUnbounded(ItemType(f.list), f.items);
    } else {
      PlainIsScalars(f.items);
      SelectionMaxIsPositive(f.items);
      UncountedOutgrows(f.list, f.limit, CostOf(f.items));
    }
  }

  /** One auction's bids, one field each. */
  const BIDS := Many(Bids, None, Scalars(1))
  const ONE_AUCTIONS_BIDS := With(One(Auction, With(BIDS, Done)), Done)

  lemma BidsAreCheap()
    ensures AllTyped(QueryRoot, ONE_AUCTIONS_BIDS) && CostOf(ONE_AUCTIONS_BIDS) == 17
  {
    assert Scalars(1) == With(Scalar, Done);
    assert Cost(BIDS) == 7;
  }

  lemma BidsAreMany(n: nat) returns (r: Response)
    ensures Conforms(r, BIDS) && Leaves(r) == n
  {
    OfScalars(1);
    OfRepeated(LeafAnswers(1), Scalars(1), n);
    r := List(RepeatedRow(LeafAnswers(1), n));
  }

  /** With an uncounted list in it a query within the budget has no bound on its response at all. */
  lemma AdmittedYetUnbounded(target: nat) returns (query: Selection, a: Answers)
    ensures AllTyped(QueryRoot, query) && CostOf(query) <= MAX_QUERY_COST
    ensures AllConform(a, query) && LeavesOf(a) > target
  {
    query := ONE_AUCTIONS_BIDS;
    BidsAreCheap();
    var bids := BidsAreMany(target + 1);
    var auction := Answer(bids, NoAnswer);
    a := Answer(Object(auction), NoAnswer);
    assert AllConform(auction, With(BIDS, Done));
    assert LeavesOf(auction) == Leaves(bids);
  }

  // ---------------------------------------------------------------- and it is not far above it

  /** Every list below is charged what it fetches; positions, whose total is charged twice, are not selected. */
  predicate Exactly(f: Field) {
    match f
    case Scalar => true
    case One(o, sel) => !o.OfferPositions? && AllExactly(sel)
    case Many(l, limit, sel) => Counted(l) && RowCap(l, limit) == Some(ChargedItems(limit)) && AllExactly(sel)
  }

  predicate AllExactly(sel: Selection) {
    sel.With? ==> Exactly(sel.field) && AllExactly(sel.others)
  }

  /** The objects and lists of the largest response: each list counts once, and what is in it once for each row. */
  function Nodes(f: Field): nat {
    match f
    case Scalar => 0
    case One(_, sel) => 1 + NodesOf(sel)
    case Many(_, limit, sel) => 1 + ChargedItems(limit) * NodesOf(sel)
  }

  function NodesOf(sel: Selection): nat {
    if sel.Done? then 0 else Nodes(sel.field) + NodesOf(sel.others)
  }

  lemma ListWithin(n: nat, child: nat, leaves: nat, nodes: nat)
    requires leaves <= child <= leaves + 10 * nodes
    ensures n * leaves <= n * child <= n * leaves + 10 * (n * nodes)
  {
    Monotone(leaves, child, n);
    Monotone(child, leaves + 10 * nodes, n);
    assert n * (leaves + 10 * nodes) == n * leaves + 10 * (n * nodes);
  }

  /** Where limits are charged exactly, the price is at least the leaves of the largest response and at most ten more for
      each object and list in it. */
  lemma {:induction false} PriceIsWithinTenPerNode(f: Field)
    requires Exactly(f)
    ensures MaxLeaves(f).Some? && MaxLeaves(f).value <= Cost(f) <= MaxLeaves(f).value + 10 * Nodes(f)
    decreases f
  {
    match f
    case Scalar =>
    case One(_, sel) => SelectionIsWithin(sel);
    case Many(_, limit, sel) =>
      SelectionIsWithin(sel);
      ListWithin(ChargedItems(limit), CostOf(sel), MaxOf(sel).value, NodesOf(sel));
      assert MaxOf(sel) == Some(0) ==> ChargedItems(limit) * MaxOf(sel).value == 0;
  }

  lemma {:induction false} SelectionIsWithin(sel: Selection)
    requires AllExactly(sel)
    ensures MaxOf(sel).Some? && MaxOf(sel).value <= CostOf(sel) <= MaxOf(sel).value + 10 * NodesOf(sel)
    decreases sel
  {
    if sel.With? {
      PriceIsWithinTenPerNode(sel.field);
      SelectionIsWithin(sel.others);
    }
  }

  // ---------------------------------------------------------------- no overflow

  function Size(f: Field): nat {
    match f
    case Scalar => 1
    case One(_, sel) => 1 + SizeOf(sel)
    case Many(_, _, sel) => 1 + SizeOf(sel)
  }

  function SizeOf(sel: Selection): nat {
    if sel.Done? then 0 else Size(sel.field) + SizeOf(sel.others)
  }

  /** The most a field's price can grow with its size: 210 for each list that can still be nested below the type. */
  function Growth(t: Type): nat {
    match t
    case Plain => 1
    case AuctionType => 210
    case OfferSummaryType => 210
    case CollectionType => 44_100
    case QueryRoot => 9_261_000
  }

  lemma ObjectGrows(o: ObjectField, child: nat, below: nat, growth: nat, size: nat)
    requires child <= below * size && 2 * below <= growth && 10 <= growth
    ensures ObjectCost(o, child) <= growth * (1 + size)
  {
    Monotone(2 * below, growth, size);
    assert growth * (1 + size) == growth + growth * size;
  }

  lemma ManyCostIsCapped(l: ListField, limit: Option<int>, child: nat)
    ensures ManyCost(l, child, limit) <= COST_LIST_BASE + MAX_COST_ITEMS * child
  {
    Monotone(ChargedItems(limit), MAX_COST_ITEMS, child);
  }

  lemma ListGrows(child: nat, below: nat, growth: nat, size: nat)
    requires child <= below * size && 210 * below <= growth && below >= 1
    ensures COST_LIST_BASE + MAX_COST_ITEMS * child <= growth * (1 + size)
  {
    var p := below * size;
    assert (210 * below) * size == 210 * p;
    Monotone(210 * below, growth, size);
    OneMore(size, growth);
  }

  lemma {:induction false} CostGrowsWithSize(t: Type, f: Field)
    requires Typed(t, f)
    ensures Cost(f) <= Growth(t) * Size(f)
    decreases f
  {
    match f
    case Scalar =>
    case One(o, sel) =>
      SelectionCostGrows(TypeOf(o), sel);
      ObjectGrows(o, CostOf(sel), Growth(TypeOf(o)), Growth(t), SizeOf(sel));
    case Many(l, limit, sel) =>
      SelectionCostGrows(ItemType(l), sel);
      ManyCostIsCapped(l, limit, CostOf(sel));
      ListGrows(CostOf(sel), Growth(ItemType(l)), Growth(t), SizeOf(sel));
  }

  lemma {:induction false} SelectionCostGrows(t: Type, sel: Selection)
    requires AllTyped(t, sel)
    ensures CostOf(sel) <= Growth(t) * SizeOf(sel)
    decreases sel
  {
    if sel.With? {
      CostGrowsWithSize(t, sel.field);
      SelectionCostGrows(t, sel.others);
      assert Growth(t) * SizeOf(sel) == Growth(t) * Size(sel.field) + Growth(t) * SizeOf(sel.others);
    }
  }

  const INT64_MAX: nat := 0x7FFF_FFFF_FFFF_FFFF

  /** Clamping the charged items keeps the price of any well-typed query of fewer than 2^39 fields within 64 bits, so no
      limit, however large, can wrap it to a small or negative price. */
  lemma PriceDoesNotWrap(query: Selection)
    requires AllTyped(QueryRoot, query) && SizeOf(query) < 0x80_0000_0000
    ensures CostOf(query) <= INT64_MAX
  {
    SelectionCostGrows(QueryRoot, query);
  }

  /** Every field costs more than what is selected below it: no part of a query is cheaper inside another. */
  lemma PartsCostLess(f: Field)
    ensures f.One? ==> CostOf(f.parts) < Cost(f)
    ensures f.Many? ==> CostOf(f.items) < Cost(f)
  {
    if f.Many? {
      Monotone(1, ChargedItems(f.limit), CostOf(f.items));
      Monotone(1, ChargedItems(None), CostOf(f.items));
    }
  }
}
