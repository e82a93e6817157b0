/** Ownership and listings: the tables `nft_ownership`, `listings` and `nft_tokens`, and the transactions
    that chain events fold into them.

    `Projection` performs the transactions statement by statement, in place. Each is proved against a
    function on `Books`, the four tables taken together; a history of transactions is `After`. */
module Holdings {
  import opened Options
  import opened Sums
  import Sales

  /** Addresses are stored in lower case (`addrStr`), so `lower(a) = lower(b)` is `a == b`. */
  const ZERO: string := "0x0000000000000000000000000000000000000000"

  datatype Standard = Erc721 | Erc1155

  datatype Nft = Nft(collection: string, tokenId: nat)

  type Key = (Nft, string)

  datatype Holding = Holding(units: int, standard: Standard)

  /** What a Listed event carries. `amount` is a signed 64-bit column. */
  datatype Terms = Terms(priceWei: nat, amount: int, standard: Standard, expiresAt: int, listedAt: int, txHash: string)

  datatype Listing = Listing(terms: Terms, active: bool, orphaned: bool, chainCleaned: bool)

  datatype Books = Books(ownership: map<Key, Holding>, listings: map<Key, Listing>,
                         owners: map<Nft, string>, sales: Sales.Table)

  // ---------------------------------------------------------------- transactions on Books

  function Max(a: int, b: int): int {
    if a > b then a else b
  }

  function UnitsOf(b: Books, n: Nft, o: string): int {
    if (n, o) in b.ownership then b.ownership[(n, o)].units else 0
  }

  /** INSERT ... ON CONFLICT DO UPDATE SET units = nft_ownership.units + EXCLUDED.units. */
  function Credit(m: map<Key, Holding>, k: Key, units: int): map<Key, Holding> {
    m[k := if k in m then m[k].(units := m[k].units + units) else Holding(units, Erc1155)]
  }

  /** UPDATE ... SET units = GREATEST(units - $4, 0): nothing happens when there is no row. */
  function Debit(m: map<Key, Holding>, k: Key, units: int): map<Key, Holding> {
    if k in m then m[k := m[k].(units := Max(m[k].units - units, 0))] else m
  }

  /** INSERT ... ON CONFLICT DO UPDATE SET units = GREATEST(nft_ownership.units, EXCLUDED.units). */
  function Raise(m: map<Key, Holding>, k: Key, units: int): map<Key, Holding> {
    m[k := if k in m then m[k].(units := Max(m[k].units, units)) else Holding(units, Erc1155)]
  }

  /** DELETE every row of the token, then INSERT the one owner. */
  function SoleOwner(m: map<Key, Holding>, n: Nft, o: string): map<Key, Holding> {
    Others(m, n)[(n, o) := Holding(1, Erc721)]
  }

  function Others(m: map<Key, Holding>, n: Nft): map<Key, Holding> {
    map k | k in m && k.0 != n :: m[k]
  }

  function Seeded(m: map<Key, Holding>, n: Nft, seller: string, standard: Standard, amount: int): map<Key, Holding> {
    if standard.Erc1155? then Raise(m, (n, seller), amount) else SoleOwner(m, n, seller)
  }

  function Orphaned(l: Listing): Listing {
    l.(orphaned := true, active := false)
  }

  function Transfer721(b: Books, n: Nft, to: string): Books {
    Books(
      if to != ZERO then SoleOwner(b.ownership, n, to) else Others(b.ownership, n),
      map k | k in b.listings ::
        if k.0 == n && k.1 != to && b.listings[k].active then Orphaned(b.listings[k]) else b.listings[k],
      b.owners[n := to],
      b.sales)
  }

  function Moved1155(m: map<Key, Holding>, n: Nft, from: string, to: string, units: nat): map<Key, Holding> {
    var m1 := if to != ZERO then Credit(m, (n, to), units) else m;
    if from != ZERO then Debit(m1, (n, from), units) else m1
  }

  function Transfer1155(b: Books, n: Nft, from: string, to: string, units: nat): Books {
    var m := Moved1155(b.ownership, n, from, to, units);
    var k := (n, from);
    if from != ZERO && k in b.listings && b.listings[k].active && !(k in m && m[k].units > 0)
    then b.(ownership := m, listings := b.listings[k := Orphaned(b.listings[k])])
    else b.(ownership := m)
  }

  function List(b: Books, n: Nft, seller: string, terms: Terms): Books {
    var k := (n, seller);
    b.(listings := b.listings[k := Listing(terms, true, false, k in b.listings && b.listings[k].chainCleaned)],
       ownership := Seeded(b.ownership, n, seller, terms.standard, terms.amount))
  }

  function Seed(b: Books, n: Nft, seller: string, standard: Standard, amount: int): Books {
    b.(ownership := Seeded(b.ownership, n, seller, standard, amount))
  }

  function OrphanOf(b: Books, n: Nft, seller: string): Books {
    var k := (n, seller);
    if k in b.listings && b.listings[k].active && !b.listings[k].orphaned
    then b.(listings := b.listings[k := Orphaned(b.listings[k])]) else b
  }

  function Cancel(b: Books, n: Nft, seller: string): Books {
    var k := (n, seller);
    if k in b.listings then b.(listings := b.listings[k := b.listings[k].(active := false, chainCleaned := true)])
    else b
  }

  function Expire(b: Books, n: Nft, seller: string): Books {
    var k := (n, seller);
    if k in b.listings && b.listings[k].active && !b.listings[k].orphaned
    then b.(listings := b.listings[k := b.listings[k].(active := false)]) else b
  }

  function Sell(b: Books, n: Nft, seller: string, txHash: string, sale: Sales.Sale): Books {
    Cancel(b, n, seller).(sales := Sales.Record(b.sales, txHash, sale))
  }

  // ---------------------------------------------------------------- the tables, updated in place

  class Projection {
    var ownership: map<Key, Holding>
    var listings: map<Key, Listing>
    var owners: map<Nft, string>
    var sales: Sales.Table

    function View(): Books
      reads this
    {
      Books(ownership, listings, owners, sales)
    }

    constructor ()
      ensures View() == Books(map[], map[], map[], map[])
    {
      ownership, listings, owners, sales := map[], map[], map[], map[];
    }

    method ApplyTransfer721(n: Nft, to: string)
      modifies this
      ensures View() == Transfer721(old(View()), n, to)
    {
      ownership := map k | k in ownership && k.0 != n :: ownership[k];
      if to != ZERO {
        ownership := ownership[(n, to) := Holding(1, Erc721)];
      }
      owners := owners[n := to];
      listings := map k | k in listings ::
        if k.0 == n && k.1 != to && listings[k].active then listings[k].(orphaned := true, active := false)
        else listings[k];
    }

    method ApplyTransfer1155(n: Nft, from: string, to: string, units: nat)
      modifies this
      ensures View() == Transfer1155(old(View()), n, from, to, units)
    {
      if to != ZERO {
        if (n, to) in ownership {
          ownership := ownership[(n, to) := ownership[(n, to)].(units := ownership[(n, to)].units + units)];
        } else {
          ownership := ownership[(n, to) := Holding(units, Erc1155)];
        }
      }
      if from != ZERO {
        if (n, from) in ownership {
          var left := ownership[(n, from)].units - units;
          ownership := ownership[(n, from) := ownership[(n, from)].(units := if left > 0 then left else 0)];
        }
        var holds := (n, from) in ownership && ownership[(n, from)].units > 0;
        if (n, from) in listings && listings[(n, from)].active && !holds {
          listings := listings[(n, from) := listings[(n, from)].(orphaned := true, active := false)];
        }
      }
    }

    method UpsertListingAndOwnership(n: Nft, seller: string, terms: Terms)
      modifies this
      ensures View() == List(old(View()), n, seller, terms)
    {
      if (n, seller) in listings {
        listings := listings[(n, seller) := listings[(n, seller)].(terms := terms, active := true, orphaned := false)];
      } else {
        listings := listings[(n, seller) := Listing(terms, true, false, false)];
      }
      EnsureListingSellerOwnership(n, seller, terms.standard, terms.amount);
    }

    method EnsureListingSellerOwnership(n: Nft, seller: string, standard: Standard, amount: int)
      modifies this`ownership
      ensures View() == Seed(old(View()), n, seller, standard, amount)
    {
      if standard.Erc1155? {
        if (n, seller) in ownership {
          var held := ownership[(n, seller)];
          if held.units < amount {
            ownership := ownership[(n, seller) := held.(units := amount)];
          }
          assert ownership == Raise(old(ownership), (n, seller), amount);
        } else {
          ownership := ownership[(n, seller) := Holding(amount, Erc1155)];
        }
      } else {
        ownership := map k | k in ownership && k.0 != n :: ownership[k];
        ownership := ownership[(n, seller) := Holding(1, Erc721)];
      }
    }

    method OrphanListing(n: Nft, seller: string)
      modifies this`listings
      ensures View() == OrphanOf(old(View()), n, seller)
    {
      if (n, seller) in listings && listings[(n, seller)].active && !listings[(n, seller)].orphaned {
        listings := listings[(n, seller) := listings[(n, seller)].(orphaned := true, active := false)];
      }
    }

    method DeactivateListing(n: Nft, seller: string)
      modifies this`listings
      ensures View() == Cancel(old(View()), n, seller)
    {
      if (n, seller) in listings {
        listings := listings[(n, seller) := listings[(n, seller)].(active := false, chainCleaned := true)];
      }
    }

    method DeactivateExpiredListing(n: Nft, seller: string)
      modifies this`listings
      ensures View() == Expire(old(View()), n, seller)
    {
      if (n, seller) in listings && listings[(n, seller)].active && !listings[(n, seller)].orphaned {
        listings := listings[(n, seller) := listings[(n, seller)].(active := false)];
      }
    }

    method DeactivateAndSale(n: Nft, seller: string, txHash: string, sale: Sales.Sale)
      modifies this
      ensures View() == Sell(old(View()), n, seller, txHash, sale)
    {
      DeactivateListing(n, seller);
      if txHash !in sales {
        sales := sales[txHash := sale];
      }
    }
  }

  // ---------------------------------------------------------------- histories

  datatype Tx =
    | Transferred721(nft: Nft, to: string)
    | Transferred1155(nft: Nft, from: string, to: string, units: nat)
    | Listed(nft: Nft, seller: string, terms: Terms)
    | Verified(nft: Nft, seller: string, standard: Standard, amount: int)
    | FoundGone(nft: Nft, seller: string)
    | Cancelled(nft: Nft, seller: string)
    | Expired(nft: Nft, seller: string)
    | Bought(nft: Nft, seller: string, txHash: string, sale: Sales.Sale)

  function Step(b: Books, e: Tx): Books {
    match e
    case Transferred721(n, to) => Transfer721(b, n, to)
    case Transferred1155(n, from, to, units) => Transfer1155(b, n, from, to, units)
    case Listed(n, s, terms) => List(b, n, s, terms)
    case Verified(n, s, standard, amount) => Seed(b, n, s, standard, amount)
    case FoundGone(n, s) => OrphanOf(b, n, s)
    case Cancelled(n, s) => Cancel(b, n, s)
    case Expired(n, s) => Expire(b, n, s)
    case Bought(n, s, h, sale) => Sell(b, n, s, h, sale)
  }

  function After(es: seq<Tx>): Books {
    if es == [] then Books(map[], map[], map[], map[]) else Step(After(es[..|es| - 1]), es[|es| - 1])
  }

  // ---------------------------------------------------------------- in every reachable state

  predicate NoActiveOrphan(b: Books) {
    forall k :: k in b.listings && b.listings[k].active ==> !b.listings[k].orphaned
  }

  ghost predicate OneErc721Row(b: Books) {
    forall n, o, o' :: Owns721(b, n, o) && Owns721(b, n, o') ==> o == o'
  }

  predicate Owns721(b: Books, n: Nft, o: string) {
    (n, o) in b.ownership && b.ownership[(n, o)].standard.Erc721?
  }

  lemma StepKeepsNoActiveOrphan(b: Books, e: Tx)
    requires NoActiveOrphan(b)
    ensures NoActiveOrphan(Step(b, e))
  {
  }

  /** The only owner an event leaves the token with, if it clears the token's rows. */
  function SoleOwnerAfter(e: Tx): (o: string)
    requires Clears(e)
  {
    if e.Transferred721? then e.to else e.seller
  }

  predicate Clears(e: Tx) {
    match e
    case Transferred721(_, _) => true
    case Listed(_, _, terms) => terms.standard.Erc721?
    case Verified(_, _, standard, _) => standard.Erc721?
    case _ => false
  }

  /** An event that clears the token's rows leaves its sole owner; any other makes no new ERC-721 row. */
  lemma Erc721RowsAfter(b: Books, e: Tx, n: Nft, o: string)
    requires Owns721(Step(b, e), n, o)
    ensures if e.nft == n && Clears(e) then o == SoleOwnerAfter(e) else Owns721(b, n, o)
  {
  }

  lemma StepKeepsOneErc721Row(b: Books, e: Tx)
    requires OneErc721Row(b)
    ensures OneErc721Row(Step(b, e))
  {
    var b' := Step(b, e);
    forall n, o, o' | Owns721(b', n, o) && Owns721(b', n, o') ensures o == o' {
      Erc721RowsAfter(b, e, n, o);
      Erc721RowsAfter(b, e, n, o');
    }
  }

  /** Whatever the events and their order: no orphaned listing is active, a token has at most one
      ERC-721 owner row, and a recorded sale is never rewritten. */
  lemma {:induction false} AlwaysSound(es: seq<Tx>)
    ensures NoActiveOrphan(After(es)) && OneErc721Row(After(es))
    ensures es != [] ==> forall h :: h in After(es[..|es| - 1]).sales ==>
                                       h in After(es).sales && After(es).sales[h] == After(es[..|es| - 1]).sales[h]
  {
    if es != [] {
      AlwaysSound(es[..|es| - 1]);
      StepKeepsNoActiveOrphan(After(es[..|es| - 1]), es[|es| - 1]);
      StepKeepsOneErc721Row(After(es[..|es| - 1]), es[|es| - 1]);
    }
  }

  // ---------------------------------------------------------------- ERC-1155 listings are backed

  predicate Backed(b: Books, n: Nft, s: string) {
    UnitsOf(b, n, s) > 0
  }

  predicate Open1155(b: Books, n: Nft, s: string) {
    var k := (n, s);
    k in b.listings && b.listings[k].active && b.listings[k].terms.standard.Erc1155? && b.listings[k].terms.amount >= 1
  }

  /** Every active ERC-1155 listing of the token has a seller who holds some of it. */
  ghost predicate SellersHold(b: Books, n: Nft) {
    forall s :: Open1155(b, n, s) ==> Backed(b, n, s)
  }

  /** What takes an open ERC-1155 listing's units away without orphaning it: an ERC-721 listing of the same
      token by somebody else, or a burn of a token that the zero address had listed. */
  ghost predicate Evicts(b: Books, e: Tx, n: Nft, s: string) {
    e.nft == n && Clears(e) && Open1155(b, n, s)
    && if e.Transferred721? then s == ZERO && e.to == ZERO else s != SoleOwnerAfter(e)
  }

  lemma EvictedIsNotBacked(b: Books, e: Tx, n: Nft, s: string)
    requires Evicts(b, e, n, s)
    ensures Open1155(Step(b, e), n, s) && !Backed(Step(b, e), n, s)
  {
  }

  lemma TransferKeepsBacked(b: Books, e: Tx, n: Nft, s: string)
    requires e.Transferred1155? && Open1155(Step(b, e), n, s)
    requires Open1155(b, n, s) ==> Backed(b, n, s)
    ensures Backed(Step(b, e), n, s)
  {
  }

  lemma OthersKeepBacked(b: Books, e: Tx, n: Nft, s: string)
    requires !e.Transferred1155? && Open1155(Step(b, e), n, s) && !Evicts(b, e, n, s)
    requires Open1155(b, n, s) ==> Backed(b, n, s)
    ensures Backed(Step(b, e), n, s)
  {
  }

  lemma SellersHoldIff(b: Books, e: Tx, n: Nft)
    requires SellersHold(b, n)
    ensures SellersHold(Step(b, e), n) <==> !(exists s :: Evicts(b, e, n, s))
  {
    var b' := Step(b, e);
    if s :| Evicts(b, e, n, s) {
      EvictedIsNotBacked(b, e, n, s);
    } else {
      forall s | Open1155(b', n, s) ensures Backed(b', n, s) {
        if e.Transferred1155? {
          TransferKeepsBacked(b, e, n, s);
        } else {
          OthersKeepBacked(b, e, n, s);
        }
      }
    }
  }

  /** The token is, in this event, what an ERC-1155 collection makes of it. */
  predicate As1155(e: Tx, n: Nft) {
    e.nft == n ==>
      && !e.Transferred721?
      && (e.Listed? ==> e.terms.standard.Erc1155?)
      && (e.Verified? ==> e.standard.Erc1155?)
  }

  predicate All1155(es: seq<Tx>, n: Nft) {
    forall i :: 0 <= i < |es| ==> As1155(es[i], n)
  }

  /** In every history of an ERC-1155 token, every active listing of at least one unit has a seller with
      positive units. */
  lemma {:induction false} ActiveListingsAreBacked(es: seq<Tx>, n: Nft)
    requires All1155(es, n)
    ensures SellersHold(After(es), n)
  {
    if es != [] {
      ActiveListingsAreBacked(es[..|es| - 1], n);
      SellersHoldIff(After(es[..|es| - 1]), es[|es| - 1], n);
    }
  }

  /** Without that restriction it fails: here an ERC-721 listing by a second seller empties the first one's row. */
  lemma MixedStandardsLoseBacking(n: Nft, terms: Terms)
    requires terms.amount >= 1
    ensures var es := [Listed(n, "alice", terms.(standard := Erc1155)), Listed(n, "bob", terms.(standard := Erc721))];
            !SellersHold(After(es), n)
  {
    var first := Listed(n, "alice", terms.(standard := Erc1155));
    var es := [first, Listed(n, "bob", terms.(standard := Erc721))];
    assert es[..1] == [first] && [first][..0] == [];
    assert After([]).ownership == map[];
    assert Evicts(After([first]), es[1], n, "alice");
    assert SellersHold(After([first]), n);
    SellersHoldIff(After([first]), es[1], n);
  }

  // ---------------------------------------------------------------- the ERC-1155 ledger

  /** What one transfer adds to an owner's balance on chain. The zero address holds nothing. */
  function Delta(e: Tx, n: Nft, o: string): int {
    if e.Transferred1155? && e.nft == n && o != ZERO
    then (if e.to == o then e.units else 0) - (if e.from == o then e.units else 0)
    else 0
  }

  function Balance(es: seq<Tx>, n: Nft, o: string): int {
    if es == [] then 0 else Balance(es[..|es| - 1], n, o) + Delta(es[|es| - 1], n, o)
  }

  ghost predicate Exact(b: Books, es: seq<Tx>, n: Nft) {
    forall o :: UnitsOf(b, n, o) == Balance(es, n, o)
  }

  /** The event does not reach for units that are not there: no overdraft, and no listing of more than the
      seller holds. Sending to oneself needs nothing. */
  predicate Covered(b: Books, e: Tx, n: Nft) {
    e.nft == n ==>
      match e
      case Transferred1155(_, from, to, units) =>
        from == ZERO || (if from == to then UnitsOf(b, n, from) >= 0 else units <= UnitsOf(b, n, from))
      case Listed(_, s, terms) => SeedCovered(b, n, s, terms.amount)
      case Verified(_, s, _, amount) => SeedCovered(b, n, s, amount)
      case _ => true
  }

  predicate SeedCovered(b: Books, n: Nft, s: string, amount: int) {
    if (n, s) in b.ownership then amount <= UnitsOf(b, n, s) else amount == 0
  }

  lemma MovedUnits(b: Books, n: Nft, from: string, to: string, units: nat, o: string)
    requires Covered(b, Transferred1155(n, from, to, units), n)
    ensures UnitsOf(Transfer1155(b, n, from, to, units), n, o)
            == UnitsOf(b, n, o) + Delta(Transferred1155(n, from, to, units), n, o)
  {
  }

  lemma OverdrawnDiffers(b: Books, e: Tx, n: Nft)
    requires e.Transferred1155? && e.nft == n && !Covered(b, e, n)
    ensures UnitsOf(Step(b, e), n, e.from) != UnitsOf(b, n, e.from) + Delta(e, n, e.from)
  {
  }

  /** Listings raise a row and move nothing on chain. */
  lemma SeededUnits(b: Books, e: Tx, n: Nft, o: string)
    requires e.nft == n && As1155(e, n) && (e.Listed? || e.Verified?)
    ensures o == e.seller ==> (UnitsOf(Step(b, e), n, o) == UnitsOf(b, n, o) <==> Covered(b, e, n))
    ensures o != e.seller ==> UnitsOf(Step(b, e), n, o) == UnitsOf(b, n, o)
    ensures Delta(e, n, o) == 0
  {
    var amount := if e.Listed? then e.terms.amount else e.amount;
    assert Step(b, e).ownership == Raise(b.ownership, (n, e.seller), amount);
  }

  lemma OtherEventsMoveNothing(b: Books, e: Tx, n: Nft, o: string)
    requires e.nft != n || e.FoundGone? || e.Cancelled? || e.Expired? || e.Bought?
    ensures UnitsOf(Step(b, e), n, o) == UnitsOf(b, n, o) && Delta(e, n, o) == 0
  {
  }

  /** One event moves everyone's units by what it moves on chain, exactly if it is covered. */
  lemma MovesAsLedgerIff(b: Books, e: Tx, n: Nft)
    requires As1155(e, n)
    ensures (forall o :: UnitsOf(Step(b, e), n, o) == UnitsOf(b, n, o) + Delta(e, n, o)) <==> Covered(b, e, n)
  {
    if e.nft != n || e.FoundGone? || e.Cancelled? || e.Expired? || e.Bought? {
      forall o {
        OtherEventsMoveNothing(b, e, n, o);
      }
    } else if e.Transferred1155? {
      if Covered(b, e, n) {
        forall o {
          MovedUnits(b, n, e.from, e.to, e.units, o);
        }
      } else {
        OverdrawnDiffers(b, e, n);
      }
    } else {
      SeededUnits(b, e, n, e.seller);
      forall o | o != e.seller ensures UnitsOf(Step(b, e), n, o) == UnitsOf(b, n, o) + Delta(e, n, o) {
        SeededUnits(b, e, n, o);
      }
    }
  }

  /** The projection stays equal to the ledger exactly as long as events are covered: this is when the
      clamp at zero and the two GREATEST never change a value. */
  lemma ExactIffCovered(b: Books, es: seq<Tx>, e: Tx, n: Nft)
    requires Exact(b, es, n) && As1155(e, n)
    ensures Exact(Step(b, e), es + [e], n) <==> Covered(b, e, n)
  {
    assert (es + [e])[..|es|] == es;
    forall o ensures Balance(es + [e], n, o) == UnitsOf(b, n, o) + Delta(e, n, o) {
    }
    MovesAsLedgerIff(b, e, n);
  }

  /** The chain's own rules, stated on the ledger alone: senders never overdraw, and a listed amount is not
      negative and never exceeds the seller's balance. */
  predicate Honest(es: seq<Tx>, n: Nft) {
    es == [] ||
    var before, e := es[..|es| - 1], es[|es| - 1];
    Honest(before, n) && As1155(e, n) && (e.nft == n ==>
      match e
      case Transferred1155(_, from, _, units) => from == ZERO || units <= Balance(before, n, from)
      case Listed(_, s, terms) => 0 <= terms.amount <= Balance(before, n, s)
      case Verified(_, s, _, amount) => 0 <= amount <= Balance(before, n, s)
      case _ => true)
  }

  /** For every honest history the table holds exactly the ledger. */
  lemma {:induction false} LedgerExact(es: seq<Tx>, n: Nft)
    requires Honest(es, n)
    ensures Exact(After(es), es, n)
  {
    if es != [] {
      var before, e := es[..|es| - 1], es[|es| - 1];
      LedgerExact(before, n);
      assert es == before + [e];
      ExactIffCovered(After(before), before, e, n);
    }
  }

  // ---------------------------------------------------------------- conservation

  function Minted(es: seq<Tx>, n: Nft): int {
    if es == [] then 0
    else Minted(es[..|es| - 1], n)
         + var e := es[|es| - 1];
           if e.Transferred1155? && e.nft == n && e.from == ZERO && e.to != ZERO then e.units else 0
  }

  function Burned(es: seq<Tx>, n: Nft): int {
    if es == [] then 0
    else Burned(es[..|es| - 1], n)
         + var e := es[|es| - 1];
           if e.Transferred1155? && e.nft == n && e.to == ZERO && e.from != ZERO then e.units else 0
  }

  /** The units of one token, by owner. */
  ghost function Slice(m: map<Key, Holding>, n: Nft): map<Key, int> {
    map k | k in m && k.0 == n :: m[k].units
  }

  ghost function Total(b: Books, n: Nft): int {
    Sum(Slice(b.ownership, n))
  }

  lemma CreditSum(m: map<Key, Holding>, n: Nft, o: string, units: int)
    ensures Sum(Slice(Credit(m, (n, o), units), n)) == Sum(Slice(m, n)) + units
  {
    var v := units + if (n, o) in m then m[(n, o)].units else 0;
    SumPut(Slice(m, n), (n, o), v);
    assert Slice(Credit(m, (n, o), units), n) == Slice(m, n)[(n, o) := v];
  }

  lemma DebitSum(m: map<Key, Holding>, n: Nft, o: string, units: int)
    requires if (n, o) in m then units <= m[(n, o)].units else units == 0
    ensures Sum(Slice(Debit(m, (n, o), units), n)) == Sum(Slice(m, n)) - units
  {
    if (n, o) in m {
      SumPut(Slice(m, n), (n, o), m[(n, o)].units - units);
      assert Slice(Debit(m, (n, o), units), n) == Slice(m, n)[(n, o) := m[(n, o)].units - units];
    }
  }

  lemma MoveTotal(b: Books, n: Nft, from: string, to: string, units: nat)
    requires Covered(b, Transferred1155(n, from, to, units), n)
    ensures Sum(Slice(Moved1155(b.ownership, n, from, to, units), n)) == Total(b, n)
            + (if from == ZERO && to != ZERO then units else 0) - (if to == ZERO && from != ZERO then units else 0)
  {
    var m := b.ownership;
    if to != ZERO {
      CreditSum(m, n, to, units);
      m := Credit(m, (n, to), units);
    }
    if from != ZERO {
      DebitSum(m, n, from, units);
    }
  }

  lemma SeedTotal(b: Books, n: Nft, s: string, amount: int)
    requires SeedCovered(b, n, s, amount)
    ensures Sum(Slice(Raise(b.ownership, (n, s), amount), n)) == Total(b, n)
  {
    var m := b.ownership;
    if (n, s) in m {
      assert Raise(m, (n, s), amount) == m;
    } else {
      SumPut(Slice(m, n), (n, s), 0);
      assert Slice(Raise(m, (n, s), 0), n) == Slice(m, n)[(n, s) := 0];
    }
  }

  lemma OtherTokenUntouched(b: Books, e: Tx, k: Key)
    requires e.nft != k.0 || e.FoundGone? || e.Cancelled? || e.Expired? || e.Bought?
    ensures k in Step(b, e).ownership <==> k in b.ownership
    ensures k in b.ownership ==> Step(b, e).ownership[k] == b.ownership[k]
  {
  }

  lemma SliceOnly(m: map<Key, Holding>, m': map<Key, Holding>, n: Nft)
    requires forall k: Key :: k.0 == n ==> (k in m' <==> k in m) && (k in m ==> m'[k] == m[k])
    ensures Slice(m', n) == Slice(m, n)
  {
  }

  lemma OtherTokenTotal(b: Books, e: Tx, n: Nft)
    requires e.nft != n || e.FoundGone? || e.Cancelled? || e.Expired? || e.Bought?
    ensures Total(Step(b, e), n) == Total(b, n)
  {
    forall k: Key | k.0 == n
      ensures (k in Step(b, e).ownership <==> k in b.ownership)
              && (k in b.ownership ==> Step(b, e).ownership[k] == b.ownership[k])
    {
      OtherTokenUntouched(b, e, k);
    }
    SliceOnly(b.ownership, Step(b, e).ownership, n);
  }

  lemma StepTotal(b: Books, e: Tx, n: Nft)
    requires As1155(e, n) && Covered(b, e, n)
    ensures Total(Step(b, e), n) == Total(b, n) + Minted([e], n) - Burned([e], n)
  {
    assert [e][..0] == [];
    if e.nft != n || e.FoundGone? || e.Cancelled? || e.Expired? || e.Bought? {
      OtherTokenTotal(b, e, n);
    } else if e.Transferred1155? {
      MoveTotal(b, n, e.from, e.to, e.units);
    } else {
      SeedTotal(b, n, e.seller, if e.Listed? then e.terms.amount else e.amount);
    }
  }

  lemma HonestIsCovered(es: seq<Tx>, n: Nft)
    requires Honest(es, n) && es != []
    ensures Covered(After(es[..|es| - 1]), es[|es| - 1], n)
  {
    LedgerExact(es[..|es| - 1], n);
    assert es[..|es| - 1] + [es[|es| - 1]] == es;
    LedgerExact(es, n);
    ExactIffCovered(After(es[..|es| - 1]), es[..|es| - 1], es[|es| - 1], n);
  }

  /** Units are conserved: what all owners hold together is what was minted minus what was burned. */
  lemma {:induction false} TotalIsMintedMinusBurned(es: seq<Tx>, n: Nft)
    requires Honest(es, n)
    ensures Total(After(es), n) == Minted(es, n) - Burned(es, n)
  {
    if es == [] {
      assert Slice(After(es).ownership, n) == map[];
    } else {
      var before, e := es[..|es| - 1], es[|es| - 1];
      TotalIsMintedMinusBurned(before, n);
      HonestIsCovered(es, n);
      StepTotal(After(before), e, n);
      assert [e][..0] == [];
    }
  }

  // ---------------------------------------------------------------- what preflight reports

  /** ListingPreflight's `seller_owns`. */
  predicate SellerOwns(b: Books, n: Nft, s: string)
    requires (n, s) in b.listings
  {
    (n, s) in b.ownership && b.ownership[(n, s)].units >= b.listings[(n, s)].terms.amount
  }

  /** For every honest history, preflight says a seller can deliver exactly when the ledger says so. */
  lemma PreflightIsTruthful(es: seq<Tx>, n: Nft, s: string)
    requires Honest(es, n) && (n, s) in After(es).listings && After(es).listings[(n, s)].terms.amount >= 1
    ensures SellerOwns(After(es), n, s) <==> Balance(es, n, s) >= After(es).listings[(n, s)].terms.amount
  {
    LedgerExact(es, n);
  }

  // ---------------------------------------------------------------- ERC-721: listings follow the holder

  /** The token is, in this event, what an ERC-721 collection makes of it. */
  predicate As721(e: Tx, n: Nft) {
    e.nft == n ==>
      && !e.Transferred1155?
      && (e.Listed? ==> e.terms.standard.Erc721?)
      && (e.Verified? ==> e.standard.Erc721?)
  }

  /** The holder on chain: the last recipient, or `origin` before any transfer has been seen. */
  function Holder(es: seq<Tx>, n: Nft, origin: string): string {
    if es == [] then origin
    else if es[|es| - 1].Transferred721? && es[|es| - 1].nft == n then es[|es| - 1].to
    else Holder(es[..|es| - 1], n, origin)
  }

  ghost predicate FollowsHolder(b: Books, n: Nft, h: string) {
    && (forall s :: (n, s) in b.listings && b.listings[(n, s)].active ==> s == h)
    && (forall o :: (n, o) in b.ownership ==> o == h && b.ownership[(n, o)] == Holding(1, Erc721))
  }

  /** A listing, or a repair, is in order if it is the holder's. */
  predicate ByHolder(e: Tx, n: Nft, h: string) {
    e.nft == n && (e.Listed? || e.Verified?) ==> e.seller == h
  }

  lemma TransferFollows(b: Books, e: Tx, n: Nft, h: string)
    requires FollowsHolder(b, n, h) && e.Transferred721? && e.nft == n && e.to != ZERO
    ensures FollowsHolder(Step(b, e), n, e.to)
  {
  }

  lemma BurnFollows(b: Books, e: Tx, n: Nft, h: string)
    requires FollowsHolder(b, n, h) && e.Transferred721? && e.nft == n && e.to == ZERO
    ensures FollowsHolder(Step(b, e), n, ZERO)
  {
  }

  lemma SeedFollowsIff(b: Books, e: Tx, n: Nft, h: string)
    requires FollowsHolder(b, n, h) && As721(e, n) && e.nft == n && (e.Listed? || e.Verified?)
    ensures FollowsHolder(Step(b, e), n, h) <==> e.seller == h
  {
    assert (n, e.seller) in Step(b, e).ownership;
  }

  lemma OtherEventsFollow(b: Books, e: Tx, n: Nft, h: string)
    requires FollowsHolder(b, n, h) && (e.nft != n || e.FoundGone? || e.Cancelled? || e.Expired? || e.Bought?)
    ensures FollowsHolder(Step(b, e), n, h)
  {
  }

  /** One step keeps listings and ownership with the holder if and only if whoever it seeds is the holder. */
  lemma FollowsHolderIff(b: Books, e: Tx, n: Nft, h: string)
    requires FollowsHolder(b, n, h) && As721(e, n)
    ensures var h' := if e.Transferred721? && e.nft == n then e.to else h;
            FollowsHolder(Step(b, e), n, h') <==> ByHolder(e, n, h)
  {
    if e.nft != n {
      OtherEventsFollow(b, e, n, h);
    } else if e.Transferred721? {
      if e.to == ZERO {
        BurnFollows(b, e, n, h);
      } else {
        TransferFollows(b, e, n, h);
      }
    } else if e.Listed? || e.Verified? {
      SeedFollowsIff(b, e, n, h);
    } else {
      OtherEventsFollow(b, e, n, h);
    }
  }

  predicate InOrder(es: seq<Tx>, n: Nft, origin: string) {
    es == [] ||
    (InOrder(es[..|es| - 1], n, origin) && As721(es[|es| - 1], n)
     && ByHolder(es[|es| - 1], n, Holder(es[..|es| - 1], n, origin)))
  }

  /** When transfers arrive in order and only the holder lists, every active listing's seller is the current
      holder, and the holder's is the only ownership row. */
  lemma {:induction false} ListingsFollowTheHolder(es: seq<Tx>, n: Nft, origin: string)
    requires InOrder(es, n, origin)
    ensures FollowsHolder(After(es), n, Holder(es, n, origin))
  {
    if es != [] {
      ListingsFollowTheHolder(es[..|es| - 1], n, origin);
      FollowsHolderIff(After(es[..|es| - 1]), es[|es| - 1], n, Holder(es[..|es| - 1], n, origin));
    }
  }

  /** Once a transfer has been seen, the holder's row is there and `nft_tokens` names the holder too. */
  lemma {:induction false} HolderIsRecorded(es: seq<Tx>, n: Nft, origin: string, i: nat)
    requires InOrder(es, n, origin) && i < |es| && es[i].Transferred721? && es[i].nft == n
    ensures n in After(es).owners && After(es).owners[n] == Holder(es, n, origin)
    ensures Holder(es, n, origin) != ZERO ==> UnitsOf(After(es), n, Holder(es, n, origin)) > 0
    decreases |es|
  {
    var before, e := es[..|es| - 1], es[|es| - 1];
    if i < |before| {
      HolderIsRecorded(before, n, origin, i);
      StepKeepsRecord(After(before), e, n, Holder(before, n, origin));
    }
  }

  lemma StepKeepsRecord(b: Books, e: Tx, n: Nft, h: string)
    requires As721(e, n) && ByHolder(e, n, h) && n in b.owners && b.owners[n] == h
    requires h != ZERO ==> UnitsOf(b, n, h) > 0
    ensures var h' := if e.Transferred721? && e.nft == n then e.to else h;
            n in Step(b, e).owners && Step(b, e).owners[n] == h' && (h' != ZERO ==> UnitsOf(Step(b, e), n, h') > 0)
  {
  }

  // ---------------------------------------------------------------- what becomes of a listing

  predicate ListsKey(e: Tx, k: Key) {
    e.Listed? && (e.nft, e.seller) == k
  }

  /** The seller no longer holds what is listed: another has it, no units are left, or the chain was found to say so. */
  predicate Orphans(b: Books, e: Tx, k: Key) {
    e.nft == k.0 &&
    match e
    case Transferred721(_, to) => to != k.1
    case Transferred1155(_, from, _, _) => from == k.1 && from != ZERO && UnitsOf(Step(b, e), k.0, from) <= 0
    case FoundGone(_, s) => s == k.1
    case _ => false
  }

  predicate Ends(e: Tx, k: Key) {
    (e.Cancelled? || e.Bought? || e.Expired?) && (e.nft, e.seller) == k
  }

  predicate TakesDown(b: Books, e: Tx, k: Key) {
    Orphans(b, e, k) || Ends(e, k)
  }

  predicate Cleans(e: Tx, k: Key) {
    (e.Cancelled? || e.Bought?) && (e.nft, e.seller) == k
  }

  /** What one event makes of a listing that it does not renew. */
  predicate Follows(b: Books, e: Tx, k: Key, l: Listing, l': Listing) {
    && l'.terms == l.terms
    && (l'.active <==> l.active && !TakesDown(b, e, k))
    && (l'.orphaned <==> l.orphaned || (l.active && Orphans(b, e, k)))
    && (l'.chainCleaned <==> l.chainCleaned || Cleans(e, k))
  }

  lemma TransfersFollow(b: Books, e: Tx, k: Key)
    requires NoActiveOrphan(b) && k in b.listings && (e.Transferred721? || e.Transferred1155?)
    ensures k in Step(b, e).listings && Follows(b, e, k, b.listings[k], Step(b, e).listings[k])
  {
  }

  lemma EndingsFollow(b: Books, e: Tx, k: Key)
    requires NoActiveOrphan(b) && k in b.listings && (e.Cancelled? || e.Bought? || e.Expired?)
    ensures k in Step(b, e).listings && Follows(b, e, k, b.listings[k], Step(b, e).listings[k])
  {
  }

  lemma OthersFollow(b: Books, e: Tx, k: Key)
    requires NoActiveOrphan(b) && k in b.listings && (e.Listed? || e.Verified? || e.FoundGone?) && !ListsKey(e, k)
    ensures k in Step(b, e).listings && Follows(b, e, k, b.listings[k], Step(b, e).listings[k])
  {
  }

  lemma ListingIsRenewed(b: Books, e: Tx, k: Key)
    requires ListsKey(e, k)
    ensures k in Step(b, e).listings
    ensures Step(b, e).listings[k] == Listing(e.terms, true, false, k in b.listings && b.listings[k].chainCleaned)
  {
  }

  lemma NoListingAppears(b: Books, e: Tx, k: Key)
    requires k !in b.listings && !ListsKey(e, k)
    ensures k !in Step(b, e).listings
  {
  }

  lemma ListingStep(b: Books, e: Tx, k: Key)
    requires NoActiveOrphan(b)
    ensures k in Step(b, e).listings <==> k in b.listings || ListsKey(e, k)
    ensures ListsKey(e, k) ==>
              Step(b, e).listings[k] == Listing(e.terms, true, false, k in b.listings && b.listings[k].chainCleaned)
    ensures k in b.listings && !ListsKey(e, k) ==> Follows(b, e, k, b.listings[k], Step(b, e).listings[k])
  {
    if ListsKey(e, k) {
      ListingIsRenewed(b, e, k);
    } else if k !in b.listings {
      NoListingAppears(b, e, k);
    } else if e.Transferred721? || e.Transferred1155? {
      TransfersFollow(b, e, k);
    } else if e.Cancelled? || e.Bought? || e.Expired? {
      EndingsFollow(b, e, k);
    } else {
      OthersFollow(b, e, k);
    }
  }

  /** A transfer of units orphans the sender's active listing if and only if it leaves the sender none; every other
      listing stays as it is. */
  lemma TransferOrphansIff(b: Books, n: Nft, from: string, to: string, units: nat, k: Key)
    requires k in b.listings
    ensures var b' := Step(b, Transferred1155(n, from, to, units));
            k in b'.listings &&
            b'.listings[k] ==
            if k == (n, from) && from != ZERO && b.listings[k].active && UnitsOf(b', n, from) <= 0
            then b.listings[k].(orphaned := true, active := false)
            else b.listings[k]
  {
  }

  /** So in every honest history it survives exactly while the ledger leaves the sender something. */
  lemma SurvivesTransferIff(es: seq<Tx>, e: Tx, n: Nft)
    requires Honest(es + [e], n) && e.Transferred1155? && e.nft == n && e.from != ZERO
    requires (n, e.from) in After(es).listings && After(es).listings[(n, e.from)].active
    ensures (n, e.from) in After(es + [e]).listings
    ensures After(es + [e]).listings[(n, e.from)].active <==> Balance(es + [e], n, e.from) > 0
  {
    assert (es + [e])[..|es|] == es;
    LedgerExact(es + [e], n);
    TransferOrphansIff(After(es), n, e.from, e.to, e.units, (n, e.from));
  }

  /** The seller listed at `i` and has not listed since. */
  ghost predicate LastListing(es: seq<Tx>, k: Key, i: int) {
    0 <= i < |es| && ListsKey(es[i], k) && forall j :: i < j < |es| ==> !ListsKey(es[j], k)
  }

  ghost predicate StillUp(es: seq<Tx>, k: Key, i: int)
    requires 0 <= i
  {
    forall j :: i < j < |es| ==> !TakesDown(After(es[..j]), es[j], k)
  }

  /** The first event to take it down after `i` was one that orphans. */
  ghost predicate TakenByOrphaning(es: seq<Tx>, k: Key, i: int)
    requires 0 <= i
  {
    exists j :: i < j < |es| && Orphans(After(es[..j]), es[j], k) && StillUp(es[..j], k, i)
  }

  ghost predicate CleanedSinceFirst(es: seq<Tx>, k: Key) {
    exists h, j :: 0 <= h < j < |es| && ListsKey(es[h], k) && Cleans(es[j], k)
  }

  lemma StillUpStep(es: seq<Tx>, e: Tx, k: Key, i: int)
    requires 0 <= i < |es|
    ensures StillUp(es + [e], k, i) <==> StillUp(es, k, i) && !TakesDown(After(es), e, k)
  {
    var all := es + [e];
    assert all[..|es|] == es && all[|es|] == e;
    assert forall j :: 0 <= j < |es| ==> all[j] == es[j] && all[..j] == es[..j];
  }

  lemma SamePast(es: seq<Tx>, e: Tx, j: nat)
    requires j <= |es|
    ensures (es + [e])[..j] == es[..j]
    ensures (es + [e])[j] == if j < |es| then es[j] else e
  {
  }

  lemma TakenStep(es: seq<Tx>, e: Tx, k: Key, i: int)
    requires 0 <= i < |es|
    ensures TakenByOrphaning(es + [e], k, i)
            <==> TakenByOrphaning(es, k, i) || (StillUp(es, k, i) && Orphans(After(es), e, k))
  {
    var all := es + [e];
    assert es[..|es|] == es;
    SamePast(es, e, |es|);
    if j :| i < j < |es| && Orphans(After(es[..j]), es[j], k) && StillUp(es[..j], k, i) {
      SamePast(es, e, j);
      assert Orphans(After(all[..j]), all[j], k) && StillUp(all[..j], k, i);
    }
    if j :| i < j < |all| && Orphans(After(all[..j]), all[j], k) && StillUp(all[..j], k, i) {
      SamePast(es, e, j);
      assert j < |es| ==> Orphans(After(es[..j]), es[j], k) && StillUp(es[..j], k, i);
    }
    if StillUp(es, k, i) && Orphans(After(es), e, k) {
      assert Orphans(After(all[..|es|]), all[|es|], k) && StillUp(all[..|es|], k, i);
    }
  }

  lemma CleanedStep(es: seq<Tx>, e: Tx, k: Key)
    ensures CleanedSinceFirst(es + [e], k)
            <==> CleanedSinceFirst(es, k) || (Cleans(e, k) && exists h :: 0 <= h < |es| && ListsKey(es[h], k))
  {
    var all := es + [e];
    assert forall j :: 0 <= j < |es| ==> all[j] == es[j];
    if h, j :| 0 <= h < j < |es| && ListsKey(es[h], k) && Cleans(es[j], k) {
      assert ListsKey(all[h], k) && Cleans(all[j], k);
    }
    if Cleans(e, k) {
      if h :| 0 <= h < |es| && ListsKey(es[h], k) {
        assert ListsKey(all[h], k) && Cleans(all[|es|], k);
      }
    }
  }

  /** Whatever the history, a listing is there if and only if the seller has listed. */
  lemma {:induction false} ListedIff(es: seq<Tx>, k: Key)
    ensures k in After(es).listings <==> exists h :: 0 <= h < |es| && ListsKey(es[h], k)
  {
    if es != [] {
      var before, e := es[..|es| - 1], es[|es| - 1];
      ListedIff(before, k);
      AlwaysSound(before);
      ListingStep(After(before), e, k);
      assert forall h :: 0 <= h < |before| ==> es[h] == before[h];
    }
  }

  /** And then it shows the last terms; is active until the first event since that takes it down, and orphaned if that
      event orphaned it; and is cleaned if it was ever cancelled or bought. */
  lemma {:induction false} ListingIsItsHistory(es: seq<Tx>, k: Key, i: int)
    requires LastListing(es, k, i)
    ensures k in After(es).listings
    ensures var l := After(es).listings[k];
            && l.terms == es[i].terms
            && (l.active <==> StillUp(es, k, i))
            && (l.orphaned <==> TakenByOrphaning(es, k, i))
            && (l.chainCleaned <==> CleanedSinceFirst(es, k))
  {
    var before, e := es[..|es| - 1], es[|es| - 1];
    assert es == before + [e];
    assert forall h :: 0 <= h < |before| ==> es[h] == before[h];
    AlwaysSound(before);
    ListingStep(After(before), e, k);
    ListedIff(before, k);
    CleanedStep(before, e, k);
    if i < |before| {
      ListingIsItsHistory(before, k, i);
      StillUpStep(before, e, k, i);
      TakenStep(before, e, k, i);
    } else if k in After(before).listings {
      var g :| 0 <= g < |before| && ListsKey(before[g], k);
      var h := LastListingFrom(before, k, g);
      ListingIsItsHistory(before, k, h);
    } else {
      NeverCleaned(before, k);
    }
  }

  lemma NeverCleaned(es: seq<Tx>, k: Key)
    requires k !in After(es).listings
    ensures !CleanedSinceFirst(es, k)
  {
    ListedIff(es, k);
  }

  lemma {:induction false} LastListingFrom(es: seq<Tx>, k: Key, h: nat) returns (i: int)
    requires h < |es| && ListsKey(es[h], k)
    ensures LastListing(es, k, i)
    decreases |es| - h
  {
    if j :| h < j < |es| && ListsKey(es[j], k) {
      i := LastListingFrom(es, k, j);
    } else {
      i := h;
    }
  }

  // ---------------------------------------------------------------- rows in any history, honest or not

  /** An overdraft leaves the sender nothing; a transfer to oneself of more than one has, what was sent. */
  lemma OverdraftLeaves(b: Books, n: Nft, from: string, to: string, units: nat)
    requires from != ZERO && (n, from) in b.ownership && 0 <= UnitsOf(b, n, from) < units
    ensures UnitsOf(Step(b, Transferred1155(n, from, to, units)), n, from)
            == if from == to then UnitsOf(b, n, from) else 0
  {
  }

  /** Listing an amount, or repairing a listing, never lowers what the seller has: it is the larger of the two. */
  lemma SeedRaises(b: Books, e: Tx)
    requires (e.Listed? && e.terms.standard.Erc1155?) || (e.Verified? && e.standard.Erc1155?)
    ensures var amount := if e.Listed? then e.terms.amount else e.amount;
            var units := UnitsOf(Step(b, e), e.nft, e.seller);
            if (e.nft, e.seller) in b.ownership && UnitsOf(b, e.nft, e.seller) > amount
            then units == UnitsOf(b, e.nft, e.seller) else units == amount
  {
  }

  ghost predicate RowsAre(b: Books, n: Nft, standard: Standard, least: int) {
    forall o :: (n, o) in b.ownership ==>
      b.ownership[(n, o)].standard == standard && b.ownership[(n, o)].units >= least
  }

  predicate ListsNonNegative(e: Tx) {
    (e.Listed? ==> e.terms.amount >= 0) && (e.Verified? ==> e.amount >= 0)
  }

  lemma OtherTokensKeep1155Rows(b: Books, e: Tx, n: Nft)
    requires RowsAre(b, n, Erc1155, 0) && e.nft != n
    ensures RowsAre(Step(b, e), n, Erc1155, 0)
  {
    forall o {
      OtherTokenUntouched(b, e, (n, o));
    }
  }

  lemma TransfersKeep1155Rows(b: Books, e: Tx, n: Nft)
    requires RowsAre(b, n, Erc1155, 0) && e.Transferred1155? && e.nft == n
    ensures RowsAre(Step(b, e), n, Erc1155, 0)
  {
  }

  lemma OthersKeep1155Rows(b: Books, e: Tx, n: Nft)
    requires RowsAre(b, n, Erc1155, 0) && As1155(e, n) && ListsNonNegative(e)
    requires e.nft == n && !e.Transferred1155?
    ensures RowsAre(Step(b, e), n, Erc1155, 0)
  {
  }

  /** In every history of an ERC-1155 token, overdrafts or not, all its rows are ERC-1155 rows and none is negative. */
  lemma {:induction false} RowsStay1155(es: seq<Tx>, n: Nft)
    requires All1155(es, n) && forall i :: 0 <= i < |es| ==> ListsNonNegative(es[i])
    ensures RowsAre(After(es), n, Erc1155, 0)
  {
    if es != [] {
      RowsStay1155(es[..|es| - 1], n);
      var b, e := After(es[..|es| - 1]), es[|es| - 1];
      if e.nft != n {
        OtherTokensKeep1155Rows(b, e, n);
      } else if e.Transferred1155? {
        TransfersKeep1155Rows(b, e, n);
      } else {
        OthersKeep1155Rows(b, e, n);
      }
    }
  }

  /** Whom the last event that clears the token's rows leaves as their owner; nobody before the first or after a
      burn. */
  function LastOwner(es: seq<Tx>, n: Nft): Option<string> {
    if es == [] then None
    else
      var e := es[|es| - 1];
      if e.nft != n || !Clears(e) then LastOwner(es[..|es| - 1], n)
      else if e.Transferred721? && e.to == ZERO then None
      else Some(SoleOwnerAfter(e))
  }

  ghost predicate OnlyRow(b: Books, n: Nft, o: Option<string>) {
    && (forall k :: k in b.ownership && k.0 == n ==> Some(k.1) == o && b.ownership[k] == Holding(1, Erc721))
    && (o.Some? ==> (n, o.value) in b.ownership)
  }

  lemma ClearingLeavesOnlyRow(b: Books, e: Tx, n: Nft)
    requires e.nft == n && Clears(e)
    ensures OnlyRow(Step(b, e), n, if e.Transferred721? && e.to == ZERO then None else Some(SoleOwnerAfter(e)))
  {
  }

  lemma OthersLeaveOnlyRow(b: Books, e: Tx, n: Nft, o: Option<string>)
    requires OnlyRow(b, n, o) && As721(e, n) && (e.nft != n || !Clears(e))
    ensures OnlyRow(Step(b, e), n, o)
  {
  }

  /** In every history of an ERC-721 token, in order or not, its only row is one unit of whoever was last sent it or
      listed it; after a burn there is none. */
  lemma {:induction false} OnlyRowIsLastOwner(es: seq<Tx>, n: Nft)
    requires forall i :: 0 <= i < |es| ==> As721(es[i], n)
    ensures OnlyRow(After(es), n, LastOwner(es, n))
  {
    if es != [] {
      var before, e := es[..|es| - 1], es[|es| - 1];
      OnlyRowIsLastOwner(before, n);
      if e.nft == n && Clears(e) {
        ClearingLeavesOnlyRow(After(before), e, n);
      } else {
        OthersLeaveOnlyRow(After(before), e, n, LastOwner(before, n));
      }
    }
  }

  lemma OwnerStep(b: Books, e: Tx, n: Nft)
    ensures if e.Transferred721? && e.nft == n then n in Step(b, e).owners && Step(b, e).owners[n] == e.to
            else (n in Step(b, e).owners <==> n in b.owners) && (n in b.owners ==> Step(b, e).owners[n] == b.owners[n])
  {
  }

  /** The token's owner column, in every history, is the recipient of its last transfer, the zero address included. */
  lemma {:induction false} OwnerIsLastRecipient(es: seq<Tx>, n: Nft, i: nat)
    requires i < |es| && es[i].Transferred721? && es[i].nft == n
    requires forall j :: i < j < |es| ==> !(es[j].Transferred721? && es[j].nft == n)
    ensures n in After(es).owners && After(es).owners[n] == es[i].to
  {
    var before := es[..|es| - 1];
    OwnerStep(After(before), es[|es| - 1], n);
    if i < |before| {
      OwnerIsLastRecipient(before, n, i);
    }
  }

  lemma SalesStep(b: Books, e: Tx)
    ensures Step(b, e).sales == if e.Bought? then Sales.Record(b.sales, e.txHash, e.sale) else b.sales
  {
  }

  /** A transaction's sale is recorded as its first event gave it. */
  lemma {:induction false} SaleIsTheFirst(es: seq<Tx>, h: string, i: nat)
    requires i < |es| && es[i].Bought? && es[i].txHash == h
    requires forall j :: 0 <= j < i ==> !(es[j].Bought? && es[j].txHash == h)
    ensures h in After(es).sales && After(es).sales[h] == es[i].sale
  {
    var before := es[..|es| - 1];
    SalesStep(After(before), es[|es| - 1]);
    if i < |before| {
      SaleIsTheFirst(before, h, i);
    } else {
      OnlySalesAreRecorded(before, h);
    }
  }

  lemma {:induction false} OnlySalesAreRecorded(es: seq<Tx>, h: string)
    requires forall j :: 0 <= j < |es| ==> !(es[j].Bought? && es[j].txHash == h)
    ensures h !in After(es).sales
  {
    if es != [] {
      OnlySalesAreRecorded(es[..|es| - 1], h);
      SalesStep(After(es[..|es| - 1]), es[|es| - 1]);
    }
  }
}
