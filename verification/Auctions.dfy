/** Auctions and bids: the tables `auctions` and `bids`, the view `effective_bids`, and the leader columns
    that are recomputed from it with every bid.

    A bidder's effective bid on an auction is the sum of all their bid rows; the leader is a bidder whose
    effective bid is highest. Among ties the database may pick any. */
module Auctions {
  import opened Sums

  datatype Bid = Bid(auction: int, bidder: string, amount: nat)

  /** Keyed by `tx_hash`, which is UNIQUE. */
  type Bids = map<string, Bid>

  datatype Status = Active | Settled | Cancelled

  datatype Auction = Auction(highestWei: int, highestBidder: string, endsAt: int, status: Status)

  datatype Outcome = Done | UnknownAuction

  // ---------------------------------------------------------------- the view effective_bids

  ghost function RowsOf(bids: Bids, a: int, bidder: string): map<string, int> {
    map tx | tx in bids && bids[tx].auction == a && bids[tx].bidder == bidder :: bids[tx].amount
  }

  ghost function Effective(bids: Bids, a: int, bidder: string): int {
    Sum(RowsOf(bids, a, bidder))
  }

  ghost predicate HasBid(bids: Bids, a: int, bidder: string) {
    exists tx :: tx in bids && bids[tx].auction == a && bids[tx].bidder == bidder
  }

  /** `ORDER BY effective_wei DESC LIMIT 1` returns this bidder with this sum. */
  ghost predicate Leads(bids: Bids, a: int, bidder: string, wei: int) {
    && HasBid(bids, a, bidder)
    && wei == Effective(bids, a, bidder)
    && forall other :: HasBid(bids, a, other) ==> Effective(bids, a, other) <= wei
  }

  /** The leader columns are right: nobody leads an auction without bids. */
  ghost predicate LeaderIsRight(bids: Bids, a: int, row: Auction) {
    if exists b :: HasBid(bids, a, b) then Leads(bids, a, row.highestBidder, row.highestWei)
    else row.highestBidder == "" && row.highestWei == 0
  }

  function BiddersOf(bids: Bids, a: int): (s: set<string>)
    ensures forall b :: b in s <==> HasBid(bids, a, b)
  {
    set tx | tx in bids && bids[tx].auction == a :: bids[tx].bidder
  }

  function WithBid(bids: Bids, tx: string, b: Bid): Bids {
    if tx in bids then bids else bids[tx := b]
  }

  /** A new row lifts exactly one effective bid, by exactly its amount. */
  lemma NewBidLifts(bids: Bids, tx: string, b: Bid, a: int, bidder: string)
    requires tx !in bids
    ensures Effective(WithBid(bids, tx, b), a, bidder)
            == Effective(bids, a, bidder) + if b.auction == a && b.bidder == bidder then b.amount else 0
    ensures HasBid(WithBid(bids, tx, b), a, bidder)
            <==> HasBid(bids, a, bidder) || (b.auction == a && b.bidder == bidder)
  {
    var bids' := WithBid(bids, tx, b);
    if b.auction == a && b.bidder == bidder {
      SumPut(RowsOf(bids, a, bidder), tx, b.amount);
      assert RowsOf(bids', a, bidder) == RowsOf(bids, a, bidder)[tx := b.amount];
      assert bids'[tx] == b;
    } else {
      assert RowsOf(bids', a, bidder) == RowsOf(bids, a, bidder);
    }
    if HasBid(bids, a, bidder) {
      var t :| t in bids && bids[t].auction == a && bids[t].bidder == bidder;
      assert bids'[t] == bids[t];
    }
  }

  // ---------------------------------------------------------------- transactions

  datatype Book = Book(auctions: map<int, Auction>, bids: Bids)

  datatype Event =
    | Created(auction: int, row: Auction)
    | BidPlaced(auction: int, bidder: string, amount: nat, tx: string)
    | StatusSet(auction: int, status: Status)
    | Extended(auction: int, endsAt: int)

  /** One transaction. It is a relation because of ties. The bids table refers to the auctions table, so a new
      row for an unknown auction is refused; a repeated transaction inserts nothing and is never refused. Either
      way the leader is recomputed from the whole view, and is left alone only if the auction has no bids. */
  ghost predicate Next(s: Book, e: Event, s': Book) {
    match e
    case Created(a, row) => s' == s.(auctions := s.auctions[a := row])
    case BidPlaced(a, bidder, amount, tx) =>
      if tx !in s.bids && a !in s.auctions then s' == s
      else
        && s'.bids == WithBid(s.bids, tx, Bid(a, bidder, amount))
        && s'.auctions.Keys == s.auctions.Keys
        && (forall o :: o in s.auctions && o != a ==> s'.auctions[o] == s.auctions[o])
        && (a in s.auctions ==>
              && s'.auctions[a].endsAt == s.auctions[a].endsAt
              && s'.auctions[a].status == s.auctions[a].status
              && if exists b :: HasBid(s'.bids, a, b)
                 then Leads(s'.bids, a, s'.auctions[a].highestBidder, s'.auctions[a].highestWei)
                 else s'.auctions[a] == s.auctions[a])
    case StatusSet(a, status) =>
      s' == if a in s.auctions then s.(auctions := s.auctions[a := s.auctions[a].(status := status)]) else s
    case Extended(a, endsAt) =>
      s' == if a in s.auctions && s.auctions[a].status.Active?
            then s.(auctions := s.auctions[a := s.auctions[a].(endsAt := endsAt)]) else s
  }

  // ---------------------------------------------------------------- the tables, updated in place

  class AuctionBook {
    var auctions: map<int, Auction>
    var bids: Bids

    ghost function View(): Book
      reads this
    {
      Book(auctions, bids)
    }

    constructor ()
      ensures View() == Book(map[], map[])
    {
      auctions, bids := map[], map[];
    }

    method InsertBidAndUpdateAuction(a: int, bidder: string, amount: nat, tx: string) returns (out: Outcome)
      modifies this
      ensures Next(old(View()), BidPlaced(a, bidder, amount, tx), View())
      ensures out == UnknownAuction <==> old(tx !in bids && a !in auctions)
    {
      if tx !in bids {
        if a !in auctions {
          return UnknownAuction;
        }
        bids := bids[tx := Bid(a, bidder, amount)];
      }
      if BiddersOf(bids, a) != {} && a in auctions {
        var top, wei := FirstByEffective(bids, a);
        auctions := auctions[a := auctions[a].(highestWei := wei, highestBidder := top)];
      }
      return Done;
    }

    method UpsertAuction(a: int, row: Auction)
      modifies this`auctions
      ensures Next(old(View()), Created(a, row), View())
    {
      if a in auctions {
        auctions := auctions[a := auctions[a].(highestWei := row.highestWei, highestBidder := row.highestBidder,
                                               endsAt := row.endsAt, status := row.status)];
      } else {
        auctions := auctions[a := row];
      }
    }

    method SetAuctionStatus(a: int, status: Status)
      modifies this`auctions
      ensures Next(old(View()), StatusSet(a, status), View())
    {
      if a in auctions {
        auctions := auctions[a := auctions[a].(status := status)];
      }
    }

    method ExtendAuction(a: int, endsAt: int)
      modifies this`auctions
      ensures Next(old(View()), Extended(a, endsAt), View())
    {
      if a in auctions && auctions[a].status.Active? {
        auctions := auctions[a := auctions[a].(endsAt := endsAt)];
      }
    }
  }

  /** The sub-select: sum the rows of each bidder, keep the highest. */
  method FirstByEffective(bids: Bids, a: int) returns (top: string, wei: int)
    requires exists b :: HasBid(bids, a, b)
    ensures Leads(bids, a, top, wei)
  {
    var left := BiddersOf(bids, a);
    var seen: set<string> := {};
    top :| top in left;
    wei := SumRows(bids, a, top);
    while left != {}
      invariant seen + left == BiddersOf(bids, a)
      invariant HasBid(bids, a, top) && wei == Effective(bids, a, top)
      invariant forall b :: b in seen ==> Effective(bids, a, b) <= wei
      decreases |left|
    {
      var b :| b in left;
      var w := SumRows(bids, a, b);
      if w > wei {
        top, wei := b, w;
      }
      left, seen := left - {b}, seen + {b};
    }
  }

  /** SUM(amount_wei) over the rows of one bidder. */
  method SumRows(bids: Bids, a: int, bidder: string) returns (wei: int)
    ensures wei == Effective(bids, a, bidder)
  {
    wei := 0;
    var left := map tx | tx in bids && bids[tx].auction == a && bids[tx].bidder == bidder :: bids[tx].amount as int;
    assert left == RowsOf(bids, a, bidder);
    while left != map[]
      invariant wei + Sum(left) == Effective(bids, a, bidder)
      decreases |left|
    {
      var tx :| tx in left;
      SumSplit(left, tx);
      wei := wei + left[tx];
      left := left - {tx};
    }
  }

  // ---------------------------------------------------------------- histories

  ghost predicate Run(es: seq<Event>, ss: seq<Book>) {
    |ss| == |es| + 1 && ss[0] == Book(map[], map[]) && forall i :: 0 <= i < |es| ==> Next(ss[i], es[i], ss[i + 1])
  }

  ghost predicate Right(s: Book, a: int) {
    a in s.auctions ==> LeaderIsRight(s.bids, a, s.auctions[a])
  }

  /** AuctionCreated always carries an auction without a leader. */
  predicate CreatesEmpty(e: Event) {
    e.Created? ==> e.row.highestWei == 0 && e.row.highestBidder == ""
  }

  /** A bid, even a repeated one, makes the leader columns right whatever they held before. */
  lemma AnyBidHeals(s: Book, e: Event, s': Book)
    requires Next(s, e, s') && e.BidPlaced? && (e.tx in s.bids || e.auction in s.auctions)
    requires exists b :: HasBid(s'.bids, e.auction, b)
    ensures Right(s', e.auction)
  {
  }

  /** Every other transaction keeps them right, except that creating an auction again forgets its leader:
      then they are right exactly if the auction has no bids that lead it. */
  lemma RightStep(s: Book, e: Event, s': Book, a: int)
    requires Next(s, e, s') && Right(s, a) && CreatesEmpty(e)
    ensures !(e.Created? && e.auction == a) ==> Right(s', a)
    ensures e.Created? && e.auction == a ==>
              (Right(s', a) <==> (forall b :: !HasBid(s.bids, a, b)) || Leads(s.bids, a, "", 0))
  {
    if e.BidPlaced? && s'.bids != s.bids {
      forall b ensures e.auction != a ==> Effective(s'.bids, a, b) == Effective(s.bids, a, b)
               ensures e.auction != a ==> (HasBid(s'.bids, a, b) <==> HasBid(s.bids, a, b))
               ensures HasBid(s.bids, a, b) ==> HasBid(s'.bids, a, b)
      {
        NewBidLifts(s.bids, e.tx, Bid(e.auction, e.bidder, e.amount), a, b);
      }
      NewBidLifts(s.bids, e.tx, Bid(e.auction, e.bidder, e.amount), a, e.bidder);
    }
  }

  /** An auction is not created again once it has bids. */
  ghost predicate NotRecreated(es: seq<Event>, ss: seq<Book>, a: int) {
    |es| <= |ss| && forall i :: 0 <= i < |es| && es[i].Created? && es[i].auction == a ==>
      forall b :: !HasBid(ss[i].bids, a, b)
  }

  /** A run in which auctions are created without a leader, and `a` not again once it has bids. */
  ghost predicate Regular(es: seq<Event>, ss: seq<Book>, a: int) {
    Run(es, ss) && (forall e :: e in es ==> CreatesEmpty(e)) && NotRecreated(es, ss, a)
  }

  /** After any sequence of transactions, in any order and with bids repeated at will, `highest_bid_wei` is the
      maximum over bidders of the sum of their distinct-transaction bids, and `highest_bidder` attains it. */
  lemma {:induction false} LeaderAlwaysRight(es: seq<Event>, ss: seq<Book>, a: int, n: nat)
    requires Regular(es, ss, a) && n <= |es|
    ensures Right(ss[n], a)
    decreases n
  {
    if n > 0 {
      LeaderAlwaysRight(es, ss, a, n - 1);
      RightStep(ss[n - 1], es[n - 1], ss[n], a);
    }
  }

  // ---------------------------------------------------------------- the other columns

  /** A bid keeps the end and the status of every auction, and everything of every other auction. */
  lemma BidKeepsTheRest(s: Book, e: Event, s': Book, a: int)
    requires Next(s, e, s') && e.BidPlaced?
    ensures s'.auctions.Keys == s.auctions.Keys
    ensures a in s.auctions ==>
              && s'.auctions[a].status == s.auctions[a].status && s'.auctions[a].endsAt == s.auctions[a].endsAt
              && (a != e.auction ==> s'.auctions[a] == s.auctions[a])
  {
  }

  /** An auction is there if and only if it was created. */
  lemma {:induction false} ThereIfCreated(es: seq<Event>, ss: seq<Book>, a: int, n: nat)
    requires Run(es, ss) && n <= |es|
    ensures a in ss[n].auctions <==> exists i :: 0 <= i < n && es[i].Created? && es[i].auction == a
  {
    if n > 0 {
      ThereIfCreated(es, ss, a, n - 1);
      assert Next(ss[n - 1], es[n - 1], ss[n]);
    }
  }

  predicate SetsStatus(s: Book, e: Event, a: int) {
    (e.Created? || (e.StatusSet? && a in s.auctions)) && e.auction == a
  }

  /** Extending works on active auctions only. */
  predicate SetsEnd(s: Book, e: Event, a: int) {
    (e.Created? || (e.Extended? && a in s.auctions && s.auctions[a].status.Active?)) && e.auction == a
  }

  predicate SetsLeader(e: Event, a: int) {
    (e.Created? || e.BidPlaced?) && e.auction == a
  }

  lemma StatusStep(s: Book, e: Event, s': Book, a: int)
    requires Next(s, e, s')
    ensures SetsStatus(s, e, a) ==>
              a in s'.auctions && s'.auctions[a].status == if e.Created? then e.row.status else e.status
    ensures a in s.auctions && !SetsStatus(s, e, a) ==>
              a in s'.auctions && s'.auctions[a].status == s.auctions[a].status
  {
    if e.BidPlaced? {
      BidKeepsTheRest(s, e, s', a);
    }
  }

  lemma EndStep(s: Book, e: Event, s': Book, a: int)
    requires Next(s, e, s')
    ensures SetsEnd(s, e, a) ==>
              a in s'.auctions && s'.auctions[a].endsAt == if e.Created? then e.row.endsAt else e.endsAt
    ensures a in s.auctions && !SetsEnd(s, e, a) ==>
              a in s'.auctions && s'.auctions[a].endsAt == s.auctions[a].endsAt
  {
    if e.BidPlaced? {
      BidKeepsTheRest(s, e, s', a);
    }
  }

  lemma LeaderStep(s: Book, e: Event, s': Book, a: int)
    requires Next(s, e, s')
    ensures e.Created? && e.auction == a ==> a in s'.auctions && s'.auctions[a] == e.row
    ensures a in s.auctions && !SetsLeader(e, a) ==>
              && a in s'.auctions && s'.auctions[a].highestWei == s.auctions[a].highestWei
              && s'.auctions[a].highestBidder == s.auctions[a].highestBidder
  {
    if e.BidPlaced? {
      BidKeepsTheRest(s, e, s', a);
    }
  }

  /** Over every run the status is that of the last event that created the auction or set its status. */
  lemma {:induction false} StatusIsLastSet(es: seq<Event>, ss: seq<Book>, a: int, i: nat, n: nat)
    requires Run(es, ss) && i < n <= |es| && SetsStatus(ss[i], es[i], a)
    requires forall j :: i < j < n ==> !SetsStatus(ss[j], es[j], a)
    ensures a in ss[n].auctions
    ensures ss[n].auctions[a].status == if es[i].Created? then es[i].row.status else es[i].status
    decreases n
  {
    if i < n - 1 {
      StatusIsLastSet(es, ss, a, i, n - 1);
    }
    StatusStep(ss[n - 1], es[n - 1], ss[n], a);
  }

  /** And its end is that of the last event that created the auction, or extended it while it was active. */
  lemma {:induction false} EndIsLastSet(es: seq<Event>, ss: seq<Book>, a: int, i: nat, n: nat)
    requires Run(es, ss) && i < n <= |es| && SetsEnd(ss[i], es[i], a)
    requires forall j :: i < j < n ==> !SetsEnd(ss[j], es[j], a)
    ensures a in ss[n].auctions
    ensures ss[n].auctions[a].endsAt == if es[i].Created? then es[i].row.endsAt else es[i].endsAt
    decreases n
  {
    if i < n - 1 {
      EndIsLastSet(es, ss, a, i, n - 1);
    }
    EndStep(ss[n - 1], es[n - 1], ss[n], a);
  }

  /** Until the next bid the leader is the one the auction was created with: only a bid or a creation changes it. */
  lemma {:induction false} LeaderIsCreatedUntilBid(es: seq<Event>, ss: seq<Book>, a: int, i: nat, n: nat)
    requires Run(es, ss) && i < n <= |es| && es[i].Created? && es[i].auction == a
    requires forall j :: i < j < n ==> !SetsLeader(es[j], a)
    ensures a in ss[n].auctions
    ensures ss[n].auctions[a].highestWei == es[i].row.highestWei
    ensures ss[n].auctions[a].highestBidder == es[i].row.highestBidder
    decreases n
  {
    if i < n - 1 {
      LeaderIsCreatedUntilBid(es, ss, a, i, n - 1);
    }
    LeaderStep(ss[n - 1], es[n - 1], ss[n], a);
  }

  // ---------------------------------------------------------------- order and repetition do not matter

  datatype Row = Row(tx: string, bid: Bid)

  function BidsAfter(rows: seq<Row>): Bids {
    if rows == [] then map[] else WithBid(BidsAfter(rows[..|rows| - 1]), rows[|rows| - 1].tx, rows[|rows| - 1].bid)
  }

  /** A transaction hash names one bid. */
  predicate Consistent(rows: seq<Row>) {
    forall r, r' :: r in rows && r' in rows && r.tx == r'.tx ==> r == r'
  }

  lemma {:induction false} BidsAfterHolds(rows: seq<Row>)
    requires Consistent(rows)
    ensures forall r :: r in rows ==> r.tx in BidsAfter(rows) && BidsAfter(rows)[r.tx] == r.bid
    ensures forall tx :: tx in BidsAfter(rows) ==> Row(tx, BidsAfter(rows)[tx]) in rows
  {
    if rows != [] {
      var before, last := rows[..|rows| - 1], rows[|rows| - 1];
      BidsAfterHolds(before);
      assert rows == before + [last];
    }
  }

  lemma SameBidsSameTable(rows: seq<Row>, rows': seq<Row>)
    requires Consistent(rows) && (forall r :: r in rows <==> r in rows')
    ensures BidsAfter(rows) == BidsAfter(rows')
  {
    BidsAfterHolds(rows);
    BidsAfterHolds(rows');
    var m, m' := BidsAfter(rows), BidsAfter(rows');
    assert forall tx :: tx in m ==> Row(tx, m[tx]) in rows';
    assert forall tx :: tx in m' ==> Row(tx, m'[tx]) in rows;
  }

  /** The bids that the first `n` transactions of a run placed, in their order and with repetitions: all but those
      refused for an unknown auction. */
  ghost function Placed(es: seq<Event>, ss: seq<Book>, n: nat): seq<Row>
    requires n <= |es| < |ss|
  {
    if n == 0 then []
    else
      var before, e := Placed(es, ss, n - 1), es[n - 1];
      if e.BidPlaced? && e.auction in ss[n - 1].auctions then before + [Row(e.tx, Bid(e.auction, e.bidder, e.amount))]
      else before
  }

  lemma StepPlaces(s: Book, e: Event, s': Book)
    requires Next(s, e, s')
    ensures s'.bids ==
            if e.BidPlaced? && e.auction in s.auctions then WithBid(s.bids, e.tx, Bid(e.auction, e.bidder, e.amount))
            else s.bids
  {
  }

  lemma BidsAfterMore(rows: seq<Row>, r: Row)
    ensures BidsAfter(rows + [r]) == WithBid(BidsAfter(rows), r.tx, r.bid)
  {
    assert (rows + [r])[..|rows|] == rows;
  }

  /** The bids table of a run holds exactly what was placed. */
  lemma {:induction false} TableIsWhatWasPlaced(es: seq<Event>, ss: seq<Book>, n: nat)
    requires Run(es, ss) && n <= |es|
    ensures ss[n].bids == BidsAfter(Placed(es, ss, n))
  {
    if n > 0 {
      var e := es[n - 1];
      TableIsWhatWasPlaced(es, ss, n - 1);
      StepPlaces(ss[n - 1], e, ss[n]);
      if e.BidPlaced? {
        BidsAfterMore(Placed(es, ss, n - 1), Row(e.tx, Bid(e.auction, e.bidder, e.amount)));
      }
    }
  }

  lemma LeaderIsUnique(bids: Bids, a: int, row: Auction, row': Auction)
    requires LeaderIsRight(bids, a, row) && LeaderIsRight(bids, a, row')
    ensures row.highestWei == row'.highestWei
  {
  }

  /** Two runs that placed the same bids, in whatever order and however often, end with the same bids table, and every
      auction that both have with the same `highest_bid_wei`. */
  lemma {:induction false} OrderDoesNotMatter(es: seq<Event>, ss: seq<Book>, es': seq<Event>, ss': seq<Book>, a: int)
    requires Regular(es, ss, a) && Regular(es', ss', a)
    requires Consistent(Placed(es, ss, |es|)) && forall r :: r in Placed(es, ss, |es|) <==> r in Placed(es', ss', |es'|)
    ensures ss[|es|].bids == ss'[|es'|].bids
    ensures a in ss[|es|].auctions && a in ss'[|es'|].auctions ==>
              ss[|es|].auctions[a].highestWei == ss'[|es'|].auctions[a].highestWei
  {
    TableIsWhatWasPlaced(es, ss, |es|);
    TableIsWhatWasPlaced(es', ss', |es'|);
    SameBidsSameTable(Placed(es, ss, |es|), Placed(es', ss', |es'|));
    LeaderAlwaysRight(es, ss, a, |es|);
    LeaderAlwaysRight(es', ss', a, |es'|);
    if a in ss[|es|].auctions && a in ss'[|es'|].auctions {
      LeaderIsUnique(ss[|es|].bids, a, ss[|es|].auctions[a], ss'[|es'|].auctions[a]);
    }
  }

  // ---------------------------------------------------------------- the client's view

  /** `applyBid`: the bidder leads with their cumulative total, and a bid inside the anti-snipe window pushes
      the end out so that the whole window is left. */
  function ApplyBid(row: Auction, bidder: string, total: int, now: int, window: nat): (r: Auction)
    ensures r.endsAt >= row.endsAt && r.endsAt >= now + window
    ensures r.endsAt == row.endsAt || r.endsAt == now + window
  {
    row.(highestWei := total, highestBidder := bidder,
         endsAt := if row.endsAt - now < window then now + window else row.endsAt)
  }

  /** A new bid that lifts its bidder's total above the current maximum makes that bidder the leader, with that
      total: exactly the columns the client shows before the backend has caught up. */
  lemma OutbidMatchesClient(s: Book, e: Event, s': Book, now: int, window: nat)
    requires Next(s, e, s') && e.BidPlaced? && e.tx !in s.bids && e.auction in s.auctions
    requires LeaderIsRight(s.bids, e.auction, s.auctions[e.auction])
    requires Effective(s'.bids, e.auction, e.bidder) > s.auctions[e.auction].highestWei
    ensures var total := Effective(s.bids, e.auction, e.bidder) + e.amount;
            var shown := ApplyBid(s.auctions[e.auction], e.bidder, total, now, window);
            && s'.auctions[e.auction].highestBidder == shown.highestBidder
            && s'.auctions[e.auction].highestWei == shown.highestWei
  {
    var a, bid := e.auction, Bid(e.auction, e.bidder, e.amount);
    NewBidLifts(s.bids, e.tx, bid, a, e.bidder);
    var leader := s'.auctions[a].highestBidder;
    NewBidLifts(s.bids, e.tx, bid, a, leader);
  }

  /** The client folds the bids of one auction it has seen. */
  function Shown(row: Auction, bids: seq<(string, int, int)>, window: nat): Auction {
    if bids == [] then row
    else
      var (bidder, total, now) := bids[|bids| - 1];
      ApplyBid(Shown(row, bids[..|bids| - 1], window), bidder, total, now, window)
  }

  /** One bid that outbids, seen by both sides: the columns agree and are right again. */
  lemma OutbidStep(s: Book, e: Event, s': Book, a: int, now: int, window: nat, shown: Auction)
    requires Next(s, e, s') && e.BidPlaced? && e.auction == a && e.tx !in s.bids && a in s.auctions
    requires LeaderIsRight(s.bids, a, s.auctions[a]) && Effective(s'.bids, a, e.bidder) > s.auctions[a].highestWei
    ensures a in s'.auctions && LeaderIsRight(s'.bids, a, s'.auctions[a])
    ensures var next := ApplyBid(shown, e.bidder, Effective(s'.bids, a, e.bidder), now, window);
            && s'.auctions[a].highestBidder == next.highestBidder == e.bidder
            && s'.auctions[a].highestWei == next.highestWei
  {
    OutbidMatchesClient(s, e, s', now, window);
    NewBidLifts(s.bids, e.tx, Bid(a, e.bidder, e.amount), a, e.bidder);
    RightStep(s, e, s', a);
  }

  /** Every bid of the run is a new one on `a` that outbids, and `totals` is what the client is told of each. */
  ghost predicate OutbidAt(es: seq<Event>, ss: seq<Book>, a: int, totals: seq<(string, int, int)>, i: nat)
    requires i < |es| == |totals| && |ss| == |es| + 1
  {
    && Next(ss[i], es[i], ss[i + 1]) && es[i].BidPlaced? && es[i].auction == a && es[i].tx !in ss[i].bids
    && a in ss[i].auctions
    && totals[i].0 == es[i].bidder && totals[i].1 == Effective(ss[i + 1].bids, a, es[i].bidder)
    && totals[i].1 > ss[i].auctions[a].highestWei
  }

  /** When every bid of a run outbids the current maximum, the leader is always the last bidder, and the client
      that folds the bids it saw shows the same leader and the same amount as the backend, bid after bid. */
  lemma {:induction false} ClientTracksBackend(es: seq<Event>, ss: seq<Book>, a: int, totals: seq<(string, int, int)>,
          window: nat, n: nat)
    requires |ss| == |es| + 1 == |totals| + 1 && n <= |es|
    requires a in ss[0].auctions && LeaderIsRight(ss[0].bids, a, ss[0].auctions[a])
    requires forall i :: 0 <= i < |es| ==> OutbidAt(es, ss, a, totals, i)
    ensures a in ss[n].auctions && LeaderIsRight(ss[n].bids, a, ss[n].auctions[a])
    ensures var shown := Shown(ss[0].auctions[a], totals[..n], window);
            ss[n].auctions[a].highestBidder == shown.highestBidder && ss[n].auctions[a].highestWei == shown.highestWei
    ensures n > 0 ==> es[n - 1].BidPlaced? && ss[n].auctions[a].highestBidder == es[n - 1].bidder
    decreases n
  {
    if n > 0 {
      ClientTracksBackend(es, ss, a, totals, window, n - 1);
      assert OutbidAt(es, ss, a, totals, n - 1);
      assert totals[..n][..n - 1] == totals[..n - 1];
      var shown := Shown(ss[0].auctions[a], totals[..n - 1], window);
      OutbidStep(ss[n - 1], es[n - 1], ss[n], a, totals[n - 1].2, window, shown);
    }
  }
}
