/** Offers: the table `offers`, in which a bidder's stacked position on a token is one pending row.

    The partial unique index on (collection, token_id, bidder) WHERE status='pending' is what the upsert
    conflicts with; no statement checks it. That it is never violated is one of the results. */
module Offers {
  import opened Sums
  import Sales

  datatype Status = Pending | Accepted | Cancelled | Expired

  datatype Standard = Erc721 | Erc1155

  datatype Position = Position(collection: string, tokenId: nat, bidder: string)

  datatype Offer = Offer(position: Position, principalWei: nat, feeWei: nat, units: int, standard: Standard,
                         expiresAt: int, makeTx: string, status: Status)

  /** Keyed by `offer_id`. */
  type Table = map<string, Offer>

  predicate PendingAt(t: Table, id: string, p: Position) {
    id in t && t[id].status.Pending? && t[id].position == p
  }

  ghost predicate AnyPending(t: Table, p: Position) {
    exists id :: PendingAt(t, id, p)
  }

  // ---------------------------------------------------------------- statements on the table

  datatype Make = Make(principalWei: nat, feeWei: nat, units: int, standard: Standard, expiresAt: int, makeTx: string)

  /** A further event on an open position: the contract emits the cumulative principal, so that is overwritten;
      fees add up. */
  function Compound(o: Offer, m: Make): Offer {
    o.(principalWei := m.principalWei, feeWei := o.feeWei + m.feeWei, units := m.units,
       expiresAt := m.expiresAt, makeTx := m.makeTx)
  }

  function Fresh(p: Position, m: Make): Offer {
    Offer(p, m.principalWei, m.feeWei, m.units, m.standard, m.expiresAt, m.makeTx, Pending)
  }

  ghost function Upsert(t: Table, id: string, p: Position, m: Make): Table {
    if AnyPending(t, p) then map k | k in t :: if PendingAt(t, k, p) then Compound(t[k], m) else t[k]
    else if id in t then t
    else t[id := Fresh(p, m)]
  }

  function Close(t: Table, p: Position, status: Status): Table {
    map k | k in t :: if PendingAt(t, k, p) then t[k].(status := status) else t[k]
  }

  function ExpireAll(t: Table, now: int): Table {
    map k | k in t :: if t[k].expiresAt < now && t[k].status.Pending? then t[k].(status := Expired) else t[k]
  }

  function CancelById(t: Table, id: string, bidder: string): Table {
    if id in t && t[id].position.bidder == bidder && t[id].status.Pending? then t[id := t[id].(status := Cancelled)]
    else t
  }

  class OfferBook {
    var offers: Table
    var sales: Sales.Table

    constructor ()
      ensures offers == map[] && sales == map[]
    {
      offers, sales := map[], map[];
    }

    /** `id` is the uuid a new row would get. */
    method UpsertOfferPosition(id: string, p: Position, m: Make)
      modifies this`offers
      ensures offers == Upsert(old(offers), id, p, m)
    {
      var open := set k | k in offers && offers[k].status.Pending? && offers[k].position == p;
      assert forall k :: PendingAt(offers, k, p) <==> k in open;
      if open == {} {
        if id !in offers {
          offers := offers[id := Fresh(p, m)];
        }
      } else {
        var one :| one in open;
        assert PendingAt(offers, one, p);
        offers := map k | k in offers :: if k in open then Compound(offers[k], m) else offers[k];
      }
    }

    method SetOfferStatus(p: Position, status: Status)
      modifies this`offers
      ensures offers == Close(old(offers), p, status)
    {
      offers := map k | k in offers ::
        if offers[k].position == p && offers[k].status.Pending? then offers[k].(status := status) else offers[k];
    }

    method ExpireOffers(now: int) returns (affected: nat)
      modifies this`offers
      ensures offers == ExpireAll(old(offers), now)
      ensures affected == |set k | k in old(offers) && offers[k] != old(offers)[k]|
    {
      var due := set k | k in offers && offers[k].expiresAt < now && offers[k].status.Pending?;
      ghost var before := offers;
      offers := map k | k in offers :: if k in due then offers[k].(status := Expired) else offers[k];
      assert due == set k | k in before && offers[k] != before[k];
      affected := |due|;
    }

    method CancelOffer(id: string, bidder: string)
      modifies this`offers
      ensures offers == CancelById(old(offers), id, bidder)
    {
      if id in offers && offers[id].position.bidder == bidder && offers[id].status.Pending? {
        offers := offers[id := offers[id].(status := Cancelled)];
      }
    }

    method AcceptOfferAndRecordSale(p: Position, txHash: string, sale: Sales.Sale)
      modifies this
      ensures offers == Close(old(offers), p, Accepted)
      ensures sales == Sales.Record(old(sales), txHash, sale)
    {
      SetOfferStatus(p, Accepted);
      if txHash !in sales {
        sales := sales[txHash := sale];
      }
    }
  }

  // ---------------------------------------------------------------- histories

  datatype Event =
    | Made(id: string, position: Position, make: Make)
    | StatusSet(position: Position, status: Status)
    | Swept(now: int)
    | CancelledById(id: string, bidder: string)
    | AcceptedFor(position: Position)

  ghost function Step(t: Table, e: Event): Table {
    match e
    case Made(id, p, m) => Upsert(t, id, p, m)
    case StatusSet(p, s) => Close(t, p, s)
    case Swept(now) => ExpireAll(t, now)
    case CancelledById(id, bidder) => CancelById(t, id, bidder)
    case AcceptedFor(p) => Close(t, p, Accepted)
  }

  ghost function After(es: seq<Event>): Table {
    if es == [] then map[] else Step(After(es[..|es| - 1]), es[|es| - 1])
  }

  function IdsOf(es: seq<Event>): set<string> {
    if es == [] then {}
    else IdsOf(es[..|es| - 1]) + if es[|es| - 1].Made? then {es[|es| - 1].id} else {}
  }

  /** The only assumption: a generated uuid never repeats. */
  predicate FreshIds(es: seq<Event>) {
    es == [] || (FreshIds(es[..|es| - 1]) && (es[|es| - 1].Made? ==> es[|es| - 1].id !in IdsOf(es[..|es| - 1])))
  }

  // ---------------------------------------------------------------- one pending row, and closed rows are frozen

  ghost predicate OnePending(t: Table) {
    forall id, id', p :: PendingAt(t, id, p) && PendingAt(t, id', p) ==> id == id'
  }

  lemma StepKeepsOnePending(t: Table, e: Event)
    requires OnePending(t)
    ensures OnePending(Step(t, e))
  {
    forall id, id', p | PendingAt(Step(t, e), id, p) && PendingAt(Step(t, e), id', p) ensures id == id' {
      if e.Made? && e.position == p && !AnyPending(t, p) {
        assert !PendingAt(t, id, p) && !PendingAt(t, id', p);
      } else {
        assert PendingAt(t, id, p) && PendingAt(t, id', p);
      }
    }
  }

  /** A bidder has at most one pending offer per token, in every history: the unique index is never violated. */
  lemma {:induction false} AlwaysOnePending(es: seq<Event>)
    ensures OnePending(After(es))
  {
    if es != [] {
      AlwaysOnePending(es[..|es| - 1]);
      StepKeepsOnePending(After(es[..|es| - 1]), es[|es| - 1]);
    }
  }

  lemma StepFreezes(t: Table, e: Event, id: string)
    requires id in t
    ensures id in Step(t, e) && Step(t, e)[id].position == t[id].position
    ensures !t[id].status.Pending? ==> Step(t, e)[id] == t[id]
  {
  }

  /** A row that has left pending never changes again, and no row ever disappears or changes hands. */
  lemma {:induction false} ClosedIsFrozen(es: seq<Event>, i: nat, j: nat, id: string)
    requires i <= j <= |es| && id in After(es[..i])
    ensures id in After(es[..j]) && After(es[..j])[id].position == After(es[..i])[id].position
    ensures !After(es[..i])[id].status.Pending? ==> After(es[..j])[id] == After(es[..i])[id]
    decreases j
  {
    if i < j {
      ClosedIsFrozen(es, i, j - 1, id);
      assert es[..j][..j - 1] == es[..j - 1];
      assert After(es[..j]) == Step(After(es[..j - 1]), es[j - 1]);
      StepFreezes(After(es[..j - 1]), es[j - 1], id);
    }
  }

  // ---------------------------------------------------------------- how a row is closed

  /** The status an event gives the rows that it closes. */
  function Names(e: Event): Status {
    match e
    case Made(_, _, _) => Pending
    case StatusSet(_, status) => status
    case Swept(_) => Expired
    case CancelledById(_, _) => Cancelled
    case AcceptedFor(_) => Accepted
  }

  lemma ClosingNames(t: Table, e: Event, id: string)
    requires id in t && t[id].status.Pending? && id in Step(t, e) && !Step(t, e)[id].status.Pending?
    ensures Step(t, e)[id].status == Names(e)
  {
  }

  /** The event at `i` takes the row out of pending. */
  ghost predicate ClosesAt(es: seq<Event>, id: string, i: int) {
    && 0 <= i < |es|
    && id in After(es[..i]) && After(es[..i])[id].status.Pending?
    && id in After(es[..i + 1]) && !After(es[..i + 1])[id].status.Pending?
  }

  lemma NewRowsArePending(t: Table, e: Event, id: string)
    requires id !in t && id in Step(t, e)
    ensures Step(t, e)[id].status.Pending?
  {
  }

  /** A closed row was closed by some event. */
  lemma {:induction false} ClosedWasClosed(es: seq<Event>, id: string) returns (i: int)
    requires id in After(es) && !After(es)[id].status.Pending?
    ensures ClosesAt(es, id, i)
  {
    var n := |es| - 1;
    var before := es[..n];
    assert es[..n + 1] == es;
    if id !in After(before) {
      NewRowsArePending(After(before), es[n], id);
      assert false;
    } else if After(before)[id].status.Pending? {
      i := n;
    } else {
      i := ClosedWasClosed(before, id);
      assert before[..i] == es[..i] && before[..i + 1] == es[..i + 1];
    }
  }

  /** In every history a row is accepted if and only if the event that closed it was an acceptance, or set that status;
      expired if and only if it was the sweep, or set that; cancelled if and only if it was a cancellation, or set
      that. */
  lemma ClosedAsIff(es: seq<Event>, id: string, status: Status)
    requires id in After(es) && !status.Pending?
    ensures After(es)[id].status == status <==> exists i :: ClosesAt(es, id, i) && Names(es[i]) == status
  {
    assert es[..|es|] == es;
    if After(es)[id].status == status {
      var i := ClosedWasClosed(es, id);
      ClosedKeepsItsName(es, id, i);
    }
    if i :| ClosesAt(es, id, i) && Names(es[i]) == status {
      ClosedKeepsItsName(es, id, i);
    }
  }

  lemma ClosedKeepsItsName(es: seq<Event>, id: string, i: int)
    requires ClosesAt(es, id, i)
    ensures id in After(es) && After(es)[id].status == Names(es[i])
  {
    assert es[..i + 1][..i] == es[..i] && es[..|es|] == es;
    ClosingNames(After(es[..i]), es[i], id);
    ClosedIsFrozen(es, i + 1, |es|, id);
  }

  // ---------------------------------------------------------------- what a pending row holds

  /** The events that built the position which is open on `p`, or none if it is closed. Closing depends on the
      row's own id and expiry, which are those of the first and of the last of them. */
  function Stack(es: seq<Event>, p: Position): seq<Event>
    ensures forall e :: e in Stack(es, p) ==> e.Made? && e.position == p
  {
    if es == [] then []
    else
      var open, e := Stack(es[..|es| - 1], p), es[|es| - 1];
      match e
      case Made(_, q, _) => if q == p then open + [e] else open
      case StatusSet(q, s) => if q == p && !s.Pending? then [] else open
      case Swept(now) => if open != [] && open[|open| - 1].make.expiresAt < now then [] else open
      case CancelledById(id, bidder) => if open != [] && open[0].id == id && p.bidder == bidder then [] else open
      case AcceptedFor(q) => if q == p then [] else open
  }

  function FeesOf(es: seq<Event>, p: Position): nat {
    if es == [] then 0
    else FeesOf(es[..|es| - 1], p) + var e := es[|es| - 1]; if e.Made? && e.position == p then e.make.feeWei else 0
  }

  /** The row those events amount to. */
  function RowOf(stack: seq<Event>, p: Position): Offer
    requires stack != [] && forall e :: e in stack ==> e.Made?
  {
    var last := stack[|stack| - 1].make;
    Offer(p, last.principalWei, FeesOf(stack, p), last.units, stack[0].make.standard, last.expiresAt, last.makeTx,
          Pending)
  }

  /** The pending row of `p` is there exactly when its stack is not empty, under the first event's id, and holds
      the latest principal, units, expiry and transaction and the sum of the fees. */
  ghost predicate Shows(t: Table, stack: seq<Event>, p: Position)
    requires forall e :: e in stack ==> e.Made?
  {
    if stack == [] then !AnyPending(t, p)
    else PendingAt(t, stack[0].id, p) && t[stack[0].id] == RowOf(stack, p)
  }

  lemma MadeShows(t: Table, stack: seq<Event>, p: Position, e: Event)
    requires (forall s :: s in stack ==> s.Made?) && Shows(t, stack, p) && OnePending(t)
    requires e.Made? && e.position == p && (e.id in t ==> stack != [])
    ensures Shows(Step(t, e), stack + [e], p)
  {
    assert (stack + [e])[..|stack|] == stack && [e][..0] == [];
    if stack == [] {
      assert stack + [e] == [e] && FeesOf([e], p) == e.make.feeWei;
      assert !PendingAt(t, e.id, p);
    } else {
      assert PendingAt(t, stack[0].id, p);
      assert (stack + [e])[0] == stack[0];
    }
  }

  lemma {:induction false} IdsAccounted(es: seq<Event>)
    ensures After(es).Keys <= IdsOf(es)
  {
    if es != [] {
      IdsAccounted(es[..|es| - 1]);
    }
  }

  lemma OtherShows(t: Table, stack: seq<Event>, p: Position, e: Event)
    requires (forall s :: s in stack ==> s.Made? && s.position == p) && Shows(t, stack, p) && OnePending(t)
    requires !(e.Made? && e.position == p)
    ensures var closed := match e
                          case Made(_, _, _) => false
                          case StatusSet(q, s) => q == p && !s.Pending?
                          case Swept(now) => stack != [] && stack[|stack| - 1].make.expiresAt < now
                          case CancelledById(id, bidder) => stack != [] && stack[0].id == id && p.bidder == bidder
                          case AcceptedFor(q) => q == p;
            Shows(Step(t, e), if closed then [] else stack, p)
  {
    if stack == [] {
      assert forall id :: PendingAt(Step(t, e), id, p) ==> PendingAt(t, id, p);
    } else {
      assert PendingAt(t, stack[0].id, p);
      forall id | PendingAt(Step(t, e), id, p) ensures id == stack[0].id {
        assert PendingAt(t, id, p);
      }
    }
  }

  lemma {:induction false} PendingRowIsItsStack(es: seq<Event>, p: Position)
    requires FreshIds(es)
    ensures Shows(After(es), Stack(es, p), p)
  {
    if es != [] {
      var before, e := es[..|es| - 1], es[|es| - 1];
      PendingRowIsItsStack(before, p);
      AlwaysOnePending(before);
      IdsAccounted(before);
      if e.Made? && e.position == p {
        MadeShows(After(before), Stack(before, p), p, e);
      } else {
        OtherShows(After(before), Stack(before, p), p, e);
      }
    }
  }

  // ---------------------------------------------------------------- fees are conserved

  ghost function FeesByRow(t: Table, p: Position): map<string, int> {
    map id | id in t && t[id].position == p :: t[id].feeWei
  }

  lemma MadeAddsFee(t: Table, e: Event, p: Position)
    requires OnePending(t) && e.Made? && e.id !in t && e.position == p
    ensures Sum(FeesByRow(Step(t, e), p)) == Sum(FeesByRow(t, p)) + e.make.feeWei
  {
    var before, after := FeesByRow(t, p), FeesByRow(Step(t, e), p);
    if id :| PendingAt(t, id, p) {
      SumPut(before, id, t[id].feeWei + e.make.feeWei);
      assert after == before[id := t[id].feeWei + e.make.feeWei];
    } else {
      SumPut(before, e.id, e.make.feeWei);
      assert after == before[e.id := e.make.feeWei];
    }
  }

  lemma OthersKeepFees(t: Table, e: Event, p: Position)
    requires OnePending(t) && (e.Made? ==> e.id !in t && e.position != p)
    ensures FeesByRow(Step(t, e), p) == FeesByRow(t, p)
  {
  }

  lemma StepFees(t: Table, e: Event, p: Position)
    requires OnePending(t) && (e.Made? ==> e.id !in t)
    ensures Sum(FeesByRow(Step(t, e), p)) == Sum(FeesByRow(t, p)) + FeesOf([e], p)
  {
    assert [e][..0] == [];
    if e.Made? && e.position == p {
      MadeAddsFee(t, e, p);
    } else {
      OthersKeepFees(t, e, p);
    }
  }

  /** Over any history, the fees on the rows of a position, open and closed together, are the fees of all the
      events that were made on it. */
  lemma {:induction false} FeesConserved(es: seq<Event>, p: Position)
    requires FreshIds(es)
    ensures Sum(FeesByRow(After(es), p)) == FeesOf(es, p)
  {
    if es == [] {
      assert FeesByRow(After(es), p) == map[];
    } else {
      var before, e := es[..|es| - 1], es[|es| - 1];
      FeesConserved(before, p);
      AlwaysOnePending(before);
      IdsAccounted(before);
      StepFees(After(before), e, p);
      assert [e][..0] == [];
    }
  }
}
