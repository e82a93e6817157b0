/** Refresh-token families: the table `refresh_token_families` and the four statements that act on it.

    `RefreshStore` is the store itself, updated in place. Each of its methods is proved against one of
    the functions on `Table` below, and a whole history of calls is `After`. The second half of the
    file says what a family is *meant* to be, a chain of tokens with a dead flag, and proves that
    every history behaves as that chain does. */
module RefreshTokens {

  /** How long the hourly cleanup keeps a row after it has expired, in seconds. */
  const RETENTION: int := 3600

  datatype Row = Row(wallet: string, family: string, expiresAt: int, revoked: bool, familyRevoked: bool)

  /** Keyed by `token_id`, which is UNIQUE. */
  type Table = map<string, Row>

  datatype Reason = FamilyLookup | FamilyRevoked | UnknownToken | Replay | Expired | TokenTaken

  datatype Outcome = Issued | Rotated | Refused(reason: Reason) | Done

  // ---------------------------------------------------------------- the table

  ghost predicate HasFamily(t: Table, f: string) {
    exists k :: k in t && t[k].family == f
  }

  /** `bool_or(family_revoked)` over the rows of a family. */
  ghost predicate AnyFamilyRevoked(t: Table, f: string) {
    exists k :: k in t && t[k].family == f && t[k].familyRevoked
  }

  function KillFamily(t: Table, f: string): Table {
    map k | k in t :: if t[k].family == f then t[k].(familyRevoked := true) else t[k]
  }

  function Spend(t: Table, token: string): Table {
    map k | k in t :: if k == token then t[k].(revoked := true) else t[k]
  }

  function LogOut(t: Table, wallet: string, f: string): Table {
    map k | k in t :: if t[k].wallet == wallet && t[k].family == f
                      then t[k].(revoked := true, familyRevoked := true) else t[k]
  }

  function Sweep(t: Table, now: int): Table {
    map k | k in t && !(t[k].expiresAt < now - RETENTION) :: t[k]
  }

  function Issue(t: Table, wallet: string, f: string, token: string, expiry: int): (Table, Outcome) {
    if token in t then (t, Refused(TokenTaken))
    else (t[token := Row(wallet, f, expiry, false, false)], Issued)
  }

  ghost function Rotate(t: Table, f: string, old': string, next: string, now: int, expiry: int): (Table, Outcome) {
    if !HasFamily(t, f) then (t, Refused(FamilyLookup))
    else if AnyFamilyRevoked(t, f) then (t, Refused(FamilyRevoked))
    else if old' !in t || t[old'].family != f then (t, Refused(UnknownToken))
    else if t[old'].revoked then (KillFamily(t, f), Refused(Replay))
    else if now > t[old'].expiresAt then (Spend(t, old'), Refused(Expired))
    else if next in t then (t, Refused(TokenTaken))
    else (Spend(t, old')[next := Row(t[old'].wallet, f, expiry, false, false)], Rotated)
  }

  /** The store. Randomness and the clock come in as arguments: `family`, `token` and `next` are the
      identifiers drawn for the call, `expiry` is the clock plus the ttl. */
  class RefreshStore {
    var rows: Table

    constructor ()
      ensures rows == map[]
    {
      rows := map[];
    }

    method IssueRefreshFamily(wallet: string, family: string, token: string, expiry: int) returns (out: Outcome)
      modifies this
      ensures (rows, out) == Issue(old(rows), wallet, family, token, expiry)
    {
      if token in rows {
        return Refused(TokenTaken);
      }
      rows := rows[token := Row(wallet, family, expiry, false, false)];
      out := Issued;
    }

    method RotateRefreshToken(family: string, oldToken: string, next: string, now: int, expiry: int)
      returns (out: Outcome)
      modifies this
      ensures (rows, out) == Rotate(old(rows), family, oldToken, next, now, expiry)
    {
      // 1. The family flag; over no rows it is NULL, which does not scan into a bool.
      var members := set k | k in rows && rows[k].family == family;
      if members == {} {
        assert forall k :: k in rows && rows[k].family == family ==> k in members;
        return Refused(FamilyLookup);
      }
      var witnessKey :| witnessKey in members;
      var flagged := set k | k in members && rows[k].familyRevoked;
      if flagged != {} {
        var flaggedKey :| flaggedKey in flagged;
        return Refused(FamilyRevoked);
      }
      assert forall k :: k in rows && rows[k].family == family && rows[k].familyRevoked ==> k in flagged;

      // 2. The presented token.
      if oldToken !in rows || rows[oldToken].family != family {
        return Refused(UnknownToken);
      }
      var row := rows[oldToken];
      if row.revoked {
        rows := map k | k in rows :: if rows[k].family == family then rows[k].(familyRevoked := true) else rows[k];
        return Refused(Replay);
      }
      if now > row.expiresAt {
        rows := rows[oldToken := row.(revoked := true)];
        assert rows == Spend(old(rows), oldToken);
        return Refused(Expired);
      }

      // 3. Revoke and insert; a taken token_id rolls both back.
      var saved := rows;
      rows := rows[oldToken := row.(revoked := true)];
      if next in rows {
        rows := saved;
        return Refused(TokenTaken);
      }
      rows := rows[next := Row(row.wallet, row.family, expiry, false, false)];
      assert rows == Spend(old(rows), oldToken)[next := Row(row.wallet, row.family, expiry, false, false)];
      out := Rotated;
    }

    method RevokeFamily(wallet: string, family: string)
      modifies this
      ensures rows == LogOut(old(rows), wallet, family)
    {
      rows := map k | k in rows :: if rows[k].wallet == wallet && rows[k].family == family
                                   then rows[k].(revoked := true, familyRevoked := true) else rows[k];
    }

    method Cleanup(now: int)
      modifies this
      ensures rows == Sweep(old(rows), now)
    {
      rows := map k | k in rows && !(rows[k].expiresAt < now - RETENTION) :: rows[k];
    }
  }

  // ---------------------------------------------------------------- histories

  datatype Event =
    | IssueFamily(wallet: string, family: string, token: string, expiry: int)
    | RotateToken(family: string, presented: string, next: string, now: int, expiry: int)
    | Revoke(wallet: string, family: string)
    | Clean(now: int)

  ghost function Step(t: Table, e: Event): (Table, Outcome) {
    match e
    case IssueFamily(w, f, k, x) => Issue(t, w, f, k, x)
    case RotateToken(f, p, n, now, x) => Rotate(t, f, p, n, now, x)
    case Revoke(w, f) => (LogOut(t, w, f), Done)
    case Clean(now) => (Sweep(t, now), Done)
  }

  ghost function After(es: seq<Event>): Table {
    if es == [] then map[] else Step(After(es[..|es| - 1]), es[|es| - 1]).0
  }

  ghost function OutcomeAt(es: seq<Event>, i: nat): Outcome
    requires i < |es|
  {
    Step(After(es[..i]), es[i]).1
  }

  function Drawn(e: Event): set<string> {
    match e
    case IssueFamily(_, _, k, _) => {k}
    case RotateToken(_, _, n, _, _) => {n}
    case _ => {}
  }

  function AllDrawn(es: seq<Event>): set<string> {
    if es == [] then {} else AllDrawn(es[..|es| - 1]) + Drawn(es[|es| - 1])
  }

  function FamiliesOf(es: seq<Event>): set<string> {
    if es == [] then {}
    else FamiliesOf(es[..|es| - 1]) + (if es[|es| - 1].IssueFamily? then {es[|es| - 1].family} else {})
  }

  /** The only assumption on a history: an identifier drawn at random never repeats. What callers
      present to Rotate and Revoke is unrestricted. */
  predicate FreshIds(es: seq<Event>) {
    es == [] ||
    var before, e := es[..|es| - 1], es[|es| - 1];
    FreshIds(before) && Drawn(e) !! AllDrawn(before) && (e.IssueFamily? ==> e.family !in FamiliesOf(before))
  }

  /** Rotations read the clock of their server, the cleanup that of the database. No cleanup reads a time more than the
      retention ahead of what a later rotation reads; clocks may differ by less than that, and any of them may go back.
      Only `RotationSucceedsIff` and `UsedInDateIsRecognised` need this. */
  predicate ClocksWithinRetention(es: seq<Event>) {
    forall i, j :: 0 <= i < j < |es| && es[i].Clean? && es[j].RotateToken? ==> es[i].now - RETENTION <= es[j].now
  }

  // ---------------------------------------------------------------- the specification: chains

  datatype Link = Link(token: string, expiresAt: int)

  /** A family as it is meant to be: the tokens in the order they were issued, all but the last of them
      used. `spent` says the last one can no longer be used either; `dead` is the family flag. */
  datatype Family = Family(wallet: string, links: seq<Link>, spent: bool, dead: bool)

  /** `forgotten` are the tokens whose rows the cleanup has removed. */
  datatype Chains = Chains(families: map<string, Family>, forgotten: set<string>, drawn: set<string>)

  ghost predicate Place(c: Chains, f: string, i: int) {
    f in c.families && 0 <= i < |c.families[f].links|
  }

  function TokenAt(c: Chains, f: string, i: int): string
    requires Place(c, f, i)
  {
    c.families[f].links[i].token
  }

  ghost predicate Kept(c: Chains, f: string, i: int) {
    Place(c, f, i) && TokenAt(c, f, i) !in c.forgotten
  }

  function Last(c: Chains, f: string): Link
    requires Place(c, f, 0)
  {
    c.families[f].links[|c.families[f].links| - 1]
  }

  /** The one token of the family that a rotation accepts at time `now`. */
  ghost predicate Usable(c: Chains, f: string, token: string, now: int) {
    Place(c, f, 0) && !c.families[f].dead && !c.families[f].spent
    && Last(c, f).token == token && now <= Last(c, f).expiresAt
  }

  function SetFamily(c: Chains, f: string, fam: Family): Chains {
    c.(families := c.families[f := fam])
  }

  ghost function ChainRotate(c: Chains, f: string, p: string, next: string, now: int, expiry: int): (Chains, Outcome) {
    if !(exists i :: Kept(c, f, i)) then (c, Refused(FamilyLookup))
    else if c.families[f].dead then (c, Refused(FamilyRevoked))
    else if !(exists i :: Kept(c, f, i) && TokenAt(c, f, i) == p) then (c, Refused(UnknownToken))
    else if Last(c, f).token != p || c.families[f].spent then
      (SetFamily(c, f, c.families[f].(dead := true)), Refused(Replay))
    else if now > Last(c, f).expiresAt then
      (SetFamily(c, f, c.families[f].(spent := true)), Refused(Expired))
    else
      (SetFamily(c, f, c.families[f].(links := c.families[f].links + [Link(next, expiry)])), Rotated)
  }

  ghost function ChainStep(c: Chains, e: Event): (Chains, Outcome) {
    var c' := c.(drawn := c.drawn + Drawn(e));
    match e
    case IssueFamily(w, f, k, x) => (SetFamily(c', f, Family(w, [Link(k, x)], false, false)), Issued)
    case RotateToken(f, p, n, now, x) => ChainRotate(c', f, p, n, now, x)
    case Revoke(w, f) =>
      if f in c.families && c.families[f].wallet == w
      then (SetFamily(c', f, c.families[f].(spent := true, dead := true)), Done)
      else (c', Done)
    case Clean(now) =>
      (c'.(forgotten := c.forgotten + StaleTokens(c, now)), Done)
  }

  ghost function StaleTokens(c: Chains, now: int): set<string> {
    set k | k in c.drawn && exists f, i :: Place(c, f, i) && TokenAt(c, f, i) == k
                                           && c.families[f].links[i].expiresAt < now - RETENTION
  }

  ghost function ChainsAfter(es: seq<Event>): Chains {
    if es == [] then Chains(map[], {}, {}) else ChainStep(ChainsAfter(es[..|es| - 1]), es[|es| - 1]).0
  }

  ghost predicate WellFormed(c: Chains) {
    && (forall f :: f in c.families ==> |c.families[f].links| >= 1)
    && (forall f, i :: Place(c, f, i) ==> TokenAt(c, f, i) in c.drawn)
    && (forall f, i, g, j :: Place(c, f, i) && Place(c, g, j) && TokenAt(c, f, i) == TokenAt(c, g, j) ==>
          f == g && i == j)
    && c.forgotten <= c.drawn
  }

  /** The row the table must hold for link `i`. */
  function RowFor(fam: Family, f: string, i: int): Row
    requires 0 <= i < |fam.links|
  {
    Row(fam.wallet, f, fam.links[i].expiresAt, i < |fam.links| - 1 || fam.spent, fam.dead)
  }

  /** The table is the chains, minus the forgotten links. */
  ghost predicate Represents(t: Table, c: Chains) {
    && (forall f, i :: Kept(c, f, i) ==> TokenAt(c, f, i) in t && t[TokenAt(c, f, i)] == RowFor(c.families[f], f, i))
    && (forall k :: k in t ==> exists i :: Kept(c, t[k].family, i) && TokenAt(c, t[k].family, i) == k)
  }

  predicate FreshEvent(c: Chains, e: Event) {
    Drawn(e) !! c.drawn && (e.IssueFamily? ==> e.family !in c.families)
  }

  // ---------------------------------------------------------------- refinement

  lemma FlagsKeepShape(c: Chains, f: string, fam: Family)
    requires WellFormed(c) && f in c.families && fam.links == c.families[f].links
    ensures WellFormed(SetFamily(c, f, fam))
    ensures forall g, i :: Kept(SetFamily(c, f, fam), g, i) <==> Kept(c, g, i)
    ensures forall g, i :: Kept(c, g, i) ==> TokenAt(SetFamily(c, f, fam), g, i) == TokenAt(c, g, i)
  {
    var c' := SetFamily(c, f, fam);
    assert forall g, i :: Place(c', g, i) <==> Place(c, g, i);
    assert forall g, i :: Place(c, g, i) ==> TokenAt(c', g, i) == TokenAt(c, g, i);
  }

  /** Rewriting the flags of one family, on both sides. */
  lemma FlagsRefine(t: Table, t': Table, c: Chains, f: string, fam: Family)
    requires WellFormed(c) && Represents(t, c) && f in c.families
    requires fam.links == c.families[f].links && fam.wallet == c.families[f].wallet
    requires t'.Keys == t.Keys
    requires forall k :: k in t && t[k].family != f ==> t'[k] == t[k]
    requires forall i :: Kept(c, f, i) ==> t'[TokenAt(c, f, i)] == RowFor(fam, f, i)
    ensures WellFormed(SetFamily(c, f, fam)) && Represents(t', SetFamily(c, f, fam))
  {
    var c' := SetFamily(c, f, fam);
    FlagsKeepShape(c, f, fam);
    forall g, i | Kept(c', g, i)
      ensures TokenAt(c', g, i) in t' && t'[TokenAt(c', g, i)] == RowFor(c'.families[g], g, i)
    {
      assert Kept(c, g, i);
    }
    forall k | k in t' ensures exists i :: Kept(c', t'[k].family, i) && TokenAt(c', t'[k].family, i) == k {
      var i :| Kept(c, t[k].family, i) && TokenAt(c, t[k].family, i) == k;
      assert t'[k].family == t[k].family;
      assert Kept(c', t'[k].family, i);
    }
  }

  lemma IssueKeepsShape(c: Chains, e: Event)
    requires WellFormed(c) && FreshEvent(c, e) && e.IssueFamily?
    ensures var c' := ChainStep(c, e).0;
            && WellFormed(c') && Kept(c', e.family, 0) && TokenAt(c', e.family, 0) == e.token
            && (forall i :: Kept(c', e.family, i) ==> i == 0)
            && (forall g, i :: Kept(c, g, i) ==>
                  g != e.family && Kept(c', g, i) && TokenAt(c', g, i) == TokenAt(c, g, i))
            && (forall g, i :: Kept(c', g, i) && g != e.family ==> Kept(c, g, i))
  {
    var c' := ChainStep(c, e).0;
    assert forall g, i :: Place(c', g, i) <==> (if g == e.family then i == 0 else Place(c, g, i));
    assert forall g, i :: Place(c', g, i) ==> TokenAt(c', g, i) == if g == e.family then e.token else TokenAt(c, g, i);
  }

  lemma IssueRefines(t: Table, c: Chains, e: Event)
    requires WellFormed(c) && Represents(t, c) && FreshEvent(c, e) && e.IssueFamily?
    ensures WellFormed(ChainStep(c, e).0) && Represents(Step(t, e).0, ChainStep(c, e).0)
    ensures Step(t, e).1 == ChainStep(c, e).1
  {
    var c', t' := ChainStep(c, e).0, Step(t, e).0;
    IssueKeepsShape(c, e);
    assert e.token !in t;
    forall g, i | Kept(c', g, i)
      ensures TokenAt(c', g, i) in t' && t'[TokenAt(c', g, i)] == RowFor(c'.families[g], g, i)
    {
      assert g != e.family ==> Kept(c, g, i);
    }
    forall k | k in t' ensures exists i :: Kept(c', t'[k].family, i) && TokenAt(c', t'[k].family, i) == k {
      if k != e.token {
        var i :| Kept(c, t[k].family, i) && TokenAt(c, t[k].family, i) == k;
        assert Kept(c', t[k].family, i);
      }
    }
  }

  /** The first lookup of a rotation sees the same thing in the table and in the chains. */
  lemma FamilyLookupAgrees(t: Table, c: Chains, f: string)
    requires Represents(t, c)
    ensures HasFamily(t, f) <==> exists i :: Kept(c, f, i)
    ensures HasFamily(t, f) ==> f in c.families && (AnyFamilyRevoked(t, f) <==> c.families[f].dead)
  {
    if HasFamily(t, f) {
      var k :| k in t && t[k].family == f;
      var i :| Kept(c, f, i) && TokenAt(c, f, i) == k;
      assert t[k] == RowFor(c.families[f], f, i);
      if AnyFamilyRevoked(t, f) {
        var k' :| k' in t && t[k'].family == f && t[k'].familyRevoked;
        var i' :| Kept(c, f, i') && TokenAt(c, f, i') == k';
        assert t[k'] == RowFor(c.families[f], f, i');
      }
    }
    if i :| Kept(c, f, i) {
      assert TokenAt(c, f, i) in t && t[TokenAt(c, f, i)] == RowFor(c.families[f], f, i);
    }
  }

  /** So does the second. */
  lemma TokenLookupAgrees(t: Table, c: Chains, f: string, p: string)
    requires Represents(t, c)
    ensures (p in t && t[p].family == f) <==> exists i :: Kept(c, f, i) && TokenAt(c, f, i) == p
  {
    if i :| Kept(c, f, i) && TokenAt(c, f, i) == p {
      assert t[p] == RowFor(c.families[f], f, i);
    }
  }

  lemma RowIsLast(t: Table, c: Chains, f: string, p: string) returns (i: int)
    requires WellFormed(c) && Represents(t, c) && p in t && t[p].family == f
    ensures Kept(c, f, i) && TokenAt(c, f, i) == p && t[p] == RowFor(c.families[f], f, i)
    ensures Last(c, f).token == p <==> i == |c.families[f].links| - 1
  {
    i :| Kept(c, f, i) && TokenAt(c, f, i) == p;
    assert Place(c, f, |c.families[f].links| - 1);
  }

  function Extended(c: Chains, f: string, link: Link): Chains
    requires f in c.families
  {
    SetFamily(c, f, c.families[f].(links := c.families[f].links + [link]))
  }

  lemma ExtendKeepsShape(c: Chains, f: string, link: Link)
    requires WellFormed(c) && f in c.families && link.token in c.drawn && link.token !in c.forgotten
    requires forall g, i :: Place(c, g, i) ==> TokenAt(c, g, i) != link.token
    ensures WellFormed(Extended(c, f, link))
    ensures forall g, i :: Place(c, g, i) ==> Place(Extended(c, f, link), g, i)
                                              && TokenAt(Extended(c, f, link), g, i) == TokenAt(c, g, i)
    ensures forall g, i :: Kept(Extended(c, f, link), g, i) <==>
                           Kept(c, g, i) || (g == f && i == |c.families[f].links|)
    ensures Place(Extended(c, f, link), f, |c.families[f].links|)
    ensures TokenAt(Extended(c, f, link), f, |c.families[f].links|) == link.token
  {
    var c', n := Extended(c, f, link), |c.families[f].links|;
    assert forall g, i :: Place(c', g, i) <==> Place(c, g, i) || (g == f && i == n);
    assert forall g, i :: Place(c, g, i) ==> TokenAt(c', g, i) == TokenAt(c, g, i);
    assert TokenAt(c', f, n) == link.token;
  }

  lemma ExtendRefines(t: Table, c: Chains, f: string, p: string, link: Link)
    requires WellFormed(c) && Represents(t, c) && link.token in c.drawn && link.token !in c.forgotten
    requires forall g, i :: Place(c, g, i) ==> TokenAt(c, g, i) != link.token
    requires link.token !in t && p in t && t[p].family == f && !t[p].revoked && !t[p].familyRevoked
    ensures f in c.families && WellFormed(Extended(c, f, link))
    ensures var t' := Spend(t, p)[link.token := Row(t[p].wallet, f, link.expiresAt, false, false)];
            Represents(t', Extended(c, f, link))
  {
    var j := RowIsLast(t, c, f, p);
    ExtendKeepsShape(c, f, link);
    var c', n := Extended(c, f, link), |c.families[f].links|;
    var t' := Spend(t, p)[link.token := Row(t[p].wallet, f, link.expiresAt, false, false)];
    assert j == n - 1;
    forall g, i | Kept(c', g, i)
      ensures TokenAt(c', g, i) in t' && t'[TokenAt(c', g, i)] == RowFor(c'.families[g], g, i)
    {
      if Kept(c, g, i) {
        assert TokenAt(c', g, i) == p <==> g == f && i == n - 1;
      }
    }
    forall k | k in t' ensures exists i :: Kept(c', t'[k].family, i) && TokenAt(c', t'[k].family, i) == k {
      if k == link.token {
        assert Kept(c', f, n);
      } else {
        var i :| Kept(c, t[k].family, i) && TokenAt(c, t[k].family, i) == k;
        assert Kept(c', t'[k].family, i);
      }
    }
  }

  lemma KillRefines(t: Table, c: Chains, f: string)
    requires WellFormed(c) && Represents(t, c) && f in c.families
    ensures var c' := SetFamily(c, f, c.families[f].(dead := true));
            WellFormed(c') && Represents(KillFamily(t, f), c')
  {
    FlagsRefine(t, KillFamily(t, f), c, f, c.families[f].(dead := true));
  }

  lemma SpendRefines(t: Table, c: Chains, f: string, p: string)
    requires WellFormed(c) && Represents(t, c) && p in t && t[p].family == f && f in c.families
    requires Place(c, f, 0) && Last(c, f).token == p
    ensures var c' := SetFamily(c, f, c.families[f].(spent := true));
            WellFormed(c') && Represents(Spend(t, p), c')
  {
    var i := RowIsLast(t, c, f, p);
    FlagsRefine(t, Spend(t, p), c, f, c.families[f].(spent := true));
  }

  lemma RotateRefines(t: Table, c: Chains, f: string, p: string, next: string, now: int, expiry: int)
    requires WellFormed(c) && Represents(t, c) && next in c.drawn && next !in c.forgotten && next !in t
    requires forall g, i :: Place(c, g, i) ==> TokenAt(c, g, i) != next
    ensures var (c', out) := ChainRotate(c, f, p, next, now, expiry);
            var (t', out') := Rotate(t, f, p, next, now, expiry);
            WellFormed(c') && Represents(t', c') && out == out'
  {
    FamilyLookupAgrees(t, c, f);
    TokenLookupAgrees(t, c, f, p);
    if !HasFamily(t, f) || AnyFamilyRevoked(t, f) || p !in t || t[p].family != f {
      return;
    }
    var i := RowIsLast(t, c, f, p);
    if t[p].revoked {
      KillRefines(t, c, f);
    } else if now > t[p].expiresAt {
      SpendRefines(t, c, f, p);
    } else {
      ExtendRefines(t, c, f, p, Link(next, expiry));
      assert Rotate(t, f, p, next, now, expiry).0 == Spend(t, p)[next := Row(t[p].wallet, f, expiry, false, false)];
      assert ChainRotate(c, f, p, next, now, expiry).0 == Extended(c, f, Link(next, expiry));
    }
  }

  lemma RevokeRefines(t: Table, c: Chains, e: Event)
    requires WellFormed(c) && Represents(t, c) && e.Revoke?
    ensures WellFormed(ChainStep(c, e).0) && Represents(Step(t, e).0, ChainStep(c, e).0)
  {
    var f := e.family;
    assert c.(drawn := c.drawn + Drawn(e)) == c;
    if f in c.families && c.families[f].wallet == e.wallet {
      FlagsRefine(t, LogOut(t, e.wallet, f), c, f, c.families[f].(spent := true, dead := true));
    } else {
      forall k | k in t ensures !(t[k].wallet == e.wallet && t[k].family == f) {
        var i :| Kept(c, t[k].family, i) && TokenAt(c, t[k].family, i) == k;
      }
      assert LogOut(t, e.wallet, f) == t;
    }
  }

  lemma SweepRefines(t: Table, c: Chains, e: Event)
    requires WellFormed(c) && Represents(t, c) && e.Clean?
    ensures WellFormed(ChainStep(c, e).0) && Represents(Step(t, e).0, ChainStep(c, e).0)
  {
    var c', t' := ChainStep(c, e).0, Sweep(t, e.now);
    assert c'.drawn == c.drawn;
    assert forall g, i :: Place(c', g, i) <==> Place(c, g, i);
    assert forall g, i :: Place(c, g, i) ==> TokenAt(c', g, i) == TokenAt(c, g, i);
    forall g, i | Place(c, g, i)
      ensures Kept(c', g, i) <==> Kept(c, g, i) && !(c.families[g].links[i].expiresAt < e.now - RETENTION)
    {
    }
    forall g, i | Kept(c', g, i)
      ensures TokenAt(c', g, i) in t' && t'[TokenAt(c', g, i)] == RowFor(c'.families[g], g, i)
    {
      assert Kept(c, g, i);
    }
    forall k | k in t' ensures exists i :: Kept(c', t'[k].family, i) && TokenAt(c', t'[k].family, i) == k {
      var i :| Kept(c, t[k].family, i) && TokenAt(c, t[k].family, i) == k;
      assert Kept(c', t'[k].family, i);
    }
  }

  lemma StepRefines(t: Table, c: Chains, e: Event)
    requires WellFormed(c) && Represents(t, c) && FreshEvent(c, e)
    ensures WellFormed(ChainStep(c, e).0) && Represents(Step(t, e).0, ChainStep(c, e).0)
    ensures Step(t, e).1 == ChainStep(c, e).1
  {
    match e
    case IssueFamily(_, _, _, _) => IssueRefines(t, c, e);
    case RotateToken(f, p, n, now, x) =>
      var c' := c.(drawn := c.drawn + Drawn(e));
      assert forall g, i :: Place(c', g, i) <==> Place(c, g, i);
      assert forall g, i :: Place(c, g, i) ==> TokenAt(c', g, i) == TokenAt(c, g, i) && TokenAt(c, g, i) in c.drawn;
      assert forall g, i :: Kept(c', g, i) <==> Kept(c, g, i);
      assert n !in t;
      RotateRefines(t, c', f, p, n, now, x);
    case Revoke(_, _) => RevokeRefines(t, c, e);
    case Clean(_) => SweepRefines(t, c, e);
  }

  lemma {:induction false} DrawnIsAccounted(es: seq<Event>)
    ensures ChainsAfter(es).drawn == AllDrawn(es) && ChainsAfter(es).families.Keys <= FamiliesOf(es)
  {
    if es != [] {
      DrawnIsAccounted(es[..|es| - 1]);
    }
  }

  /** Every history of the store is a history of chains. */
  lemma {:induction false} HistoryRefines(es: seq<Event>)
    requires FreshIds(es)
    ensures WellFormed(ChainsAfter(es)) && Represents(After(es), ChainsAfter(es))
  {
    if es != [] {
      var before := es[..|es| - 1];
      HistoryRefines(before);
      DrawnIsAccounted(before);
      StepRefines(After(before), ChainsAfter(before), es[|es| - 1]);
    }
  }

  /** Prefixes of a fresh history are fresh, and their last step is the step of the whole history. */
  lemma {:induction false} FreshPrefix(es: seq<Event>, i: nat)
    requires FreshIds(es) && i <= |es|
    ensures FreshIds(es[..i])
    ensures i < |es| ==> es[..i + 1][..i] == es[..i] && Drawn(es[i]) !! AllDrawn(es[..i])
                         && (es[i].IssueFamily? ==> es[i].family !in FamiliesOf(es[..i]))
    decreases |es|
  {
    if i == |es| {
      assert es[..i] == es;
    } else {
      FreshPrefix(es[..|es| - 1], i);
      assert es[..|es| - 1][..i] == es[..i];
      assert es[..i + 1][..i] == es[..i];
    }
  }

  /** Outcome by outcome, the store answers as the chains do. */
  lemma OutcomesRefine(es: seq<Event>, i: nat)
    requires FreshIds(es) && i < |es|
    ensures OutcomeAt(es, i) == ChainStep(ChainsAfter(es[..i]), es[i]).1
  {
    FreshPrefix(es, i);
    HistoryRefines(es[..i]);
    DrawnIsAccounted(es[..i]);
    StepRefines(After(es[..i]), ChainsAfter(es[..i]), es[i]);
  }

  // ---------------------------------------------------------------- what follows for every history

  /** At most one row of a family is unrevoked, and it is the last one issued. */
  lemma OnlyLastIsUnrevoked(es: seq<Event>, k: string, k': string)
    requires FreshIds(es)
    requires k in After(es) && !After(es)[k].revoked
    ensures Place(ChainsAfter(es), After(es)[k].family, 0) && Last(ChainsAfter(es), After(es)[k].family).token == k
    ensures k' in After(es) && !After(es)[k'].revoked && After(es)[k'].family == After(es)[k].family ==> k' == k
  {
    HistoryRefines(es);
    var t, c := After(es), ChainsAfter(es);
    var i := RowIsLast(t, c, t[k].family, k);
    if k' in t && !t[k'].revoked && t[k'].family == t[k].family {
      var i' := RowIsLast(t, c, t[k'].family, k');
    }
  }

  /** The token was drawn for the family, and its row, if still there, is revoked. */
  predicate Used(t: Table, k: string, f: string) {
    k in t ==> t[k].revoked && t[k].family == f
  }

  lemma {:induction false} RowsWereDrawn(es: seq<Event>)
    ensures After(es).Keys <= AllDrawn(es)
  {
    if es != [] {
      RowsWereDrawn(es[..|es| - 1]);
    }
  }

  lemma UsedStep(t: Table, e: Event, k: string, f: string)
    requires Used(t, k, f) && k !in Drawn(e)
    ensures Used(Step(t, e).0, k, f)
  {
  }

  lemma RotatingUses(t: Table, e: Event)
    requires e.RotateToken? && Step(t, e).1 == Rotated
    ensures e.presented in t && !t[e.presented].revoked && Used(Step(t, e).0, e.presented, e.family)
  {
  }

  lemma AfterIsStep(es: seq<Event>, i: nat)
    requires i < |es|
    ensures After(es[..i + 1]) == Step(After(es[..i]), es[i]).0
    ensures AllDrawn(es[..i + 1]) == AllDrawn(es[..i]) + Drawn(es[i])
    ensures FamiliesOf(es[..i + 1]) == FamiliesOf(es[..i]) + (if es[i].IssueFamily? then {es[i].family} else {})
  {
    assert es[..i + 1][..i] == es[..i];
  }

  ghost predicate UsedBy(es: seq<Event>, i: nat, k: string, f: string)
    requires i <= |es|
  {
    Used(After(es[..i]), k, f) && k in AllDrawn(es[..i])
  }

  lemma UsedAdvances(es: seq<Event>, i: nat, k: string, f: string)
    requires FreshIds(es) && i < |es| && UsedBy(es, i, k, f)
    ensures UsedBy(es, i + 1, k, f)
  {
    FreshPrefix(es, i);
    AfterIsStep(es, i);
    UsedStep(After(es[..i]), es[i], k, f);
  }

  lemma {:induction false} UsedStays(es: seq<Event>, i: nat, j: nat, k: string, f: string)
    requires FreshIds(es) && i <= j <= |es| && UsedBy(es, i, k, f)
    ensures UsedBy(es, j, k, f)
    decreases j
  {
    if i < j {
      UsedStays(es, i, j - 1, k, f);
      UsedAdvances(es, j - 1, k, f);
    }
  }

  /** After an accepted rotation the token it presented stays used. */
  lemma AcceptedIsUsed(es: seq<Event>, h: nat, j: nat)
    requires FreshIds(es) && h < j <= |es| && es[h].RotateToken? && OutcomeAt(es, h) == Rotated
    ensures Used(After(es[..j]), es[h].presented, es[h].family)
  {
    RotatingUses(After(es[..h]), es[h]);
    RowsWereDrawn(es[..h]);
    AfterIsStep(es, h);
    UsedStays(es, h + 1, j, es[h].presented, es[h].family);
  }

  /** A token is accepted at most once, in whichever family it is presented. */
  lemma AcceptedAtMostOnce(es: seq<Event>, i: nat, j: nat)
    requires FreshIds(es) && i < |es| && j < |es|
    requires es[i].RotateToken? && es[j].RotateToken? && es[i].presented == es[j].presented
    requires OutcomeAt(es, i) == Rotated && OutcomeAt(es, j) == Rotated
    ensures i == j
  {
    if i != j {
      var lo, hi := if i < j then i else j, if i < j then j else i;
      AcceptedIsUsed(es, lo, hi);
      RotatingUses(After(es[..hi]), es[hi]);
      assert false;
    }
  }

  ghost predicate Over(t: Table, f: string) {
    forall k :: k in t && t[k].family == f ==> t[k].familyRevoked
  }

  lemma OverStep(t: Table, e: Event, f: string)
    requires Over(t, f) && !(e.IssueFamily? && e.family == f)
    ensures Over(Step(t, e).0, f)
  {
  }

  lemma OverAdvances(es: seq<Event>, i: nat, f: string)
    requires FreshIds(es) && i < |es| && Over(After(es[..i]), f) && f in FamiliesOf(es[..i])
    ensures Over(After(es[..i + 1]), f) && f in FamiliesOf(es[..i + 1])
  {
    FreshPrefix(es, i);
    AfterIsStep(es, i);
    OverStep(After(es[..i]), es[i], f);
  }

  lemma {:induction false} OverStays(es: seq<Event>, i: nat, j: nat, f: string)
    requires FreshIds(es) && i <= j <= |es|
    requires Over(After(es[..i]), f) && f in FamiliesOf(es[..i])
    ensures Over(After(es[..j]), f) && f in FamiliesOf(es[..j])
    decreases j
  {
    if i < j {
      OverStays(es, i, j - 1, f);
      OverAdvances(es, j - 1, f);
    }
  }

  lemma {:induction false} RowFamiliesWereIssued(es: seq<Event>)
    ensures forall k :: k in After(es) ==> After(es)[k].family in FamiliesOf(es)
  {
    if es != [] {
      RowFamiliesWereIssued(es[..|es| - 1]);
    }
  }

  lemma OverRefuses(es: seq<Event>, j: nat, f: string)
    requires j < |es| && Over(After(es[..j]), f) && es[j].RotateToken? && es[j].family == f
    ensures OutcomeAt(es, j).Refused?
  {
  }

  lemma ReplayKills(t: Table, e: Event)
    requires e.RotateToken? && Step(t, e).1 == Refused(Replay)
    ensures Over(Step(t, e).0, e.family) && exists k :: k in t && t[k].family == e.family
  {
  }

  /** Once a replay has been detected in a family, no rotation in it ever succeeds again. */
  lemma NoRotationAfterReplay(es: seq<Event>, i: nat, j: nat)
    requires FreshIds(es) && i < j < |es|
    requires es[i].RotateToken? && OutcomeAt(es, i) == Refused(Replay)
    requires es[j].RotateToken? && es[j].family == es[i].family
    ensures OutcomeAt(es, j).Refused?
  {
    AfterIsStep(es, i);
    RowFamiliesWereIssued(es[..i]);
    ReplayKills(After(es[..i]), es[i]);
    OverStays(es, i + 1, j, es[i].family);
    OverRefuses(es, j, es[i].family);
  }

  /** A step keeps the wallet of every family and only ever appends to its chain. */
  lemma ChainsGrow(c: Chains, e: Event, f: string)
    requires f in c.families && FreshEvent(c, e)
    ensures f in ChainStep(c, e).0.families
    ensures ChainStep(c, e).0.families[f].wallet == c.families[f].wallet
    ensures c.families[f].links <= ChainStep(c, e).0.families[f].links
  {
  }

  /** A link that was not there before carries the token just drawn. */
  lemma NewLinksAreDrawn(c: Chains, e: Event, f: string, i: int)
    requires Place(ChainStep(c, e).0, f, i) && FreshEvent(c, e)
    ensures Place(c, f, i) || TokenAt(ChainStep(c, e).0, f, i) in Drawn(e)
  {
  }

  lemma {:induction false} WalletIsTheIssuers(es: seq<Event>, h: nat, i: nat)
    requires FreshIds(es) && h < i <= |es| && es[h].IssueFamily?
    ensures es[h].family in ChainsAfter(es[..i]).families
    ensures ChainsAfter(es[..i]).families[es[h].family].wallet == es[h].wallet
    decreases i
  {
    FreshPrefix(es, i - 1);
    assert es[..i][..i - 1] == es[..i - 1];
    if h + 1 < i {
      WalletIsTheIssuers(es, h, i - 1);
      DrawnIsAccounted(es[..i - 1]);
      ChainsGrow(ChainsAfter(es[..i - 1]), es[i - 1], es[h].family);
    }
  }

  lemma {:induction false} IssuedIsListed(es: seq<Event>, h: nat, i: nat)
    requires h < i <= |es| && es[h].IssueFamily?
    ensures es[h].family in FamiliesOf(es[..i])
    decreases i
  {
    assert es[..i][..i - 1] == es[..i - 1];
    if h + 1 < i {
      IssuedIsListed(es, h, i - 1);
    }
  }

  lemma LogOutIs(t: Table, wallet: string, f: string, owner: string)
    requires forall k :: k in t && t[k].family == f ==> t[k].wallet == owner
    ensures if wallet == owner then Over(LogOut(t, wallet, f), f) else LogOut(t, wallet, f) == t
  {
  }

  lemma RowsAreTheIssuers(es: seq<Event>, h: nat, i: nat)
    requires FreshIds(es) && h < i <= |es| && es[h].IssueFamily?
    ensures forall k :: k in After(es[..i]) && After(es[..i])[k].family == es[h].family ==>
              After(es[..i])[k].wallet == es[h].wallet
  {
    FreshPrefix(es, i);
    HistoryRefines(es[..i]);
    WalletIsTheIssuers(es, h, i);
    var t, c, f := After(es[..i]), ChainsAfter(es[..i]), es[h].family;
    forall k | k in t && t[k].family == f ensures t[k].wallet == es[h].wallet {
      var n := RowIsLast(t, c, f, k);
    }
  }

  lemma LogoutStep(es: seq<Event>, h: nat, i: nat)
    requires FreshIds(es) && h < i < |es|
    requires es[h].IssueFamily? && es[i].Revoke? && es[i].family == es[h].family
    ensures if es[i].wallet == es[h].wallet then Over(After(es[..i + 1]), es[h].family)
            else After(es[..i + 1]) == After(es[..i])
  {
    RowsAreTheIssuers(es, h, i);
    AfterIsStep(es, i);
    LogOutIs(After(es[..i]), es[i].wallet, es[h].family, es[h].wallet);
  }

  /** After a logout by the wallet the family was issued to, no rotation in it ever succeeds again;
      a logout by any other wallet changes nothing. */
  lemma LogoutEndsTheFamily(es: seq<Event>, h: nat, i: nat, j: nat)
    requires FreshIds(es) && h < i < j < |es|
    requires es[h].IssueFamily? && es[i].Revoke? && es[i].family == es[h].family
    ensures es[i].wallet == es[h].wallet && es[j].RotateToken? && es[j].family == es[h].family ==>
              OutcomeAt(es, j).Refused?
    ensures es[i].wallet != es[h].wallet ==> After(es[..i + 1]) == After(es[..i])
  {
    LogoutStep(es, h, i);
    if es[i].wallet == es[h].wallet && es[j].RotateToken? && es[j].family == es[h].family {
      IssuedIsListed(es, h, i + 1);
      OverStays(es, i + 1, j, es[h].family);
      OverRefuses(es, j, es[h].family);
    }
  }

  // ---------------------------------------------------------------- exactly when a rotation succeeds

  lemma ChainRotatesIff(c: Chains, f: string, p: string, next: string, now: int, expiry: int)
    requires WellFormed(c)
    ensures ChainRotate(c, f, p, next, now, expiry).1 == Rotated
            <==> Usable(c, f, p, now) && Kept(c, f, |c.families[f].links| - 1)
  {
    if i :| Kept(c, f, i) && TokenAt(c, f, i) == p {
      assert Place(c, f, 0) && Place(c, f, |c.families[f].links| - 1);
    }
  }

  lemma DrawingKeepsShape(c: Chains, more: set<string>)
    requires WellFormed(c)
    ensures var c' := c.(drawn := c.drawn + more);
            WellFormed(c') && forall f, i :: Kept(c', f, i) <==> Kept(c, f, i)
  {
    var c' := c.(drawn := c.drawn + more);
    assert forall f, i :: Place(c', f, i) ==> Place(c, f, i) && TokenAt(c', f, i) == TokenAt(c, f, i);
    forall f, i ensures Kept(c', f, i) <==> Kept(c, f, i) {
    }
  }

  lemma StepRotatesIff(c: Chains, e: Event)
    requires WellFormed(c) && e.RotateToken?
    ensures ChainStep(c, e).1 == Rotated
            <==> Usable(c, e.family, e.presented, e.now) && Kept(c, e.family, |c.families[e.family].links| - 1)
  {
    var c' := c.(drawn := c.drawn + Drawn(e));
    DrawingKeepsShape(c, Drawn(e));
    assert Place(c', e.family, 0) <==> Place(c, e.family, 0);
    ChainRotatesIff(c', e.family, e.presented, e.next, e.now, e.expiry);
  }

  lemma LastIsKeptIff(t: Table, c: Chains, f: string)
    requires WellFormed(c) && Represents(t, c) && Place(c, f, 0)
    ensures Kept(c, f, |c.families[f].links| - 1) <==> Last(c, f).token in t
  {
    var n, k := |c.families[f].links| - 1, Last(c, f).token;
    assert Place(c, f, n) && TokenAt(c, f, n) == k;
    if k in t {
      var i :| Kept(c, t[k].family, i) && TokenAt(c, t[k].family, i) == k;
      assert t[k].family == f && i == n;
    }
  }

  /** Whatever the clocks read: a rotation succeeds if and only if it presents the one usable token of the chain and no
      cleanup has taken away its row. */
  lemma RotationAcceptedIff(es: seq<Event>, i: nat)
    requires FreshIds(es) && i < |es| && es[i].RotateToken?
    ensures OutcomeAt(es, i) == Rotated
            <==> Usable(ChainsAfter(es[..i]), es[i].family, es[i].presented, es[i].now)
                 && es[i].presented in After(es[..i])
  {
    OutcomesRefine(es, i);
    FreshPrefix(es, i);
    HistoryRefines(es[..i]);
    var c, e := ChainsAfter(es[..i]), es[i];
    StepRotatesIff(c, e);
    if Usable(c, e.family, e.presented, e.now) {
      LastIsKeptIff(After(es[..i]), c, e.family);
    }
  }

  /** A forgotten link had expired an hour before some cleanup of the history. */
  ghost predicate ForgottenLongAgo(es: seq<Event>, c: Chains) {
    forall f, i :: Place(c, f, i) && TokenAt(c, f, i) in c.forgotten ==>
      exists n :: 0 <= n < |es| && es[n].Clean? && c.families[f].links[i].expiresAt < es[n].now - RETENTION
  }

  /** Forgetting happens in the cleanup only, and only to stale links. */
  lemma ForgetStep(c: Chains, e: Event, f: string, i: int)
    requires WellFormed(c) && FreshEvent(c, e)
    requires Place(ChainStep(c, e).0, f, i) && TokenAt(ChainStep(c, e).0, f, i) in ChainStep(c, e).0.forgotten
    ensures Place(c, f, i) && ChainStep(c, e).0.families[f].links[i] == c.families[f].links[i]
    ensures TokenAt(c, f, i) in c.forgotten || (e.Clean? && c.families[f].links[i].expiresAt < e.now - RETENTION)
  {
    NewLinksAreDrawn(c, e, f, i);
    assert ChainStep(c, e).0.forgotten <= c.drawn;
    ChainsGrow(c, e, f);
  }

  lemma {:induction false} ForgettingIsLate(es: seq<Event>)
    requires FreshIds(es)
    ensures ForgottenLongAgo(es, ChainsAfter(es))
  {
    if es != [] {
      var before, e := es[..|es| - 1], es[|es| - 1];
      ForgettingIsLate(before);
      HistoryRefines(before);
      DrawnIsAccounted(before);
      var c, c' := ChainsAfter(before), ChainsAfter(es);
      forall f, i | Place(c', f, i) && TokenAt(c', f, i) in c'.forgotten
        ensures exists n :: 0 <= n < |es| && es[n].Clean? && c'.families[f].links[i].expiresAt < es[n].now - RETENTION
      {
        ForgetStep(c, e, f, i);
        if TokenAt(c, f, i) in c.forgotten {
          var x := c.families[f].links[i].expiresAt;
          var n :| 0 <= n < |before| && before[n].Clean? && x < before[n].now - RETENTION;
          assert es[n] == before[n];
        }
      }
    }
  }

  /** So a link that a rotation finds in date is still kept. */
  lemma InDateIsKept(es: seq<Event>, i: nat, f: string, n: int)
    requires FreshIds(es) && ClocksWithinRetention(es) && i < |es| && es[i].RotateToken?
    requires Place(ChainsAfter(es[..i]), f, n) && es[i].now <= ChainsAfter(es[..i]).families[f].links[n].expiresAt
    ensures Kept(ChainsAfter(es[..i]), f, n)
  {
    FreshPrefix(es, i);
    ForgettingIsLate(es[..i]);
    var c := ChainsAfter(es[..i]);
    assert forall m :: 0 <= m < i ==> es[..i][m] == es[m];
  }

  lemma UsableIsKept(es: seq<Event>, i: nat)
    requires FreshIds(es) && ClocksWithinRetention(es) && i < |es| && es[i].RotateToken?
    requires Usable(ChainsAfter(es[..i]), es[i].family, es[i].presented, es[i].now)
    ensures es[i].presented in After(es[..i])
  {
    var c, f := ChainsAfter(es[..i]), es[i].family;
    InDateIsKept(es, i, f, |c.families[f].links| - 1);
    FreshPrefix(es, i);
    HistoryRefines(es[..i]);
    LastIsKeptIff(After(es[..i]), c, f);
  }

  /** While clocks differ by no more than the retention, a rotation succeeds if and only if it presents the one usable
      token of the chain. The cleanup does not occur in the condition: it never takes away a token that could still be
      used. */
  lemma RotationSucceedsIff(es: seq<Event>, i: nat)
    requires FreshIds(es) && ClocksWithinRetention(es) && i < |es| && es[i].RotateToken?
    ensures OutcomeAt(es, i) == Rotated
            <==> Usable(ChainsAfter(es[..i]), es[i].family, es[i].presented, es[i].now)
  {
    RotationAcceptedIff(es, i);
    if Usable(ChainsAfter(es[..i]), es[i].family, es[i].presented, es[i].now) {
      UsableIsKept(es, i);
    }
  }

  // ---------------------------------------------------------------- exactly when a used token is a replay

  lemma PresentingUsed(t: Table, e: Event)
    requires e.RotateToken? && Used(t, e.presented, e.family)
    ensures Step(t, e).1 == Refused(Replay) <==> e.presented in t && !AnyFamilyRevoked(t, e.family)
    ensures e.presented in t && AnyFamilyRevoked(t, e.family) ==> Step(t, e).1 == Refused(FamilyRevoked)
    ensures Step(t, e).1 != Rotated
  {
  }

  /** A token presented again after it was accepted is reported as a replay exactly while its row is in the table and no
      row of the family has been revoked as a family; it is never accepted. */
  lemma ReplayDetectedIff(es: seq<Event>, h: nat, i: nat)
    requires FreshIds(es) && h < i < |es| && es[h].RotateToken? && OutcomeAt(es, h) == Rotated
    requires es[i].RotateToken? && es[i].presented == es[h].presented && es[i].family == es[h].family
    ensures OutcomeAt(es, i) == Refused(Replay)
            <==> es[i].presented in After(es[..i]) && !AnyFamilyRevoked(After(es[..i]), es[i].family)
    ensures OutcomeAt(es, i) != Rotated
  {
    AcceptedIsUsed(es, h, i);
    PresentingUsed(After(es[..i]), es[i]);
  }

  lemma RowSurvives(t: Table, e: Event, k: string)
    requires k in t && (e.Clean? ==> e.now - RETENTION <= t[k].expiresAt)
    ensures k in Step(t, e).0 && Step(t, e).0[k].expiresAt == t[k].expiresAt
  {
  }

  /** The row of a token with this expiry is there. */
  predicate RowIsThere(t: Table, k: string, expiry: int) {
    k in t && t[k].expiresAt == expiry
  }

  lemma InDateRowAdvances(es: seq<Event>, j: nat, i: nat, k: string, expiry: int)
    requires ClocksWithinRetention(es) && j < i < |es| && es[i].RotateToken? && es[i].now <= expiry
    requires RowIsThere(After(es[..j]), k, expiry)
    ensures RowIsThere(After(es[..j + 1]), k, expiry)
  {
    AfterIsStep(es, j);
    RowSurvives(After(es[..j]), es[j], k);
  }

  /** No cleanup removes the row of a token that a later rotation finds in date. */
  lemma {:induction false} InDateRowStays(es: seq<Event>, h: nat, j: nat, i: nat, k: string, expiry: int)
    requires ClocksWithinRetention(es) && h <= j <= i < |es| && es[i].RotateToken? && es[i].now <= expiry
    requires RowIsThere(After(es[..h]), k, expiry)
    ensures RowIsThere(After(es[..j]), k, expiry)
    decreases j
  {
    if h < j {
      InDateRowStays(es, h, j - 1, i, k, expiry);
      InDateRowAdvances(es, j - 1, i, k, expiry);
    }
  }

  /** While clocks differ by no more than the retention, a used token presented again in date is always recognised: as a
      replay, or as one of a family that is already revoked. */
  lemma UsedInDateIsRecognised(es: seq<Event>, h: nat, i: nat)
    requires FreshIds(es) && ClocksWithinRetention(es)
    requires h < i < |es| && es[h].RotateToken? && OutcomeAt(es, h) == Rotated
    requires es[i].RotateToken? && es[i].presented == es[h].presented && es[i].family == es[h].family
    ensures es[h].presented in After(es[..h])
    ensures es[i].now <= After(es[..h])[es[h].presented].expiresAt ==>
              OutcomeAt(es, i) == Refused(if AnyFamilyRevoked(After(es[..i]), es[i].family) then FamilyRevoked
                else Replay)
  {
    RotatingUses(After(es[..h]), es[h]);
    AcceptedIsUsed(es, h, i);
    PresentingUsed(After(es[..i]), es[i]);
    if es[i].now <= After(es[..h])[es[h].presented].expiresAt {
      InDateRowStays(es, h, i, i, es[h].presented, After(es[..h])[es[h].presented].expiresAt);
    }
  }

  // ---------------------------------------------------------------- the table is its history

  /** Event `h` wrote a new row for `k`. */
  ghost predicate Wrote(es: seq<Event>, h: nat, k: string)
    requires h < |es|
  {
    || (es[h].IssueFamily? && es[h].token == k && OutcomeAt(es, h) == Issued)
    || (es[h].RotateToken? && es[h].next == k && OutcomeAt(es, h) == Rotated)
  }

  /** A rotation that used `k` up, accepted or too late; or the logout of its family by its wallet. */
  ghost predicate Spends(es: seq<Event>, i: nat, k: string, wallet: string, f: string)
    requires i < |es|
  {
    || (es[i].RotateToken? && es[i].presented == k
        && (OutcomeAt(es, i) == Rotated || OutcomeAt(es, i) == Refused(Expired)))
    || es[i] == Revoke(wallet, f)
  }

  /** A replay in the family, or that logout. */
  ghost predicate Kills(es: seq<Event>, i: nat, wallet: string, f: string)
    requires i < |es|
  {
    || (es[i].RotateToken? && es[i].family == f && OutcomeAt(es, i) == Refused(Replay))
    || es[i] == Revoke(wallet, f)
  }

  predicate SweptHere(es: seq<Event>, i: nat, expiry: int)
    requires i < |es|
  {
    es[i].Clean? && expiry < es[i].now - RETENTION
  }

  /** Event `h` wrote the row of `k`, and no cleanup before `n` found it stale. */
  ghost predicate WrittenAndKept(es: seq<Event>, h: nat, n: nat, k: string)
    requires h < n <= |es|
  {
    Wrote(es, h, k) && !exists i :: h < i < n && SweptHere(es, i, es[h].expiry)
  }

  /** The wallet of the row: that of the call, or of the row rotated away. */
  ghost function WalletOf(es: seq<Event>, h: nat): string
    requires h < |es|
  {
    if es[h].IssueFamily? then es[h].wallet
    else if es[h].RotateToken? && es[h].presented in After(es[..h]) then After(es[..h])[es[h].presented].wallet
    else ""
  }

  ghost predicate SpentSince(es: seq<Event>, h: nat, n: nat, k: string, wallet: string, f: string)
    requires h < n <= |es|
  {
    exists i :: h < i < n && Spends(es, i, k, wallet, f)
  }

  ghost predicate KilledSince(es: seq<Event>, h: nat, n: nat, wallet: string, f: string)
    requires h < n <= |es|
  {
    exists i :: h < i < n && Kills(es, i, wallet, f)
  }

  /** What the events from `h` to `n` have made of the row of `k` that `h` wrote. */
  ghost function RowSince(es: seq<Event>, h: nat, n: nat, k: string): Row
    requires h < n <= |es| && Wrote(es, h, k)
  {
    Row(WalletOf(es, h), es[h].family, es[h].expiry,
        SpentSince(es, h, n, k, WalletOf(es, h), es[h].family), KilledSince(es, h, n, WalletOf(es, h), es[h].family))
  }

  /** What one step does to the row of a token that is there. */
  lemma RowStep(t: Table, e: Event, k: string)
    requires k in t
    ensures var (t', out) := Step(t, e);
            && (k in t' <==> !(e.Clean? && t[k].expiresAt < e.now - RETENTION))
            && (k in t' ==>
                  && t'[k].wallet == t[k].wallet && t'[k].family == t[k].family && t'[k].expiresAt == t[k].expiresAt
                  && (t'[k].revoked <==>
                        || t[k].revoked || e == Revoke(t[k].wallet, t[k].family)
                        || (e.RotateToken? && e.presented == k && (out == Rotated || out == Refused(Expired))))
                  && (t'[k].familyRevoked <==>
                        || t[k].familyRevoked || e == Revoke(t[k].wallet, t[k].family)
                        || (e.RotateToken? && e.family == t[k].family && out == Refused(Replay))))
  {
  }

  /** And to one that is not. */
  lemma NewRowStep(t: Table, e: Event, k: string)
    requires k !in t
    ensures var (t', out) := Step(t, e);
            && (k in t' <==>
                  || (e.IssueFamily? && e.token == k && out == Issued)
                  || (e.RotateToken? && e.next == k && out == Rotated))
            && (k in t' ==>
                  && t'[k] == Row(t'[k].wallet, e.family, e.expiry, false, false)
                  && (e.IssueFamily? ==> t'[k].wallet == e.wallet)
                  && (e.RotateToken? ==> t'[k].wallet == t[e.presented].wallet))
  {
  }

  /** A row is written only where there is none, by an event whose wallet is known. */
  lemma WrittenIsNew(t: Table, e: Event)
    requires Step(t, e).1 == Issued || Step(t, e).1 == Rotated
    ensures e.IssueFamily? ==> e.token !in t
    ensures e.RotateToken? ==> e.next !in t && e.presented in t
  {
  }

  /** One more event: the flags it adds. */
  lemma SinceGrows(es: seq<Event>, h: nat, n: nat, k: string, wallet: string, f: string)
    requires h < n < |es|
    ensures SpentSince(es, h, n + 1, k, wallet, f) <==>
            SpentSince(es, h, n, k, wallet, f) || Spends(es, n, k, wallet, f)
    ensures KilledSince(es, h, n + 1, wallet, f) <==> KilledSince(es, h, n, wallet, f) || Kills(es, n, wallet, f)
  {
    assert Spends(es, n, k, wallet, f) ==> SpentSince(es, h, n + 1, k, wallet, f);
    assert Kills(es, n, wallet, f) ==> KilledSince(es, h, n + 1, wallet, f);
  }

  lemma RowAsWritten(es: seq<Event>, h: nat, k: string)
    requires h < |es| && Wrote(es, h, k)
    ensures k in After(es[..h + 1]) && After(es[..h + 1])[k] == RowSince(es, h, h + 1, k)
  {
    AfterIsStep(es, h);
    WrittenIsNew(After(es[..h]), es[h]);
    NewRowStep(After(es[..h]), es[h], k);
  }

  lemma RowSinceStep(es: seq<Event>, h: nat, n: nat, k: string)
    requires h < n < |es| && Wrote(es, h, k) && !SweptHere(es, n, es[h].expiry)
    requires k in After(es[..n]) && After(es[..n])[k] == RowSince(es, h, n, k)
    ensures k in After(es[..n + 1]) && After(es[..n + 1])[k] == RowSince(es, h, n + 1, k)
  {
    AfterIsStep(es, n);
    SinceGrows(es, h, n, k, WalletOf(es, h), es[h].family);
    RowStep(After(es[..n]), es[n], k);
  }

  lemma {:induction false} WrittenRowIs(es: seq<Event>, h: nat, n: nat, k: string)
    requires h < n <= |es| && WrittenAndKept(es, h, n, k)
    ensures k in After(es[..n]) && After(es[..n])[k] == RowSince(es, h, n, k)
    decreases n
  {
    if h == n - 1 {
      RowAsWritten(es, h, k);
    } else {
      WrittenRowIs(es, h, n - 1, k);
      RowSinceStep(es, h, n - 1, k);
    }
  }

  lemma StaysWritten(es: seq<Event>, h: nat, n: nat, k: string)
    requires h < n < |es| && WrittenAndKept(es, h, n, k) && k in After(es[..n + 1])
    ensures WrittenAndKept(es, h, n + 1, k)
  {
    AfterIsStep(es, n);
    WrittenRowIs(es, h, n, k);
    RowStep(After(es[..n]), es[n], k);
  }

  lemma IsWritten(es: seq<Event>, h: nat, k: string)
    requires h < |es| && k !in After(es[..h]) && k in After(es[..h + 1])
    ensures Wrote(es, h, k)
  {
    AfterIsStep(es, h);
    NewRowStep(After(es[..h]), es[h], k);
  }

  lemma {:induction false} RowWasWritten(es: seq<Event>, n: nat, k: string) returns (h: nat)
    requires n <= |es| && k in After(es[..n])
    ensures h < n && WrittenAndKept(es, h, n, k)
  {
    assert es[..0] == [];
    if k in After(es[..n - 1]) {
      h := RowWasWritten(es, n - 1, k);
      StaysWritten(es, h, n - 1, k);
    } else {
      h := n - 1;
      IsWritten(es, h, k);
    }
  }

  /** The table is what its history says: a row is there if and only if some event wrote it and no cleanup has found it
      stale since. It is revoked once it has been rotated away, presented too late, or logged out by its wallet, and
      revoked as a family once a replay was detected in the family, or by that logout. */
  lemma RowIsItsHistory(es: seq<Event>, k: string)
    ensures k in After(es) <==> exists h :: 0 <= h < |es| && WrittenAndKept(es, h, |es|, k)
    ensures forall h :: 0 <= h < |es| && WrittenAndKept(es, h, |es|, k) ==>
              After(es)[k] == RowSince(es, h, |es|, k)
  {
    assert es[..|es|] == es;
    if k in After(es) {
      var h := RowWasWritten(es, |es|, k);
    }
    forall h | 0 <= h < |es| && WrittenAndKept(es, h, |es|, k)
      ensures k in After(es) && After(es)[k] == RowSince(es, h, |es|, k)
    {
      WrittenRowIs(es, h, |es|, k);
    }
  }

  /** The rows of a family decide every answer: with `RowIsItsHistory`, so does its history. */
  lemma AnswerIff(t: Table, f: string, p: string, next: string, now: int, expiry: int)
    ensures var out := Rotate(t, f, p, next, now, expiry).1;
            var live := forall k :: k in t && t[k].family == f ==> !t[k].familyRevoked;
            var found := p in t && t[p].family == f;
            && (out == Refused(FamilyLookup) <==> forall k :: k in t ==> t[k].family != f)
            && (out == Refused(FamilyRevoked) <==> !live)
            && (out == Refused(UnknownToken) <==> live && !found && exists k :: k in t && t[k].family == f)
            && (out == Refused(Replay) <==> live && found && t[p].revoked)
            && (out == Refused(Expired) <==> live && found && !t[p].revoked && now > t[p].expiresAt)
            && (out == Refused(TokenTaken) <==>
                  live && found && !t[p].revoked && now <= t[p].expiresAt && next in t)
            && (out == Rotated <==> live && found && !t[p].revoked && now <= t[p].expiresAt && next !in t)
  {
    assert HasFamily(t, f) <==> exists k :: k in t && t[k].family == f;
  }

  // ---------------------------------------------------------------- a token presented too late

  ghost predicate AllSpent(t: Table, f: string) {
    forall k :: k in t && t[k].family == f ==> t[k].revoked
  }

  lemma SpentStep(t: Table, e: Event, f: string)
    requires AllSpent(t, f) && !(e.IssueFamily? && e.family == f)
    ensures AllSpent(Step(t, e).0, f)
    ensures e.RotateToken? && e.family == f ==> Step(t, e).1.Refused?
  {
  }

  lemma SpentAdvances(es: seq<Event>, j: nat, f: string)
    requires FreshIds(es) && j < |es| && AllSpent(After(es[..j]), f) && f in FamiliesOf(es[..j])
    ensures AllSpent(After(es[..j + 1]), f) && f in FamiliesOf(es[..j + 1])
    ensures es[j].RotateToken? && es[j].family == f ==> OutcomeAt(es, j).Refused?
  {
    FreshPrefix(es, j);
    AfterIsStep(es, j);
    SpentStep(After(es[..j]), es[j], f);
  }

  lemma {:induction false} SpentStays(es: seq<Event>, i: nat, j: nat, f: string)
    requires FreshIds(es) && i <= j <= |es| && AllSpent(After(es[..i]), f) && f in FamiliesOf(es[..i])
    ensures AllSpent(After(es[..j]), f) && f in FamiliesOf(es[..j])
    decreases j
  {
    if i < j {
      SpentStays(es, i, j - 1, f);
      SpentAdvances(es, j - 1, f);
    }
  }

  lemma LateUseSpends(es: seq<Event>, i: nat)
    requires FreshIds(es) && i < |es| && es[i].RotateToken? && OutcomeAt(es, i) == Refused(Expired)
    ensures AllSpent(After(es[..i + 1]), es[i].family) && es[i].family in FamiliesOf(es[..i + 1])
  {
    var t, e := After(es[..i]), es[i];
    FreshPrefix(es, i);
    AfterIsStep(es, i);
    RowFamiliesWereIssued(es[..i]);
    assert e.presented in t && !t[e.presented].revoked;
    forall k | k in t && t[k].family == e.family && !t[k].revoked ensures k == e.presented {
      OnlyLastIsUnrevoked(es[..i], e.presented, k);
    }
  }

  /** A token presented after its expiry is the end of its family: no rotation in it ever succeeds again, whatever the
      clocks say later. */
  lemma NoRotationAfterExpiry(es: seq<Event>, i: nat, j: nat)
    requires FreshIds(es) && i < j < |es|
    requires es[i].RotateToken? && OutcomeAt(es, i) == Refused(Expired)
    requires es[j].RotateToken? && es[j].family == es[i].family
    ensures OutcomeAt(es, j).Refused?
  {
    LateUseSpends(es, i);
    SpentStays(es, i + 1, j, es[i].family);
    SpentAdvances(es, j, es[i].family);
  }
}
