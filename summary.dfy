/**
 * The balance summary: a fold over all expenses and settlements.  Bev owes
 * its weighted share of every expense a household person paid; the household
 * owes its share of every expense a Bev person paid; settlements are summed
 * per direction; `net > 0` means Bev owes the household.  The shares here are
 * the exact (unrounded) quotients the database computes.
 */
module LedgerSummary {
  import opened Wrappers
  import opened Schema
  import Serializers

  datatype Summary = Summary(
    bevOwesFromExpenses: real,
    householdOwesFromExpenses: real,
    settlementsBevToHousehold: real,
    settlementsHouseholdToBev: real,
    net: real)

  datatype SummaryError = NotBootstrapped | IntegerOutOfRange | DivisionByZero

  // ---------------------------------------------------------------------
  // Finding the two parties
  // ---------------------------------------------------------------------

  predicate IsHouseholdParty(p: Party) {
    p.isHousehold
  }

  predicate IsBevParty(p: Party) {
    p.slug == "bev"
  }

  /** `Party.objects.filter(...).first()`: with no ordering given, the
      matching party with the lowest primary key. */
  function FirstWhere(ps: seq<Party>, pred: Party -> bool): (r: Option<Party>)
    ensures r.None? <==> forall q :: q in ps ==> !pred(q)
    ensures r.Some? ==> r.value in ps && pred(r.value)
    ensures r.Some? ==> forall q :: q in ps && pred(q) ==> r.value.id <= q.id
  {
    if ps == [] then None
    else
      var rest := FirstWhere(ps[1..], pred);
      assert forall q :: q in ps ==> q == ps[0] || q in ps[1..];
      if pred(ps[0]) && (rest.None? || ps[0].id <= rest.value.id) then Some(ps[0])
      else rest
  }

  /** `filter(is_household=True).first()`. */
  function Household(ps: seq<Party>): (r: Option<Party>)
    ensures r.None? <==> forall q :: q in ps ==> !q.isHousehold
    ensures r.Some? ==> r.value in ps && r.value.isHousehold &&
                        forall q :: q in ps && q.isHousehold ==> r.value.id <= q.id
  {
    FirstWhere(ps, IsHouseholdParty)
  }

  /** `filter(slug="bev").first()`. */
  function Bev(ps: seq<Party>): (r: Option<Party>)
    ensures r.None? <==> forall q :: q in ps ==> q.slug != "bev"
    ensures r.Some? ==> r.value in ps && r.value.slug == "bev" &&
                        forall q :: q in ps && q.slug == "bev" ==> r.value.id <= q.id
  {
    FirstWhere(ps, IsBevParty)
  }

  // ---------------------------------------------------------------------
  // Expense shares
  // ---------------------------------------------------------------------

  datatype Side = HouseholdSide | BevSide

  /** The expense's payer belongs to party `p` (`paid_by__party=p`). */
  predicate PaidBy(e: Expense, p: Party) {
    e.paidBy.party.Some? && e.paidBy.party.value.id == p.id
  }

  function Weight(e: Expense, side: Side): nat {
    match side
    case HouseholdSide => e.weightHousehold
    case BevSide => e.weightBev
  }

  /** `amount * fx_to_cad * weight / (weight_household + weight_bev)`. */
  function ExactShare(e: Expense, side: Side): real
    requires e.weightHousehold + e.weightBev > 0
  {
    Serializers.ExactShare(e.amount * e.fxToCad, Weight(e, side), e.weightHousehold, e.weightBev)
  }

  /** Every expense the share query reaches has a weight sum the database
      can divide by: the sum is an `integer`, so it must not exceed
      `MaxInteger`, and it must not be 0. */
  predicate Computable(payer: Party, es: seq<Expense>) {
    forall e :: e in es ==> ShareDefined(payer, e)
  }

  predicate ShareDefined(payer: Party, e: Expense) {
    PaidBy(e, payer) ==> 0 < e.weightHousehold + e.weightBev <= MaxInteger
  }

  /** The error the share query over the expenses paid by `payer` raises, if
      any: "integer out of range" for a weight sum above `MaxInteger`, a
      division by zero for a weight sum of 0.  The order in which the database
      visits the rows is not fixed; when both kinds occur the model reports
      the overflow. */
  function QueryError(payer: Party, es: seq<Expense>): (r: Option<SummaryError>)
    ensures r.None? <==> Computable(payer, es)
    ensures r == Some(IntegerOutOfRange) ==>
              exists e :: e in es && PaidBy(e, payer) && e.weightHousehold + e.weightBev > MaxInteger
    ensures r == Some(DivisionByZero) ==>
              exists e :: e in es && PaidBy(e, payer) && e.weightHousehold + e.weightBev == 0
    ensures r != Some(NotBootstrapped)
  {
    if Computable(payer, es) then None
    else if exists e :: e in es && PaidBy(e, payer) && e.weightHousehold + e.weightBev > MaxInteger then
      Some(IntegerOutOfRange)
    else
      Some(DivisionByZero)
  }

  /** What one expense adds to the `side` total of expenses paid by `payer`. */
  function Owed(payer: Party, side: Side, e: Expense): real
    requires ShareDefined(payer, e)
  {
    if PaidBy(e, payer) then ExactShare(e, side) else 0.0
  }

  /** The `side` share summed over the expenses paid by a person of `payer`. */
  function OwedFromExpenses(payer: Party, side: Side, es: seq<Expense>): (r: real)
    requires Computable(payer, es)
    ensures (forall e :: e in es ==> !PaidBy(e, payer)) ==> r == 0.0
  {
    if es == [] then 0.0
    else
      assert forall e :: e in es[1..] ==> e in es;
      Owed(payer, side, es[0]) +
      OwedFromExpenses(payer, side, es[1..])
  }

  // ---------------------------------------------------------------------
  // Settlement totals
  // ---------------------------------------------------------------------

  predicate Moves(s: Settlement, from: Party, to: Party) {
    s.fromParty.id == from.id && s.toParty.id == to.id
  }

  /** The amounts of the settlements from `from` to `to`. */
  function Transfers(from: Party, to: Party, ss: seq<Settlement>): (r: real)
    ensures (forall s :: s in ss ==> !Moves(s, from, to)) ==> r == 0.0
  {
    if ss == [] then 0.0
    else
      assert forall s :: s in ss[1..] ==> s in ss;
      (if Moves(ss[0], from, to) then ss[0].amountCad else 0.0) + Transfers(from, to, ss[1..])
  }

  // ---------------------------------------------------------------------
  // The summary
  // ---------------------------------------------------------------------


  /** The four totals and the balance for the household `h` and Bev `b`. */
  function Totals(h: Party, b: Party, es: seq<Expense>, ss: seq<Settlement>): (s: Summary)
    requires Computable(h, es) && Computable(b, es)
    ensures s.net == s.bevOwesFromExpenses - s.householdOwesFromExpenses
                     - (s.settlementsBevToHousehold - s.settlementsHouseholdToBev)
  {
    var bevOwes := OwedFromExpenses(h, BevSide, es);
    var householdOwes := OwedFromExpenses(b, HouseholdSide, es);
    var bevToHouse := Transfers(b, h, ss);
    var houseToBev := Transfers(h, b, ss);
    Summary(bevOwes, householdOwes, bevToHouse, houseToBev,
            bevOwes - householdOwes - (bevToHouse - houseToBev))
  }

  /** `summary`: fails when either party is missing, or when an expense the
      share queries reach has a weight sum the database cannot divide by (the
      household-paid query runs first); otherwise the totals for the two
      parties. */
  function Summarize(ps: seq<Party>, es: seq<Expense>, ss: seq<Settlement>): (r: Result<Summary, SummaryError>)
    ensures r == Err(NotBootstrapped) <==> Household(ps).None? || Bev(ps).None?
    ensures Household(ps).Some? && Bev(ps).Some? ==>
              (r.Ok? <==> Computable(Household(ps).value, es) && Computable(Bev(ps).value, es))
    ensures Household(ps).Some? && Bev(ps).Some? && !Computable(Household(ps).value, es) ==>
              r == Err(QueryError(Household(ps).value, es).value)
    ensures Household(ps).Some? && Bev(ps).Some? && Computable(Household(ps).value, es) ==>
              QueryError(Bev(ps).value, es).Some? ==> r == Err(QueryError(Bev(ps).value, es).value)
    ensures r.Ok? ==>
              var s := r.value;
              s.net == s.bevOwesFromExpenses - s.householdOwesFromExpenses
                       - (s.settlementsBevToHousehold - s.settlementsHouseholdToBev)
  {
    match (Household(ps), Bev(ps))
    case (Some(h), Some(b)) =>
      if !Computable(h, es) then Err(QueryError(h, es).value)
      else if !Computable(b, es) then Err(QueryError(b, es).value)
      else Ok(Totals(h, b, es, ss))
    case _ => Err(NotBootstrapped)
  }

  /** For a bootstrapped ledger whose shares are defined, the summary is the
      totals for the two parties. */
  lemma SummaryIsTotals(ps: seq<Party>, es: seq<Expense>, ss: seq<Settlement>, h: Party, b: Party)
    requires Household(ps) == Some(h) && Bev(ps) == Some(b)
    requires Computable(h, es) && Computable(b, es)
    ensures Summarize(ps, es, ss) == Ok(Totals(h, b, es, ss))
  {
  }

  /** With both parties present, an empty ledger sums to zero everywhere. */
  lemma EmptyLedger(ps: seq<Party>)
    requires Household(ps).Some? && Bev(ps).Some?
    ensures Summarize(ps, [], []) == Ok(Summary(0.0, 0.0, 0.0, 0.0, 0.0))
  {
  }

  // ---------------------------------------------------------------------
  // Folding over concatenations
  // ---------------------------------------------------------------------

  lemma ComputableConcat(p: Party, a: seq<Expense>, b: seq<Expense>)
    ensures Computable(p, a + b) <==> Computable(p, a) && Computable(p, b)
  {
    assert forall e :: e in a + b <==> e in a || e in b;
  }

  lemma {:induction false} OwedConcat(p: Party, side: Side, a: seq<Expense>, b: seq<Expense>)
    requires Computable(p, a) && Computable(p, b)
    ensures Computable(p, a + b)
    ensures OwedFromExpenses(p, side, a + b) == OwedFromExpenses(p, side, a) + OwedFromExpenses(p, side, b)
  {
    ComputableConcat(p, a, b);
    if a == [] {
      assert a + b == b;
    } else {
      assert (a + b)[1..] == a[1..] + b;
      assert forall e :: e in a[1..] ==> e in a;
      OwedConcat(p, side, a[1..], b);
    }
  }

  lemma {:induction false} TransfersConcat(from: Party, to: Party, a: seq<Settlement>, b: seq<Settlement>)
    ensures Transfers(from, to, a + b) == Transfers(from, to, a) + Transfers(from, to, b)
  {
    if a == [] {
      assert a + b == b;
    } else {
      assert (a + b)[1..] == a[1..] + b;
      TransfersConcat(from, to, a[1..], b);
    }
  }

  /** The fold over one expense. */
  lemma OwedSingle(p: Party, side: Side, e: Expense)
    requires Computable(p, [e])
    ensures OwedFromExpenses(p, side, [e]) == Owed(p, side, e)
  {
    assert OwedFromExpenses(p, side, [e]) ==
           Owed(p, side, e) + OwedFromExpenses(p, side, []);
  }

  /** The fold over one settlement. */
  lemma TransfersSingle(from: Party, to: Party, s: Settlement)
    ensures Transfers(from, to, [s]) == if Moves(s, from, to) then s.amountCad else 0.0
  {
    assert Transfers(from, to, [s]) ==
           (if Moves(s, from, to) then s.amountCad else 0.0) + Transfers(from, to, []);
  }

  // ---------------------------------------------------------------------
  // Order independence
  // ---------------------------------------------------------------------

  lemma ComputablePerm(p: Party, a: seq<Expense>, b: seq<Expense>)
    requires multiset(a) == multiset(b)
    ensures Computable(p, a) <==> Computable(p, b)
    ensures QueryError(p, a) == QueryError(p, b)
  {
    assert forall e :: e in a <==> e in multiset(a);
    assert forall e :: e in b <==> e in multiset(b);
  }

  /** Taking the element at `i` out of `b`. */
  lemma RemoveAt<T>(b: seq<T>, i: nat)
    requires i < |b|
    ensures b == b[..i] + [b[i]] + b[i + 1..]
    ensures multiset(b[..i] + b[i + 1..]) == multiset(b) - multiset{b[i]}
  {
    assert b == b[..i] + [b[i]] + b[i + 1..];
    assert multiset(b) == multiset(b[..i]) + multiset{b[i]} + multiset(b[i + 1..]);
  }

  /** Taking one expense out of the fold. */
  lemma OwedRemove(p: Party, side: Side, b: seq<Expense>, i: nat)
    requires i < |b| && Computable(p, b)
    ensures Computable(p, b[..i] + b[i + 1..])
    ensures OwedFromExpenses(p, side, b) ==
            Owed(p, side, b[i]) +
            OwedFromExpenses(p, side, b[..i] + b[i + 1..])
  {
    var lo, x, hi := b[..i], b[i], b[i + 1..];
    RemoveAt(b, i);
    ComputableConcat(p, lo + [x], hi);
    ComputableConcat(p, lo, [x]);
    OwedConcat(p, side, lo, hi);
    OwedConcat(p, side, lo, [x]);
    OwedConcat(p, side, lo + [x], hi);
    OwedSingle(p, side, x);
  }

  /** Taking one settlement out of the fold. */
  lemma TransfersRemove(from: Party, to: Party, b: seq<Settlement>, i: nat)
    requires i < |b|
    ensures Transfers(from, to, b) ==
            (if Moves(b[i], from, to) then b[i].amountCad else 0.0) +
            Transfers(from, to, b[..i] + b[i + 1..])
  {
    var lo, x, hi := b[..i], b[i], b[i + 1..];
    RemoveAt(b, i);
    TransfersConcat(from, to, lo, hi);
    TransfersConcat(from, to, lo, [x]);
    TransfersConcat(from, to, lo + [x], hi);
    TransfersSingle(from, to, x);
  }

  /** In a permutation `b` of a non-empty `a`, the head of `a` sits at some
      index `i`, and the rests are again permutations of each other. */
  lemma PermHead<T>(a: seq<T>, b: seq<T>) returns (i: nat)
    requires a != [] && multiset(a) == multiset(b)
    ensures i < |b| && b[i] == a[0]
    ensures multiset(a[1..]) == multiset(b[..i] + b[i + 1..])
  {
    assert a[0] in multiset(b);
    var j :| 0 <= j < |b| && b[j] == a[0];
    i := j;
    RemoveAt(b, i);
    assert a == [a[0]] + a[1..];
    assert multiset(a) == multiset{a[0]} + multiset(a[1..]);
  }

  lemma {:induction false} OwedPerm(p: Party, side: Side, a: seq<Expense>, b: seq<Expense>)
    requires multiset(a) == multiset(b)
    requires Computable(p, a)
    ensures Computable(p, b)
    ensures OwedFromExpenses(p, side, a) == OwedFromExpenses(p, side, b)
    decreases |a|
  {
    ComputablePerm(p, a, b);
    if a == [] {
      assert |b| == |multiset(b)| == 0;
    } else {
      var i := PermHead(a, b);
      var a', b' := a[1..], b[..i] + b[i + 1..];
      assert Computable(p, a') by {
        forall e | e in a' ensures e in a { }
      }
      OwedPerm(p, side, a', b');
      OwedRemove(p, side, b, i);
      assert OwedFromExpenses(p, side, a) == Owed(p, side, a[0]) + OwedFromExpenses(p, side, a');
    }
  }

  lemma {:induction false} TransfersPerm(from: Party, to: Party, a: seq<Settlement>, b: seq<Settlement>)
    requires multiset(a) == multiset(b)
    ensures Transfers(from, to, a) == Transfers(from, to, b)
    decreases |a|
  {
    if a == [] {
      assert |b| == |multiset(b)| == 0;
    } else {
      var i := PermHead(a, b);
      TransfersPerm(from, to, a[1..], b[..i] + b[i + 1..]);
      TransfersRemove(from, to, b, i);
      assert Transfers(from, to, a) ==
             (if Moves(a[0], from, to) then a[0].amountCad else 0.0) + Transfers(from, to, a[1..]);
    }
  }

  /** The summary does not depend on the order of the expense and settlement
      lists. */
  lemma SummaryOrderIndependent(ps: seq<Party>, es1: seq<Expense>, es2: seq<Expense>,
                                ss1: seq<Settlement>, ss2: seq<Settlement>)
    requires multiset(es1) == multiset(es2) && multiset(ss1) == multiset(ss2)
    ensures Summarize(ps, es1, ss1) == Summarize(ps, es2, ss2)
  {
    var oh, ob := Household(ps), Bev(ps);
    if oh.Some? && ob.Some? {
      var h, b := oh.value, ob.value;
      ComputablePerm(h, es1, es2);
      ComputablePerm(b, es1, es2);
      if Computable(h, es1) && Computable(b, es1) {
        OwedPerm(h, BevSide, es1, es2);
        OwedPerm(b, HouseholdSide, es1, es2);
        TransfersPerm(b, h, ss1, ss2);
        TransfersPerm(h, b, ss1, ss2);
        SummaryIsTotals(ps, es1, ss1, h, b);
        SummaryIsTotals(ps, es2, ss2, h, b);
      }
    }
  }

  // ---------------------------------------------------------------------
  // Adding one record
  // ---------------------------------------------------------------------

  /** Appending one expense adds its share, if any, to each expense total. */
  lemma TotalsAppendExpense(h: Party, b: Party, es: seq<Expense>, ss: seq<Settlement>, e: Expense)
    requires Computable(h, es) && Computable(b, es)
    requires ShareDefined(h, e) && ShareDefined(b, e)
    ensures Computable(h, es + [e]) && Computable(b, es + [e])
    ensures var s := Totals(h, b, es, ss);
            var x, y := Owed(h, BevSide, e), Owed(b, HouseholdSide, e);
            Totals(h, b, es + [e], ss) ==
              s.(bevOwesFromExpenses := s.bevOwesFromExpenses + x,
                 householdOwesFromExpenses := s.householdOwesFromExpenses + y,
                 net := s.net + x - y)
  {
    assert Computable(h, [e]) && Computable(b, [e]);
    OwedConcat(h, BevSide, es, [e]);
    OwedConcat(b, HouseholdSide, es, [e]);
    OwedSingle(h, BevSide, e);
    OwedSingle(b, HouseholdSide, e);
  }

  /** Appending one settlement adds its amount to the direction it moves in. */
  lemma TotalsAppendSettlement(h: Party, b: Party, es: seq<Expense>, ss: seq<Settlement>, st: Settlement)
    requires Computable(h, es) && Computable(b, es)
    ensures var s := Totals(h, b, es, ss);
            var x := if Moves(st, b, h) then st.amountCad else 0.0;
            var y := if Moves(st, h, b) then st.amountCad else 0.0;
            Totals(h, b, es, ss + [st]) ==
              s.(settlementsBevToHousehold := s.settlementsBevToHousehold + x,
                 settlementsHouseholdToBev := s.settlementsHouseholdToBev + y,
                 net := s.net - x + y)
  {
    TransfersConcat(b, h, ss, [st]);
    TransfersConcat(h, b, ss, [st]);
    TransfersSingle(b, h, st);
    TransfersSingle(h, b, st);
  }

  /** Recording a settlement from Bev to the household adds its amount to that
      direction's total and lowers `net` by exactly that amount; nothing else
      changes. */
  lemma AppendBevToHousehold(ps: seq<Party>, es: seq<Expense>, ss: seq<Settlement>, st: Settlement,
                             h: Party, b: Party)
    requires Household(ps) == Some(h) && Bev(ps) == Some(b) && h.id != b.id
    requires Computable(h, es) && Computable(b, es)
    requires Moves(st, b, h)
    ensures var s := Totals(h, b, es, ss);
            Summarize(ps, es, ss + [st]) ==
              Ok(s.(settlementsBevToHousehold := s.settlementsBevToHousehold + st.amountCad,
                    net := s.net - st.amountCad))
  {
    assert !Moves(st, h, b);
    TotalsAppendSettlement(h, b, es, ss, st);
    SummaryIsTotals(ps, es, ss + [st], h, b);
  }

  /** Recording a settlement from the household to Bev raises `net` by exactly
      its amount. */
  lemma AppendHouseholdToBev(ps: seq<Party>, es: seq<Expense>, ss: seq<Settlement>, st: Settlement,
                             h: Party, b: Party)
    requires Household(ps) == Some(h) && Bev(ps) == Some(b) && h.id != b.id
    requires Computable(h, es) && Computable(b, es)
    requires Moves(st, h, b)
    ensures var s := Totals(h, b, es, ss);
            Summarize(ps, es, ss + [st]) ==
              Ok(s.(settlementsHouseholdToBev := s.settlementsHouseholdToBev + st.amountCad,
                    net := s.net + st.amountCad))
  {
    assert !Moves(st, b, h);
    TotalsAppendSettlement(h, b, es, ss, st);
    SummaryIsTotals(ps, es, ss + [st], h, b);
  }

  /** A settlement that is not between the two parties in either direction
      (a self-transfer, or one involving a third party) changes nothing. */
  lemma AppendUnrelatedSettlement(ps: seq<Party>, es: seq<Expense>, ss: seq<Settlement>, st: Settlement,
                                  h: Party, b: Party)
    requires Household(ps) == Some(h) && Bev(ps) == Some(b)
    requires !Moves(st, b, h) && !Moves(st, h, b)
    ensures Summarize(ps, es, ss + [st]) == Summarize(ps, es, ss)
  {
    if Computable(h, es) && Computable(b, es) {
      TotalsAppendSettlement(h, b, es, ss, st);
      SummaryIsTotals(ps, es, ss, h, b);
      SummaryIsTotals(ps, es, ss + [st], h, b);
    }
  }

  /** A self-transfer is never between the two parties when they differ. */
  lemma SelfTransferUnrelated(st: Settlement, h: Party, b: Party)
    requires st.fromParty.id == st.toParty.id && h.id != b.id
    ensures !Moves(st, b, h) && !Moves(st, h, b)
  {
  }

  /** An expense a household person paid adds Bev's exact share to
      `bev_owes_from_expenses` and to `net`. */
  lemma AppendHouseholdPaidExpense(ps: seq<Party>, es: seq<Expense>, ss: seq<Settlement>, e: Expense,
                                   h: Party, b: Party)
    requires Household(ps) == Some(h) && Bev(ps) == Some(b)
    requires Computable(h, es) && Computable(b, es)
    requires PaidBy(e, h) && !PaidBy(e, b)
    requires 0 < e.weightHousehold + e.weightBev <= MaxInteger
    ensures var s := Totals(h, b, es, ss);
            var share := ExactShare(e, BevSide);
            Summarize(ps, es + [e], ss) ==
              Ok(s.(bevOwesFromExpenses := s.bevOwesFromExpenses + share, net := s.net + share))
  {
    TotalsAppendExpense(h, b, es, ss, e);
    assert Owed(h, BevSide, e) == ExactShare(e, BevSide) && Owed(b, HouseholdSide, e) == 0.0;
    SummaryIsTotals(ps, es + [e], ss, h, b);
  }

  /** An expense a Bev person paid adds the household's exact share to
      `household_owes_from_expenses` and subtracts it from `net`. */
  lemma AppendBevPaidExpense(ps: seq<Party>, es: seq<Expense>, ss: seq<Settlement>, e: Expense,
                             h: Party, b: Party)
    requires Household(ps) == Some(h) && Bev(ps) == Some(b)
    requires Computable(h, es) && Computable(b, es)
    requires PaidBy(e, b) && !PaidBy(e, h)
    requires 0 < e.weightHousehold + e.weightBev <= MaxInteger
    ensures var s := Totals(h, b, es, ss);
            var share := ExactShare(e, HouseholdSide);
            Summarize(ps, es + [e], ss) ==
              Ok(s.(householdOwesFromExpenses := s.householdOwesFromExpenses + share, net := s.net - share))
  {
    TotalsAppendExpense(h, b, es, ss, e);
    assert Owed(h, BevSide, e) == 0.0 && Owed(b, HouseholdSide, e) == ExactShare(e, HouseholdSide);
    SummaryIsTotals(ps, es + [e], ss, h, b);
  }

  /** An expense whose payer is in neither party contributes to neither total,
      whatever its weights. */
  lemma AppendUnrelatedExpense(ps: seq<Party>, es: seq<Expense>, ss: seq<Settlement>, e: Expense,
                               h: Party, b: Party)
    requires Household(ps) == Some(h) && Bev(ps) == Some(b)
    requires !PaidBy(e, h) && !PaidBy(e, b)
    ensures Summarize(ps, es + [e], ss) == Summarize(ps, es, ss)
  {
    assert Computable(h, [e]) && Computable(b, [e]);
    ComputableConcat(h, es, [e]);
    ComputableConcat(b, es, [e]);
    QueryErrorUnreached(h, es, e);
    QueryErrorUnreached(b, es, e);
    if Computable(h, es) && Computable(b, es) {
      TotalsAppendExpense(h, b, es, ss, e);
      assert Owed(h, BevSide, e) == 0.0 && Owed(b, HouseholdSide, e) == 0.0;
      SummaryIsTotals(ps, es, ss, h, b);
      SummaryIsTotals(ps, es + [e], ss, h, b);
    }
  }

  /** Weights that each fit their column can still overflow the database's
      integer sum: one household-paid expense with both weights 2^30 makes the
      summary fail with "integer out of range". */
  lemma WeightSumOverflows(ps: seq<Party>, es: seq<Expense>, ss: seq<Settlement>, e: Expense,
                           h: Party, b: Party)
    requires Household(ps) == Some(h) && Bev(ps) == Some(b)
    requires PaidBy(e, h)
    requires e.weightHousehold == 1073741824 && e.weightBev == 1073741824
    ensures e.weightHousehold <= MaxInteger && e.weightBev <= MaxInteger
    ensures Summarize(ps, es + [e], ss) == Err(IntegerOutOfRange)
  {
    assert e in es + [e];
    assert !ShareDefined(h, e);
  }

  /** An expense a query does not reach does not change its outcome. */
  lemma QueryErrorUnreached(p: Party, es: seq<Expense>, e: Expense)
    requires !PaidBy(e, p)
    ensures QueryError(p, es + [e]) == QueryError(p, es)
  {
    assert forall x :: x in es + [e] <==> x in es || x == e;
  }

  /** In a valid party table where no party is both the household and "bev",
      the two parties the summary finds are distinct. */
  lemma PartiesDistinct(ps: seq<Party>, h: Party, b: Party)
    requires ValidParties(ps)
    requires forall p :: p in ps ==> !(p.isHousehold && p.slug == "bev")
    requires Household(ps) == Some(h) && Bev(ps) == Some(b)
    ensures h.id != b.id
  {
    var i :| 0 <= i < |ps| && ps[i] == h;
    var j :| 0 <= j < |ps| && ps[j] == b;
    assert i != j;
  }

  // ---------------------------------------------------------------------
  // The worked example
  // ---------------------------------------------------------------------

  /** A household person pays 3000 THB at 0.0385 (weights 2 and 1) and Bev
      settles 50 CAD: Bev owes 38.5, has paid 50, and `net` is -11.5, so the
      household owes Bev 11.50. */
  lemma WorkedExample(hh: Party, bev: Party, payer: Person, e: Expense, st: Settlement)
    requires hh.isHousehold && hh.slug != "bev" && !bev.isHousehold && bev.slug == "bev"
    requires payer.party == Some(hh) && hh.id != bev.id
    requires e.amount == 3000.0 && e.fxToCad == 0.0385 && e.paidBy == payer
    requires e.weightHousehold == 2 && e.weightBev == 1
    requires st.fromParty == bev && st.toParty == hh && st.amountCad == 50.0
    ensures Summarize([hh, bev], [e], [st]) == Ok(Summary(38.5, 0.0, 50.0, 0.0, -11.5))
  {
    var ps := [hh, bev];
    assert ps[1..] == [bev];
    assert Household(ps) == Some(hh);
    assert Bev(ps) == Some(bev);
    assert Computable(hh, [e]) && Computable(bev, [e]);
    assert ExactShare(e, BevSide) == 38.5 by {
      assert e.amount * e.fxToCad == 115.5;
      assert 115.5 * (1 as real / 3 as real) == 38.5;
    }
    OwedSingle(hh, BevSide, e);
    OwedSingle(bev, HouseholdSide, e);
    TransfersSingle(bev, hh, st);
    TransfersSingle(hh, bev, st);
    SummaryIsTotals(ps, [e], [st], hh, bev);
  }
}
