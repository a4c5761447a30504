/**
 * The expense and settlement serializers: the CAD amount of an expense and its
 * two weighted shares (each rounded half-up to cents on its own), currency-code
 * validation, the payer's display label, and the settlement validation that
 * turns the people a client names into their parties.
 */
module Serializers {
  import opened Wrappers
  import opened Money
  import opened Schema
  import Text

  // ---------------------------------------------------------------------
  // CAD amount and weighted shares
  // ---------------------------------------------------------------------

  /** `_cad_amount`: amount times the pinned FX rate, rounded to cents. */
  function CadAmount(e: Expense): (r: real)
    ensures IsCents(r)
    ensures -0.005 <= r - e.amount * e.fxToCad <= 0.005
  {
    Q2(e.amount * e.fxToCad)
  }

  /** The denominator of the split: the weight sum, or 1 when both are 0. */
  function Denominator(wH: nat, wB: nat): (d: nat)
    ensures d > 0
    ensures wH + wB > 0 ==> d == wH + wB
  {
    if wH + wB == 0 then 1 else wH + wB
  }

  /** A share of an already-rounded total: `q2(total * (w / denom))`. */
  function ShareOf(total: real, w: nat, d: nat): (s: real)
    requires d > 0
    ensures IsCents(s)
    ensures w == 0 ==> s == 0.0
  {
    Q2(total * (w as real / d as real))
  }

  /** `_shares` from the CAD total: (household share, bev share). */
  function Split(total: real, wH: nat, wB: nat): (r: (real, real))
    ensures wH == 0 ==> r.0 == 0.0
    ensures wB == 0 ==> r.1 == 0.0
    ensures IsCents(r.0) && IsCents(r.1)
  {
    var d := Denominator(wH, wB);
    (ShareOf(total, wH, d), ShareOf(total, wB, d))
  }

  /** `_shares` of an expense, from its rounded CAD amount: both shares are
      whole cents, a zero weight gets nothing, and unless both weights are 0
      each share is within a cent of the exact weighted share of the unrounded
      product `amount * fx_to_cad`. */
  function Shares(e: Expense): (r: (real, real))
    ensures IsCents(r.0) && IsCents(r.1)
    ensures e.weightHousehold == 0 ==> r.0 == 0.0
    ensures e.weightBev == 0 ==> r.1 == 0.0
    ensures e.weightHousehold + e.weightBev > 0 ==>
              -0.01 <= r.0 - ExactShare(e.amount * e.fxToCad, e.weightHousehold, e.weightHousehold, e.weightBev) <= 0.01 &&
              -0.01 <= r.1 - ExactShare(e.amount * e.fxToCad, e.weightBev, e.weightHousehold, e.weightBev) <= 0.01
  {
    if e.weightHousehold + e.weightBev > 0 then
      SplitNearExact(CadAmount(e), e.amount * e.fxToCad, e.weightHousehold, e.weightBev);
      Split(CadAmount(e), e.weightHousehold, e.weightBev)
    else
      Split(CadAmount(e), e.weightHousehold, e.weightBev)
  }

  /** Swapping the two weights swaps the two shares. */
  lemma SplitSwap(total: real, wH: nat, wB: nat)
    ensures Split(total, wB, wH) == (Split(total, wH, wB).1, Split(total, wH, wB).0)
  {
    assert Denominator(wB, wH) == Denominator(wH, wB);
  }

  /** Both weights 0: the denominator falls back to 1 and both shares are 0. */
  lemma SplitBothZero(total: real)
    ensures Split(total, 0, 0) == (0.0, 0.0)
  {
  }

  /** A fraction in [0, 1] of a non-negative amount lies between 0 and it. */
  lemma ScaleBounds(x: real, f: real)
    requires x >= 0.0 && 0.0 <= f <= 1.0
    ensures 0.0 <= x * f <= x
  {
    assert x * f + x * (1.0 - f) == x;
  }

  lemma FractionInUnit(w: nat, d: nat)
    requires w <= d && d > 0
    ensures 0.0 <= w as real / d as real <= 1.0
  {
  }

  /** A share of a non-negative whole-cent total lies in [0, total]. */
  lemma ShareBounds(total: real, w: nat, d: nat)
    requires IsCents(total) && total >= 0.0
    requires w <= d && d > 0
    ensures 0.0 <= ShareOf(total, w, d) <= total
  {
    FractionInUnit(w, d);
    ScaleBounds(total, w as real / d as real);
    RoundedBetween(total * (w as real / d as real), total);
  }

  /** Rounding an amount between 0 and a whole-cent bound stays between them. */
  lemma RoundedBetween(x: real, bound: real)
    requires IsCents(bound) && 0.0 <= x <= bound
    ensures 0.0 <= Q2(x) <= bound
  {
    Q2OfCents(bound);
    Q2Monotone(x, bound);
  }

  /** For a non-negative whole-cent total, each share lies in [0, total]. */
  lemma SplitBounds(total: real, wH: nat, wB: nat)
    requires IsCents(total) && total >= 0.0
    ensures 0.0 <= Split(total, wH, wB).0 <= total
    ensures 0.0 <= Split(total, wH, wB).1 <= total
  {
    var d := Denominator(wH, wB);
    ShareBounds(total, wH, d);
    ShareBounds(total, wB, d);
  }

  /** With a positive weight sum the two shares add up to the total to within
      one cent (each is rounded on its own). */
  lemma SplitSumWithinCent(total: real, wH: nat, wB: nat)
    requires wH + wB > 0
    ensures -0.01 <= Split(total, wH, wB).0 + Split(total, wH, wB).1 - total <= 0.01
  {
    var d := (wH + wB) as real;
    var a, b := wH as real / d, wB as real / d;
    assert a + b == 1.0;
    assert total * a + total * b == total * (a + b);
  }

  /** The shares need not add up to the total: a one-cent expense split evenly
      rounds both halves up. */
  lemma SplitSumNotExact()
    ensures Split(0.01, 1, 1) == (0.01, 0.01)
    ensures Split(0.01, 1, 1).0 + Split(0.01, 1, 1).1 != 0.01
  {
    assert 0.01 * (1 as real / 2 as real) == 0.005;
    assert (0.005 * 100.0 + 0.5).Floor == 1;
  }

  /** Equal positive weights (the default 1 and 1) give two equal shares,
      each half the total rounded to cents. */
  lemma SplitEven(total: real, w: nat)
    requires w > 0
    ensures Split(total, w, w) == (Q2(total / 2.0), Q2(total / 2.0))
  {
    assert (w + w) as real == 2.0 * w as real;
    assert w as real / (w + w) as real == 0.5;
    assert Split(total, w, w) == (Q2(total * 0.5), Q2(total * 0.5));
    assert total * 0.5 == total / 2.0;
  }

  /** Scaling an error of at most half a cent by a fraction in [0, 1] keeps it
      within half a cent. */
  lemma ScaledError(total: real, x: real, w: nat, d: nat)
    requires -0.005 <= total - x <= 0.005
    requires w <= d && d > 0
    ensures -0.01 <= ShareOf(total, w, d) - x * (w as real / d as real) <= 0.01
  {
    FractionInUnit(w, d);
    ErrorScaled(total - x, w as real / d as real);
    assert total * (w as real / d as real) - x * (w as real / d as real) == (total - x) * (w as real / d as real);
  }

  lemma ErrorScaled(err: real, a: real)
    requires -0.005 <= err <= 0.005 && 0.0 <= a <= 1.0
    ensures -0.005 <= err * a <= 0.005
  {
    if err >= 0.0 {
      ScaleBounds(err, a);
    } else {
      ScaleBounds(-err, a);
      assert (-err) * a == -(err * a);
    }
  }

  /** The exact, unrounded share of `x` for weight `w` out of `wH + wB`. */
  function ExactShare(x: real, w: nat, wH: nat, wB: nat): real
    requires wH + wB > 0
  {
    x * (w as real / (wH + wB) as real)
  }

  /** The shares of a total that is within half a cent of `x` are each within
      a cent of the exact weighted shares of `x`. */
  lemma SplitNearExact(total: real, x: real, wH: nat, wB: nat)
    requires -0.005 <= total - x <= 0.005
    requires wH + wB > 0
    ensures -0.01 <= Split(total, wH, wB).0 - ExactShare(x, wH, wH, wB) <= 0.01
    ensures -0.01 <= Split(total, wH, wB).1 - ExactShare(x, wB, wH, wB) <= 0.01
  {
    OneShareNearExact(total, x, wH, wH, wB);
    OneShareNearExact(total, x, wB, wH, wB);
  }

  lemma OneShareNearExact(total: real, x: real, w: nat, wH: nat, wB: nat)
    requires -0.005 <= total - x <= 0.005
    requires wH + wB > 0 && w <= wH + wB
    ensures -0.01 <= ShareOf(total, w, Denominator(wH, wB)) - ExactShare(x, w, wH, wB) <= 0.01
  {
    ScaledError(total, x, w, wH + wB);
  }

  /** The worked example: 3000 THB at 0.0385 CAD, weights 2 (household) and
      1 (bev), gives 115.50 CAD split 77.00 / 38.50. */
  lemma ThbExample(e: Expense)
    requires e.amount == 3000.0 && e.fxToCad == 0.0385
    requires e.weightHousehold == 2 && e.weightBev == 1
    ensures CadAmount(e) == 115.5
    ensures Shares(e) == (77.0, 38.5)
  {
    assert e.amount * e.fxToCad == 115.5;
    Q2OfCents(115.5);
    assert 115.5 * (2 as real / 3 as real) == 77.0;
    assert 115.5 * (1 as real / 3 as real) == 38.5;
    Q2OfCents(77.0);
    Q2OfCents(38.5);
  }

  // ---------------------------------------------------------------------
  // Currency validation and the payer label
  // ---------------------------------------------------------------------

  datatype CurrencyError = NotThreeCharacters

  /** The value `validate_currency` works on: `(v or "").upper().strip()`. */
  function CurrencyInput(v: Option<string>): string {
    Text.Normalize(if v.None? then "" else v.value)
  }

  /** `validate_currency`: the normalised code when it has exactly three
      characters; which characters they are is not checked. */
  function ValidateCurrency(v: Option<string>): (r: Result<string, CurrencyError>)
    ensures r.Ok? <==> |CurrencyInput(v)| == 3
    ensures r.Ok? ==> r.value == CurrencyInput(v)
    ensures r.Ok? ==> forall k :: 0 <= k < 3 ==> !Text.IsLowerAscii(r.value[k])
    ensures r.Ok? ==> !Text.IsSpace(r.value[0]) && !Text.IsSpace(r.value[2])
  {
    var c := CurrencyInput(v);
    if |c| != 3 then Err(NotThreeCharacters) else Ok(c)
  }

  /** A validated code validates again to itself. */
  lemma ValidateCurrencyIdempotent(v: Option<string>)
    requires ValidateCurrency(v).Ok?
    ensures ValidateCurrency(Some(ValidateCurrency(v).value)) == ValidateCurrency(v)
  {
    Text.NormalizeIdempotent(if v.None? then "" else v.value);
  }

  /** A missing code is rejected. */
  lemma ValidateCurrencyMissing()
    ensures ValidateCurrency(None).Err?
  {
  }

  /** Any three characters already in normal form are accepted as they are:
      nothing asks them to be letters. */
  lemma ValidateCurrencyAcceptsNormalForm(s: string)
    requires |s| == 3 && !Text.IsSpace(s[0]) && !Text.IsSpace(s[2])
    requires forall k :: 0 <= k < 3 ==> !Text.IsLowerAscii(s[k])
    ensures ValidateCurrency(Some(s)) == Ok(s)
  {
    Text.UpperNoLower(s);
    Text.StripNoEdgeSpace(s);
  }

  /** For instance the digits "123" pass as a currency code. */
  lemma ValidateCurrencyAcceptsDigits()
    ensures ValidateCurrency(Some("123")) == Ok("123")
  {
    ValidateCurrencyAcceptsNormalForm("123");
  }

  /** `get_paid_by_display`: "name (party name)", or the bare name when the
      person has no party. */
  function PaidByDisplay(p: Person): (s: string)
    ensures p.party.None? ==> s == p.name
    ensures p.party.Some? ==> s == PersonLabel(p)
  {
    match p.party
    case None => p.name
    case Some(party) => p.name + " (" + party.name + ")"
  }

  /** For a person the schema admits, the label always names the party. */
  lemma PaidByDisplayOfValidPerson(p: Person)
    requires ValidPerson(p)
    ensures |PaidByDisplay(p)| == |p.name| + |p.party.value.name| + 3
    ensures PaidByDisplay(p)[..|p.name|] == p.name
    ensures PaidByDisplay(p)[|p.name|..] == " (" + p.party.value.name + ")"
  {
  }

  // ---------------------------------------------------------------------
  // Settlement validation
  // ---------------------------------------------------------------------

  /** What `attrs["from_party"]` / `attrs["to_party"]` hold during validation:
      nothing, a party (legacy input) or a person (the write-only person field). */
  datatype Slot = Absent | PartyRef(party: Party) | PersonRef(person: Person)

  datatype SettlementError = FromPersonWithoutParty | ToPersonWithoutParty | PartiesRequired

  /** The slot after the person-to-party rewrite. */
  function Translate(s: Slot): (t: Slot)
    ensures s.PersonRef? && s.person.party.Some? ==> t == PartyRef(s.person.party.value)
    ensures !(s.PersonRef? && s.person.party.Some?) ==> t == s
  {
    match s
    case PersonRef(p) => if p.party.Some? then PartyRef(p.party.value) else s
    case _ => s
  }

  predicate IsPartylessPerson(s: Slot) {
    s.PersonRef? && s.person.party.None?
  }

  /** The party a slot stands for, if any. */
  predicate Names(s: Slot, p: Party) {
    s == PartyRef(p) || (s.PersonRef? && s.person.party == Some(p))
  }

  /** `SettlementSerializer.validate` on the two slots: the from-person check,
      then the to-person check, then "both required". */
  function ValidateSlots(f: Slot, t: Slot): (r: Result<(Party, Party), SettlementError>)
    ensures r.Ok? <==> (exists a :: Names(f, a)) && (exists b :: Names(t, b))
    ensures r.Ok? ==> Names(f, r.value.0) && Names(t, r.value.1)
    ensures r == Err(FromPersonWithoutParty) <==> IsPartylessPerson(f)
    ensures r == Err(ToPersonWithoutParty) <==> !IsPartylessPerson(f) && IsPartylessPerson(t)
  {
    if IsPartylessPerson(f) then Err(FromPersonWithoutParty)
    else if IsPartylessPerson(t) then Err(ToPersonWithoutParty)
    else match (Translate(f), Translate(t))
      case (PartyRef(a), PartyRef(b)) =>
        assert Names(f, a) && Names(t, b);
        Ok((a, b))
      case _ => Err(PartiesRequired)
  }

  /** A settlement from a party to itself is accepted. */
  lemma SelfSettlementAccepted(p: Person, q: Person)
    requires p.party.Some? && p.party == q.party
    ensures ValidateSlots(PersonRef(p), PersonRef(q)) == Ok((p.party.value, p.party.value))
  {
  }

  /** The attrs dictionary of a settlement being validated; `Validate` rewrites
      its two party entries in place. */
  class SettlementAttrs {
    var fromParty: Slot
    var toParty: Slot

    constructor (f: Slot, t: Slot)
      ensures fromParty == f && toParty == t
    {
      fromParty, toParty := f, t;
    }

    /** `validate(attrs)`: replaces a person by that person's party, slot by
        slot, raising on a person without a party or on a missing side.  On an
        error the from-side may already have been rewritten, as in the source. */
    method Validate() returns (err: Option<SettlementError>)
      modifies this
      ensures var v := ValidateSlots(old(fromParty), old(toParty));
              (v.Ok? ==> err.None? && fromParty == PartyRef(v.value.0) && toParty == PartyRef(v.value.1)) &&
              (v.Err? ==> err == Some(v.error))
      ensures fromParty == Translate(old(fromParty))
      ensures toParty == if IsPartylessPerson(old(fromParty)) then old(toParty) else Translate(old(toParty))
    {
      if fromParty.PersonRef? {
        var party := fromParty.person.party;
        if party.None? {
          return Some(FromPersonWithoutParty);
        }
        fromParty := PartyRef(party.value);
      }
      if toParty.PersonRef? {
        var party := toParty.person.party;
        if party.None? {
          return Some(ToPersonWithoutParty);
        }
        toParty := PartyRef(party.value);
      }
      if fromParty.Absent? || toParty.Absent? {
        return Some(PartiesRequired);
      }
      return None;
    }
  }
}
