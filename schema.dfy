/**
 * The ledger schema: parties, the people who belong to them, expenses paid by a
 * person, settlements between parties, the FX-rate cache rows and the per-user
 * recent-currency rows, with the column domains and the uniqueness and ordering
 * constraints the database enforces.
 */
module Schema {
  import opened Wrappers
  import opened Money

  /** A calendar date as its proleptic Gregorian day number. */
  type Date = int

  type UserId = int

  /** The largest value of the database's `integer` column type, which
      backs a `PositiveIntegerField`. */
  const MaxInteger: nat := 2147483647

  datatype Party = Party(id: int, name: string, slug: string, isHousehold: bool)

  /** `party` is a non-null foreign key in the schema; the serializers and the
      dropdowns nevertheless guard against a person whose party is missing, so
      the value type allows it and `ValidPerson` excludes it. */
  datatype Person = Person(id: int, name: string, party: Option<Party>)

  datatype Category = Lodging | Food | Transport | Activities | Other

  datatype Expense = Expense(
    id: int,
    date: Date,
    description: string,
    category: Category,
    currency: string,
    fxToCad: real,
    amount: real,
    paidBy: Person,
    weightHousehold: nat,
    weightBev: nat,
    notes: string)

  datatype Settlement = Settlement(
    id: int,
    date: Date,
    fromParty: Party,
    toParty: Party,
    amountCad: real,
    notes: string)

  /** The key of the FX cache: (date, base, quote). */
  datatype FxKey = FxKey(date: Date, base: string, quote: string)

  datatype FxRate = FxRate(key: FxKey, rate: real)

  datatype RecentCurrency = RecentCurrency(user: UserId, code: string, updatedAt: nat)

  // ---------------------------------------------------------------------
  // Column domains
  // ---------------------------------------------------------------------

  predicate IsSlugChar(c: char) {
    'a' <= c <= 'z' || 'A' <= c <= 'Z' || '0' <= c <= '9' || c == '_' || c == '-'
  }

  /** `SlugField`: one or more ASCII letters, digits, underscores or hyphens. */
  predicate IsSlug(s: string) {
    |s| > 0 && forall k :: 0 <= k < |s| ==> IsSlugChar(s[k])
  }

  predicate ValidParty(p: Party) {
    |p.name| <= 64 && |p.slug| <= 64 && IsSlug(p.slug)
  }

  /** Party ids, names and slugs are each unique. */
  predicate ValidParties(ps: seq<Party>) {
    (forall i :: 0 <= i < |ps| ==> ValidParty(ps[i])) &&
    forall i, j :: 0 <= i < j < |ps| ==>
      ps[i].id != ps[j].id && ps[i].name != ps[j].name && ps[i].slug != ps[j].slug
  }

  predicate ValidPerson(p: Person) {
    |p.name| <= 64 && p.party.Some? && ValidParty(p.party.value)
  }

  /** The columns of an expense: amount is `DecimalField(14, 2)`, fx_to_cad is
      `DecimalField(18, 8)`, currency has at most 3 characters, the description
      at most 200, the payer is a person of some party.  The weights are
      `PositiveIntegerField`s: database integers from 0 to `MaxInteger`. */
  predicate ValidExpense(e: Expense) {
    |e.description| <= 200 &&
    |e.currency| <= 3 &&
    e.weightHousehold <= MaxInteger && e.weightBev <= MaxInteger &&
    FitsDecimal(e.fxToCad, 18, 8) &&
    FitsDecimal(e.amount, 14, 2) &&
    ValidPerson(e.paidBy)
  }

  /** Both parties are required foreign keys; the amount is `DecimalField(14, 2)`.
      Nothing asks the two parties to differ. */
  predicate ValidSettlement(s: Settlement) {
    ValidParty(s.fromParty) && ValidParty(s.toParty) && FitsDecimal(s.amountCad, 14, 2)
  }

  predicate ValidRecentCurrency(r: RecentCurrency) {
    |r.code| <= 3
  }

  // ---------------------------------------------------------------------
  // Defaults and derived text
  // ---------------------------------------------------------------------

  /** An expense created with only the required fields: category lodging,
      currency THB, fx_to_cad 1, both weights 1, empty notes. */
  function NewExpense(id: int, date: Date, description: string, amount: real, paidBy: Person): (e: Expense)
    ensures e.category == Lodging && e.currency == "THB" && e.fxToCad == 1.0
    ensures e.weightHousehold == 1 && e.weightBev == 1 && e.notes == ""
    ensures e.id == id && e.date == date && e.description == description
    ensures e.amount == amount && e.paidBy == paidBy
  {
    Expense(id, date, description, Lodging, "THB", 1.0, amount, paidBy, 1, 1, "")
  }

  /** `Person.__str__`: "name (party name)". */
  function PersonLabel(p: Person): (s: string)
    requires p.party.Some?
    ensures |s| == |p.name| + |p.party.value.name| + 3
    ensures s[..|p.name|] == p.name
    ensures s[|p.name|..] == " (" + p.party.value.name + ")"
  {
    p.name + " (" + p.party.value.name + ")"
  }

  /** A default expense paid by a valid person, with an amount that fits its
      column, is itself valid. */
  lemma NewExpenseValid(id: int, date: Date, description: string, amount: real, paidBy: Person)
    requires |description| <= 200 && FitsDecimal(amount, 14, 2) && ValidPerson(paidBy)
    ensures ValidExpense(NewExpense(id, date, description, amount, paidBy))
  {
    assert Pow10(10) == 10000000000;
    assert Pow10(8) == 100000000;
    assert (1.0 * Pow10(8) as real).Floor == 100000000;
  }

  /** The schema admits an expense whose two weights are both 0. */
  lemma ZeroWeightsAdmitted(e: Expense)
    requires ValidExpense(e)
    ensures ValidExpense(e.(weightHousehold := 0, weightBev := 0))
  {
  }

  /** The schema admits a settlement from a party to itself. */
  lemma SelfSettlementAdmitted(s: Settlement)
    requires ValidSettlement(s)
    ensures ValidSettlement(s.(toParty := s.fromParty))
  {
  }

  // ---------------------------------------------------------------------
  // The FX cache table: at most one row per (date, base, quote)
  // ---------------------------------------------------------------------

  predicate UniqueFxKeys(rows: seq<FxRate>) {
    forall i, j :: 0 <= i < j < |rows| ==> rows[i].key != rows[j].key
  }

  /** The table read as a finite map from its key to its rate. */
  function FxTable(rows: seq<FxRate>): (m: map<FxKey, real>)
    ensures forall k :: k in m <==> exists i :: 0 <= i < |rows| && rows[i].key == k
  {
    if rows == [] then map[]
    else
      var m0 := FxTable(rows[..|rows| - 1]);
      assert forall i :: 0 <= i < |rows| - 1 ==> rows[..|rows| - 1][i] == rows[i];
      m0[rows[|rows| - 1].key := rows[|rows| - 1].rate]
  }

  /** With unique keys, every row's rate is what the map gives for its key. */
  lemma {:induction false} FxTableLookup(rows: seq<FxRate>, i: nat)
    requires UniqueFxKeys(rows)
    requires i < |rows|
    ensures rows[i].key in FxTable(rows) && FxTable(rows)[rows[i].key] == rows[i].rate
  {
    if i < |rows| - 1 {
      var init := rows[..|rows| - 1];
      assert init[i] == rows[i];
      FxTableLookup(init, i);
    }
  }

  // ---------------------------------------------------------------------
  // Listing order of expenses and settlements: newest date first, then
  // higher id first
  // ---------------------------------------------------------------------

  predicate ListedBefore(d1: Date, id1: int, d2: Date, id2: int) {
    d1 > d2 || (d1 == d2 && id1 > id2)
  }

  predicate ExpenseListedBefore(a: Expense, b: Expense) {
    ListedBefore(a.date, a.id, b.date, b.id)
  }

  /** The listing order is a strict total order on records with distinct ids. */
  lemma ListedBeforeStrictTotal(d1: Date, id1: int, d2: Date, id2: int, d3: Date, id3: int)
    ensures !ListedBefore(d1, id1, d1, id1)
    ensures ListedBefore(d1, id1, d2, id2) ==> !ListedBefore(d2, id2, d1, id1)
    ensures ListedBefore(d1, id1, d2, id2) && ListedBefore(d2, id2, d3, id3) ==> ListedBefore(d1, id1, d3, id3)
    ensures id1 != id2 ==> ListedBefore(d1, id1, d2, id2) || ListedBefore(d2, id2, d1, id1)
  {
  }

  predicate ExpensesListed(es: seq<Expense>) {
    forall i, j :: 0 <= i < j < |es| ==> ExpenseListedBefore(es[i], es[j])
  }

  /** Ordering by newest date, then highest id, fixes the listing: two listed
      sequences holding the same expenses are the same sequence. */
  lemma {:induction false} ListingUnique(a: seq<Expense>, b: seq<Expense>)
    requires ExpensesListed(a) && ExpensesListed(b)
    requires multiset(a) == multiset(b)
    ensures a == b
    decreases |a|
  {
    if a == [] || b == [] {
      assert |a| == |multiset(a)| == |multiset(b)| == |b|;
    } else {
      ListedHeadsAgree(a, b);
      assert a == [a[0]] + a[1..];
      assert b == [b[0]] + b[1..];
      assert multiset(a) == multiset{a[0]} + multiset(a[1..]);
      assert multiset(b) == multiset{b[0]} + multiset(b[1..]);
      assert multiset(a[1..]) == multiset(a) - multiset{a[0]} == multiset(b[1..]);
      ListingUnique(a[1..], b[1..]);
    }
  }

  /** Two listed sequences of the same expenses start with the same one. */
  lemma ListedHeadsAgree(a: seq<Expense>, b: seq<Expense>)
    requires ExpensesListed(a) && ExpensesListed(b)
    requires multiset(a) == multiset(b)
    requires a != [] && b != []
    ensures a[0] == b[0]
  {
    assert a[0] in multiset(b) && b[0] in multiset(a);
    var i :| 0 <= i < |a| && a[i] == b[0];
    var j :| 0 <= j < |b| && b[j] == a[0];
    assert i == 0 || ExpenseListedBefore(a[0], b[0]);
    assert j == 0 || ExpenseListedBefore(b[0], a[0]);
  }
}
