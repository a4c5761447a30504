/**
 * The shared form controls of the web client: the currency dropdown (recent
 * codes pinned above the full list, the full list reordered recent-first and
 * without duplicates, the recent-currency POST on change), the payer picker's
 * party filter, and the money formatter's placeholder for missing numbers.
 */
module SharedControls {
  import opened Wrappers
  import opened Schema
  import Text
  import RecentCurrencies

  const DefaultCurrencies: seq<string> :=
    ["CAD", "USD", "THB", "JPY", "EUR", "GBP", "AUD", "NZD", "SGD", "PHP", "VND", "IDR"]

  // ---------------------------------------------------------------------
  // Sequences of codes
  // ---------------------------------------------------------------------

  predicate NoDuplicates<T(==)>(s: seq<T>) {
    forall i, j :: 0 <= i < j < |s| ==> s[i] != s[j]
  }

  function Elems<T>(s: seq<T>): set<T> {
    set x | x in s
  }

  /** Dropping the head of a duplicate-free sequence keeps it duplicate-free,
      and the head does not occur again. */
  lemma NoDuplicatesTail<T>(s: seq<T>)
    requires s != [] && NoDuplicates(s)
    ensures NoDuplicates(s[1..])
    ensures forall x :: x in s[1..] ==> x in s && x != s[0]
  {
    forall i, j | 0 <= i < j < |s[1..]| ensures s[1..][i] != s[1..][j] {
      assert s[1..][i] == s[i + 1] && s[1..][j] == s[j + 1];
    }
    forall x | x in s[1..] ensures x in s && x != s[0] {
      var k :| 0 <= k < |s[1..]| && s[1..][k] == x;
      assert s[k + 1] == x;
    }
  }

  /** The position of the first occurrence of `x` in `s`. */
  function IndexOf<T(==)>(s: seq<T>, x: T): (i: nat)
    requires x in s
    ensures i < |s| && s[i] == x && forall k :: 0 <= k < i ==> s[k] != x
  {
    if s[0] == x then 0 else 1 + IndexOf(s[1..], x)
  }

  /** `Array.from(new Set(s))` after the elements of `seen` are already in the
      set: the first occurrence of each element not in `seen`, in order. */
  function DedupFrom<T(==)>(s: seq<T>, seen: set<T>): (r: seq<T>)
    ensures Elems(r) == Elems(s) - seen
  {
    if s == [] then []
    else
      var rest := if s[0] in seen then DedupFrom(s[1..], seen) else DedupFrom(s[1..], seen + {s[0]});
      assert Elems(s) == {s[0]} + Elems(s[1..]);
      if s[0] in seen then rest
      else
        assert Elems([s[0]] + rest) == {s[0]} + Elems(rest);
        [s[0]] + rest
  }

  /** No element is kept twice. */
  lemma {:induction false} DedupFromDistinct<T>(s: seq<T>, seen: set<T>)
    ensures NoDuplicates(DedupFrom(s, seen))
  {
    if s != [] {
      if s[0] in seen {
        DedupFromDistinct(s[1..], seen);
      } else {
        var rest := DedupFrom(s[1..], seen + {s[0]});
        DedupFromDistinct(s[1..], seen + {s[0]});
        assert s[0] !in Elems(rest);
        var r := [s[0]] + rest;
        assert DedupFrom(s, seen) == r;
        forall i, j | 0 <= i < j < |r| ensures r[i] != r[j] {
          assert r[j] == rest[j - 1] && rest[j - 1] in Elems(rest);
          if i > 0 {
            assert r[i] == rest[i - 1];
          }
        }
      }
    }
  }

  /** Every kept element comes from `s` and is not in `seen`. */
  lemma DedupFromMembers<T>(s: seq<T>, seen: set<T>, x: T)
    requires x in DedupFrom(s, seen)
    ensures x in s && x !in seen
  {
    assert x in Elems(DedupFrom(s, seen));
  }

  lemma IndexOfTail<T>(s: seq<T>, x: T)
    requires x in s && x != s[0]
    ensures x in s[1..] && IndexOf(s, x) == 1 + IndexOf(s[1..], x)
  {
    assert s == [s[0]] + s[1..];
  }

  /** The kept elements appear in the order of their first occurrence in `s`. */
  lemma {:induction false} DedupFromKeepsOrder<T>(s: seq<T>, seen: set<T>, i: nat, j: nat)
    requires i < j < |DedupFrom(s, seen)|
    ensures DedupFrom(s, seen)[i] in s && DedupFrom(s, seen)[j] in s
    ensures IndexOf(s, DedupFrom(s, seen)[i]) < IndexOf(s, DedupFrom(s, seen)[j])
    decreases |s|, 1
  {
    if s[0] in seen {
      KeepsOrderSkipped(s, seen, i, j);
    } else {
      KeepsOrderKept(s, seen, i, j);
    }
  }

  /** `DedupFromKeepsOrder` when the head of `s` was already seen. */
  lemma {:induction false} KeepsOrderSkipped<T>(s: seq<T>, seen: set<T>, i: nat, j: nat)
    requires s != [] && s[0] in seen
    requires i < j < |DedupFrom(s, seen)|
    ensures DedupFrom(s, seen)[i] in s && DedupFrom(s, seen)[j] in s
    ensures IndexOf(s, DedupFrom(s, seen)[i]) < IndexOf(s, DedupFrom(s, seen)[j])
    decreases |s|, 0
  {
    var rest := DedupFrom(s[1..], seen);
    assert DedupFrom(s, seen) == rest;
    var x, y := rest[i], rest[j];
    DedupFromMembers(s[1..], seen, x);
    DedupFromMembers(s[1..], seen, y);
    DedupFromMembers(s, seen, x);
    DedupFromMembers(s, seen, y);
    IndexOfTail(s, x);
    IndexOfTail(s, y);
    DedupFromKeepsOrder(s[1..], seen, i, j);
  }

  /** `DedupFromKeepsOrder` when the head of `s` is kept. */
  lemma {:induction false} KeepsOrderKept<T>(s: seq<T>, seen: set<T>, i: nat, j: nat)
    requires s != [] && s[0] !in seen
    requires i < j < |DedupFrom(s, seen)|
    ensures DedupFrom(s, seen)[i] in s && DedupFrom(s, seen)[j] in s
    ensures IndexOf(s, DedupFrom(s, seen)[i]) < IndexOf(s, DedupFrom(s, seen)[j])
    decreases |s|, 0
  {
    var rest := DedupFrom(s[1..], seen + {s[0]});
    var r := DedupFrom(s, seen);
    assert r == [s[0]] + rest;
    var y := rest[j - 1];
    assert r[j] == y;
    DedupFromMembers(s, seen, y);
    DedupFromMembers(s[1..], seen + {s[0]}, y);
    assert y != s[0];
    IndexOfTail(s, y);
    if i == 0 {
      assert r[0] == s[0];
      assert IndexOf(s, s[0]) == 0;
    } else {
      var x := rest[i - 1];
      assert r[i] == x;
      DedupFromMembers(s, seen, x);
      DedupFromMembers(s[1..], seen + {s[0]}, x);
      assert x != s[0];
      IndexOfTail(s, x);
      DedupFromKeepsOrder(s[1..], seen + {s[0]}, i - 1, j - 1);
    }
  }

  /** Deduplicating a concatenation: the first part, then what the second adds. */
  lemma {:induction false} DedupFromConcat<T>(a: seq<T>, b: seq<T>, seen: set<T>)
    ensures DedupFrom(a + b, seen) == DedupFrom(a, seen) + DedupFrom(b, seen + Elems(a))
    decreases |a|, 1
  {
    if a == [] {
      assert a + b == b;
      assert seen + Elems(a) == seen;
    } else {
      ConcatStep(a, b, seen);
    }
  }

  /** One step of `DedupFromConcat`: peel the head of `a`. */
  lemma {:induction false} ConcatStep<T>(a: seq<T>, b: seq<T>, seen: set<T>)
    requires a != []
    ensures DedupFrom(a + b, seen) == DedupFrom(a, seen) + DedupFrom(b, seen + Elems(a))
    decreases |a|, 0
  {
    assert (a + b)[1..] == a[1..] + b;
    assert (a + b)[0] == a[0];
    assert Elems(a) == {a[0]} + Elems(a[1..]);
    var seen' := if a[0] in seen then seen else seen + {a[0]};
    assert seen' + Elems(a[1..]) == seen + Elems(a);
    DedupFromConcat(a[1..], b, seen');
  }

  /** A duplicate-free sequence that avoids `seen` is left as it is. */
  lemma {:induction false} DedupFromNoDuplicates<T>(s: seq<T>, seen: set<T>)
    requires NoDuplicates(s) && forall x :: x in s ==> x !in seen
    ensures DedupFrom(s, seen) == s
  {
    if s != [] {
      NoDuplicatesTail(s);
      DedupFromNoDuplicates(s[1..], seen + {s[0]});
      assert DedupFrom(s, seen) == [s[0]] + DedupFrom(s[1..], seen + {s[0]});
      assert s == [s[0]] + s[1..];
    }
  }

  // ---------------------------------------------------------------------
  // The currency dropdown
  // ---------------------------------------------------------------------

  /** `recent.filter(c => all.includes(c))`: the "Recent" group. */
  function Pinned(recent: seq<string>, all: seq<string>): (r: seq<string>)
    ensures forall c :: c in r <==> c in recent && c in all
  {
    if recent == [] then []
    else
      assert recent == [recent[0]] + recent[1..];
      assert forall c :: c in recent <==> c == recent[0] || c in recent[1..];
      (if recent[0] in all then [recent[0]] else []) + Pinned(recent[1..], all)
  }

  /** The filter keeps every occurrence: a listed code occurs in the "Recent"
      group as often as among the recent codes, an unlisted one not at all. */
  lemma {:induction false} PinnedCounts(recent: seq<string>, all: seq<string>, c: string)
    ensures multiset(Pinned(recent, all))[c] == if c in all then multiset(recent)[c] else 0
  {
    if recent != [] {
      PinnedCounts(recent[1..], all, c);
      assert recent == [recent[0]] + recent[1..];
      assert multiset(recent) == multiset{recent[0]} + multiset(recent[1..]);
      var head := if recent[0] in all then [recent[0]] else [];
      assert Pinned(recent, all) == head + Pinned(recent[1..], all);
      assert multiset(Pinned(recent, all)) == multiset(head) + multiset(Pinned(recent[1..], all));
    }
  }

  /** Filtering keeps the order: the filter of a concatenation is the
      concatenation of the filters. */
  lemma {:induction false} PinnedConcat(a: seq<string>, b: seq<string>, all: seq<string>)
    ensures Pinned(a + b, all) == Pinned(a, all) + Pinned(b, all)
  {
    if a == [] {
      assert a + b == b;
    } else {
      assert (a + b)[1..] == a[1..] + b;
      PinnedConcat(a[1..], b, all);
    }
  }

  /** The "All" group: `Array.from(new Set(pinned.concat(all)))`. */
  function Ordered(recent: seq<string>, all: seq<string>): seq<string> {
    DedupFrom(Pinned(recent, all) + all, {})
  }

  /** The "All" group lists every code of `all` exactly once and nothing else:
      recent codes not in `all` are dropped. */
  lemma OrderedElements(recent: seq<string>, all: seq<string>)
    ensures NoDuplicates(Ordered(recent, all))
    ensures forall c :: c in Ordered(recent, all) <==> c in all
  {
    var o := Ordered(recent, all);
    DedupFromDistinct(Pinned(recent, all) + all, {});
    assert forall c :: c in o <==> c in Elems(o);
    assert forall c :: c in Pinned(recent, all) + all <==> c in Pinned(recent, all) || c in all;
  }

  /** The "All" group is the pinned recent codes, deduplicated, followed by
      the codes of `all` that are not recent, deduplicated; `DedupFromKeepsOrder`
      says each part keeps the order of first occurrences. */
  lemma OrderedRecentFirst(recent: seq<string>, all: seq<string>)
    ensures var p := Pinned(recent, all);
            Ordered(recent, all) == DedupFrom(p, {}) + DedupFrom(all, Elems(p))
    ensures forall c :: c in DedupFrom(all, Elems(Pinned(recent, all))) <==> c in all && c !in recent
  {
    var p := Pinned(recent, all);
    DedupFromConcat(p, all, {});
    assert {} + Elems(p) == Elems(p);
    assert forall c :: c in DedupFrom(all, Elems(p)) <==> c in Elems(DedupFrom(all, Elems(p)));
  }

  /** Filtering a duplicate-free list gives a duplicate-free list. */
  lemma {:induction false} PinnedNoDuplicates(recent: seq<string>, all: seq<string>)
    requires NoDuplicates(recent)
    ensures NoDuplicates(Pinned(recent, all))
  {
    if recent != [] {
      var x, tail := recent[0], recent[1..];
      NoDuplicatesTail(recent);
      PinnedNoDuplicates(tail, all);
      var t := Pinned(tail, all);
      if x in all {
        var r := [x] + t;
        forall i, j | 0 <= i < j < |r| ensures r[i] != r[j] {
          assert r[j] == t[j - 1] && t[j - 1] in t;
          if i > 0 {
            assert r[i] == t[i - 1];
          }
        }
      } else {
        assert Pinned(recent, all) == [] + t;
      }
    }
  }

  /** When the recent codes have no duplicates, the "All" group starts with
      exactly the "Recent" group. */
  lemma OrderedStartsWithPinned(recent: seq<string>, all: seq<string>)
    requires NoDuplicates(recent)
    ensures var p := Pinned(recent, all);
            |p| <= |Ordered(recent, all)| && Ordered(recent, all)[..|p|] == p
  {
    var p := Pinned(recent, all);
    OrderedRecentFirst(recent, all);
    PinnedNoDuplicates(recent, all);
    DedupFromNoDuplicates(p, {});
  }

  /** With no recent codes and a duplicate-free list, the "All" group is the
      list itself. */
  lemma OrderedWithoutRecent(all: seq<string>)
    requires NoDuplicates(all)
    ensures Ordered([], all) == all
  {
    assert [] + all == all;
    DedupFromNoDuplicates(all, {});
  }

  /** Every default code is already in normal form, so posting it saves that
      very code. */
  lemma DefaultCurrenciesSaved(c: string)
    requires c in DefaultCurrencies
    ensures RecentCurrencies.PostedCode(Some(c)) == c
    ensures RecentCurrencies.PostOutcomeOf(Some(c)) == RecentCurrencies.Saved
  {
    assert |c| == 3 && forall k :: 0 <= k < 3 ==> 'A' <= c[k] <= 'Z';
    CapitalCodeSaved(c);
  }

  /** Three capital letters are what a POST saves, unchanged. */
  lemma CapitalCodeSaved(c: string)
    requires |c| == 3 && forall k :: 0 <= k < 3 ==> 'A' <= c[k] <= 'Z'
    ensures RecentCurrencies.PostedCode(Some(c)) == c
    ensures RecentCurrencies.PostOutcomeOf(Some(c)) == RecentCurrencies.Saved
  {
    Text.NormalizeOfNormal(c);
    assert RecentCurrencies.PostedCode(Some(c)) == Text.Normalize(c);
  }

  /** What a change of the selected currency does: the new code is reported
      to the form, and posted as recent only when the user may write. */
  datatype ChangeEffects = ChangeEffects(selected: string, posted: Option<string>)

  function HandleChange(code: string, canWrite: bool): (r: ChangeEffects)
    ensures r.selected == code
    ensures r.posted.Some? <==> canWrite
    ensures r.posted.Some? ==> r.posted.value == code
  {
    ChangeEffects(code, if canWrite then Some(code) else None)
  }

  // ---------------------------------------------------------------------
  // The payer picker
  // ---------------------------------------------------------------------

  datatype PayerView = HouseholdView | BevView

  /** The toggle's filter: the household view keeps persons whose party is
      flagged as the household or has the slug "household"; the Bev view keeps
      persons with no party, a party not flagged as the household, or the
      slug "bev". */
  predicate InView(p: Person, view: PayerView) {
    match view
    case HouseholdView => p.party.Some? && (p.party.value.isHousehold || p.party.value.slug == "household")
    case BevView => p.party.None? || !p.party.value.isHousehold || p.party.value.slug == "bev"
  }

  /** `people.filter(...)`, keeping the order. */
  function Filtered(people: seq<Person>, view: PayerView): (r: seq<Person>)
    ensures forall p :: p in r <==> p in people && InView(p, view)
    ensures |r| <= |people|
  {
    if people == [] then []
    else
      assert forall p :: p in people <==> p == people[0] || p in people[1..];
      (if InView(people[0], view) then [people[0]] else []) + Filtered(people[1..], view)
  }

  /** Every person is offered under at least one of the two views. */
  lemma EveryPersonOffered(people: seq<Person>, p: Person)
    requires p in people
    ensures p in Filtered(people, HouseholdView) || p in Filtered(people, BevView)
  {
  }

  /** A person without a party is offered only under Bev. */
  lemma PartylessOnlyUnderBev(people: seq<Person>, p: Person)
    requires p in people && p.party.None?
    ensures p in Filtered(people, BevView) && p !in Filtered(people, HouseholdView)
  {
  }

  /** A person is offered under both views exactly when the party's flag and
      slug disagree: a household party with slug "bev", or a non-household
      party with slug "household". */
  lemma OfferedUnderBoth(p: Person)
    ensures InView(p, HouseholdView) && InView(p, BevView) <==>
            p.party.Some? &&
            ((p.party.value.isHousehold && p.party.value.slug == "bev") ||
             (!p.party.value.isHousehold && p.party.value.slug == "household"))
  {
  }

  // ---------------------------------------------------------------------
  // The money formatter
  // ---------------------------------------------------------------------

  /** The values the formatter is handed. */
  datatype JsValue = Null | Undefined | NaN | Number(value: real) | Text(s: string)

  /** `currency(num)`: a dash for `null`, `undefined` and `NaN`; otherwise the
      locale's CAD formatting, which is a parameter here. */
  function Currency(v: JsValue, format: JsValue -> string): (r: string)
    ensures v.Null? || v.Undefined? || v.NaN? ==> r == "—"
    ensures v.Number? || v.Text? ==> r == format(v)
  {
    if v.Null? || v.Undefined? || v.NaN? then "—" else format(v)
  }
}
