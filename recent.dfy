/**
 * The per-user recent-currency store behind `recent_currencies`.  A POST
 * normalises the code and upserts the row keyed by (user, code), refreshing its
 * `updated_at`; a GET returns the caller's five most recently updated codes,
 * newest first.  The wall clock behind `auto_now` is a counter the store
 * advances on every save.
 */
module RecentCurrencies {
  import opened Schema
  import opened Wrappers
  import Text

  /** The GET returns at most this many codes. */
  const RecentLimit: nat := 5

  // ---------------------------------------------------------------------
  // The table
  // ---------------------------------------------------------------------

  /** The (user, code) pairs present in the table. */
  function Keys(rows: seq<RecentCurrency>): set<(UserId, string)> {
    set r | r in rows :: (r.user, r.code)
  }

  /** The `unique_together = ("user", "code")` constraint. */
  predicate UniqueRows(rows: seq<RecentCurrency>) {
    forall i, j :: 0 <= i < j < |rows| ==>
      (rows[i].user, rows[i].code) != (rows[j].user, rows[j].code)
  }

  predicate StampsBelow(rows: seq<RecentCurrency>, t: nat) {
    forall i :: 0 <= i < |rows| ==> rows[i].updatedAt < t
  }

  predicate DistinctStamps(rows: seq<RecentCurrency>) {
    forall i, j :: 0 <= i < j < |rows| ==> rows[i].updatedAt != rows[j].updatedAt
  }

  predicate ColumnsFit(rows: seq<RecentCurrency>) {
    forall i :: 0 <= i < |rows| ==> ValidRecentCurrency(rows[i])
  }

  /** `update_or_create(user=user, code=code)` at time `t`: the existing row
      for the pair gets the new `updated_at`, or a new row is added. */
  function Upsert(rows: seq<RecentCurrency>, user: UserId, code: string, t: nat): (r: seq<RecentCurrency>)
  {
    if (user, code) in Keys(rows) then
      seq(|rows|, i requires 0 <= i < |rows| =>
        if rows[i].user == user && rows[i].code == code then rows[i].(updatedAt := t) else rows[i])
    else rows + [RecentCurrency(user, code, t)]
  }

  lemma KeyIndex(rows: seq<RecentCurrency>, user: UserId, code: string) returns (i: nat)
    requires (user, code) in Keys(rows)
    ensures i < |rows| && rows[i].user == user && rows[i].code == code
  {
    var r :| r in rows && (r.user, r.code) == (user, code);
    var k :| 0 <= k < |rows| && rows[k] == r;
    i := k;
  }

  /** After an upsert the pair is present, and no other pair appears or
      disappears. */
  lemma UpsertKeys(rows: seq<RecentCurrency>, user: UserId, code: string, t: nat)
    ensures Keys(Upsert(rows, user, code, t)) == Keys(rows) + {(user, code)}
  {
    var r := Upsert(rows, user, code, t);
    if (user, code) in Keys(rows) {
      forall k | k in Keys(r) ensures k in Keys(rows) + {(user, code)} {
        var w :| w in r && (w.user, w.code) == k;
        var j :| 0 <= j < |r| && r[j] == w;
        assert (rows[j].user, rows[j].code) == k;
      }
      forall k | k in Keys(rows) ensures k in Keys(r) {
        var w :| w in rows && (w.user, w.code) == k;
        var j :| 0 <= j < |rows| && rows[j] == w;
        assert (r[j].user, r[j].code) == k;
      }
    } else {
      assert forall w :: w in r <==> w in rows || w == RecentCurrency(user, code, t);
    }
  }

  /** Re-posting a code that is already present does not add a row. */
  lemma UpsertSize(rows: seq<RecentCurrency>, user: UserId, code: string, t: nat)
    ensures |Upsert(rows, user, code, t)| == |rows| + (if (user, code) in Keys(rows) then 0 else 1)
  {
  }

  /** Rows for every other pair are left as they were. */
  lemma UpsertOthersUnchanged(rows: seq<RecentCurrency>, user: UserId, code: string, t: nat, i: nat)
    requires i < |rows| && (rows[i].user, rows[i].code) != (user, code)
    ensures i < |Upsert(rows, user, code, t)| && Upsert(rows, user, code, t)[i] == rows[i]
  {
  }

  /** The row for the posted pair carries the new time. */
  lemma UpsertStamps(rows: seq<RecentCurrency>, user: UserId, code: string, t: nat)
    ensures RecentCurrency(user, code, t) in Upsert(rows, user, code, t)
  {
    var r := Upsert(rows, user, code, t);
    if (user, code) in Keys(rows) {
      var i := KeyIndex(rows, user, code);
      assert r[i] == RecentCurrency(user, code, t);
    } else {
      assert r[|rows|] == RecentCurrency(user, code, t);
    }
  }

  /** An upsert keeps the uniqueness constraint, and with `t` later than every
      stored time it keeps the stored times distinct and below `t + 1`. */
  lemma UpsertValid(rows: seq<RecentCurrency>, user: UserId, code: string, t: nat)
    requires UniqueRows(rows) && StampsBelow(rows, t) && DistinctStamps(rows)
    ensures var r := Upsert(rows, user, code, t);
            UniqueRows(r) && StampsBelow(r, t + 1) && DistinctStamps(r)
  {
    var r := Upsert(rows, user, code, t);
    if (user, code) in Keys(rows) {
      forall i, j | 0 <= i < j < |r| ensures r[i].updatedAt != r[j].updatedAt {
        assert rows[i].updatedAt != rows[j].updatedAt;
        if rows[i].user == user && rows[i].code == code {
          assert !(rows[j].user == user && rows[j].code == code);
        }
      }
    } else {
      forall i | 0 <= i < |rows| ensures (rows[i].user, rows[i].code) != (user, code) {
        assert rows[i] in rows;
      }
    }
  }

  /** A code of at most three characters keeps every row within its column. */
  lemma UpsertColumnsFit(rows: seq<RecentCurrency>, user: UserId, code: string, t: nat)
    requires ColumnsFit(rows) && |code| <= 3
    ensures ColumnsFit(Upsert(rows, user, code, t))
  {
  }

  /** Every row with a time of at least `t` is the posted pair's, when every
      stored time was below `t`. */
  lemma UpsertNewest(rows: seq<RecentCurrency>, user: UserId, code: string, t: nat, w: RecentCurrency)
    requires StampsBelow(rows, t)
    requires w in Upsert(rows, user, code, t) && w.updatedAt >= t
    ensures w == RecentCurrency(user, code, t)
  {
    var r := Upsert(rows, user, code, t);
    var j :| 0 <= j < |r| && r[j] == w;
    if j < |rows| {
      assert rows[j].updatedAt < t;
    }
  }

  // ---------------------------------------------------------------------
  // The GET query
  // ---------------------------------------------------------------------

  /** `filter(user=user)`. */
  function ForUser(rows: seq<RecentCurrency>, user: UserId): (r: seq<RecentCurrency>)
    ensures forall w :: w in r <==> w in rows && w.user == user
  {
    if rows == [] then []
    else
      var rest := ForUser(rows[1..], user);
      assert forall w :: w in rows <==> w == rows[0] || w in rows[1..];
      if rows[0].user == user then [rows[0]] + rest else rest
  }

  /** The tail of a table with unique pairs has unique pairs, none of them
      the head's. */
  lemma UniqueTail(rows: seq<RecentCurrency>)
    requires rows != [] && UniqueRows(rows)
    ensures UniqueRows(rows[1..])
    ensures forall w :: w in rows[1..] ==> (w.user, w.code) != (rows[0].user, rows[0].code)
  {
    forall i, j | 0 <= i < j < |rows[1..]|
      ensures (rows[1..][i].user, rows[1..][i].code) != (rows[1..][j].user, rows[1..][j].code)
    {
      assert rows[1..][i] == rows[i + 1] && rows[1..][j] == rows[j + 1];
    }
    forall w | w in rows[1..] ensures (w.user, w.code) != (rows[0].user, rows[0].code) {
      var j :| 0 <= j < |rows[1..]| && rows[1..][j] == w;
      assert rows[j + 1] == w;
    }
  }

  /** With unique pairs, one user's rows never repeat a code. */
  lemma {:induction false} ForUserDistinct(rows: seq<RecentCurrency>, user: UserId)
    ensures UniqueRows(rows) ==> DistinctCodes(ForUser(rows, user))
  {
    if rows != [] && UniqueRows(rows) {
      UniqueTail(rows);
      ForUserDistinct(rows[1..], user);
      var rest := ForUser(rows[1..], user);
      if rows[0].user == user {
        ConsDistinct(rows[0], rest);
        assert ForUser(rows, user) == [rows[0]] + rest;
      } else {
        assert ForUser(rows, user) == rest;
      }
    }
  }

  predicate DistinctCodes(s: seq<RecentCurrency>) {
    forall i, j :: 0 <= i < j < |s| ==> s[i].code != s[j].code
  }

  predicate NewestFirst(s: seq<RecentCurrency>) {
    forall i, j :: 0 <= i < j < |s| ==> s[i].updatedAt >= s[j].updatedAt
  }

  function InsertByRecency(x: RecentCurrency, s: seq<RecentCurrency>): (r: seq<RecentCurrency>)
    ensures forall w :: w in r <==> w == x || w in s
  {
    if s == [] then [x]
    else if x.updatedAt >= s[0].updatedAt then [x] + s
    else
      assert forall w :: w in s <==> w == s[0] || w in s[1..];
      [s[0]] + InsertByRecency(x, s[1..])
  }

  lemma {:induction false} InsertNewestFirst(x: RecentCurrency, s: seq<RecentCurrency>)
    requires NewestFirst(s)
    ensures NewestFirst(InsertByRecency(x, s))
  {
    if s == [] {
    } else if x.updatedAt >= s[0].updatedAt {
      StampsTail(s);
      ConsNewest(x, s);
    } else {
      var t := InsertByRecency(x, s[1..]);
      StampsTail(s);
      InsertNewestFirst(x, s[1..]);
      ConsNewest(s[0], t);
      assert InsertByRecency(x, s) == [s[0]] + t;
    }
  }

  /** The tail of a newest-first sequence is newest first, and no row of the
      sequence is newer than its head. */
  lemma StampsTail(s: seq<RecentCurrency>)
    requires s != [] && NewestFirst(s)
    ensures NewestFirst(s[1..])
    ensures forall w :: w in s ==> w.updatedAt <= s[0].updatedAt
    ensures forall w :: w in s[1..] ==> w in s
  {
    forall i, j | 0 <= i < j < |s[1..]| ensures s[1..][i].updatedAt >= s[1..][j].updatedAt {
      assert s[1..][i] == s[i + 1] && s[1..][j] == s[j + 1];
    }
    forall w | w in s[1..] ensures w in s {
      var j :| 0 <= j < |s[1..]| && s[1..][j] == w;
      assert s[j + 1] == w;
    }
  }

  /** Putting a row no older than any other in front keeps newest-first. */
  lemma ConsNewest(x: RecentCurrency, t: seq<RecentCurrency>)
    requires NewestFirst(t) && forall w :: w in t ==> w.updatedAt <= x.updatedAt
    ensures NewestFirst([x] + t)
  {
    var r := [x] + t;
    forall i, j | 0 <= i < j < |r| ensures r[i].updatedAt >= r[j].updatedAt {
      assert r[j] == t[j - 1] && t[j - 1] in t;
      if i > 0 {
        assert r[i] == t[i - 1];
      }
    }
  }

  lemma {:induction false} InsertPermutes(x: RecentCurrency, s: seq<RecentCurrency>)
    ensures multiset(InsertByRecency(x, s)) == multiset(s) + multiset{x}
  {
    if s == [] {
      assert InsertByRecency(x, s) == [x];
    } else if x.updatedAt >= s[0].updatedAt {
      assert InsertByRecency(x, s) == [x] + s;
    } else {
      var t := InsertByRecency(x, s[1..]);
      InsertPermutes(x, s[1..]);
      assert InsertByRecency(x, s) == [s[0]] + t;
      assert multiset([s[0]] + t) == multiset{s[0]} + multiset(t);
      assert s == [s[0]] + s[1..];
      assert multiset(s) == multiset{s[0]} + multiset(s[1..]);
    }
  }

  lemma {:induction false} InsertDistinctCodes(x: RecentCurrency, s: seq<RecentCurrency>)
    requires DistinctCodes(s) && forall w :: w in s ==> w.code != x.code
    ensures DistinctCodes(InsertByRecency(x, s))
  {
    if s == [] {
    } else if x.updatedAt >= s[0].updatedAt {
      ConsDistinct(x, s);
    } else {
      var t := InsertByRecency(x, s[1..]);
      CodesTail(s);
      InsertDistinctCodes(x, s[1..]);
      assert x.code != s[0].code;
      ConsDistinct(s[0], t);
      assert InsertByRecency(x, s) == [s[0]] + t;
    }
  }

  /** Putting a row with a fresh code in front keeps the codes distinct. */
  lemma ConsDistinct(x: RecentCurrency, t: seq<RecentCurrency>)
    requires DistinctCodes(t) && forall w :: w in t ==> w.code != x.code
    ensures DistinctCodes([x] + t)
  {
    var r := [x] + t;
    forall i, j | 0 <= i < j < |r| ensures r[i].code != r[j].code {
      assert r[j] == t[j - 1] && t[j - 1] in t;
      if i > 0 {
        assert r[i] == t[i - 1];
      }
    }
  }

  /** The tail of a sequence with distinct codes has distinct codes, none of
      them the head's. */
  lemma CodesTail(s: seq<RecentCurrency>)
    requires s != [] && DistinctCodes(s)
    ensures DistinctCodes(s[1..])
    ensures forall w :: w in s[1..] ==> w in s && w.code != s[0].code
  {
    forall i, j | 0 <= i < j < |s[1..]| ensures s[1..][i].code != s[1..][j].code {
      assert s[1..][i] == s[i + 1] && s[1..][j] == s[j + 1];
    }
    forall w | w in s[1..] ensures w in s && w.code != s[0].code {
      var j :| 0 <= j < |s[1..]| && s[1..][j] == w;
      assert s[j + 1] == w;
    }
  }

  /** `order_by("-updated_at")`. */
  function SortByRecency(s: seq<RecentCurrency>): (r: seq<RecentCurrency>)
    ensures forall w :: w in r <==> w in s
  {
    if s == [] then []
    else
      assert forall w :: w in s <==> w == s[0] || w in s[1..];
      InsertByRecency(s[0], SortByRecency(s[1..]))
  }

  /** The sort orders the rows newest first and is a permutation. */
  lemma {:induction false} SortByRecencySpec(s: seq<RecentCurrency>)
    ensures NewestFirst(SortByRecency(s))
    ensures multiset(SortByRecency(s)) == multiset(s)
  {
    if s != [] {
      SortByRecencySpec(s[1..]);
      InsertNewestFirst(s[0], SortByRecency(s[1..]));
      InsertPermutes(s[0], SortByRecency(s[1..]));
      assert s == [s[0]] + s[1..];
    }
  }

  /** The sort keeps the codes distinct. */
  lemma {:induction false} SortByRecencyDistinct(s: seq<RecentCurrency>)
    ensures DistinctCodes(s) ==> DistinctCodes(SortByRecency(s))
  {
    if s != [] && DistinctCodes(s) {
      CodesTail(s);
      SortByRecencyDistinct(s[1..]);
      InsertDistinctCodes(s[0], SortByRecency(s[1..]));
    }
  }

  /** The rows behind the GET: the caller's rows, newest first, the first
      five.  Every returned row is the caller's; a row of the caller's that is
      left out is no newer than any returned one, and is left out only when
      five are returned. */
  function RecentRows(rows: seq<RecentCurrency>, user: UserId): (r: seq<RecentCurrency>)
    ensures |r| <= RecentLimit
    ensures forall w :: w in r ==> w in rows && w.user == user
    ensures NewestFirst(r)
    ensures forall w :: w in rows && w.user == user && w !in r ==>
              |r| == RecentLimit && forall i :: 0 <= i < |r| ==> r[i].updatedAt >= w.updatedAt
    ensures UniqueRows(rows) ==> DistinctCodes(r)
  {
    var f := ForUser(rows, user);
    ForUserDistinct(rows, user);
    var s := SortByRecency(f);
    SortByRecencySpec(f);
    SortByRecencyDistinct(f);
    NewestPrefix(s, RecentLimit);
    if |s| <= RecentLimit then s else s[..RecentLimit]
  }

  /** The first `n` rows of a newest-first sequence: still newest first, still
      distinct, and no newer than any row left out. */
  lemma NewestPrefix(s: seq<RecentCurrency>, n: nat)
    requires NewestFirst(s)
    ensures var r := if |s| <= n then s else s[..n];
            NewestFirst(r) && (DistinctCodes(s) ==> DistinctCodes(r)) &&
            (forall w :: w in r ==> w in s) &&
            (forall w :: w in s && w !in r ==>
               |r| == n && forall i :: 0 <= i < |r| ==> r[i].updatedAt >= w.updatedAt)
  {
    if |s| > n {
      var r := s[..n];
      assert forall i :: 0 <= i < n ==> r[i] == s[i];
      assert forall w :: w in r ==> w in s;
      forall w | w in s && w !in r
        ensures forall i :: 0 <= i < n ==> r[i].updatedAt >= w.updatedAt
      {
        var k :| 0 <= k < |s| && s[k] == w;
        forall i | 0 <= i < n ensures s[i] != w {
          assert r[i] == s[i] && r[i] in r;
        }
        assert k >= n;
      }
    }
  }

  function Codes(s: seq<RecentCurrency>): (r: seq<string>)
    ensures |r| == |s| && forall i :: 0 <= i < |s| ==> r[i] == s[i].code
  {
    seq(|s|, i requires 0 <= i < |s| => s[i].code)
  }

  /** `values_list("code", flat=True)[:5]` of the query above. */
  function RecentFor(rows: seq<RecentCurrency>, user: UserId): seq<string> {
    Codes(RecentRows(rows, user))
  }

  /** The GET returns at most five codes, each one the caller has, and no code
      twice. */
  lemma RecentForBounded(rows: seq<RecentCurrency>, user: UserId)
    requires UniqueRows(rows)
    ensures |RecentFor(rows, user)| <= RecentLimit
    ensures forall i :: 0 <= i < |RecentFor(rows, user)| ==> (user, RecentFor(rows, user)[i]) in Keys(rows)
    ensures forall i, j :: 0 <= i < j < |RecentFor(rows, user)| ==> RecentFor(rows, user)[i] != RecentFor(rows, user)[j]
  {
    var r := RecentRows(rows, user);
    forall i | 0 <= i < |r| ensures (user, r[i].code) in Keys(rows) {
      assert r[i] in r;
    }
  }

  /** Right after a code is posted it is the first code the poster's GET
      returns. */
  lemma PostedCodeFirst(rows: seq<RecentCurrency>, user: UserId, code: string, t: nat)
    requires StampsBelow(rows, t)
    ensures var codes := RecentFor(Upsert(rows, user, code, t), user);
            |codes| > 0 && codes[0] == code
  {
    var u := Upsert(rows, user, code, t);
    var w := RecentCurrency(user, code, t);
    UpsertStamps(rows, user, code, t);
    var r := RecentRows(u, user);
    if w in r {
      var k :| 0 <= k < |r| && r[k] == w;
      assert r[0].updatedAt >= t;
    } else {
      assert r[0].updatedAt >= t;
    }
    assert r[0] in r;
    UpsertNewest(rows, user, code, t, r[0]);
  }

  /** Filtering a table extended by one row. */
  lemma {:induction false} ForUserAppend(rows: seq<RecentCurrency>, w: RecentCurrency, user: UserId)
    ensures ForUser(rows + [w], user) == ForUser(rows, user) + (if w.user == user then [w] else [])
  {
    if rows == [] {
      assert rows + [w] == [w];
      assert [w][1..] == [];
    } else {
      assert (rows + [w])[1..] == rows[1..] + [w];
      ForUserAppend(rows[1..], w, user);
    }
  }

  /** Two tables that agree on every row either of them has for `user` give
      the same filtered rows. */
  lemma {:induction false} ForUserAgree(a: seq<RecentCurrency>, b: seq<RecentCurrency>, user: UserId)
    requires |a| == |b|
    requires forall i :: 0 <= i < |a| ==> (a[i].user == user || b[i].user == user ==> a[i] == b[i])
    ensures ForUser(a, user) == ForUser(b, user)
  {
    if a != [] {
      ForUserAgree(a[1..], b[1..], user);
    }
  }

  /** A POST by one user does not change what another user's GET returns. */
  lemma UpsertOtherUser(rows: seq<RecentCurrency>, user: UserId, code: string, t: nat, other: UserId)
    requires other != user
    ensures RecentFor(Upsert(rows, user, code, t), other) == RecentFor(rows, other)
  {
    if (user, code) in Keys(rows) {
      ForUserAgree(rows, Upsert(rows, user, code, t), other);
    } else {
      ForUserAppend(rows, RecentCurrency(user, code, t), other);
      assert ForUser(rows, other) + [] == ForUser(rows, other);
    }
  }

  // ---------------------------------------------------------------------
  // The POST
  // ---------------------------------------------------------------------

  /** The POST's reply: saved, the 400 for an empty code, or the database
      error for a code longer than the `max_length=3` column. */
  datatype PostOutcome = Saved | CodeRequired | CodeTooLong

  /** `(request.data.get("code") or "").upper().strip()`. */
  function PostedCode(code: Option<string>): string {
    Text.Normalize(match code case None => "" case Some(c) => c)
  }

  function PostOutcomeOf(code: Option<string>): (o: PostOutcome)
    ensures o == CodeRequired <==> PostedCode(code) == []
    ensures o == CodeTooLong <==> |PostedCode(code)| > 3
    ensures o == Saved <==> 0 < |PostedCode(code)| <= 3
  {
    var c := PostedCode(code);
    if c == [] then CodeRequired
    else if |c| > 3 then CodeTooLong
    else Saved
  }

  /** Whitespace-only or missing codes are refused. */
  lemma BlankCodeRefused(s: string)
    requires forall k :: 0 <= k < |s| ==> Text.IsSpace(s[k])
    ensures PostOutcomeOf(Some(s)) == CodeRequired && PostOutcomeOf(None) == CodeRequired
  {
    Text.NormalizeIgnoresSurroundingSpace(s, [], []);
    assert s + [] + [] == s;
  }

  class RecentStore {
    var rows: seq<RecentCurrency>
    /** The next `updated_at` to hand out. */
    var clock: nat

    predicate Valid()
      reads this
    {
      UniqueRows(rows) && StampsBelow(rows, clock) && DistinctStamps(rows) && ColumnsFit(rows)
    }

    constructor()
      ensures Valid() && rows == [] && clock == 0
    {
      rows := [];
      clock := 0;
    }

    /** POST: normalise the code, refuse an empty one, upsert otherwise. */
    method Post(user: UserId, code: Option<string>) returns (outcome: PostOutcome)
      requires Valid()
      modifies this
      ensures Valid()
      ensures outcome == PostOutcomeOf(code)
      ensures outcome == Saved ==>
                rows == Upsert(old(rows), user, PostedCode(code), old(clock)) && clock == old(clock) + 1
      ensures outcome != Saved ==> rows == old(rows) && clock == old(clock)
    {
      var c := PostedCode(code);
      if c == [] {
        return CodeRequired;
      }
      if |c| > 3 {
        return CodeTooLong;
      }
      UpsertValid(rows, user, c, clock);
      UpsertColumnsFit(rows, user, c, clock);
      rows := Upsert(rows, user, c, clock);
      clock := clock + 1;
      outcome := Saved;
    }

    /** GET: the caller's five most recent codes. */
    method Recent(user: UserId) returns (codes: seq<string>)
      requires Valid()
      ensures codes == RecentFor(rows, user)
      ensures |codes| <= RecentLimit
    {
      codes := RecentFor(rows, user);
    }
  }
}
