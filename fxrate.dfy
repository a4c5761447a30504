/**
 * The FX-rate endpoint: a cache of rates keyed by (date, base, quote) in front
 * of an upstream rate service.  A cached key is answered from the cache; a
 * missing one is fetched, stored and returned; when the fetch fails the reply
 * is the placeholder rate 1 and nothing is stored.  The upstream service, the
 * ISO date parser and today's date are parameters.
 */
module FxRates {
  import opened Wrappers
  import opened Schema
  import Text

  /** The query string: each parameter may be absent. */
  datatype FxRequest = FxRequest(date: Option<string>, base: Option<string>, quote: Option<string>)

  datatype Source = Cache | LiveFrankfurter | Fallback

  /** A rate reply, the 400 for an unparsable date, or the database error
      raised when a fetched rate is stored under a code longer than the
      `max_length=3` columns. */
  datatype FxReply = Rate(key: FxKey, rate: real, source: Source) | InvalidDate | StorageError

  /** `(value or default).upper()`: an absent or empty parameter takes the
      default; the value is upper-cased but not stripped. */
  function CodeParam(v: Option<string>, default: string): (r: string)
    ensures v.None? || v == Some("") ==> r == Text.Upper(default)
    ensures v.Some? && v.value != "" ==> r == Text.Upper(v.value)
  {
    Text.Upper(match v case None => default case Some(s) => if s == "" then default else s)
  }

  /** The cache key a request asks for, or `None` when its date does not
      parse.  An absent or empty date means today. */
  function RequestKey(req: FxRequest, parse: string -> Option<Date>, today: Date): (k: Option<FxKey>)
    ensures (req.date.None? || req.date == Some("")) ==> k.Some? && k.value.date == today
    ensures req.date.Some? && req.date.value != "" ==>
              (k.None? <==> parse(req.date.value).None?) &&
              (k.Some? ==> k.value.date == parse(req.date.value).value)
    ensures k.Some? ==> k.value.base == CodeParam(req.base, "CAD") && k.value.quote == CodeParam(req.quote, "THB")
  {
    var base := CodeParam(req.base, "CAD");
    var quote := CodeParam(req.quote, "THB");
    var d := match req.date
      case None => Some(today)
      case Some(s) => if s == "" then Some(today) else parse(s);
    match d
    case None => None
    case Some(day) => Some(FxKey(day, base, quote))
  }

  /** With no parameters the request is for today's CAD to THB rate. */
  lemma DefaultRequest(parse: string -> Option<Date>, today: Date)
    ensures RequestKey(FxRequest(None, None, None), parse, today) == Some(FxKey(today, "CAD", "THB"))
  {
    assert Text.Upper("CAD") == "CAD";
    assert Text.Upper("THB") == "THB";
  }

  /** Letter case in the codes does not matter: a request and its upper-cased
      form ask for the same key. */
  lemma RequestKeyCaseInsensitive(date: Option<string>, base: string, quote: string,
                                  parse: string -> Option<Date>, today: Date)
    ensures RequestKey(FxRequest(date, Some(base), Some(quote)), parse, today) ==
            RequestKey(FxRequest(date, Some(Text.Upper(base)), Some(Text.Upper(quote))), parse, today)
  {
    Text.UpperNoLower(Text.Upper(base));
    Text.UpperNoLower(Text.Upper(quote));
  }

  /** What serving one request does: the reply, the cache afterwards, and
      whether the upstream service was asked. */
  datatype Outcome = Outcome(reply: FxReply, rates: map<FxKey, real>, fetched: bool)

  /** Serving the key `key` against the cache `rates`. */
  function Serve(rates: map<FxKey, real>, key: FxKey, upstream: FxKey -> Option<real>): (o: Outcome)
    ensures o.fetched <==> key !in rates
    ensures o.reply.Rate? ==> o.reply.key == key
    ensures o.reply.Rate? && o.reply.source == Cache ==> key in rates && o.reply.rate == rates[key] && o.rates == rates
    ensures o.reply.Rate? && o.reply.source == Fallback ==> o.reply.rate == 1.0 && o.rates == rates
    ensures o.reply.Rate? && o.reply.source == LiveFrankfurter ==>
              upstream(key) == Some(o.reply.rate) && o.rates == rates[key := o.reply.rate]
    ensures o.reply.Rate? || o.reply.StorageError?
  {
    if key in rates then Outcome(Rate(key, rates[key], Cache), rates, false)
    else match upstream(key)
      case None => Outcome(Rate(key, 1.0, Fallback), rates, true)
      case Some(v) =>
        if |key.base| > 3 || |key.quote| > 3 then Outcome(StorageError, rates, true)
        else Outcome(Rate(key, v, LiveFrankfurter), rates[key := v], true)
  }

  /** Serving a whole request: an unparsable date is refused before the cache
      is looked at. */
  function Respond(rates: map<FxKey, real>, req: FxRequest, parse: string -> Option<Date>, today: Date,
                   upstream: FxKey -> Option<real>): (o: Outcome)
    ensures RequestKey(req, parse, today).None? ==> o == Outcome(InvalidDate, rates, false)
    ensures RequestKey(req, parse, today).Some? ==> o == Serve(rates, RequestKey(req, parse, today).value, upstream)
  {
    match RequestKey(req, parse, today)
    case None => Outcome(InvalidDate, rates, false)
    case Some(key) => Serve(rates, key, upstream)
  }

  /** A cached key is answered from the cache without asking upstream. */
  lemma CacheHit(rates: map<FxKey, real>, key: FxKey, upstream: FxKey -> Option<real>)
    requires key in rates
    ensures Serve(rates, key, upstream) == Outcome(Rate(key, rates[key], Cache), rates, false)
  {
  }

  /** A failed fetch replies with rate 1 from the fallback and stores
      nothing. */
  lemma FetchFails(rates: map<FxKey, real>, key: FxKey, upstream: FxKey -> Option<real>)
    requires key !in rates && upstream(key).None?
    ensures Serve(rates, key, upstream) == Outcome(Rate(key, 1.0, Fallback), rates, true)
  {
  }

  /** A successful fetch is stored under its key and returned as live. */
  lemma FetchSucceeds(rates: map<FxKey, real>, key: FxKey, upstream: FxKey -> Option<real>)
    requires key !in rates && upstream(key).Some?
    requires |key.base| <= 3 && |key.quote| <= 3
    ensures var v := upstream(key).value;
            Serve(rates, key, upstream) == Outcome(Rate(key, v, LiveFrankfurter), rates[key := v], true)
  {
  }

  /** Serving never removes or changes a cached rate, and adds at most the
      requested key. */
  lemma ServeOnlyAdds(rates: map<FxKey, real>, key: FxKey, upstream: FxKey -> Option<real>)
    ensures var o := Serve(rates, key, upstream);
            (forall k :: k in rates ==> k in o.rates && o.rates[k] == rates[k]) &&
            (forall k :: k in o.rates ==> k in rates || k == key)
  {
  }

  /** Once a fetched rate is stored, asking again is a cache hit with the same
      rate, whatever the upstream service says by then. */
  lemma SecondRequestHitsCache(rates: map<FxKey, real>, key: FxKey,
                               upstream: FxKey -> Option<real>, later: FxKey -> Option<real>)
    requires Serve(rates, key, upstream).reply.Rate?
    requires Serve(rates, key, upstream).reply.source != Fallback
    ensures var o := Serve(rates, key, upstream);
            Serve(o.rates, key, later) == Outcome(Rate(key, o.reply.rate, Cache), o.rates, false)
  {
  }

  /** Every cached key has codes that fit their columns. */
  predicate KeysFit(rates: map<FxKey, real>) {
    forall k :: k in rates ==> |k.base| <= 3 && |k.quote| <= 3
  }

  lemma ServeKeepsKeysFit(rates: map<FxKey, real>, key: FxKey, upstream: FxKey -> Option<real>)
    requires KeysFit(rates)
    ensures KeysFit(Serve(rates, key, upstream).rates)
  {
  }

  /** The cache table, read as a map, and the log of upstream fetches. */
  class FxCache {
    var rates: map<FxKey, real>
    ghost var fetched: seq<FxKey>

    predicate Valid()
      reads this
    {
      KeysFit(rates)
    }

    constructor()
      ensures Valid() && rates == map[] && fetched == []
    {
      rates := map[];
      fetched := [];
    }

    /** `fx_rate`: normalise the request, answer from the cache, or fetch,
        store and answer. */
    method Lookup(req: FxRequest, parse: string -> Option<Date>, today: Date,
                  upstream: FxKey -> Option<real>) returns (reply: FxReply)
      requires Valid()
      modifies this
      ensures Valid()
      ensures var o := Respond(old(rates), req, parse, today, upstream);
              reply == o.reply && rates == o.rates &&
              fetched == old(fetched) + (if o.fetched then [RequestKey(req, parse, today).value] else [])
    {
      var k := RequestKey(req, parse, today);
      if k.None? {
        return InvalidDate;
      }
      var key := k.value;
      if key in rates {
        return Rate(key, rates[key], Cache);
      }
      fetched := fetched + [key];
      var got := upstream(key);
      if got.None? {
        return Rate(key, 1.0, Fallback);
      }
      if |key.base| > 3 || |key.quote| > 3 {
        return StorageError;
      }
      rates := rates[key := got.value];
      reply := Rate(key, got.value, LiveFrankfurter);
    }
  }
}
