/**
 * The backend exchange-rate service: the USD-pivot converter and the
 * daily cache-or-fetch rate store with its fixed fallback table.
 *
 * The clock, the database and the rate provider are parameters: `today`
 * is the ISO date of the call, `readOk`/`upsertOk` say whether the
 * database calls succeeded, and `provider` is the provider's
 * `conversion_rates` map, or None when the request failed.
 */
module ExchangeRateService {
  import opened Wrappers
  import opened Types

  /** The pivot currency every stored rate is relative to. */
  const BaseCurrency: string := "USD"

  /** The table returned when nothing better is known. */
  const Fallback: RateTable := RateTable(1.0, 160.0, 0.91)

  /* ---------------------------------------------------------------- */
  /* Converter                                                         */
  /* ---------------------------------------------------------------- */

  /** JavaScript's `Math.round`: the nearest integer, halves rounded up. */
  function MathRound(x: real): (n: int)
    ensures n as real - 0.5 <= x < n as real + 0.5
  {
    (x + 0.5).Floor
  }

  /** `Math.round(x * 100) / 100`: the nearest whole number of cents. */
  function RoundCents(x: real): (r: real)
    ensures (r * 100.0).Floor as real == r * 100.0
    ensures r - 0.005 <= x < r + 0.005
  {
    MathRound(x * 100.0) as real / 100.0
  }

  /** The unrounded pivot value: into dollars unless already dollars,
      then out of dollars unless the target is dollars. */
  function PivotValue(amount: real, from: Currency, to: Currency, rates: RateTable): real
    requires from == USD || rates.Rate(from) != 0.0
  {
    var usdAmount := if from == USD then amount else amount / rates.Rate(from);
    if to == USD then usdAmount else usdAmount * rates.Rate(to)
  }

  /** A non-USD source currency needs a non-zero rate to divide by
      (otherwise the source computes Infinity or NaN). */
  predicate CanConvert(rates: RateTable, from: Currency, to: Currency) {
    from == to || from == USD || rates.Rate(from) != 0.0
  }

  /** `convertCurrency(amount, from, to, rates)`. */
  function Convert(amount: real, from: Currency, to: Currency, rates: RateTable): (r: real)
    requires CanConvert(rates, from, to)
    ensures from == to ==> r == amount
    ensures from != to ==> r - 0.005 <= PivotValue(amount, from, to, rates) < r + 0.005
  {
    if from == to then amount
    else RoundCents(PivotValue(amount, from, to, rates))
  }

  /** Converting between different currencies always yields whole cents. */
  lemma ConvertWholeCents(amount: real, from: Currency, to: Currency, rates: RateTable)
    requires CanConvert(rates, from, to)
    requires from != to
    ensures var r := Convert(amount, from, to, rates); (r * 100.0).Floor as real == r * 100.0
  {
  }

  /** With the table's own USD entry at 1 (as every table the store
      builds has), the pivot value is the plain cross rate. */
  lemma PivotIsCrossRate(amount: real, from: Currency, to: Currency, rates: RateTable)
    requires rates.usd == 1.0
    requires rates.Rate(from) != 0.0
    ensures PivotValue(amount, from, to, rates) == amount * rates.Rate(to) / rates.Rate(from)
  {
  }

  /** A non-negative amount converted with positive rates stays non-negative. */
  lemma ConvertNonNegative(amount: real, from: Currency, to: Currency, rates: RateTable)
    requires amount >= 0.0
    requires rates.jpy > 0.0 && rates.eur > 0.0
    ensures Convert(amount, from, to, rates) >= 0.0
  {
    if from != to {
      var p := PivotValue(amount, from, to, rates);
      var usdAmount := if from == USD then amount else amount / rates.Rate(from);
      assert usdAmount >= 0.0;
      assert p >= 0.0;
      assert MathRound(p * 100.0) >= 0;
    }
  }

  /** Ten dollars at 150.456 yen per dollar is 1504.56 yen. */
  lemma ConvertExample()
    ensures Convert(10.0, USD, JPY, RateTable(1.0, 150.456, 0.9)) == 1504.56
  {
    assert PivotValue(10.0, USD, JPY, RateTable(1.0, 150.456, 0.9)) == 1504.56;
    assert MathRound(150456.0) == 150456;
  }

  /** Converting into dollars and then out of dollars, before rounding,
      is the direct pivot conversion: the two-step path differs from the
      direct one only by its two roundings, each under half a cent. */
  lemma {:induction false} PivotComposes(amount: real, from: Currency, to: Currency, rates: RateTable)
    requires from != USD && to != USD && rates.Rate(from) != 0.0
    ensures PivotValue(PivotValue(amount, from, USD, rates), USD, to, rates) == PivotValue(amount, from, to, rates)
  {
  }

  /** When either end is the dollar, converting through the dollar is
      the direct conversion exactly. */
  lemma ThroughUsdAtAnEnd(amount: real, from: Currency, to: Currency, rates: RateTable)
    requires CanConvert(rates, from, to) && CanConvert(rates, from, USD)
    requires from == USD || to == USD
    ensures Convert(Convert(amount, from, USD, rates), USD, to, rates) == Convert(amount, from, to, rates)
  {
  }

  /* ---------------------------------------------------------------- */
  /* Rate store                                                        */
  /* ---------------------------------------------------------------- */

  /** A cached rate row is identified by (base, target, date); the table's
      uniqueness constraint makes the rows a map from this key. */
  datatype RateKey = RateKey(base: string, target: string, date: string)

  type RateRows = map<RateKey, real>

  /** The rows the cache query returns: dated today, based on USD. */
  function CachedKeys(rows: RateRows, today: string): set<RateKey> {
    set k | k in rows && k.date == today && k.base == BaseCurrency
  }

  /** The key of today's row for one currency. */
  function TodayKey(c: Currency, today: string): RateKey {
    RateKey(BaseCurrency, Code(c), today)
  }

  /** `rates[target] = rate` on the three-field table. */
  function Assign(t: RateTable, target: string, rate: real): (r: RateTable)
    ensures forall c :: r.Rate(c) == if Code(c) == target then rate else t.Rate(c)
  {
    if target == "USD" then t.(usd := rate)
    else if target == "JPY" then t.(jpy := rate)
    else if target == "EUR" then t.(eur := rate)
    else t
  }

  /** The fallback table with every currency that has a row today taking
      that row's rate. */
  function CachedTable(rows: RateRows, today: string): (t: RateTable)
    ensures forall c :: t.Rate(c) == (if TodayKey(c, today) in rows then rows[TodayKey(c, today)] else Fallback.Rate(c))
  {
    var pick := (c: Currency) =>
      if TodayKey(c, today) in rows then rows[TodayKey(c, today)] else Fallback.Rate(c);
    RateTable(pick(USD), pick(JPY), pick(EUR))
  }

  /** The provider answered with both rates the store keeps. */
  predicate HasBothRates(api: map<string, real>) {
    "JPY" in api && "EUR" in api
  }

  /** `ratesToInsert`: one USD-based row per kept currency, dated today. */
  function RowsToInsert(api: map<string, real>, today: string): (batch: seq<(RateKey, real)>)
    requires HasBothRates(api)
  {
    [(TodayKey(JPY, today), api["JPY"]), (TodayKey(EUR, today), api["EUR"])]
  }

  /** The keys of a batch of rows. */
  function BatchKeys(batch: seq<(RateKey, real)>): set<RateKey>
    decreases |batch|
  {
    if batch == [] then {} else {batch[0].0} + BatchKeys(batch[1..])
  }

  /** Upsert with conflict on (base, target, date): each row replaces the
      row with its key, or is added. */
  function Upsert(rows: RateRows, batch: seq<(RateKey, real)>): (r: RateRows)
    ensures r.Keys == rows.Keys + BatchKeys(batch)
    decreases |batch|
  {
    if batch == [] then rows
    else Upsert(rows[batch[0].0 := batch[0].1], batch[1..])
  }

  /** The refresh writes exactly two rows, today's JPY and EUR rows, and
      leaves every other row as it was. */
  lemma {:induction false} UpsertTodayRows(rows: RateRows, api: map<string, real>, today: string)
    requires HasBothRates(api)
    ensures var r := Upsert(rows, RowsToInsert(api, today));
      && r.Keys == rows.Keys + {TodayKey(JPY, today), TodayKey(EUR, today)}
      && r[TodayKey(JPY, today)] == api["JPY"]
      && r[TodayKey(EUR, today)] == api["EUR"]
      && forall k :: k in rows && k != TodayKey(JPY, today) && k != TodayKey(EUR, today) ==> r[k] == rows[k]
  {
    var batch := RowsToInsert(api, today);
    var rows1 := rows[batch[0].0 := batch[0].1];
    var rows2 := rows1[batch[1].0 := batch[1].1];
    assert batch[1..][1..] == [];
    assert Upsert(rows1, batch[1..]) == Upsert(rows2, batch[1..][1..]) == rows2;
  }

  /** After a miss day's refresh, the cache holds today's rows and a
      second request is a hit that returns the freshly fetched table. */
  lemma RefreshThenHit(rows: RateRows, api: map<string, real>, today: string)
    requires CachedKeys(rows, today) == {}
    requires HasBothRates(api)
    ensures var r := Upsert(rows, RowsToInsert(api, today));
      && CachedKeys(r, today) != {}
      && CachedTable(r, today) == RateTable(1.0, api["JPY"], api["EUR"])
  {
    UpsertTodayRows(rows, api, today);
    var r := Upsert(rows, RowsToInsert(api, today));
    assert TodayKey(JPY, today) in CachedKeys(r, today);
    assert TodayKey(USD, today) !in r by {
      assert TodayKey(USD, today) !in CachedKeys(rows, today);
    }
  }

  /** A single cached JPY row for today: JPY takes it, EUR falls back. */
  lemma CacheHitExample(today: string)
    ensures var rows := map[TodayKey(JPY, today) := 145.2];
      && CachedKeys(rows, today) != {}
      && CachedTable(rows, today) == RateTable(1.0, 145.2, 0.91)
  {
    var rows := map[TodayKey(JPY, today) := 145.2];
    assert TodayKey(JPY, today) in CachedKeys(rows, today);
  }

  /** The persisted `exchange_rates` table. */
  class RateStore {
    var rows: RateRows

    constructor (initial: RateRows)
      ensures rows == initial
    {
      rows := initial;
    }

    /** `getExchangeRates()`. A cache hit (the read succeeds and finds at
        least one row) merges the rows over the fallback and writes
        nothing; otherwise the provider is asked, its JPY and EUR rates
        are upserted (the upsert's own result is not checked) and
        returned; any failure on the way gives the fallback table. */
    method GetExchangeRates(today: string, readOk: bool, provider: Option<map<string, real>>, upsertOk: bool)
      returns (rates: RateTable)
      modifies this
      ensures readOk && CachedKeys(old(rows), today) != {} ==>
        rates == CachedTable(old(rows), today) && rows == old(rows)
      ensures !(readOk && CachedKeys(old(rows), today) != {}) && provider.Some? && HasBothRates(provider.value) ==>
        && rates == RateTable(1.0, provider.value["JPY"], provider.value["EUR"])
        && rows == if upsertOk then Upsert(old(rows), RowsToInsert(provider.value, today)) else old(rows)
      ensures !(readOk && CachedKeys(old(rows), today) != {}) && !(provider.Some? && HasBothRates(provider.value)) ==>
        rates == Fallback && rows == old(rows)
    {
      var cached := CachedKeys(rows, today);
      if readOk && cached != {} {
        rates := Fallback;
        var pending := cached;
        while pending != {}
          invariant pending <= cached
          invariant forall c :: rates.Rate(c) == (if TodayKey(c, today) in cached - pending then rows[TodayKey(c, today)] else Fallback.Rate(c))
          decreases pending
        {
          var row :| row in pending;
          rates := Assign(rates, row.target, rows[row]);
          pending := pending - {row};
        }
        assert cached - pending == cached;
        return;
      }
      if provider.None? || !HasBothRates(provider.value) {
        // the request or the reading of its body threw: fall back
        rates := Fallback;
        return;
      }
      var api := provider.value;
      if upsertOk {
        rows := Upsert(rows, RowsToInsert(api, today));
      }
      rates := RateTable(1.0, api["JPY"], api["EUR"]);
    }
  }

  /** Two requests on a day with an empty cache: the first fetches and
      stores, the second is a hit with the same table and no writes,
      whatever the provider would have answered. */
  method RefreshOncePerDay(store: RateStore, today: string, api: map<string, real>, later: Option<map<string, real>>)
    returns (first: RateTable, second: RateTable)
    requires CachedKeys(store.rows, today) == {}
    requires HasBothRates(api)
    modifies store
    ensures first == RateTable(1.0, api["JPY"], api["EUR"])
    ensures second == first
    ensures store.rows == Upsert(old(store.rows), RowsToInsert(api, today))
  {
    first := store.GetExchangeRates(today, true, Some(api), true);
    RefreshThenHit(old(store.rows), api, today);
    second := store.GetExchangeRates(today, true, later, true);
  }
}
