/**
 * The frontend `useExchangeRates` hook: the state it holds (`rates`,
 * `loading`, `lastUpdated`), the `fetchRates` transition on the answer
 * of `GET /api/exchange-rates`, and its own copy of the converter.
 */
module ExchangeRatesHook {
  import opened Wrappers
  import opened Types
  import ExchangeRateService

  /** The body of a successful `GET /api/exchange-rates`. */
  datatype RatesResponse = RatesResponse(base: string, rates: RateTable, date: string)

  class RatesState {
    var rates: RateTable
    var loading: bool
    var lastUpdated: string

    /** The hook's initial state, before the first fetch completes. */
    constructor ()
      ensures rates == RateTable(1.0, 160.0, 0.91)
      ensures loading && lastUpdated == ""
    {
      rates := RateTable(1.0, 160.0, 0.91);
      loading := true;
      lastUpdated := "";
    }

    /** `fetchRates()`: `response` is the API's answer, None when the
        request threw. A success replaces the table and the date; a
        failure keeps them; either way loading ends. */
    method FetchRates(response: Option<RatesResponse>)
      modifies this
      ensures response.Some? ==> rates == response.value.rates && lastUpdated == response.value.date
      ensures response.None? ==> rates == old(rates) && lastUpdated == old(lastUpdated)
      ensures !loading
    {
      if response.Some? {
        rates := response.value.rates;
        lastUpdated := response.value.date;
      }
      loading := false;
    }

    /** The hook's `convertCurrency`, over the rates it currently holds:
        the same value as the backend converter on the same table. */
    function Convert(amount: real, from: Currency, to: Currency): (r: real)
      reads this
      requires ExchangeRateService.CanConvert(rates, from, to)
      ensures r == ExchangeRateService.Convert(amount, from, to, rates)
    {
      if from == to then amount
      else
        var usdAmount := if from == USD then amount else amount / rates.Rate(from);
        var convertedAmount := if to == USD then usdAmount else usdAmount * rates.Rate(to);
        assert convertedAmount == ExchangeRateService.PivotValue(amount, from, to, rates);
        (convertedAmount * 100.0 + 0.5).Floor as real / 100.0
    }
  }

  /** A refresh that fails after a successful one keeps the first answer. */
  method FailedRefreshKeepsRates(state: RatesState, first: RatesResponse)
    modifies state
    ensures state.rates == first.rates && state.lastUpdated == first.date && !state.loading
  {
    state.FetchRates(Some(first));
    state.FetchRates(None);
  }
}
