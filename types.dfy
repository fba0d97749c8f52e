/**
 * Value types shared by the backend and the frontend of the household
 * finance tracker: currency codes, the exchange-rate table, categories
 * and transactions as the frontend receives them from the API.
 */
module Types {
  import opened Wrappers

  /** The closed set of currencies the tracker supports. */
  datatype Currency = USD | JPY | EUR

  /** The three-letter code a currency travels as. */
  function Code(c: Currency): string {
    match c
    case USD => "USD"
    case JPY => "JPY"
    case EUR => "EUR"
  }

  /** Units of each currency per one US dollar (the `ExchangeRates` record). */
  datatype RateTable = RateTable(usd: real, jpy: real, eur: real) {
    function Rate(c: Currency): real {
      match c
      case USD => usd
      case JPY => jpy
      case EUR => eur
    }
  }

  /** A category row (`id`, `name`, `type`, `icon`, `color`). */
  datatype Category = Category(id: string, name: string, kind: string, icon: string, color: string)

  /** A transaction as the API returns it, with its joined category. */
  datatype Transaction = Transaction(
    id: string,
    kind: string,
    amount: real,
    currency: Currency,
    categoryId: string,
    category: Option<Category>,
    description: string,
    date: string)
}
