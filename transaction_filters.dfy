/**
 * The filter panel of the transaction page: a record of five text
 * fields ("" means not filtering), the reset button, the "active"
 * badge, one change handler per field, and the open/closed toggle.
 */
module TransactionFilters {
  import TransactionsController

  datatype Filters = Filters(startDate: string, endDate: string, kind: string, category: string, currency: string)

  /** The five fields a handler can write. */
  datatype FilterField = StartDate | EndDate | Kind | Category | CurrencyField

  function Get(f: Filters, field: FilterField): string {
    match field
    case StartDate => f.startDate
    case EndDate => f.endDate
    case Kind => f.kind
    case Category => f.category
    case CurrencyField => f.currency
  }

  /** `handleReset`: every field cleared. */
  function Reset(): (f: Filters)
    ensures forall field :: Get(f, field) == ""
  {
    Filters("", "", "", "", "")
  }

  /** `hasActiveFilters`: some field is non-empty. */
  predicate HasActive(f: Filters) {
    f.startDate != "" || f.endDate != "" || f.kind != "" || f.category != "" || f.currency != ""
  }

  lemma HasActiveIffSomeField(f: Filters)
    ensures HasActive(f) <==> exists field :: Get(f, field) != ""
  {
    if HasActive(f) {
      if f.startDate != "" { assert Get(f, StartDate) != ""; }
      else if f.endDate != "" { assert Get(f, EndDate) != ""; }
      else if f.kind != "" { assert Get(f, Kind) != ""; }
      else if f.category != "" { assert Get(f, Category) != ""; }
      else { assert Get(f, CurrencyField) != ""; }
    }
  }

  /** After a reset no filter is active. */
  lemma ResetClearsActive()
    ensures !HasActive(Reset())
  {
  }

  /** `setFilters({ ...filters, <field>: value })`: the one field is
      replaced and the other four keep their values. */
  function Update(f: Filters, field: FilterField, value: string): (r: Filters)
    ensures Get(r, field) == value
    ensures forall other :: other != field ==> Get(r, other) == Get(f, other)
  {
    match field
    case StartDate => f.(startDate := value)
    case EndDate => f.(endDate := value)
    case Kind => f.(kind := value)
    case Category => f.(category := value)
    case CurrencyField => f.(currency := value)
  }

  /** Writing a non-empty value makes the filters active; clearing the
      only active field makes them inactive again. */
  lemma UpdateActivity(f: Filters, field: FilterField, value: string)
    ensures value != "" ==> HasActive(Update(f, field, value))
    ensures value == "" && (forall other :: other != field ==> Get(f, other) == "") ==> !HasActive(Update(f, field, value))
  {
    var r := Update(f, field, value);
    HasActiveIffSomeField(r);
  }

  /** The header button flips the panel. */
  function Toggle(isOpen: bool): (r: bool)
    ensures r != isOpen
  {
    !isOpen
  }

  /** The filters as the listing endpoint's query string. */
  function ToQuery(f: Filters): TransactionsController.QueryParams {
    TransactionsController.QueryParams(f.startDate, f.endDate, f.kind, f.category, f.currency)
  }

  /** With no active filter the listing selects every row of the
      caller; in particular after a reset. */
  lemma InactiveSelectsAllOwnRows(f: Filters, r: TransactionsController.Row, userId: string)
    requires !HasActive(f)
    ensures TransactionsController.Selected(r, userId, ToQuery(f)) <==> r.userId == userId
  {
  }
}
