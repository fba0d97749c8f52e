/**
 * The transaction entry form: its initial contents, the categories it
 * offers for the chosen type, the effect that clears a category of the
 * other type, the change handlers, and the client-side validation with
 * its messages.
 *
 * `Number(formData.amount)` and `new Date(formData.date)` are not
 * modelled; their results are inputs. A parsed amount of None stands for
 * NaN and a parsed date of None for an invalid date; every comparison
 * with either is false, as in the source.
 */
module TransactionForm {
  import opened Wrappers
  import opened Types
  import TransactionsController

  /** What the form holds; `amount` is the text of the amount input. */
  datatype FormData = FormData(
    kind: string,
    amount: string,
    currency: Currency,
    categoryId: string,
    description: string,
    date: string)

  /** The fields an error message can be attached to. */
  datatype Field = AmountField | CategoryField | DateField | DescriptionField

  const MaxAmount: real := 999999999.0
  const MaxDescription: nat := 100

  const AmountInvalid := "金額を正しく入力してください"
  const AmountBelowYen := "金額は0円以上である必要があります"
  const AmountBelowCent := "金額は0.01以上である必要があります"
  const AmountTooLarge := "金額は999,999,999以下である必要があります"
  const CategoryRequired := "カテゴリを選択してください"
  const DateRequired := "日付を入力してください"
  const DateTooOld := "日付は100年前以降である必要があります"
  const DescriptionTooLong := "説明は100文字以内で入力してください"

  /** The amount the form accepts in each currency: at least one yen
      (any positive value), or at least a cent, and at most 999,999,999.
      An amount that does not parse (None) satisfies no comparison and
      so passes. */
  predicate AmountOk(c: Currency, text: string, v: Option<real>) {
    && text != ""
    && (v.Some? ==> if c == JPY then 0.0 < v.value <= MaxAmount else 0.01 <= v.value <= MaxAmount)
  }

  /** A date is required and may not lie more than a hundred years back. */
  predicate DateOk(date: string, t: Option<int>, cutoff: int) {
    date != "" && (t.Some? ==> t.value >= cutoff)
  }

  /** Every rule the form enforces. */
  predicate FormValid(f: FormData, v: Option<real>, t: Option<int>, cutoff: int) {
    && AmountOk(f.currency, f.amount, v)
    && f.categoryId != ""
    && DateOk(f.date, t, cutoff)
    && |f.description| <= MaxDescription
  }

  /** The amount checks of `validate`, in order: each failing check
      overwrites the message an earlier one left, so the result is the
      last failing check's message, or None when all pass. */
  method CheckAmount(f: FormData, amountValue: Option<real>) returns (msg: Option<string>)
    requires f.amount == "" ==> amountValue == Some(0.0)
    ensures msg.None? <==> AmountOk(f.currency, f.amount, amountValue)
    ensures amountValue.Some? && amountValue.value > MaxAmount ==> msg == Some(AmountTooLarge)
    ensures f.currency == JPY && amountValue.Some? && amountValue.value < 0.0 ==> msg == Some(AmountBelowYen)
    ensures f.currency == JPY && amountValue == Some(0.0) ==> msg == Some(AmountInvalid)
    ensures f.currency != JPY && amountValue.Some? && amountValue.value < 0.01 ==> msg == Some(AmountBelowCent)
  {
    msg := None;
    if f.amount == "" || (amountValue.Some? && amountValue.value <= 0.0) {
      msg := Some(AmountInvalid);
    }
    if f.currency == JPY && amountValue.Some? && amountValue.value < 0.0 {
      msg := Some(AmountBelowYen);
    } else if (f.currency == USD || f.currency == EUR) && amountValue.Some? && amountValue.value < 0.01 {
      msg := Some(AmountBelowCent);
    }
    if amountValue.Some? && amountValue.value > MaxAmount {
      msg := Some(AmountTooLarge);
    }
  }

  /** The date checks of `validate`: a missing date, then a date more
      than a hundred years back, the later message winning. */
  method CheckDate(f: FormData, selectedTime: Option<int>, cutoff: int) returns (msg: Option<string>)
    requires f.date == "" ==> selectedTime.None?
    ensures msg.None? <==> DateOk(f.date, selectedTime, cutoff)
    ensures msg.Some? ==> msg.value == if selectedTime.Some? && selectedTime.value < cutoff then DateTooOld else DateRequired
  {
    msg := None;
    if f.date == "" {
      msg := Some(DateRequired);
    }
    if selectedTime.Some? && selectedTime.value < cutoff {
      msg := Some(DateTooOld);
    }
  }

  /** `validate`. `amountValue` is `Number(formData.amount)` and
      `selectedTime` the time of `new Date(formData.date)`; `cutoff` is the
      time a hundred years before now. Later checks of a field overwrite
      the message an earlier one recorded. */
  method Validate(f: FormData, amountValue: Option<real>, selectedTime: Option<int>, cutoff: int)
    returns (errors: map<Field, string>, ok: bool)
    requires f.amount == "" ==> amountValue == Some(0.0)
    requires f.date == "" ==> selectedTime.None?
    ensures ok <==> errors == map[]
    ensures ok <==> FormValid(f, amountValue, selectedTime, cutoff)
    ensures AmountField in errors <==> !AmountOk(f.currency, f.amount, amountValue)
    ensures amountValue.Some? && amountValue.value > MaxAmount ==> errors[AmountField] == AmountTooLarge
    ensures f.currency == JPY && amountValue.Some? && amountValue.value < 0.0 ==> errors[AmountField] == AmountBelowYen
    ensures f.currency == JPY && amountValue == Some(0.0) ==> errors[AmountField] == AmountInvalid
    ensures f.currency != JPY && amountValue.Some? && amountValue.value < 0.01 ==> errors[AmountField] == AmountBelowCent
    ensures CategoryField in errors <==> f.categoryId == ""
    ensures CategoryField in errors ==> errors[CategoryField] == CategoryRequired
    ensures DateField in errors <==> !DateOk(f.date, selectedTime, cutoff)
    ensures DateField in errors ==>
      errors[DateField] == if selectedTime.Some? && selectedTime.value < cutoff then DateTooOld else DateRequired
    ensures DescriptionField in errors <==> |f.description| > MaxDescription
    ensures DescriptionField in errors ==> errors[DescriptionField] == DescriptionTooLong
  {
    errors := map[];
    var amountMsg := CheckAmount(f, amountValue);
    if amountMsg.Some? {
      errors := errors[AmountField := amountMsg.value];
    }
    if f.categoryId == "" {
      errors := errors[CategoryField := CategoryRequired];
    }
    var dateMsg := CheckDate(f, selectedTime, cutoff);
    if dateMsg.Some? {
      errors := errors[DateField := dateMsg.value];
    }
    if f.description != "" && |f.description| > MaxDescription {
      errors := errors[DescriptionField := DescriptionTooLong];
    }
    ok := |errors| == 0;
    if !ok {
      var k :| k in errors;
      assert errors != map[];
    }
  }

  /** What the form sends to the create endpoint. */
  function Payload(f: FormData, v: real): (b: TransactionsController.CreateBody)
    ensures b.amount == Some(v) && b.currency == Code(f.currency)
    ensures b.kind == f.kind && b.categoryId == f.categoryId
    ensures b.description == f.description && b.date == f.date
  {
    TransactionsController.CreateBody(f.kind, Some(v), Code(f.currency), f.categoryId, f.description, f.date)
  }

  /** A form that passes its own validation with a parsed amount and a
      type also passes every check of the create handler. */
  lemma FormValidPassesBackend(f: FormData, v: real, t: Option<int>, cutoff: int)
    requires FormValid(f, Some(v), t, cutoff)
    requires f.kind != ""
    ensures TransactionsController.CreateError(Payload(f, v)).None?
  {
    assert Code(f.currency) != "" by {
      assert |Code(f.currency)| == 3;
    }
  }

  /* ---------------------------------------------------------------- */
  /* initial state, categories, handlers                              */
  /* ---------------------------------------------------------------- */

  /** The initial `formData`: the edited transaction's values, each falsy
      one replaced by its default; `today` is the current date and
      `amountText` renders a number as the amount input shows it. */
  function InitialForm(transaction: Option<Transaction>, today: string, amountText: real -> string): (f: FormData)
    ensures transaction.None? ==> f == FormData("expense", "", JPY, "", "", today)
    ensures transaction.Some? ==>
      && f.kind == (if transaction.value.kind == "" then "expense" else transaction.value.kind)
      && f.amount == amountText(transaction.value.amount)
      && f.currency == transaction.value.currency
      && f.categoryId == transaction.value.categoryId
      && f.description == transaction.value.description
      && f.date == (if transaction.value.date == "" then today else transaction.value.date)
  {
    match transaction
    case None => FormData("expense", "", JPY, "", "", today)
    case Some(t) =>
      FormData(
        if t.kind == "" then "expense" else t.kind,
        amountText(t.amount),
        t.currency,
        t.categoryId,
        t.description,
        if t.date == "" then today else t.date)
  }

  /** `filteredCategories`: the categories of the given type, in order. */
  function FilteredCategories(categories: seq<Category>, kind: string): (r: seq<Category>)
    ensures forall c :: c in r <==> c in categories && c.kind == kind
    ensures |r| <= |categories|
  {
    if categories == [] then []
    else (if categories[0].kind == kind then [categories[0]] else []) + FilteredCategories(categories[1..], kind)
  }

  /** Some category of the form's type has the selected id. */
  predicate Offered(categories: seq<Category>, kind: string, id: string) {
    exists c :: c in FilteredCategories(categories, kind) && c.id == id
  }

  /** The effect run when the type or the category list changes: a
      selected category that the list for the current type does not offer
      is cleared. */
  function ResetCategory(f: FormData, categories: seq<Category>): (r: FormData)
    ensures r.(categoryId := f.categoryId) == f
    ensures r.categoryId == f.categoryId || r.categoryId == ""
    ensures r.categoryId == f.categoryId <==> f.categoryId == "" || exists c :: c in categories && c.kind == f.kind && c.id == f.categoryId
  {
    if Offered(categories, f.kind, f.categoryId) then f
    else f.(categoryId := "")
  }

  /** After the effect, a selected category is one of the form's type. */
  lemma ResetLeavesMatchingCategory(f: FormData, categories: seq<Category>)
    ensures var r := ResetCategory(f, categories);
      r.categoryId != "" ==> exists c :: c in categories && c.kind == r.kind && c.id == r.categoryId
  {
    var r := ResetCategory(f, categories);
    if r.categoryId != "" {
      var c :| c in FilteredCategories(categories, f.kind) && c.id == f.categoryId;
      assert c in categories && c.kind == r.kind;
    }
  }

  /** Running the effect a second time changes nothing. */
  lemma ResetIdempotent(f: FormData, categories: seq<Category>)
    ensures ResetCategory(ResetCategory(f, categories), categories) == ResetCategory(f, categories)
  {
  }

  /** One change handler of the form. */
  datatype Edit =
    | SetKind(kind: string)
    | SetAmount(amount: string)
    | SetCurrency(currency: Currency)
    | SetCategory(categoryId: string)
    | SetDate(date: string)
    | SetDescription(description: string)

  /** A handler replaces its own field and keeps the other five. */
  function ApplyEdit(f: FormData, e: Edit): (r: FormData)
    ensures r.kind == (if e.SetKind? then e.kind else f.kind)
    ensures r.amount == (if e.SetAmount? then e.amount else f.amount)
    ensures r.currency == (if e.SetCurrency? then e.currency else f.currency)
    ensures r.categoryId == (if e.SetCategory? then e.categoryId else f.categoryId)
    ensures r.date == (if e.SetDate? then e.date else f.date)
    ensures r.description == (if e.SetDescription? then e.description else f.description)
  {
    match e
    case SetKind(k) => f.(kind := k)
    case SetAmount(a) => f.(amount := a)
    case SetCurrency(c) => f.(currency := c)
    case SetCategory(id) => f.(categoryId := id)
    case SetDate(d) => f.(date := d)
    case SetDescription(s) => f.(description := s)
  }

  /** Switching type clears a category the new type does not offer, so a
      form can never be submitted with a category of the other type. */
  lemma SwitchKindClearsForeignCategory(f: FormData, categories: seq<Category>, kind: string)
    requires forall c :: c in categories && c.id == f.categoryId ==> c.kind != kind
    requires f.categoryId != ""
    ensures ResetCategory(ApplyEdit(f, SetKind(kind)), categories).categoryId == ""
  {
  }
}
