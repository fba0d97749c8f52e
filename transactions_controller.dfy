/**
 * The backend transaction handlers: the ordered request validation of
 * create and update, the filters and order of the listing query, and
 * the caller-scoped writes to the `transactions` table.
 *
 * Request fields that may be absent are `Option`s, or the empty string
 * where absent and empty are both falsy and the handler does not tell
 * them apart. Database-generated values (the new row's id, the clock)
 * are parameters.
 */
module TransactionsController {
  import opened Wrappers
  import opened StringOrder
  import opened Sorting

  /** A row of the `transactions` table. */
  datatype Row = Row(
    id: string,
    userId: string,
    kind: string,
    amount: real,
    currency: string,
    categoryId: string,
    description: string,
    date: string,
    createdAt: string,
    updatedAt: string)

  /** What a handler answers: status code and JSON body. */
  datatype Response =
    | Listed(rows: seq<Row>)        // 200, the selected rows
    | Updated(row: Row)             // 200, the updated row
    | Created(row: Row)             // 201, the inserted row
    | Deleted                       // 204, no body
    | BadRequest(error: string)     // 400
    | NotFound(error: string)       // 404
    | ServerError(error: string)    // 500
  {
    function Status(): int {
      match this
      case Listed(_) => 200
      case Updated(_) => 200
      case Created(_) => 201
      case Deleted => 204
      case BadRequest(_) => 400
      case NotFound(_) => 404
      case ServerError(_) => 500
    }
  }

  const MaxAmount: real := 999999999.0
  const MaxDescription: nat := 100

  const MissingFields := "Missing required fields"
  const NotPositive := "Amount must be positive"
  const TooLarge := "Amount too large"
  const TooLong := "Description too long"

  /* ---------------------------------------------------------------- */
  /* createTransaction / updateTransaction validation                  */
  /* ---------------------------------------------------------------- */

  /** The body of `POST /api/transactions`; `amount` is None when absent
      or `null` (both falsy), the strings are "" when absent. */
  datatype CreateBody = CreateBody(
    kind: string,
    amount: Option<real>,
    currency: string,
    categoryId: string,
    description: string,
    date: string)

  /** A required field is falsy: absent or empty, or an amount of 0. */
  predicate MissingField(b: CreateBody) {
    b.kind == "" || b.amount.None? || b.amount.value == 0.0 ||
    b.currency == "" || b.categoryId == "" || b.date == ""
  }

  /** The checks of `createTransaction` in order; the first that fails
      gives the 400 message. */
  function CreateError(b: CreateBody): (e: Option<string>)
    ensures e == Some(MissingFields) <==> MissingField(b)
    ensures e == Some(NotPositive) <==> !MissingField(b) && b.amount.value < 0.0
    ensures e == Some(TooLarge) <==> !MissingField(b) && b.amount.value > MaxAmount
    ensures e == Some(TooLong) <==>
      !MissingField(b) && 0.0 < b.amount.value <= MaxAmount && |b.description| > MaxDescription
    ensures e.None? <==>
      !MissingField(b) && 0.0 < b.amount.value <= MaxAmount && |b.description| <= MaxDescription
  {
    if MissingField(b) then Some(MissingFields)
    else if b.amount.value <= 0.0 then Some(NotPositive)
    else if b.amount.value > MaxAmount then Some(TooLarge)
    else if b.description != "" && |b.description| > MaxDescription then Some(TooLong)
    else None
  }

  /** An amount of zero is reported as a missing field, not as a
      non-positive amount, because the presence check runs first. */
  lemma ZeroAmountIsMissing(b: CreateBody)
    requires b.amount == Some(0.0)
    ensures CreateError(b) == Some(MissingFields)
  {
  }

  /** A JSON number field that may be left out or sent as `null`. */
  datatype JsonNumber = Absent | Null | Num(value: real)

  /** The body of `PUT /api/transactions/:id`: None (or an absent amount)
      leaves a column as it is. */
  datatype UpdateBody = UpdateBody(
    kind: Option<string>,
    amount: JsonNumber,
    currency: Option<string>,
    categoryId: Option<string>,
    description: Option<string>,
    date: Option<string>)

  /** `updateTransaction` checks only that an amount that is not left
      out is positive; a `null` amount is refused too, since JavaScript's
      `null <= 0` holds. */
  function UpdateError(b: UpdateBody): (e: Option<string>)
    ensures e.None? <==> (b.amount.Absent? || (b.amount.Num? && b.amount.value > 0.0))
    ensures e.Some? ==> e.value == NotPositive
  {
    match b.amount
    case Absent => None
    case Null => Some(NotPositive)
    case Num(v) => if v <= 0.0 then Some(NotPositive) else None
  }

  /** Update accepts amounts create would refuse: there is no upper bound
      and no description check. */
  lemma UpdateLooserThanCreate(b: UpdateBody, c: CreateBody)
    requires b.amount == Num(MaxAmount + 1.0)
    requires b.description.Some? && |b.description.value| == MaxDescription + 1
    requires c.amount == Some(b.amount.value) && !MissingField(c)
    ensures UpdateError(b).None?
    ensures CreateError(c) == Some(TooLarge)
  {
  }

  /* ---------------------------------------------------------------- */
  /* getTransactions                                                   */
  /* ---------------------------------------------------------------- */

  /** The query string of `GET /api/transactions`; "" is absent. */
  datatype QueryParams = QueryParams(startDate: string, endDate: string, kind: string, category: string, currency: string)

  /** One `.eq`/`.gte`/`.lte` condition of the query builder. */
  datatype Condition =
    | UserIs(userId: string)
    | DateFrom(startDate: string)
    | DateTo(endDate: string)
    | KindIs(kind: string)
    | CategoryIs(categoryId: string)
    | CurrencyIs(currency: string)

  predicate Holds(c: Condition, r: Row) {
    match c
    case UserIs(u) => r.userId == u
    case DateFrom(d) => StrLe(d, r.date)
    case DateTo(d) => StrLe(r.date, d)
    case KindIs(k) => r.kind == k
    case CategoryIs(id) => r.categoryId == id
    case CurrencyIs(cur) => r.currency == cur
  }

  predicate AllHold(q: seq<Condition>, r: Row) {
    forall i :: 0 <= i < |q| ==> Holds(q[i], r)
  }

  /** What the listing promises: the caller's rows meeting every supplied
      filter (an inclusive date range, equality on the rest). */
  predicate Selected(r: Row, userId: string, p: QueryParams) {
    && r.userId == userId
    && (p.startDate != "" ==> StrLe(p.startDate, r.date))
    && (p.endDate != "" ==> StrLe(r.date, p.endDate))
    && (p.kind != "" ==> r.kind == p.kind)
    && (p.category != "" ==> r.categoryId == p.category)
    && (p.currency != "" ==> r.currency == p.currency)
  }

  /** The first `n` of the optional filters, in the order the handler
      applies them, together with the owner condition. */
  predicate SelectedUpTo(r: Row, userId: string, p: QueryParams, n: nat) {
    && r.userId == userId
    && (n >= 1 && p.startDate != "" ==> StrLe(p.startDate, r.date))
    && (n >= 2 && p.endDate != "" ==> StrLe(r.date, p.endDate))
    && (n >= 3 && p.kind != "" ==> r.kind == p.kind)
    && (n >= 4 && p.category != "" ==> r.categoryId == p.category)
    && (n >= 5 && p.currency != "" ==> r.currency == p.currency)
  }

  lemma AllHoldSnoc(q: seq<Condition>, c: Condition)
    ensures forall r :: AllHold(q + [c], r) <==> AllHold(q, r) && Holds(c, r)
  {
    forall r ensures AllHold(q + [c], r) <==> AllHold(q, r) && Holds(c, r) {
      if AllHold(q + [c], r) {
        assert Holds((q + [c])[|q|], r);
        assert forall i :: 0 <= i < |q| ==> (q + [c])[i] == q[i];
      }
    }
  }

  /** The query is built up one condition per supplied parameter. */
  method BuildQuery(userId: string, p: QueryParams) returns (q: seq<Condition>)
    ensures forall r :: AllHold(q, r) <==> Selected(r, userId, p)
  {
    q := [UserIs(userId)];
    assert forall r :: AllHold(q, r) <==> SelectedUpTo(r, userId, p, 0) by {
      forall r ensures AllHold(q, r) <==> SelectedUpTo(r, userId, p, 0) {
        assert AllHold(q, r) <==> Holds(q[0], r);
      }
    }
    if p.startDate != "" { AllHoldSnoc(q, DateFrom(p.startDate)); q := q + [DateFrom(p.startDate)]; }
    assert forall r :: AllHold(q, r) <==> SelectedUpTo(r, userId, p, 1);
    if p.endDate != "" { AllHoldSnoc(q, DateTo(p.endDate)); q := q + [DateTo(p.endDate)]; }
    assert forall r :: AllHold(q, r) <==> SelectedUpTo(r, userId, p, 2);
    if p.kind != "" { AllHoldSnoc(q, KindIs(p.kind)); q := q + [KindIs(p.kind)]; }
    assert forall r :: AllHold(q, r) <==> SelectedUpTo(r, userId, p, 3);
    if p.category != "" { AllHoldSnoc(q, CategoryIs(p.category)); q := q + [CategoryIs(p.category)]; }
    assert forall r :: AllHold(q, r) <==> SelectedUpTo(r, userId, p, 4);
    if p.currency != "" { AllHoldSnoc(q, CurrencyIs(p.currency)); q := q + [CurrencyIs(p.currency)]; }
    assert forall r :: AllHold(q, r) <==> SelectedUpTo(r, userId, p, 5);
  }

  /** The rows satisfying every condition, in table order. */
  function Where(rows: seq<Row>, q: seq<Condition>): (r: seq<Row>)
    ensures forall x :: x in r <==> x in rows && AllHold(q, x)
    ensures multiset(r) <= multiset(rows)
    ensures forall x :: multiset(r)[x] == if AllHold(q, x) then multiset(rows)[x] else 0
  {
    if rows == [] then []
    else
      assert rows == [rows[0]] + rows[1..];
      (if AllHold(q, rows[0]) then [rows[0]] else []) + Where(rows[1..], q)
  }

  /** `ORDER BY date DESC, created_at DESC`: `a` may come before `b`. */
  predicate NewerFirst(a: Row, b: Row) {
    StrLt(b.date, a.date) || (a.date == b.date && StrLe(b.createdAt, a.createdAt))
  }

  lemma NewerFirstIsPreorder()
    ensures TotalPreorder(NewerFirst)
  {
    forall a: Row, b: Row ensures NewerFirst(a, b) || NewerFirst(b, a) {
      StrLtIsNotLe(a.date, b.date);
      StrLtIsNotLe(b.date, a.date);
      StrLeTotal(a.createdAt, b.createdAt);
    }
    forall a: Row, b: Row, c: Row | NewerFirst(a, b) && NewerFirst(b, c) ensures NewerFirst(a, c) {
      if StrLt(b.date, a.date) || StrLt(c.date, b.date) {
        if StrLt(b.date, a.date) && StrLt(c.date, b.date) {
          StrLeTrans(c.date, b.date, a.date);
          if c.date == a.date { StrLeAntisym(c.date, b.date); }
        }
      } else {
        StrLeTrans(c.createdAt, b.createdAt, a.createdAt);
      }
    }
  }

  /** The listing: the selected rows, newest date first and, within a
      date, newest creation first. */
  function RunQuery(rows: seq<Row>, q: seq<Condition>): (r: seq<Row>)
    ensures forall x :: multiset(r)[x] == if AllHold(q, x) then multiset(rows)[x] else 0
    ensures SortedBy(r, NewerFirst)
  {
    NewerFirstIsPreorder();
    SortSorted(Where(rows, q), NewerFirst);
    Sort(Where(rows, q), NewerFirst)
  }

  /* ---------------------------------------------------------------- */
  /* update / delete scoping                                            */
  /* ---------------------------------------------------------------- */

  /** The row `.eq('id', id).eq('user_id', userId)` matches. */
  predicate Owned(r: Row, userId: string, id: string) {
    r.id == id && r.userId == userId
  }

  /** The columns the update body supplies, and `updated_at`. */
  function Patch(r: Row, b: UpdateBody, now: string): (p: Row)
    ensures p.id == r.id && p.userId == r.userId && p.createdAt == r.createdAt
    ensures p.updatedAt == now
    ensures b.kind.Some? ==> p.kind == b.kind.value
    ensures b.kind.None? ==> p.kind == r.kind
    ensures b.amount.Num? ==> p.amount == b.amount.value
    ensures !b.amount.Num? ==> p.amount == r.amount
    ensures b.currency.Some? ==> p.currency == b.currency.value
    ensures b.currency.None? ==> p.currency == r.currency
    ensures b.categoryId.Some? ==> p.categoryId == b.categoryId.value
    ensures b.categoryId.None? ==> p.categoryId == r.categoryId
    ensures b.description.Some? ==> p.description == b.description.value
    ensures b.description.None? ==> p.description == r.description
    ensures b.date.Some? ==> p.date == b.date.value
    ensures b.date.None? ==> p.date == r.date
  {
    r.(kind := b.kind.GetOr(r.kind),
       amount := if b.amount.Num? then b.amount.value else r.amount,
       currency := b.currency.GetOr(r.currency),
       categoryId := b.categoryId.GetOr(r.categoryId),
       description := b.description.GetOr(r.description),
       date := b.date.GetOr(r.date),
       updatedAt := now)
  }

  /** The table after the update statement: matching rows patched. */
  function PatchOwned(rows: seq<Row>, userId: string, id: string, b: UpdateBody, now: string): (r: seq<Row>)
    ensures |r| == |rows|
    ensures forall i :: 0 <= i < |rows| ==> r[i] == if Owned(rows[i], userId, id) then Patch(rows[i], b, now) else rows[i]
  {
    seq(|rows|, i requires 0 <= i < |rows| => if Owned(rows[i], userId, id) then Patch(rows[i], b, now) else rows[i])
  }

  /** The table after the delete statement: matching rows gone. */
  function RemoveOwned(rows: seq<Row>, userId: string, id: string): (r: seq<Row>)
    ensures forall x :: x in r <==> x in rows && !Owned(x, userId, id)
    ensures multiset(r) <= multiset(rows)
  {
    if rows == [] then []
    else
      assert rows == [rows[0]] + rows[1..];
      (if Owned(rows[0], userId, id) then [] else [rows[0]]) + RemoveOwned(rows[1..], userId, id)
  }

  /** Ids are unique in the table. */
  ghost predicate UniqueIds(rows: seq<Row>) {
    forall i, j :: 0 <= i < j < |rows| ==> rows[i].id != rows[j].id
  }

  /** Some row has this id. */
  predicate IdTaken(rows: seq<Row>, id: string) {
    exists i :: 0 <= i < |rows| && rows[i].id == id
  }

  /** The row a valid create inserts, owned by the caller. */
  function NewRow(userId: string, b: CreateBody, newId: string, now: string): Row
    requires b.amount.Some?
  {
    Row(newId, userId, b.kind, b.amount.value, b.currency, b.categoryId, b.description, b.date, now, now)
  }

  /** An update keeps ids unique and changes no other user's row. */
  lemma UpdateKeepsIdsAndScope(rows: seq<Row>, userId: string, id: string, b: UpdateBody, now: string)
    requires UniqueIds(rows)
    ensures UniqueIds(PatchOwned(rows, userId, id, b, now))
    ensures forall i :: 0 <= i < |rows| && rows[i].userId != userId ==> PatchOwned(rows, userId, id, b, now)[i] == rows[i]
  {
  }

  /** The `transactions` table as the handlers see it. */
  class TransactionStore {
    var rows: seq<Row>

    ghost predicate Valid()
      reads this
    {
      UniqueIds(rows)
    }

    constructor ()
      ensures Valid() && rows == []
    {
      rows := [];
    }

    /** `getTransactions`: the caller's rows that meet every supplied
        filter, newest first; nothing is written. `readOk` is whether the
        database answers. */
    method GetTransactions(userId: string, p: QueryParams, readOk: bool) returns (resp: Response)
      ensures !readOk ==> resp == ServerError("Failed to fetch transactions")
      ensures readOk ==> resp.Listed?
      ensures readOk ==> forall x :: x in resp.rows <==> x in rows && Selected(x, userId, p)
      ensures readOk ==> multiset(resp.rows) <= multiset(rows)
      ensures readOk ==> forall x :: multiset(resp.rows)[x] == if Selected(x, userId, p) then multiset(rows)[x] else 0
      ensures readOk ==> SortedBy(resp.rows, NewerFirst)
    {
      if !readOk {
        return ServerError("Failed to fetch transactions");
      }
      var q := BuildQuery(userId, p);
      var listed := RunQuery(rows, q);
      NewerFirstIsPreorder();
      SortSorted(Where(rows, q), NewerFirst);
      assert multiset(listed) == multiset(Where(rows, q));
      forall x ensures x in listed <==> x in Where(rows, q) {
        assert x in listed <==> x in multiset(listed);
        assert x in Where(rows, q) <==> x in multiset(Where(rows, q));
      }
      resp := Listed(listed);
    }

    /** `createTransaction`: the first failing check answers 400; a valid
        request inserts one row owned by the caller and answers 201; a
        failing write, or an id the table already holds, answers 500. */
    method CreateTransaction(userId: string, b: CreateBody, newId: string, now: string, writeOk: bool) returns (resp: Response)
      requires Valid()
      modifies this
      ensures Valid()
      ensures CreateError(b).Some? ==> resp == BadRequest(CreateError(b).value) && rows == old(rows)
      ensures CreateError(b).None? && (!writeOk || IdTaken(old(rows), newId)) ==>
        resp == ServerError("Failed to create transaction") && rows == old(rows)
      ensures CreateError(b).None? && writeOk && !IdTaken(old(rows), newId) ==>
        resp == Created(NewRow(userId, b, newId, now)) && rows == old(rows) + [NewRow(userId, b, newId, now)]
    {
      var err := CreateError(b);
      if err.Some? {
        return BadRequest(err.value);
      }
      if !writeOk || IdTaken(rows, newId) {
        return ServerError("Failed to create transaction");
      }
      var row := NewRow(userId, b, newId, now);
      rows := rows + [row];
      resp := Created(row);
    }

    /** `updateTransaction`: a supplied non-positive amount answers 400;
        otherwise only the row with this id owned by the caller is
        patched, and without such a row the answer is 404; a failing write
        answers 500 and changes nothing. */
    method UpdateTransaction(userId: string, id: string, b: UpdateBody, now: string, writeOk: bool) returns (resp: Response)
      requires Valid()
      modifies this
      ensures Valid()
      ensures UpdateError(b).Some? ==> resp == BadRequest(NotPositive) && rows == old(rows)
      ensures UpdateError(b).None? && !writeOk ==> resp == ServerError("Failed to update transaction") && rows == old(rows)
      ensures UpdateError(b).None? && writeOk ==> rows == PatchOwned(old(rows), userId, id, b, now)
      ensures UpdateError(b).None? && writeOk && !(exists i :: 0 <= i < |old(rows)| && Owned(old(rows)[i], userId, id)) ==>
        resp == NotFound("Transaction not found") && rows == old(rows)
      ensures UpdateError(b).None? && writeOk ==> forall i :: 0 <= i < |old(rows)| && Owned(old(rows)[i], userId, id) ==>
        resp == Updated(Patch(old(rows)[i], b, now))
    {
      var err := UpdateError(b);
      if err.Some? {
        return BadRequest(err.value);
      }
      if !writeOk {
        return ServerError("Failed to update transaction");
      }
      UpdateKeepsIdsAndScope(rows, userId, id, b, now);
      var before := rows;
      rows := PatchOwned(rows, userId, id, b, now);
      var k := 0;
      while k < |before|
        invariant 0 <= k <= |before|
        invariant forall i :: 0 <= i < k ==> !Owned(before[i], userId, id)
      {
        if Owned(before[k], userId, id) {
          return Updated(Patch(before[k], b, now));
        }
        k := k + 1;
      }
      assert rows == before;
      resp := NotFound("Transaction not found");
    }

    /** `deleteTransaction`: removes only the caller's row with this id,
        if any, and answers 204 either way; a failing write answers 500
        and changes nothing. */
    method DeleteTransaction(userId: string, id: string, writeOk: bool) returns (resp: Response)
      requires Valid()
      modifies this
      ensures Valid()
      ensures !writeOk ==> resp == ServerError("Failed to delete transaction") && rows == old(rows)
      ensures writeOk ==> rows == RemoveOwned(old(rows), userId, id) && resp == Deleted
    {
      if !writeOk {
        return ServerError("Failed to delete transaction");
      }
      RemovePreservesUnique(rows, userId, id);
      rows := RemoveOwned(rows, userId, id);
      resp := Deleted;
    }
  }

  /** Removing rows keeps ids unique. */
  lemma {:induction false} RemovePreservesUnique(rows: seq<Row>, userId: string, id: string)
    requires UniqueIds(rows)
    ensures UniqueIds(RemoveOwned(rows, userId, id))
  {
    if rows != [] {
      var tail := rows[1..];
      assert UniqueIds(tail) by {
        forall i, j | 0 <= i < j < |tail| ensures tail[i].id != tail[j].id {
          assert tail[i] == rows[i + 1] && tail[j] == rows[j + 1];
        }
      }
      RemovePreservesUnique(tail, userId, id);
      var rest := RemoveOwned(tail, userId, id);
      if !Owned(rows[0], userId, id) {
        var r := [rows[0]] + rest;
        forall i, j | 0 <= i < j < |r| ensures r[i].id != r[j].id {
          if i == 0 {
            assert r[j] in rest;
            assert r[j] in tail;
            var k :| 0 <= k < |tail| && tail[k] == r[j];
            assert rows[k + 1] == r[j];
          } else {
            assert r[i] == rest[i - 1] && r[j] == rest[j - 1];
          }
        }
      }
    }
  }

  /** A caller's new row shows up in the unfiltered listing, and is gone
      from it once deleted. */
  method CreateListDelete(store: TransactionStore, userId: string, b: CreateBody, newId: string, now: string)
    returns (before: seq<Row>, after: seq<Row>)
    requires store.Valid() && CreateError(b).None? && !IdTaken(store.rows, newId)
    modifies store
    ensures NewRow(userId, b, newId, now) in before
    ensures NewRow(userId, b, newId, now) !in after
  {
    var created := store.CreateTransaction(userId, b, newId, now, true);
    var row := NewRow(userId, b, newId, now);
    assert created == Created(row);
    var all := QueryParams("", "", "", "", "");
    var listed := store.GetTransactions(userId, all, true);
    assert row in store.rows;
    before := listed.rows;
    var deleted := store.DeleteTransaction(userId, newId, true);
    assert deleted == Deleted;
    listed := store.GetTransactions(userId, all, true);
    after := listed.rows;
  }
}
