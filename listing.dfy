/** `GET /api/characters`: filtering, the `sort_by`/`sort_des` ordering and the
    `skip`/`limit` window, over the rows of the `character` table. */
module Listing {
  import opened Values
  import opened PyText
  import opened Models
  import opened Filters

  /** The attributes `sort_by` may name. */
  const SortableAttributes: seq<string> :=
    ["age", "animal", "death", "house", "name", "nickname", "strength", "symbol", "role"]

  /** The page size when `limit` is not given. */
  const DefaultLimit := 20

  /** The largest value of the database's 64-bit `LIMIT` and `OFFSET`. */
  const MaxInt64 := 0x7FFF_FFFF_FFFF_FFFF

  /** The query string of the request: the filter arguments, `skip`, `limit`,
      whether `sort_des` is present (with any value) and `sort_by`. */
  datatype ListRequest = ListRequest(
    filters: RawFilters,
    skip: Option<string>,
    limit: Option<string>,
    sortDes: bool,
    sortBy: Option<string>)

  /** The exceptions that escape the handler and end as a 500 response. */
  datatype Crash =
    | FilterValue(error: FilterError)   // the ValueError of create_filtering_query
    | LimitValue(limitLiteral: string)  // int(limit) failed
    | SkipValue(skipLiteral: string)    // int(skip) failed
    | WindowRefused                     // the database refuses the OFFSET or LIMIT: negative, or past 64 bits

  datatype ListOutcome =
    | Page(rows: seq<Character>)            // 200 with the serialized rows
    | InvalidAttribute(attribute: string)   // 400 "Attribute ... doesn't exist"
    | NextPageEmpty                         // 400 "Next page is empty"
    | ServerError(cause: Crash)             // 500

  /** The value a row is ordered by. */
  datatype SortKey = NullKey | IntKey(n: int) | TextKey(t: string)

  /** The value a row is ordered by under `ORDER BY column`. */
  function KeyOf(c: Character, col: Column): SortKey {
    match FieldOf(c, col)
    case JInt(n) => IntKey(n)
    case JStr(t) => TextKey(t)
    case _ => NullKey
  }

  /** `a` may come before `b` under `ORDER BY ... ASC|DESC NULLS LAST`:
      a NULL key comes after every other key in either direction. */
  predicate KeyLe(a: SortKey, b: SortKey, desc: bool) {
    match a
    case NullKey => b.NullKey?
    case IntKey(x) =>
      (match b
       case NullKey => true
       case IntKey(y) => if desc then y <= x else x <= y
       case TextKey(_) => true)
    case TextKey(x) =>
      (match b
       case NullKey => true
       case IntKey(_) => false
       case TextKey(y) => if desc then LexLe(y, x) else LexLe(x, y))
  }

  lemma KeyLeTotal(a: SortKey, b: SortKey, desc: bool)
    ensures KeyLe(a, b, desc) || KeyLe(b, a, desc)
  {
    if a.TextKey? && b.TextKey? {
      LexLeTotal(a.t, b.t);
    }
  }

  lemma KeyLeTransitive(a: SortKey, b: SortKey, c: SortKey, desc: bool)
    requires KeyLe(a, b, desc) && KeyLe(b, c, desc)
    ensures KeyLe(a, c, desc)
  {
    if a.TextKey? && b.TextKey? && c.TextKey? {
      if desc {
        LexLeTransitive(c.t, b.t, a.t);
      } else {
        LexLeTransitive(a.t, b.t, c.t);
      }
    }
  }

  /** The sort key of a column, as a function of the row. */
  function KeyFn(attribute: string): Character -> SortKey {
    c => if ColumnNamed(attribute).Some? then KeyOf(c, ColumnNamed(attribute).value) else NullKey
  }

  /** The rows are in the order `ORDER BY key` puts them. */
  predicate SortedBy(s: seq<Character>, key: Character -> SortKey, desc: bool) {
    forall i, j :: 0 <= i < j < |s| ==> KeyLe(key(s[i]), key(s[j]), desc)
  }

  /** Places `x` before the first row it may precede. */
  function Insert(x: Character, s: seq<Character>, key: Character -> SortKey, desc: bool): seq<Character> {
    if s == [] then [x]
    else if KeyLe(key(x), key(s[0]), desc) then [x] + s
    else [s[0]] + Insert(x, s[1..], key, desc)
  }

  lemma {:induction false} InsertPermutes(x: Character, s: seq<Character>, key: Character -> SortKey, desc: bool)
    ensures multiset(Insert(x, s, key, desc)) == multiset(s) + multiset{x}
  {
    if s != [] {
      assert s == [s[0]] + s[1..];
      if !KeyLe(key(x), key(s[0]), desc) {
        InsertPermutes(x, s[1..], key, desc);
      }
    }
  }

  /** Every row of `Insert(x, s)` is `x` or a row of `s`. */
  lemma InsertMembers(x: Character, s: seq<Character>, key: Character -> SortKey, desc: bool, y: Character)
    requires y in Insert(x, s, key, desc)
    ensures y == x || y in s
  {
    InsertPermutes(x, s, key, desc);
    assert y in multiset(Insert(x, s, key, desc));
  }

  /** When `x` goes after the head of a sorted `s`, the head may precede
      every row of the rest with `x` inserted. */
  lemma HeadPrecedesInsert(x: Character, s: seq<Character>, key: Character -> SortKey, desc: bool)
    requires SortedBy(s, key, desc) && s != [] && !KeyLe(key(x), key(s[0]), desc)
    ensures forall y :: y in Insert(x, s[1..], key, desc) ==> KeyLe(key(s[0]), key(y), desc)
  {
    KeyLeTotal(key(x), key(s[0]), desc);
    forall y | y in Insert(x, s[1..], key, desc)
      ensures KeyLe(key(s[0]), key(y), desc)
    {
      InsertMembers(x, s[1..], key, desc, y);
      if y != x {
        var k :| 0 <= k < |s[1..]| && s[1..][k] == y;
        assert s[k + 1] == y;
      }
    }
  }

  lemma {:induction false} InsertSorted(x: Character, s: seq<Character>, key: Character -> SortKey, desc: bool)
    requires SortedBy(s, key, desc)
    ensures SortedBy(Insert(x, s, key, desc), key, desc)
  {
    if s == [] {
      return;
    }
    var kx, k0 := key(x), key(s[0]);
    if KeyLe(kx, k0, desc) {
      var r := [x] + s;
      forall i, j | 0 <= i < j < |r|
        ensures KeyLe(key(r[i]), key(r[j]), desc)
      {
        if i == 0 && j > 1 {
          KeyLeTransitive(kx, k0, key(s[j - 1]), desc);
        }
      }
    } else {
      var rest := Insert(x, s[1..], key, desc);
      InsertSorted(x, s[1..], key, desc);
      HeadPrecedesInsert(x, s, key, desc);
      var r := [s[0]] + rest;
      forall i, j | 0 <= i < j < |r|
        ensures KeyLe(key(r[i]), key(r[j]), desc)
      {
        if i == 0 {
          assert rest[j - 1] in rest;
        } else {
          assert r[i] == rest[i - 1] && r[j] == rest[j - 1];
        }
      }
    }
  }

  /** `ORDER BY key ASC|DESC NULLS LAST`, as a stable insertion sort
      (rows with equal keys keep the table's order). */
  function SortRows(s: seq<Character>, key: Character -> SortKey, desc: bool): seq<Character> {
    if s == [] then [] else Insert(s[0], SortRows(s[1..], key, desc), key, desc)
  }

  /** Sorting only reorders the rows, and leaves them in `ORDER BY` order. */
  lemma {:induction false} SortRowsSpec(s: seq<Character>, key: Character -> SortKey, desc: bool)
    ensures multiset(SortRows(s, key, desc)) == multiset(s)
    ensures SortedBy(SortRows(s, key, desc), key, desc)
  {
    if s != [] {
      assert s == [s[0]] + s[1..];
      SortRowsSpec(s[1..], key, desc);
      InsertPermutes(s[0], SortRows(s[1..], key, desc), key, desc);
      InsertSorted(s[0], SortRows(s[1..], key, desc), key, desc);
    }
  }

  /** The rows that satisfy the filters, in table order: what the filters mean. */
  function Filtered(rows: seq<Character>, f: RawFilters): seq<Character>
    requires NumericValid(f)
  {
    if rows == [] then []
    else (if Admits(f, rows[0]) then [rows[0]] else []) + Filtered(rows[1..], f)
  }

  /** The filtered rows are rows of the table, and exactly those the filters admit. */
  lemma {:induction false} FilteredSpec(rows: seq<Character>, f: RawFilters)
    requires NumericValid(f)
    ensures multiset(Filtered(rows, f)) <= multiset(rows)
    ensures forall x :: x in Filtered(rows, f) <==> x in rows && Admits(f, x)
  {
    if rows != [] {
      FilteredSpec(rows[1..], f);
      assert rows == [rows[0]] + rows[1..];
    }
  }

  /** The database evaluating the built conditions over the table. */
  function Select(rows: seq<Character>, conds: seq<Condition>): seq<Character> {
    if rows == [] then []
    else (if MatchesAll(rows[0], conds) then [rows[0]] else []) + Select(rows[1..], conds)
  }

  /** Running the built query selects exactly the rows the filters admit. */
  lemma {:induction false} SelectIsFiltered(rows: seq<Character>, conds: seq<Condition>, f: RawFilters)
    requires NumericValid(f)
    requires forall c :: MatchesAll(c, conds) <==> Admits(f, c)
    ensures Select(rows, conds) == Filtered(rows, f)
  {
    if rows != [] {
      SelectIsFiltered(rows[1..], conds, f);
    }
  }

  /** Rows with a NULL sort key come after all the others, whichever the direction. */
  lemma NullsLast(s: seq<Character>, key: Character -> SortKey, desc: bool, i: int, j: int)
    requires SortedBy(s, key, desc)
    requires 0 <= i < j < |s| && key(s[i]) == NullKey
    ensures key(s[j]) == NullKey
  {
  }

  /** With distinct ids, ordering by `id desc` makes the ids strictly decrease. */
  lemma IdsDescend(s: seq<Character>, i: int, j: int)
    requires SortedBy(s, KeyFn("id"), true)
    requires forall a, b :: 0 <= a < b < |s| ==> s[a].id != s[b].id
    requires 0 <= i < j < |s|
    ensures s[i].id > s[j].id
  {
    assert KeyLe(KeyFn("id")(s[i]), KeyFn("id")(s[j]), true);
  }

  predicate SortAccepted(q: ListRequest) {
    !Given(q.sortBy) || q.sortBy.value in SortableAttributes
  }

  /** `int(limit) if limit else 20`; `None` is the ValueError. */
  function LimitArg(limit: Option<string>): Option<int> {
    if Given(limit) then ParseInt(limit.value) else Some(DefaultLimit)
  }

  /** The offset: `int(skip)` when `skip` is given, otherwise none (0). */
  function SkipArg(skip: Option<string>): Option<int> {
    if Given(skip) then ParseInt(skip.value) else Some(0)
  }

  /** The database accepts `OFFSET offset LIMIT size`: both are 64-bit and
      neither is negative. */
  predicate WindowFits(offset: int, size: int) {
    0 <= offset <= MaxInt64 && 0 <= size <= MaxInt64
  }

  /** The order the request asks for: `sort_by` (descending with `sort_des`),
      `id desc` for `sort_des` alone, and otherwise an order the database is
      free to choose, taken here as the table's order. */
  function Ordered(s: seq<Character>, q: ListRequest): seq<Character> {
    if Given(q.sortBy) then SortRows(s, KeyFn(q.sortBy.value), q.sortDes)
    else if q.sortDes then SortRows(s, KeyFn("id"), true)
    else s
  }

  /** Ordering keeps the rows and their number. */
  lemma OrderedPermutes(s: seq<Character>, q: ListRequest)
    ensures multiset(Ordered(s, q)) == multiset(s) && |Ordered(s, q)| == |s|
  {
    if Given(q.sortBy) {
      SortRowsSpec(s, KeyFn(q.sortBy.value), q.sortDes);
    } else if q.sortDes {
      SortRowsSpec(s, KeyFn("id"), true);
    }
    assert |multiset(Ordered(s, q))| == |multiset(s)|;
  }

  function Min(a: int, b: int): int {
    if a <= b then a else b
  }

  /** The window `OFFSET skip LIMIT limit`, with the check that `skip` lies
      inside the ordered rows, as the source applies it. */
  method Paginate(query: seq<Character>, skip: Option<string>, limit: Option<string>) returns (r: ListOutcome)
    ensures !r.InvalidAttribute?
    ensures r.ServerError? ==> !r.cause.FilterValue?
    ensures r.ServerError? && r.cause.LimitValue? <==> LimitArg(limit).None?
    ensures r.ServerError? && r.cause.SkipValue? <==> LimitArg(limit).Some? && SkipArg(skip).None?
    ensures r.NextPageEmpty? <==>
      LimitArg(limit).Some? && Given(skip) && SkipArg(skip).Some? && |query| <= SkipArg(skip).value
    ensures r.ServerError? && r.cause.WindowRefused? <==>
      && LimitArg(limit).Some? && SkipArg(skip).Some?
      && (Given(skip) ==> SkipArg(skip).value < |query|)
      && !WindowFits(SkipArg(skip).value, LimitArg(limit).value)
    ensures r.Page? <==>
      && LimitArg(limit).Some? && SkipArg(skip).Some?
      && (Given(skip) ==> SkipArg(skip).value < |query|)
      && WindowFits(SkipArg(skip).value, LimitArg(limit).value)
    ensures r.Page? ==> |r.rows| <= LimitArg(limit).value
    ensures r.Page? ==> |r.rows| == Min(LimitArg(limit).value, |query| - SkipArg(skip).value)
    ensures r.Page? ==>
      && SkipArg(skip).value + |r.rows| <= |query|
      && r.rows == query[SkipArg(skip).value..SkipArg(skip).value + |r.rows|]
  {
    var size := DefaultLimit;
    if Given(limit) {
      var n := ParseInt(limit.value);
      if n.None? {
        return ServerError(LimitValue(limit.value));
      }
      size := n.value;
    }
    var offset := 0;
    if Given(skip) {
      var n := ParseInt(skip.value);
      if n.None? {
        return ServerError(SkipValue(skip.value));
      }
      if |query| <= n.value {
        return NextPageEmpty;
      }
      offset := n.value;
    }
    if !WindowFits(offset, size) {
      return ServerError(WindowRefused);
    }
    assert offset <= |query|;
    var page := query[offset..];
    if size < |page| {
      page := page[..size];
    }
    assert |page| == Min(size, |query| - offset);
    assert page == query[offset..offset + |page|];
    return Page(page);
  }

  /** A window of a sorted sequence is sorted. */
  lemma WindowSorted(all: seq<Character>, k: int, rows: seq<Character>, key: Character -> SortKey, desc: bool)
    requires 0 <= k <= k + |rows| <= |all| && rows == all[k..k + |rows|]
    requires SortedBy(all, key, desc)
    ensures SortedBy(rows, key, desc)
  {
    forall i, j | 0 <= i < j < |rows|
      ensures KeyLe(key(rows[i]), key(rows[j]), desc)
    {
      assert rows[i] == all[k + i] && rows[j] == all[k + j];
    }
  }

  /** A window of a sequence holds a sub-multiset of it. */
  lemma WindowWithin(all: seq<Character>, k: int, rows: seq<Character>)
    requires 0 <= k <= k + |rows| <= |all| && rows == all[k..k + |rows|]
    ensures multiset(rows) <= multiset(all)
  {
    assert all == all[..k] + rows + all[k + |rows|..];
  }

  /** A window of the ordered rows holds only rows the filters admit, and
      keeps the order the request asks for. */
  lemma PageOfOrdered(table: seq<Character>, q: ListRequest, rows: seq<Character>, k: int)
    requires NumericValid(q.filters)
    requires 0 <= k <= k + |rows| <= |Ordered(Filtered(table, q.filters), q)|
    requires rows == Ordered(Filtered(table, q.filters), q)[k..k + |rows|]
    ensures multiset(rows) <= multiset(Filtered(table, q.filters))
    ensures forall x :: x in rows ==> x in table && Admits(q.filters, x)
    ensures Given(q.sortBy) ==> SortedBy(rows, KeyFn(q.sortBy.value), q.sortDes)
    ensures !Given(q.sortBy) && q.sortDes ==> SortedBy(rows, KeyFn("id"), true)
  {
    var filtered := Filtered(table, q.filters);
    var all := Ordered(filtered, q);
    OrderedPermutes(filtered, q);
    FilteredSpec(table, q.filters);
    WindowWithin(all, k, rows);
    forall x | x in rows
      ensures x in table && Admits(q.filters, x)
    {
      assert x in multiset(rows);
      assert x in multiset(filtered);
    }
    if Given(q.sortBy) {
      SortRowsSpec(filtered, KeyFn(q.sortBy.value), q.sortDes);
      WindowSorted(all, k, rows, KeyFn(q.sortBy.value), q.sortDes);
    } else if q.sortDes {
      SortRowsSpec(filtered, KeyFn("id"), true);
      WindowSorted(all, k, rows, KeyFn("id"), true);
    }
  }

  /** The filtered rows in the requested order, or the `ValueError` of the
      filter query. */
  method OrderedQuery(table: seq<Character>, q: ListRequest) returns (r: Result<seq<Character>, FilterError>)
    ensures r.Success? <==> NumericValid(q.filters)
    ensures r.Success? ==> r.value == Ordered(Filtered(table, q.filters), q)
  {
    var built := CreateFilteringQuery(q.filters);
    if built.Failure? {
      return Failure(built.error);
    }
    SelectIsFiltered(table, built.value, q.filters);
    var query := Select(table, built.value);
    if Given(q.sortBy) {
      query := SortRows(query, KeyFn(q.sortBy.value), q.sortDes);
    } else if q.sortDes {
      query := SortRows(query, KeyFn("id"), true);
    }
    // Without `sort_by` or `sort_des` the source orders by random(); the model
    // keeps the table's order.
    return Success(query);
  }

  /** `get_characters`: validates `sort_by`, builds the filter query, orders
      it, applies the window and runs it. */
  method GetCharacters(table: seq<Character>, q: ListRequest) returns (r: ListOutcome)
    ensures r.InvalidAttribute? <==> !SortAccepted(q)
    ensures r.InvalidAttribute? ==> r.attribute == q.sortBy.value
    ensures r.ServerError? && r.cause.FilterValue? <==> SortAccepted(q) && !NumericValid(q.filters)
    ensures r.NextPageEmpty? <==>
      && SortAccepted(q) && NumericValid(q.filters) && LimitArg(q.limit).Some?
      && Given(q.skip) && SkipArg(q.skip).Some? && |Filtered(table, q.filters)| <= SkipArg(q.skip).value
    ensures r.ServerError? && r.cause.LimitValue? <==>
      SortAccepted(q) && NumericValid(q.filters) && LimitArg(q.limit).None?
    ensures r.ServerError? && r.cause.SkipValue? <==>
      SortAccepted(q) && NumericValid(q.filters) && LimitArg(q.limit).Some? && SkipArg(q.skip).None?
    ensures r.ServerError? && r.cause.WindowRefused? <==>
      && SortAccepted(q) && NumericValid(q.filters) && LimitArg(q.limit).Some? && SkipArg(q.skip).Some?
      && (Given(q.skip) ==> SkipArg(q.skip).value < |Filtered(table, q.filters)|)
      && !WindowFits(SkipArg(q.skip).value, LimitArg(q.limit).value)
    ensures r.Page? <==>
      && SortAccepted(q) && NumericValid(q.filters) && LimitArg(q.limit).Some? && SkipArg(q.skip).Some?
      && (Given(q.skip) ==> SkipArg(q.skip).value < |Filtered(table, q.filters)|)
      && WindowFits(SkipArg(q.skip).value, LimitArg(q.limit).value)
    ensures r.Page? ==> |r.rows| <= LimitArg(q.limit).value
    ensures r.Page? ==>
      |r.rows| == Min(LimitArg(q.limit).value, |Filtered(table, q.filters)| - SkipArg(q.skip).value)
    ensures r.Page? ==>
      var all := Ordered(Filtered(table, q.filters), q);
      && SkipArg(q.skip).value + |r.rows| <= |all|
      && r.rows == all[SkipArg(q.skip).value..SkipArg(q.skip).value + |r.rows|]
  {
    if Given(q.sortBy) && q.sortBy.value !in SortableAttributes {
      return InvalidAttribute(q.sortBy.value);
    }
    var query := OrderedQuery(table, q);
    if query.Failure? {
      return ServerError(FilterValue(query.error));
    }
    ghost var filtered := Filtered(table, q.filters);
    OrderedPermutes(filtered, q);
    assert |query.value| == |filtered|;
    var page := Paginate(query.value, q.skip, q.limit);
    return page;
  }
}
