/** The `character` table as the write endpoints change it: `add_character`
    (validation, then the INSERT), `put_character` (the `setattr` merge, then
    the UPDATE) and `delete_character`. */
module Store {
  import opened Values
  import opened Models

  /** Why `add_character` answers 400 before touching the table. */
  datatype BadInput =
    | MissingField(field: string)      // "<Field> must be specified"
    | NotAString(field: string)        // "<Field> must be a string"
    | NotAnInteger(field: string)      // "<Field> must be an integer"
    | UnknownAttribute(key: string)    // the TypeError of `Character(**body)`

  datatype AddOutcome =
    | Created(row: Character)          // 201 with the serialized row
    | Rejected(error: BadInput)        // 400
    | Duplicate                        // 400 "Integrity error": the name or the id is taken
    | StoreFailed                      // any other database error: no response is returned (500)

  datatype PutOutcome =
    | Updated(row: Character)          // 200 with the serialized row
    | NotFound                         // 404
    | IdInBody                         // 400 "ID cannot be updated"
    | Unprocessable                    // 422: a value the column cannot hold
    | PutFailed                        // any other database error: no response is returned (500)

  datatype DeleteOutcome = Deleted | Missing

  /** The fields `add_character` requires. */
  const MandatoryFields: seq<string> := ["name"]

  // ---------------------------------------------------------------- lookup

  /** `Character.query.filter_by(id=...).one_or_none()`: the position of the row with that id. */
  function IndexOf(rows: seq<Character>, id: int): (r: Option<nat>)
    ensures r.Some? ==> r.value < |rows| && rows[r.value].id == id
    ensures r.None? <==> forall i :: 0 <= i < |rows| ==> rows[i].id != id
  {
    if rows == [] then None
    else if rows[0].id == id then Some(0)
    else
      var rest := IndexOf(rows[1..], id);
      assert forall i :: 1 <= i < |rows| ==> rows[i] == rows[1..][i - 1];
      if rest.Some? then Some(rest.value + 1) else None
  }

  /** The primary key, the unique `name` index and the column types hold. */
  predicate TableInvariant(rows: seq<Character>) {
    && (forall i, j :: 0 <= i < j < |rows| ==> rows[i].id != rows[j].id && rows[i].name != rows[j].name)
    && (forall i :: 0 <= i < |rows| ==> WellFormed(rows[i]))
  }

  /** Inserting `c` would violate the primary key or the unique `name` index. */
  predicate Clash(rows: seq<Character>, c: Character) {
    exists i :: 0 <= i < |rows| && (rows[i].id == c.id || rows[i].name == c.name)
  }

  lemma AppendKeepsInvariant(rows: seq<Character>, c: Character)
    requires TableInvariant(rows) && WellFormed(c) && !Clash(rows, c)
    ensures TableInvariant(rows + [c])
  {
    var s := rows + [c];
    forall i, j | 0 <= i < j < |s| ensures s[i].id != s[j].id && s[i].name != s[j].name {
      if j == |rows| {
        assert s[i] == rows[i];
      }
    }
  }

  // ------------------------------------------------------ input validation

  /** The first of `fields` that does not pass `ok`. */
  function FirstFailing(fields: seq<string>, ok: string -> bool): (r: Option<string>)
    ensures r.None? <==> forall i :: 0 <= i < |fields| ==> ok(fields[i])
    ensures r.Some? ==>
      exists i :: 0 <= i < |fields| && fields[i] == r.value && !ok(r.value)
        && forall j :: 0 <= j < i ==> ok(fields[j])
  {
    if fields == [] then None
    else if !ok(fields[0]) then Some(fields[0])
    else
      var r := FirstFailing(fields[1..], ok);
      assert forall i :: 1 <= i < |fields| ==> fields[i] == fields[1..][i - 1];
      assert r.Some? ==>
        exists i :: 1 <= i < |fields| && fields[i] == r.value && !ok(r.value) && (forall j :: 1 <= j < i ==> ok(fields[j]));
      r
  }

  /** When every field before `fields[i]` passes and `fields[i]` does not, the
      search stops at `fields[i]`. */
  lemma {:induction false} FirstFailingAt(fields: seq<string>, ok: string -> bool, i: int)
    requires 0 <= i < |fields| && !ok(fields[i])
    requires forall j :: 0 <= j < i ==> ok(fields[j])
    ensures FirstFailing(fields, ok) == Some(fields[i])
  {
    if i > 0 {
      FirstFailingAt(fields[1..], ok, i - 1);
    }
  }

  function Present(body: map<string, Json>): string -> bool {
    k => k in body
  }

  function StringIfPresent(body: map<string, Json>): string -> bool {
    k => k !in body || IsPyStr(body[k])
  }

  function IntegerIfPresent(body: map<string, Json>): string -> bool {
    k => k !in body || IsPyInt(body[k])
  }

  /** The three validation loops of `add_character`, in order: the first
      missing mandatory field, else the first text field holding a non-string,
      else the first integer field holding a non-integer. */
  function Validate(body: map<string, Json>): Option<BadInput> {
    var missing := FirstFailing(MandatoryFields, Present(body));
    if missing.Some? then Some(MissingField(missing.value))
    else
      var text := FirstFailing(TextColumns, StringIfPresent(body));
      if text.Some? then Some(NotAString(text.value))
      else
        var number := FirstFailing(IntColumns, IntegerIfPresent(body));
        if number.Some? then Some(NotAnInteger(number.value))
        else None
  }

  /** A body passes validation exactly when it names the character, every
      text field it sends is a string and every integer field it sends is an
      `int` (which in Python includes `bool`). */
  lemma ValidateAccepts(body: map<string, Json>)
    ensures Validate(body).None? <==>
      && "name" in body
      && (forall k :: k in TextColumns && k in body ==> IsPyStr(body[k]))
      && (forall k :: k in IntColumns && k in body ==> IsPyInt(body[k]))
  {
    var text := FirstFailing(TextColumns, StringIfPresent(body));
    var number := FirstFailing(IntColumns, IntegerIfPresent(body));
    if text.None? {
      forall k | k in TextColumns && k in body ensures IsPyStr(body[k]) {
        var i :| 0 <= i < |TextColumns| && TextColumns[i] == k;
        assert StringIfPresent(body)(TextColumns[i]);
      }
    }
    if number.None? {
      forall k | k in IntColumns && k in body ensures IsPyInt(body[k]) {
        var i :| 0 <= i < |IntColumns| && IntColumns[i] == k;
        assert IntegerIfPresent(body)(IntColumns[i]);
      }
    }
  }

  /** A rejected body is rejected for a reason it really has. */
  lemma ValidateReasons(body: map<string, Json>)
    ensures Validate(body) == Some(MissingField("name")) <==> "name" !in body
    ensures Validate(body).Some? && Validate(body).value.NotAString? ==>
      var k := Validate(body).value.field; "name" in body && k in TextColumns && k in body && !IsPyStr(body[k])
    ensures Validate(body).Some? && Validate(body).value.NotAnInteger? ==>
      var k := Validate(body).value.field; "name" in body && k in IntColumns && k in body && !IsPyInt(body[k])
  {
    assert MandatoryFields[0] == "name";
  }

  /** `add_character`'s validation loops. */
  method CheckFields(body: map<string, Json>) returns (e: Option<BadInput>)
    ensures e == Validate(body)
  {
    for i := 0 to |MandatoryFields|
      invariant forall j :: 0 <= j < i ==> MandatoryFields[j] in body
    {
      if MandatoryFields[i] !in body {
        FirstFailingAt(MandatoryFields, Present(body), i);
        return Some(MissingField(MandatoryFields[i]));
      }
    }
    assert FirstFailing(MandatoryFields, Present(body)).None?;
    for i := 0 to |TextColumns|
      invariant forall j :: 0 <= j < i ==> StringIfPresent(body)(TextColumns[j])
    {
      var field := TextColumns[i];
      if field in body && !IsPyStr(body[field]) {
        FirstFailingAt(TextColumns, StringIfPresent(body), i);
        return Some(NotAString(field));
      }
    }
    assert FirstFailing(TextColumns, StringIfPresent(body)).None?;
    for i := 0 to |IntColumns|
      invariant forall j :: 0 <= j < i ==> IntegerIfPresent(body)(IntColumns[j])
    {
      var field := IntColumns[i];
      if field in body && !IsPyInt(body[field]) {
        FirstFailingAt(IntColumns, IntegerIfPresent(body), i);
        return Some(NotAnInteger(field));
      }
    }
    assert FirstFailing(IntColumns, IntegerIfPresent(body)).None?;
    return None;
  }

  // --------------------------------------------------------------- insert

  /** `Character(**body)` refuses a keyword that is not a column. */
  predicate UnknownKeys(body: map<string, Json>) {
    exists k :: k in body && ColumnNamed(k).None?
  }

  /** The body chooses the primary key itself. */
  predicate ExplicitId(body: map<string, Json>) {
    Get(body, "id") != JNull
  }

  /** The key the new row gets: the one sent, or the next value of the sequence. */
  function NewId(body: map<string, Json>, next: int): int {
    if ExplicitId(body) && body["id"].JInt? then body["id"].i else next
  }

  /** The INSERT fails on a value its column cannot hold (too long, out of
      the 32-bit range, a `bool` in an integer column), or on a sequence
      value beyond the range of the key. */
  predicate DataFault(body: map<string, Json>, next: int) {
    || (exists k :: k in body && body[k] != JNull && ColumnNamed(k).Some? && !FitsColumn(ColumnNamed(k).value, body[k]))
    || (!ExplicitId(body) && !InInt32(next))
  }

  /** A body the INSERT accepts gives the new row a key in range, and no
      column of it is refused whichever key it gets. */
  lemma NewIdFits(body: map<string, Json>, next: int)
    requires !DataFault(body, next)
    ensures InInt32(NewId(body, next)) && !DataFault(body, NewId(body, next))
  {
    if ExplicitId(body) {
      assert ColumnNamed("id") == Some(IdColumn);
      assert FitsColumn(IdColumn, body["id"]);
    }
  }

  function TextOf(j: Json): Option<string> {
    if j.JStr? then Some(j.s) else None
  }

  function IntOf(j: Json): Option<int> {
    if j.JInt? then Some(j.i) else None
  }

  /** The row `Character(**body)` describes, with key `id`. */
  function RowOf(body: map<string, Json>, id: int): Character {
    var name := Get(body, Key(NameColumn));
    Character(
      id,
      if name.JStr? then name.s else "",
      TextOf(Get(body, Key(HouseColumn))), TextOf(Get(body, Key(AnimalColumn))),
      TextOf(Get(body, Key(StrengthColumn))), TextOf(Get(body, Key(RoleColumn))),
      TextOf(Get(body, Key(NicknameColumn))), TextOf(Get(body, Key(SymbolColumn))),
      IntOf(Get(body, Key(DeathColumn))), IntOf(Get(body, Key(AgeColumn))))
  }


  /** A body that passes validation and that the INSERT accepts is stored
      exactly as it was sent: every column reads back the value of the body
      (NULL for a field left out), the key reads back the key given to it,
      and the row satisfies its column types. */
  lemma RowOfStoresBody(body: map<string, Json>, id: int)
    requires Validate(body).None? && !DataFault(body, id) && InInt32(id)
    ensures FieldOf(RowOf(body, id), IdColumn) == JInt(id)
    ensures forall col :: col != IdColumn ==> FieldOf(RowOf(body, id), col) == Get(body, Key(col))
    ensures WellFormed(RowOf(body, id))
  {
    assert StringIfPresent(body)(TextColumns[0]);
    var c := RowOf(body, id);
    forall col | col != IdColumn
      ensures FieldOf(c, col) == Get(body, Key(col))
      ensures FieldOf(c, col) != JNull ==> FitsColumn(col, FieldOf(c, col))
    {
      StoredColumn(body, id, col);
    }
  }

  lemma StoredColumn(body: map<string, Json>, id: int, col: Column)
    requires "name" in body && body["name"].JStr? && !DataFault(body, id) && col != IdColumn
    ensures FieldOf(RowOf(body, id), col) == Get(body, Key(col))
    ensures Get(body, Key(col)) != JNull ==> FitsColumn(col, Get(body, Key(col)))
  {
    ColumnNamedKey();
    if Key(col) in body && body[Key(col)] != JNull {
      assert FitsColumn(col, body[Key(col)]);
    }
  }

  // ---------------------------------------------------------------- merge

  /** `setattr(row, key, value)` changes a column: a column other than the
      key, sent with a non-null value. */
  predicate Writes(body: map<string, Json>, col: Column) {
    col != IdColumn && Key(col) in body && body[Key(col)] != JNull
  }

  /** Every column the body writes can hold the value sent for it. */
  ghost predicate Fits(body: map<string, Json>) {
    forall col :: Writes(body, col) ==> FitsColumn(col, body[Key(col)])
  }

  /** `setattr(row, column, v)` on one column other than the key. */
  function Assign(c: Character, col: Column, v: Json): (r: Character)
    requires col != IdColumn && FitsColumn(col, v)
    ensures forall other :: FieldOf(r, other) == if other == col then v else FieldOf(c, other)
  {
    match col
    case NameColumn => c.(name := v.s)
    case HouseColumn => c.(house := Some(v.s))
    case AnimalColumn => c.(animal := Some(v.s))
    case SymbolColumn => c.(symbol := Some(v.s))
    case NicknameColumn => c.(nickname := Some(v.s))
    case RoleColumn => c.(role := Some(v.s))
    case StrengthColumn => c.(strength := Some(v.s))
    case AgeColumn => c.(age := Some(v.i))
    case DeathColumn => c.(death := Some(v.i))
  }

  function TextUpdate(current: Option<string>, body: map<string, Json>, col: Column): Option<string>
    requires Fits(body) && !IsIntColumn(col)
  {
    if Writes(body, col) then Some(body[Key(col)].s) else current
  }

  function IntUpdate(current: Option<int>, body: map<string, Json>, col: Column): Option<int>
    requires Fits(body) && col != IdColumn && IsIntColumn(col)
  {
    if Writes(body, col) then Some(body[Key(col)].i) else current
  }

  /** The row after `put_character`'s loop: the columns sent with a non-null
      value take that value; the key, the other columns and keys that are not
      columns are left alone. */
  function Merge(c: Character, body: map<string, Json>): Character
    requires Fits(body)
  {
    c.(name := if Writes(body, NameColumn) then body[Key(NameColumn)].s else c.name,
       house := TextUpdate(c.house, body, HouseColumn),
       animal := TextUpdate(c.animal, body, AnimalColumn),
       strength := TextUpdate(c.strength, body, StrengthColumn),
       role := TextUpdate(c.role, body, RoleColumn),
       nickname := TextUpdate(c.nickname, body, NicknameColumn),
       symbol := TextUpdate(c.symbol, body, SymbolColumn),
       death := IntUpdate(c.death, body, DeathColumn),
       age := IntUpdate(c.age, body, AgeColumn))
  }

  /** Merging overwrites exactly the columns the body writes, and every other
      column of the row (the key included) keeps its value. */
  lemma MergeSpec(c: Character, body: map<string, Json>)
    requires Fits(body)
    ensures forall col :: FieldOf(Merge(c, body), col) == if Writes(body, col) then body[Key(col)] else FieldOf(c, col)
  {
    forall col ensures FieldOf(Merge(c, body), col) == if Writes(body, col) then body[Key(col)] else FieldOf(c, col) {
      if Writes(body, col) {
        assert FitsColumn(col, body[Key(col)]);
      }
    }
  }

  /** The same statement on the serialized row: a key of `serialize` takes the
      non-null value the body sends for it, except `id`, and keeps its value
      otherwise. */
  lemma MergeSerialized(c: Character, body: map<string, Json>, k: string)
    requires Fits(body) && k in CharacterKeys
    ensures Serialize(Merge(c, body))[k] ==
      if k != "id" && k in body && body[k] != JNull then body[k] else Serialize(c)[k]
  {
    ColumnNamedKeys(k);
    var col := ColumnNamed(k).value;
    MergeSpec(c, body);
    SerializeFields(Merge(c, body), col);
    SerializeFields(c, col);
  }

  /** Sending the same body twice changes nothing the second time. */
  lemma MergeIdempotent(c: Character, body: map<string, Json>)
    requires Fits(body)
    ensures Merge(Merge(c, body), body) == Merge(c, body)
  {
    MergeSpec(c, body);
    MergeSpec(Merge(c, body), body);
    FieldsDetermineRow(Merge(Merge(c, body), body), Merge(c, body));
  }

  /** A merge whose values fit keeps the row well formed. */
  lemma MergeWellFormed(c: Character, body: map<string, Json>)
    requires Fits(body) && WellFormed(c)
    ensures WellFormed(Merge(c, body))
  {
    MergeSpec(c, body);
  }

  /** Another row than the one at `i` already has the name `name`. */
  predicate NameTakenElsewhere(rows: seq<Character>, i: int, name: string) {
    exists j :: 0 <= j < |rows| && j != i && rows[j].name == name
  }

  lemma ReplaceKeepsInvariant(rows: seq<Character>, i: int, c: Character)
    requires TableInvariant(rows) && 0 <= i < |rows| && WellFormed(c)
    requires c.id == rows[i].id && !NameTakenElsewhere(rows, i, c.name)
    ensures TableInvariant(rows[i := c])
  {
  }

  lemma {:induction false} RemoveKeepsInvariant(rows: seq<Character>, i: int)
    requires TableInvariant(rows) && 0 <= i < |rows|
    ensures TableInvariant(rows[..i] + rows[i + 1..])
    ensures IndexOf(rows[..i] + rows[i + 1..], rows[i].id).None?
  {
    var s := rows[..i] + rows[i + 1..];
    assert forall a :: 0 <= a < |s| ==> s[a] == rows[if a < i then a else a + 1];
  }

  // ------------------------------------------------- effects on the table

  /** What `add_character` does to a table holding `rows` whose key sequence
      stands at `next`: it answers `r` and leaves `rows'` and `next'`. */
  ghost predicate AddEffect(rows: seq<Character>, next: int, body: map<string, Json>,
                            r: AddOutcome, rows': seq<Character>, next': int) {
    && (Validate(body).Some? ==>
          r == Rejected(Validate(body).value) && rows' == rows && next' == next)
    && (Validate(body).None? && UnknownKeys(body) ==>
          && r.Rejected? && r.error.UnknownAttribute?
          && r.error.key in body && ColumnNamed(r.error.key).None?
          && rows' == rows && next' == next)
    && (Validate(body).None? && !UnknownKeys(body) ==> InsertEffect(rows, next, body, r, rows', next'))
  }

  /** What the INSERT of a validated body that names only columns does: a key
      is drawn unless the body gives one, then the row is refused by its
      column types, refused by the unique indexes, or appended. */
  ghost predicate InsertEffect(rows: seq<Character>, next: int, body: map<string, Json>,
                               r: AddOutcome, rows': seq<Character>, next': int) {
    && next' == (if ExplicitId(body) then next else next + 1)
    && (DataFault(body, next) ==> r == StoreFailed && rows' == rows)
    && (!DataFault(body, next) ==>
          var c := RowOf(body, NewId(body, next));
          && (Clash(rows, c) ==> r == Duplicate && rows' == rows)
          && (!Clash(rows, c) ==> r == Created(c) && rows' == rows + [c]))
  }

  /** What `put_character` for `id` does to a table holding `rows`. */
  ghost predicate PutEffect(rows: seq<Character>, id: int, body: map<string, Json>,
                            r: PutOutcome, rows': seq<Character>) {
    && (IndexOf(rows, id).None? ==> r == NotFound && rows' == rows)
    && (IndexOf(rows, id).Some? && "id" in body ==> r == IdInBody && rows' == rows)
    && (IndexOf(rows, id).Some? && "id" !in body && !Fits(body) ==> r == Unprocessable && rows' == rows)
    && (IndexOf(rows, id).Some? && "id" !in body && Fits(body) ==>
          var i := IndexOf(rows, id).value;
          var merged := Merge(rows[i], body);
          && (NameTakenElsewhere(rows, i, merged.name) ==> r == PutFailed && rows' == rows)
          && (!NameTakenElsewhere(rows, i, merged.name) ==> r == Updated(merged) && rows' == rows[i := merged]))
  }

  /** What `delete_character` for `id` does to a table holding `rows`. */
  ghost predicate DeleteEffect(rows: seq<Character>, id: int, r: DeleteOutcome, rows': seq<Character>) {
    && (IndexOf(rows, id).None? ==> r == Missing && rows' == rows)
    && (IndexOf(rows, id).Some? ==>
          var i := IndexOf(rows, id).value;
          r == Deleted && rows' == rows[..i] + rows[i + 1..])
  }

  /** The `character` table and the sequence behind its primary key. */
  class CharacterTable {
    var rows: seq<Character>
    /** The next value of the key sequence. */
    var nextId: int

    ghost predicate Valid()
      reads this
    {
      TableInvariant(rows)
    }

    constructor ()
      ensures Valid() && rows == [] && nextId == 1
    {
      rows := [];
      nextId := 1;
    }

    /** `add_character`: validation, `Character(**body)`, then the INSERT.
        A failed INSERT is rolled back; a key drawn from the sequence stays used. */
    method Add(body: map<string, Json>) returns (r: AddOutcome)
      requires Valid()
      modifies this
      ensures Valid()
      ensures AddEffect(old(rows), old(nextId), body, r, rows, nextId)
    {
      var invalid := CheckFields(body);
      if invalid.Some? {
        return Rejected(invalid.value);
      }
      if UnknownKeys(body) {
        var k :| k in body && ColumnNamed(k).None?;
        return Rejected(UnknownAttribute(k));
      }
      r := Insert(body);
    }

    /** The INSERT of a validated body that names only columns. */
    method Insert(body: map<string, Json>) returns (r: AddOutcome)
      requires Valid() && Validate(body).None? && !UnknownKeys(body)
      modifies this
      ensures Valid()
      ensures InsertEffect(old(rows), old(nextId), body, r, rows, nextId)
    {
      var next := nextId;
      if !ExplicitId(body) {
        nextId := nextId + 1;
      }
      if DataFault(body, next) {
        return StoreFailed;
      }
      var id := NewId(body, next);
      NewIdFits(body, next);
      var c := RowOf(body, id);
      if Clash(rows, c) {
        return Duplicate;
      }
      RowOfStoresBody(body, id);
      AppendKeepsInvariant(rows, c);
      rows := rows + [c];
      return Created(c);
    }

    /** `put_character`: the lookup, the `id` guard, the `setattr` loop over
        the body, then the UPDATE (rolled back when it fails). */
    method Put(id: int, body: map<string, Json>) returns (r: PutOutcome)
      requires Valid()
      modifies this
      ensures Valid() && nextId == old(nextId)
      ensures PutEffect(old(rows), id, body, r, rows)
    {
      var found := IndexOf(rows, id);
      if found.None? {
        return NotFound;
      }
      if "id" in body {
        return IdInBody;
      }
      var i := found.value;
      var row := Merging(rows[i], body);
      if row.None? {
        return Unprocessable;
      }
      if NameTakenElsewhere(rows, i, row.value.name) {
        return PutFailed;
      }
      MergeWellFormed(rows[i], body);
      ReplaceKeepsInvariant(rows, i, row.value);
      rows := rows[i := row.value];
      return Updated(row.value);
    }

    /** `delete_character`. */
    method Delete(id: int) returns (r: DeleteOutcome)
      requires Valid()
      modifies this
      ensures Valid() && nextId == old(nextId)
      ensures DeleteEffect(old(rows), id, r, rows)
      ensures IndexOf(rows, id).None?
    {
      var found := IndexOf(rows, id);
      if found.None? {
        return Missing;
      }
      var i := found.value;
      RemoveKeepsInvariant(rows, i);
      rows := rows[..i] + rows[i + 1..];
      return Deleted;
    }
  }

  /** The loop has written every column whose key it has visited and whose value fits. */
  ghost predicate MergedSoFar(row: Character, c: Character, body: map<string, Json>, keys: set<string>) {
    forall col :: FieldOf(row, col) ==
      if Key(col) !in keys && Writes(body, col) && FitsColumn(col, body[Key(col)]) then body[Key(col)]
      else FieldOf(c, col)
  }

  /** Every value the loop has visited fits its column. */
  ghost predicate FitsSoFar(body: map<string, Json>, keys: set<string>) {
    forall col :: Key(col) !in keys && Writes(body, col) ==> FitsColumn(col, body[Key(col)])
  }

  /** Visiting key `k` writes its column (when it names one, other than the
      key, with a non-null value that fits) and nothing else. */
  lemma MergeStep(row: Character, c: Character, body: map<string, Json>, keys: set<string>, k: string)
    requires MergedSoFar(row, c, body, keys) && k in keys && keys <= body.Keys
    ensures var col := ColumnNamed(k);
      && (FitsSoFar(body, keys - {k}) <==>
            FitsSoFar(body, keys) && (col.Some? && Writes(body, col.value) ==> FitsColumn(col.value, body[k])))
      && (if col.Some? && Writes(body, col.value) && FitsColumn(col.value, body[k])
          then MergedSoFar(Assign(row, col.value, body[k]), c, body, keys - {k})
          else MergedSoFar(row, c, body, keys - {k}))
  {
    ColumnNamedKey();
  }

  /** The `setattr` loop of `put_character` on a copy of the row: every key
      with a non-null value is written, in whatever order the body yields its
      keys; `None` when a value does not fit its column, which the UPDATE then
      refuses. Keys that are not columns become plain attributes and are not
      written to the table. */
  method Merging(c: Character, body: map<string, Json>) returns (r: Option<Character>)
    ensures r.None? <==> !Fits(body)
    ensures r.Some? ==> r.value == Merge(c, body)
  {
    var row := c;
    var fits := true;
    var keys := body.Keys;
    while keys != {}
      invariant keys <= body.Keys
      invariant fits <==> FitsSoFar(body, keys)
      invariant MergedSoFar(row, c, body, keys)
      decreases keys
    {
      var k :| k in keys;
      var col := ColumnNamed(k);
      MergeStep(row, c, body, keys, k);
      if col.Some? && Writes(body, col.value) {
        if FitsColumn(col.value, body[k]) {
          row := Assign(row, col.value, body[k]);
        } else {
          fits := false;
        }
      }
      keys := keys - {k};
    }
    if !fits {
      return None;
    }
    MergeSpec(c, body);
    FieldsDetermineRow(row, Merge(c, body));
    return Some(row);
  }
}
