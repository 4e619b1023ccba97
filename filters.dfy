/** `create_filtering_query`: the optional filter arguments of
    `GET /api/characters`, turned into a conjunction of conditions on a row. */
module Filters {
  import opened Values
  import opened PyText
  import opened Models

  /** The raw query-string arguments; `None` is an argument that was not sent. */
  datatype RawFilters = RawFilters(
    age: Option<string>,
    ageMoreThan: Option<string>,
    ageLessThan: Option<string>,
    animal: Option<string>,
    death: Option<string>,
    house: Option<string>,
    name: Option<string>,
    nickname: Option<string>,
    strength: Option<string>,
    symbol: Option<string>,
    role: Option<string>)

  const NoFilters := RawFilters(None, None, None, None, None, None, None, None, None, None, None)

  /** The text columns a filter can name. */
  datatype TextCol = NameCol | HouseCol | AnimalCol | NicknameCol | RoleCol | SymbolCol | StrengthCol

  /** The integer columns a filter can name. */
  datatype IntCol = AgeCol | DeathCol

  /** How an integer column is compared with the argument. */
  datatype Comparison = Equal | Below | AtLeast

  /** One SQL condition. A comparison with a NULL column is never true, so
      every condition rejects a row whose column is NULL. */
  datatype Condition =
    | IntIs(intColumn: IntCol, op: Comparison, n: int)  // column == n, column < n, column >= n
    | TextIs(textColumn: TextCol, value: string)          // lower(column) == lower(value)

  /** The `ValueError` raised for a numeric argument that does not parse; it
      carries the offending literal. */
  datatype FilterError = InvalidNumericValue(literal: string)

  /** The value of a text column, `name` included. */
  function TextColumn(c: Character, column: TextCol): Option<string> {
    match column
    case NameCol => Some(c.name)
    case HouseCol => c.house
    case AnimalCol => c.animal
    case NicknameCol => c.nickname
    case RoleCol => c.role
    case SymbolCol => c.symbol
    case StrengthCol => c.strength
  }

  /** The value of an integer column. */
  function IntColumn(c: Character, column: IntCol): Option<int> {
    match column
    case AgeCol => c.age
    case DeathCol => c.death
  }

  predicate Compare(op: Comparison, x: int, n: int) {
    match op
    case Equal => x == n
    case Below => x < n
    case AtLeast => x >= n
  }

  predicate Holds(c: Character, cond: Condition) {
    match cond
    case IntIs(column, op, n) => IntColumn(c, column).Some? && Compare(op, IntColumn(c, column).value, n)
    case TextIs(column, v) => TextColumn(c, column).Some? && Lower(TextColumn(c, column).value) == Lower(v)
  }

  /** `and_(*conditions)`; an empty list filters nothing out. */
  predicate MatchesAll(c: Character, conds: seq<Condition>) {
    forall k :: 0 <= k < |conds| ==> Holds(c, conds[k])
  }

  /** The numeric arguments, in the order they are converted with `int()`. */
  function NumericArgs(f: RawFilters): seq<Option<string>> {
    [f.age, f.ageLessThan, f.ageMoreThan, f.death]
  }

  predicate Parses(arg: Option<string>) {
    arg.None? || ParseInt(arg.value).Some?
  }

  predicate NumericValid(f: RawFilters) {
    forall i :: 0 <= i < |NumericArgs(f)| ==> Parses(NumericArgs(f)[i])
  }

  function Num(arg: Option<string>): int
    requires arg.Some? && ParseInt(arg.value).Some?
  {
    ParseInt(arg.value).value
  }

  /** A given numeric argument compares with a column as `op` says; a NULL column never matches. */
  predicate IntAdmits(arg: Option<string>, op: Comparison, column: Option<int>)
    requires Parses(arg)
  {
    arg.Some? ==> column.Some? && Compare(op, column.value, Num(arg))
  }

  /** A given text argument matches a column ignoring case; a NULL column never matches. */
  predicate TextAdmits(arg: Option<string>, column: Option<string>) {
    arg.Some? ==> column.Some? && Lower(column.value) == Lower(arg.value)
  }

  /** What the filters mean, argument by argument: the reference the built
      query is proved against. */
  predicate Admits(f: RawFilters, c: Character)
    requires NumericValid(f)
  {
    assert Parses(NumericArgs(f)[0]) && Parses(NumericArgs(f)[1]);
    assert Parses(NumericArgs(f)[2]) && Parses(NumericArgs(f)[3]);
    && IntAdmits(f.age, Equal, c.age)
    && IntAdmits(f.ageLessThan, Below, c.age)
    && IntAdmits(f.ageMoreThan, AtLeast, c.age)
    && TextAdmits(f.house, c.house)
    && TextAdmits(f.animal, c.animal)
    && IntAdmits(f.death, Equal, c.death)
    && TextAdmits(f.name, Some(c.name))
    && TextAdmits(f.nickname, c.nickname)
    && TextAdmits(f.role, c.role)
    && TextAdmits(f.symbol, c.symbol)
    && TextAdmits(f.strength, c.strength)
  }

  function Sent(arg: Option<string>): nat {
    if arg.Some? then 1 else 0
  }

  /** How many filter arguments were sent. */
  function CountGiven(f: RawFilters): nat {
    Sent(f.age) + Sent(f.ageLessThan) + Sent(f.ageMoreThan) + Sent(f.house) + Sent(f.animal) + Sent(f.death)
    + Sent(f.name) + Sent(f.nickname) + Sent(f.role) + Sent(f.symbol) + Sent(f.strength)
  }

  lemma MatchesAllAppend(c: Character, conds: seq<Condition>, cond: Condition)
    ensures MatchesAll(c, conds + [cond]) <==> MatchesAll(c, conds) && Holds(c, cond)
  {
    assert forall k :: 0 <= k < |conds| ==> (conds + [cond])[k] == conds[k];
    assert (conds + [cond])[|conds|] == cond;
  }

  /** Appends `TextIs(column, arg)` when the argument was sent. */
  method AddTextCondition(conds: seq<Condition>, column: TextCol, arg: Option<string>)
    returns (r: seq<Condition>)
    ensures |r| == |conds| + Sent(arg)
    ensures forall c :: MatchesAll(c, r) <==> MatchesAll(c, conds) && TextAdmits(arg, TextColumn(c, column))
  {
    r := conds;
    if arg.Some? {
      r := conds + [TextIs(column, arg.value)];
      forall c ensures MatchesAll(c, r) <==> MatchesAll(c, conds) && Holds(c, TextIs(column, arg.value)) {
        MatchesAllAppend(c, conds, TextIs(column, arg.value));
      }
    }
  }

  /** Converts a numeric argument with `int()` and appends the comparison
      when the argument was sent. */
  method AddIntCondition(conds: seq<Condition>, column: IntCol, op: Comparison, arg: Option<string>)
    returns (r: Result<seq<Condition>, FilterError>)
    ensures r.Success? <==> Parses(arg)
    ensures r.Failure? ==> arg == Some(r.error.literal)
    ensures r.Success? ==> |r.value| == |conds| + Sent(arg)
    ensures r.Success? ==>
      forall c :: MatchesAll(c, r.value) <==> MatchesAll(c, conds) && IntAdmits(arg, op, IntColumn(c, column))
  {
    if arg.None? {
      return Success(conds);
    }
    var n := ParseInt(arg.value);
    if n.None? {
      return Failure(InvalidNumericValue(arg.value));
    }
    var cond := IntIs(column, op, n.value);
    forall c ensures MatchesAll(c, conds + [cond]) <==> MatchesAll(c, conds) && Holds(c, cond) {
      MatchesAllAppend(c, conds, cond);
    }
    return Success(conds + [cond]);
  }

  /** The last five text conditions of the query: name, nickname, role,
      symbol and strength, in that order. */
  method AddTrailingTextConditions(conds: seq<Condition>, f: RawFilters) returns (r: seq<Condition>)
    ensures |r| == |conds| + Sent(f.name) + Sent(f.nickname) + Sent(f.role) + Sent(f.symbol) + Sent(f.strength)
    ensures forall c :: MatchesAll(c, r) <==>
      && MatchesAll(c, conds)
      && TextAdmits(f.name, Some(c.name))
      && TextAdmits(f.nickname, c.nickname)
      && TextAdmits(f.role, c.role)
      && TextAdmits(f.symbol, c.symbol)
      && TextAdmits(f.strength, c.strength)
  {
    var c1 := AddTextCondition(conds, NameCol, f.name);
    var c2 := AddTextCondition(c1, NicknameCol, f.nickname);
    var c3 := AddTextCondition(c2, RoleCol, f.role);
    var c4 := AddTextCondition(c3, SymbolCol, f.symbol);
    r := AddTextCondition(c4, StrengthCol, f.strength);
  }

  /** Builds the conditions in the order of the source, converting each
      numeric argument with `int()` as it is reached; the first one that does
      not convert aborts the whole query. */
  method CreateFilteringQuery(f: RawFilters) returns (r: Result<seq<Condition>, FilterError>)
    ensures r.Success? <==> NumericValid(f)
    ensures r.Failure? ==>
      exists i :: 0 <= i < |NumericArgs(f)| && NumericArgs(f)[i] == Some(r.error.literal)
        && !Parses(NumericArgs(f)[i]) && forall j :: 0 <= j < i ==> Parses(NumericArgs(f)[j])
    ensures r.Success? ==> |r.value| == CountGiven(f)
    ensures r.Success? ==> forall c :: MatchesAll(c, r.value) <==> Admits(f, c)
    ensures f == NoFilters ==> r == Success([])
  {
    var args := NumericArgs(f);
    assert args[0] == f.age && args[1] == f.ageLessThan && args[2] == f.ageMoreThan && args[3] == f.death;
    var s1 := AddIntCondition([], AgeCol, Equal, f.age);
    if s1.Failure? {
      return s1;
    }
    var s2 := AddIntCondition(s1.value, AgeCol, Below, f.ageLessThan);
    if s2.Failure? {
      return s2;
    }
    var s3 := AddIntCondition(s2.value, AgeCol, AtLeast, f.ageMoreThan);
    if s3.Failure? {
      return s3;
    }
    var c4 := AddTextCondition(s3.value, HouseCol, f.house);
    var c5 := AddTextCondition(c4, AnimalCol, f.animal);
    var s6 := AddIntCondition(c5, DeathCol, Equal, f.death);
    if s6.Failure? {
      return s6;
    }
    var c11 := AddTrailingTextConditions(s6.value, f);
    assert NumericValid(f);
    assert |c11| == CountGiven(f) by {
      assert |c5| == Sent(f.age) + Sent(f.ageLessThan) + Sent(f.ageMoreThan) + Sent(f.house) + Sent(f.animal);
      assert |c11| == |c5| + Sent(f.death) + Sent(f.name) + Sent(f.nickname) + Sent(f.role) + Sent(f.symbol) + Sent(f.strength);
    }
    forall c ensures MatchesAll(c, c11) <==> Admits(f, c) {
      assert MatchesAll(c, []);
      assert MatchesAll(c, s1.value) <==> IntAdmits(f.age, Equal, c.age);
      assert MatchesAll(c, s2.value) <==> MatchesAll(c, s1.value) && IntAdmits(f.ageLessThan, Below, c.age);
      assert MatchesAll(c, s3.value) <==> MatchesAll(c, s2.value) && IntAdmits(f.ageMoreThan, AtLeast, c.age);
      assert MatchesAll(c, c4) <==> MatchesAll(c, s3.value) && TextAdmits(f.house, c.house);
      assert MatchesAll(c, c5) <==> MatchesAll(c, c4) && TextAdmits(f.animal, c.animal);
      assert MatchesAll(c, s6.value) <==> MatchesAll(c, c5) && IntAdmits(f.death, Equal, c.death);
    }
    return Success(c11);
  }

  function LowerArg(arg: Option<string>): Option<string> {
    if arg.Some? then Some(Lower(arg.value)) else None
  }

  /** The same filters with every text argument lower-cased. */
  function LowerTextArgs(f: RawFilters): RawFilters {
    f.(house := LowerArg(f.house), animal := LowerArg(f.animal), name := LowerArg(f.name),
       nickname := LowerArg(f.nickname), role := LowerArg(f.role), symbol := LowerArg(f.symbol),
       strength := LowerArg(f.strength))
  }

  /** Text filters ignore case: lower-casing every text argument selects
      exactly the same rows. */
  lemma FiltersIgnoreCase(f: RawFilters, c: Character)
    requires NumericValid(f)
    ensures NumericValid(LowerTextArgs(f))
    ensures Admits(LowerTextArgs(f), c) <==> Admits(f, c)
  {
    var g := LowerTextArgs(f);
    assert NumericArgs(g) == NumericArgs(f);
    forall arg: Option<string> | arg.Some? ensures Lower(LowerArg(arg).value) == Lower(arg.value) {
      LowerIdempotent(arg.value);
    }
  }

  /** `age_less_than` is a strict upper bound and `age_more_than` an inclusive
      lower bound: together they select the ages in `[low, high)`. */
  lemma AgeWindow(low: int, high: int, c: Character)
    requires WithinDigitLimit(low) && WithinDigitLimit(high)
    ensures var f := NoFilters.(ageMoreThan := Some(IntToDecimal(low)), ageLessThan := Some(IntToDecimal(high)));
      NumericValid(f) && (Admits(f, c) <==> c.age.Some? && low <= c.age.value < high)
  {
    ParseIntRoundTrip(low);
    ParseIntRoundTrip(high);
    var f := NoFilters.(ageMoreThan := Some(IntToDecimal(low)), ageLessThan := Some(IntToDecimal(high)));
    assert NumericArgs(f) == [None, Some(IntToDecimal(high)), Some(IntToDecimal(low)), None];
  }
}
