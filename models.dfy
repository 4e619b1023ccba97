/** The two tables of the service: `Character` rows and `User` accounts, their
    column constraints, and the dictionaries their `serialize` properties return. */
module Models {
  import opened Values

  /** `db.String(100)` */
  const MaxTextLength := 100
  /** `db.String(200)`, the column that holds a password hash */
  const MaxPasswordLength := 200
  /** `db.Integer` is a signed 32-bit column. */
  const MinInt32 := -0x8000_0000
  const MaxInt32 := 0x7FFF_FFFF

  /** A row of the `character` table. Only `name` is `NOT NULL` (and unique
      across the table, which `Store.CharacterTable.Valid` states). */
  datatype Character = Character(
    id: int,
    name: string,
    house: Option<string>,
    animal: Option<string>,
    strength: Option<string>,
    role: Option<string>,
    nickname: Option<string>,
    symbol: Option<string>,
    death: Option<int>,
    age: Option<int>)

  /** A row of the `user` table; `password` holds the salted hash. No unique
      constraint sits on `username`. */
  datatype User = User(id: int, username: string, password: string, createdAt: int)

  /** The keys of `Character.serialize`. */
  const CharacterKeys: set<string> :=
    {"id", "name", "age", "house", "animal", "symbol", "nickname", "role", "death", "strength"}

  /** The keys of `User.serialize`. */
  const UserKeys: set<string> := {"id", "username", "created_at"}

  /** The text columns, in the order `add_character` checks them. */
  const TextColumns: seq<string> := ["name", "house", "animal", "symbol", "nickname", "role", "strength"]

  /** The integer columns, in the order `add_character` checks them. */
  const IntColumns: seq<string> := ["age", "death"]

  /** The columns of the `character` table. */
  datatype Column =
    | IdColumn | NameColumn | AgeColumn | HouseColumn | AnimalColumn
    | SymbolColumn | NicknameColumn | RoleColumn | DeathColumn | StrengthColumn

  /** The attribute (and JSON key) of a column. */
  function Key(col: Column): string {
    match col
    case IdColumn => "id"
    case NameColumn => "name"
    case AgeColumn => "age"
    case HouseColumn => "house"
    case AnimalColumn => "animal"
    case SymbolColumn => "symbol"
    case NicknameColumn => "nickname"
    case RoleColumn => "role"
    case DeathColumn => "death"
    case StrengthColumn => "strength"
  }

  /** The column an attribute name denotes, if any. */
  function ColumnNamed(k: string): (r: Option<Column>)
    ensures r.Some? ==> Key(r.value) == k
  {
    match k
    case "id" => Some(IdColumn)
    case "name" => Some(NameColumn)
    case "age" => Some(AgeColumn)
    case "house" => Some(HouseColumn)
    case "animal" => Some(AnimalColumn)
    case "symbol" => Some(SymbolColumn)
    case "nickname" => Some(NicknameColumn)
    case "role" => Some(RoleColumn)
    case "death" => Some(DeathColumn)
    case "strength" => Some(StrengthColumn)
    case _ => None
  }

  /** Every column is found again from its name, so no two columns share one. */
  lemma ColumnNamedKey()
    ensures forall col :: ColumnNamed(Key(col)) == Some(col)
  {
    forall col ensures ColumnNamed(Key(col)) == Some(col) {
    }
  }

  /** Exactly the keys of `Character.serialize` name columns. */
  lemma ColumnNamedKeys(k: string)
    ensures ColumnNamed(k).Some? <==> k in CharacterKeys
  {
  }

  predicate IsIntColumn(col: Column) {
    col == IdColumn || col == AgeColumn || col == DeathColumn
  }

  predicate InInt32(n: int) {
    MinInt32 <= n <= MaxInt32
  }

  /** Whether a non-null value can be stored in a column as it stands: a string
      of at most 100 characters in a text column, a 32-bit integer in an
      integer column. Anything else is a data error of the database. */
  predicate FitsColumn(col: Column, v: Json) {
    if IsIntColumn(col) then v.JInt? && InInt32(v.i) else v.JStr? && |v.s| <= MaxTextLength
  }

  function TextJson(t: Option<string>): Json {
    if t.Some? then JStr(t.value) else JNull
  }

  function IntJson(n: Option<int>): Json {
    if n.Some? then JInt(n.value) else JNull
  }

  /** The value a column of the row holds. */
  function FieldOf(c: Character, col: Column): Json {
    match col
    case IdColumn => JInt(c.id)
    case NameColumn => JStr(c.name)
    case AgeColumn => IntJson(c.age)
    case HouseColumn => TextJson(c.house)
    case AnimalColumn => TextJson(c.animal)
    case SymbolColumn => TextJson(c.symbol)
    case NicknameColumn => TextJson(c.nickname)
    case RoleColumn => TextJson(c.role)
    case DeathColumn => IntJson(c.death)
    case StrengthColumn => TextJson(c.strength)
  }

  /** Two rows that agree on every column are the same row. */
  lemma FieldsDetermineRow(c: Character, d: Character)
    requires forall col :: FieldOf(c, col) == FieldOf(d, col)
    ensures c == d
  {
    assert FieldOf(c, IdColumn) == FieldOf(d, IdColumn) && FieldOf(c, NameColumn) == FieldOf(d, NameColumn);
    assert FieldOf(c, AgeColumn) == FieldOf(d, AgeColumn) && FieldOf(c, DeathColumn) == FieldOf(d, DeathColumn);
    assert FieldOf(c, HouseColumn) == FieldOf(d, HouseColumn) && FieldOf(c, AnimalColumn) == FieldOf(d, AnimalColumn);
    assert FieldOf(c, SymbolColumn) == FieldOf(d, SymbolColumn) && FieldOf(c, NicknameColumn) == FieldOf(d, NicknameColumn);
    assert FieldOf(c, RoleColumn) == FieldOf(d, RoleColumn) && FieldOf(c, StrengthColumn) == FieldOf(d, StrengthColumn);
  }

  /** `Character.serialize` */
  function Serialize(c: Character): (m: map<string, Json>)
    ensures m.Keys == CharacterKeys
    ensures m["id"] == JInt(c.id) && m["name"] == JStr(c.name)
  {
    map[
      "id" := JInt(c.id),
      "name" := JStr(c.name),
      "age" := IntJson(c.age),
      "house" := TextJson(c.house),
      "animal" := TextJson(c.animal),
      "symbol" := TextJson(c.symbol),
      "nickname" := TextJson(c.nickname),
      "role" := TextJson(c.role),
      "death" := IntJson(c.death),
      "strength" := TextJson(c.strength)
    ]
  }

  /** Each key of the serialized row carries the current value of its column. */
  lemma SerializeFields(c: Character, col: Column)
    ensures Serialize(c)[Key(col)] == FieldOf(c, col)
  {
  }

  function TextField(v: Json): Option<Option<string>> {
    match v
    case JNull => Some(None)
    case JStr(s) => Some(Some(s))
    case _ => None
  }

  function IntField(v: Json): Option<Option<int>> {
    match v
    case JNull => Some(None)
    case JInt(i) => Some(Some(i))
    case _ => None
  }

  /** Reads a serialized character back; `None` when a key is missing or holds
      a value of the wrong kind. */
  function Deserialize(m: map<string, Json>): Option<Character> {
    if !(CharacterKeys <= m.Keys) || !m["id"].JInt? || !m["name"].JStr? then None
    else
      var house, animal, strength := TextField(m["house"]), TextField(m["animal"]), TextField(m["strength"]);
      var role, nickname, symbol := TextField(m["role"]), TextField(m["nickname"]), TextField(m["symbol"]);
      var death, age := IntField(m["death"]), IntField(m["age"]);
      if house.None? || animal.None? || strength.None? || role.None? || nickname.None? || symbol.None?
        || death.None? || age.None?
      then None
      else Some(Character(m["id"].i, m["name"].s, house.value, animal.value, strength.value,
                          role.value, nickname.value, symbol.value, death.value, age.value))
  }

  /** The serialized form loses nothing: reading it back gives the row. */
  lemma SerializeRoundTrip(c: Character)
    ensures Deserialize(Serialize(c)) == Some(c)
  {
  }

  /** Two rows with the same serialized form are the same row. */
  lemma SerializeInjective(c: Character, d: Character)
    requires Serialize(c) == Serialize(d)
    ensures c == d
  {
    SerializeRoundTrip(c);
    SerializeRoundTrip(d);
  }

  /** Every column of the row satisfies its declared type and width. */
  predicate WellFormed(c: Character) {
    forall col :: col == IdColumn || FieldOf(c, col) != JNull ==> FitsColumn(col, FieldOf(c, col))
  }

  /** `User.serialize` */
  function SerializeUser(u: User): (m: map<string, Json>)
    ensures m.Keys == UserKeys
    ensures "password" !in m
    ensures m["id"] == JInt(u.id) && m["username"] == JStr(u.username) && m["created_at"] == JTime(u.createdAt)
  {
    map["id" := JInt(u.id), "username" := JStr(u.username), "created_at" := JTime(u.createdAt)]
  }

  /** No field of the serialized user carries the password hash, unless the
      hash coincides with the username itself. */
  lemma SerializeUserHidesPassword(u: User)
    requires u.password != u.username
    ensures JStr(u.password) !in SerializeUser(u).Values
  {
  }
}
