# Character catalogue service, modelled in Dafny

The service is a small Flask application that keeps a table of fictional
characters behind a REST API. The model covers its core logic:

- the filter builder behind `GET /api/characters`;
- the `sort_by`/`sort_des` ordering and the `skip`/`limit` window;
- the input validation and insert of `POST /api/characters`;
- the partial update of `PUT /api/characters/<id>`;
- `DELETE /api/characters/<id>`;
- the `token_required` gate, `login` and `signup`;
- the two table records and their `serialize` properties.

The database is replaced by values the model can reason about:

- The `character` table is a class, `Store.CharacterTable`, holding the rows
  in table order and the key sequence.
- The `user` table is a sequence.
- A query is a function over the rows.

Modules, one per file:

| file | module | what it holds |
|---|---|---|
| `values.dfy` | `Values` | `Option`, `Result`, and the JSON values of request bodies with Python truthiness |
| `pytext.dfy` | `PyText` | Python's `int(str)` and `str(int)`, SQL `lower()`, the text sort order |
| `models.dfy` | `Models` | `Character`, `User`, their columns and `serialize` |
| `filters.dfy` | `Filters` | `create_filtering_query` |
| `listing.dfy` | `Listing` | `get_characters` |
| `store.dfy` | `Store` | `add_character`, `put_character`, `delete_character` |
| `auth.dfy` | `Auth` | `token_required`, `login`, `signup` |
| `endpoints.dfy` | `Endpoints` | the write endpoints behind the token gate |

How the model reads the code:

- A numeric filter that does not parse raises a `ValueError`. The handler does
  not catch it, so the request ends in a 500 (`Listing.Crash.FilterValue`).
  For a malformed number the error carries the offending literal, not the
  field name.
- `int(limit)` and `int(skip)` failures are uncaught too. So is a negative
  offset or limit, or a limit past the 64-bit range of the database's
  `LIMIT`, all of which the database refuses. All of these end in a 500.
- `skip` is compared with the number of filtered rows. A `skip` at or past
  that number is answered with 400 "Next page is empty". This includes
  `skip=0` on an empty result.
- The store is read as a typed SQL database:
  - Text columns hold strings of at most 100 characters.
  - Integer columns hold 32-bit integers; a `bool` is refused there.
  - `name` and `id` are unique.
- `add_character` only handles the integrity error (a duplicate name or id),
  with a 400. Any other database error leaves the view without a response,
  which is a 500.
- `put_character` only handles the data error (a value its column cannot
  hold), with a 422. A name that another row already has leaves the view
  without a response, which is a 500.
- An id drawn from the key sequence stays used even when the insert fails.
- `token_required` looks up the user the `id` claim names but never checks
  the result. A well-signed token for a deleted account therefore passes the
  gate.
- Signing, verifying and hashing are functions passed in:
  - `decode` stands for `jwt.decode`.
  - `matches` stands for `check_password_hash`.
  - `hash` stands for `generate_password_hash`.
- The clock is a parameter `now` in seconds, and so is the next user id.

## Model

| member | source | states |
|---|---|---|
| `Models.Serialize` | models.py:39-53 | the dictionary has exactly the ten keys id, name, age, house, animal, symbol, nickname, role, death, strength; `id` and `name` carry the row's key and name |
| `Models.SerializeFields` | models.py:40-53 | every key of the dictionary carries the current value of its column (NULL as `None`) |
| `Models.SerializeRoundTrip` | models.py:40-53 | the serialized form loses nothing: reading it back gives the row |
| `Models.SerializeInjective` | models.py:40-53 | two rows with the same serialized form are the same row |
| `Models.FieldsDetermineRow` | models.py:28-37 | a row is determined by the values of its ten columns |
| `Models.ColumnNamed` | models.py:28-37 | an attribute name resolves to the column of that name |
| `Models.ColumnNamedKeys` | models.py:28-53 | the attribute names that denote columns are exactly the keys of `serialize` |
| `Models.SerializeUser` | models.py:16-22 | the user dictionary has exactly the keys id, username, created_at, with the user's values, and no `password` key |
| `Models.SerializeUserHidesPassword` | models.py:10-22 | the password hash is not among the serialized values (unless it equals the username) |
| `PyText.ParseInt` | app.py:55 | `int(s)` succeeds only on a string that holds a decimal digit |
| `PyText.ParseIntOf` | app.py:55 | on whitespace (space, tab, line feed, carriage return, vertical tab, form feed), an optional `+`/`-`, digit groups and whitespace, `int()` gives the signed value of the digits, or the `ValueError` when they are more than 4300 (underscores not counted) |
| `PyText.ParseIntAccepted` | app.py:55 | conversely, every string `int()` accepts has that shape, so with `ParseIntOf` the accepted strings and their values are pinned |
| `PyText.NatToDecimalLength` | app.py:55 | a number below `10^k` prints with at most `k` digits, so every integer of magnitude below `10^4300` is within the digit limit |
| `PyText.ParseIntRoundTrip` | app.py:53-70 | `int(str(n)) == n` for every integer of at most 4300 digits, so every such integer can be sent as a numeric filter |
| `PyText.Lower` | app.py:63-64 | `lower()` keeps the length and leaves no upper-case ASCII letter |
| `PyText.LowerIdempotent` | app.py:63-85 | lower-casing twice is lower-casing once |
| `PyText.LexLeTotal` | app.py:230-232 | any two texts are comparable in the sort order |
| `PyText.LexLeTransitive` | app.py:230-232 | the text sort order is transitive |
| `PyText.LexLeAntisymmetric` | app.py:230-232 | texts that sort no later than each other are equal |
| `Filters.MatchesAllAppend` | app.py:87-89 | the AND of the conditions plus one more holds exactly when the AND holds and the new condition holds |
| `Filters.AddIntCondition` | app.py:54-70 | a sent numeric argument is converted with `int()`; failure carries the literal; success adds exactly one comparison of the column, a NULL column never matching |
| `Filters.AddTextCondition` | app.py:63-85 | a sent text argument adds exactly one case-insensitive equality with the column, a NULL column never matching; an absent one adds nothing |
| `Filters.AddTrailingTextConditions` | app.py:72-85 | the name, nickname, role, symbol and strength arguments add one condition each when sent, ANDed with the conditions before them |
| `Filters.CreateFilteringQuery` | app.py:43-95 | succeeds exactly when every sent numeric argument parses; else fails on the first one in source order with its literal; on success one condition per sent argument, matching exactly the rows the arguments admit; no arguments select every row |
| `Filters.FiltersIgnoreCase` | app.py:63-85 | lower-casing every text argument selects exactly the same rows |
| `Filters.AgeWindow` | app.py:57-61 | `age_more_than=low&age_less_than=high` selects exactly the rows with `low <= age < high` (inclusive below, strict above), for bounds within the 4300-digit limit of `int()` |
| `Listing.KeyLeTotal` | app.py:230-234 | any two sort keys are comparable, in either direction |
| `Listing.KeyLeTransitive` | app.py:230-234 | the `ORDER BY ... NULLS LAST` order on keys is transitive |
| `Listing.InsertPermutes` | app.py:230-234 | inserting a row into an ordered result adds exactly that row |
| `Listing.InsertSorted` | app.py:230-234 | inserting a row into an ordered result keeps it ordered |
| `Listing.SortRowsSpec` | app.py:230-234 | `SortRows`, the `order_by(nullslast(...))` of the query: sorting only reorders the rows and leaves them in `ORDER BY` order |
| `Listing.NullsLast` | app.py:232 | in a sorted result every row after a NULL-keyed row is NULL-keyed, in both directions |
| `Listing.IdsDescend` | app.py:233-234 | `sort_des` without `sort_by` makes the ids strictly decrease |
| `Listing.FilteredSpec` | app.py:87-89 | the filtered rows are rows of the table, and exactly those the filters admit |
| `Listing.SelectIsFiltered` | app.py:87-89 | `Select`, the `filter(and_(*conditions))` of the query: running the built conditions over the table gives exactly the rows the filters admit, in table order |
| `Listing.OrderedPermutes` | app.py:229-236 | `Ordered`, the sort the request asks for (`sort_by`, else `id desc` for `sort_des`, else table order): ordering keeps the rows and their number |
| `Listing.OrderedQuery` | app.py:227-236 | the filter query fails exactly when a numeric argument does not parse; otherwise it yields the admitted rows in the requested order |
| `Listing.Paginate` | app.py:238-247 | with `LimitArg` (`int(limit) if limit else 20`) and `SkipArg` (`int(skip)` when sent, else 0): `limit` defaults to 20; exactly a bad `limit`, then exactly a bad `skip`, is a 500; exactly a `skip` at or past the row count is "Next page is empty"; exactly a negative window or a limit past 64 bits is the database's 500; in every other case a page is returned, the slice from `skip` of length `min(limit, count - skip)` |
| `Listing.PageOfOrdered` | app.py:238-248 | a window of the ordered rows holds only admitted table rows and keeps the requested order |
| `Listing.GetCharacters` | app.py:205-248 | 400 exactly for a `sort_by` outside the nine attributes; 500 exactly for a bad filter, then exactly for a bad `limit`, a bad `skip`, or a window the database refuses; "Next page is empty" exactly when `skip` reaches the filtered count; a page in every other case, with `min(limit, count - skip)` rows, the slice from `skip` of the filtered rows in the requested order |
| `Store.IndexOf` | app.py:320-323 | the lookup finds the row with that id, or reports that no row has it |
| `Store.AppendKeepsInvariant` | models.py:28-29 | appending a well-formed row that clashes with no key or name keeps the key and the name unique |
| `Store.FirstFailing` | app.py:280-291 | the search returns the first field that fails the check, or reports that all pass |
| `Store.FirstFailingAt` | app.py:280-291 | a field that fails after fields that all pass is the one reported |
| `Store.ValidateAccepts` | app.py:277-291 | `Validate`, the three checks in order: a body passes validation exactly when it has `name`, its text fields are strings and its integer fields are `int` (`bool` included) |
| `Store.ValidateReasons` | app.py:280-291 | "Name must be specified" exactly when `name` is absent; a reported type error names a field that is present and of the wrong type |
| `Store.CheckFields` | app.py:277-291 | the three validation loops report the first missing field, else the first non-string text field, else the first non-integer integer field |
| `Store.RowOfStoresBody` | app.py:293-302 | `RowOf`, the row `Character(**body)` builds: a body that passes validation and that the INSERT accepts is stored as sent: every column reads back the value sent (NULL when left out), the key the one assigned, and the row is well formed |
| `Store.Assign` | app.py:331 | `setattr` on a column changes that column to the value and no other column |
| `Store.MergeSpec` | app.py:329-331 | `Merge`, the row after the `setattr` loop: the merge overwrites exactly the columns sent with a non-null value; every other column, and the key, keep their value |
| `Store.MergeSerialized` | app.py:329-336 | on the serialized row: a key takes the non-null value sent for it, except `id`, and keeps its value otherwise |
| `Store.MergeIdempotent` | app.py:329-331 | sending the same body twice changes nothing the second time |
| `Store.MergeWellFormed` | app.py:329-336 | a merge whose values fit keeps the row well formed |
| `Store.ReplaceKeepsInvariant` | app.py:333-336 | replacing a row by one with the same key and a name no other row has keeps keys and names unique |
| `Store.RemoveKeepsInvariant` | app.py:357-358 | removing a row keeps the table valid, and its id is no longer found |
| `Store.Merging` | app.py:329-331 | the `setattr` loop over the body yields the merge exactly when every written value fits its column, whatever the key order |
| `Store.CharacterTable.Add` | app.py:266-307 | `AddEffect`: validation errors first (400), then an unknown attribute (400), then the insert; the table stays valid |
| `Store.CharacterTable.Insert` | app.py:299-307 | `InsertEffect`: the key sequence advances when no id is sent; a data error (500), then a duplicate name or id (400), leaves the rows as they were; otherwise the row built from the body is appended; the table stays valid |
| `Store.CharacterTable.Put` | app.py:310-340 | `PutEffect`: 404 for an unknown id, 400 for a body with `id`, 422 when a value does not fit, 500 when the new name is another row's; otherwise the row is replaced by the merge; nothing else changes |
| `Store.CharacterTable.Delete` | app.py:343-359 | `DeleteEffect`: 404 for an unknown id; otherwise exactly that row is removed and its id is no longer found |
| `Auth.TokenRequired` | app.py:98-129 | no key configured always fails; with a key, a missing or empty token is 401 "Token is missing"; a decode error is 401 with its message; a decoded token proceeds exactly when it carries an `id` claim, and is 401 otherwise |
| `Auth.FirstWithName` | app.py:149 | the lookup finds the first user in table order with that username, or reports that none has it |
| `Auth.Login` | app.py:132-166 | no key fails first; "credentials not provided" exactly when a credential is missing or falsy; "Please create an account" exactly when the username is a string no account has, whatever the password; a non-string username is a 500, and for an account that is found, a non-string password is a 500; for the account found, a matching hash issues a token with `TokenClaims`: `id` and `exp = now + 30 minutes` and any other hash is "Please check your credentials" |
| `Auth.Signup` | app.py:169-200 | "Unable to create user" exactly when a credential is missing or falsy; 409 exactly when the username is a string some account has; a user is created exactly when both credentials are strings, the name is free and both fit their columns, and has the name, the hashed password, the new id and the creation time, appended to the table |
| `Auth.SignupKeepsUsernamesUnique` | app.py:180-192 | signup never creates a second account with a taken username |
| `Auth.SignupThenLogin` | app.py:132-192 | with a hash that `matches` accepts, the credentials of a fresh signup log in as the new account |
| `Auth.IssuedTokenAdmitted` | app.py:120-160 | the token login signs passes the gate under the same key, for any signer whose non-empty tokens the verifier turns back into the signed claims |
| `Endpoints.PostCharacter` | app.py:266-268 | a request the gate refuses leaves the table unchanged; otherwise the answer and the new table are those of `AddEffect` |
| `Endpoints.PutCharacter` | app.py:310-312 | a request the gate refuses leaves the table unchanged; otherwise the answer and the new table are those of `PutEffect` |
| `Endpoints.DeleteCharacter` | app.py:343-345 | a request the gate refuses leaves the table unchanged; otherwise the answer and the new table are those of `DeleteEffect` |

## Left out

- Flask routing, `request`, `jsonify`, `make_response`, the error handlers
  and app creation. They are framework plumbing. Outcomes are datatypes that
  name the status code.
- `get_character_by_id` (app.py:251-263) is a single keyed lookup. It is not
  modelled beyond `Store.IndexOf`.
- JWT signing and verification (HS256) are abstract functions. So are the
  password hash and its check. They are foreign cryptography.
- `datetime.utcnow()` and the database's `now()` become a `now` parameter in
  seconds.
- `func.random()` ordering, and the unspecified order of an unsorted
  paginated query, are both taken as table order. The database is free to
  return any order there; the model fixes one.
- Rows with equal sort keys keep table order (a stable sort). The database
  leaves ties unspecified.
- Text order is code-point order. Database collations are not modelled.
- `lower()` maps ASCII letters only. Unicode case mapping is not modelled.
- A value of the wrong type is always a data error of the database. A real
  engine may coerce some of them instead, for example a numeric string in
  an integer column.
- Which kind of database error a wrong value raises is simplified. In
  `add_character` every error except the integrity error is a 500; in
  `put_character` every wrong value is the 422 data error.
- Request bodies are JSON objects. A body that is a list or a scalar, or a
  missing JSON content type, is not modelled. Some such bodies reach the
  checks modelled here and get their answers: `[]`, `0`, `false` or `""` at
  `login` is refused by `not auth` with 401 "Proper credentials not
  provided"; `[]` at `POST` gets 400 "Name must be specified"; the string
  `"id"` at `PUT` gets 400 "ID cannot be updated". Others make Python fail.
- Body keys that name a non-column attribute of the model class (such as
  `serialize` or `query`) are not modelled. The constructor and `setattr`
  accept such a name. Depending on the attribute, they then either raise
  (a read-only property such as `serialize`) or store a plain attribute that
  never reaches the table (such as `query`). Every other non-column key is
  an unknown attribute on insert and is ignored on update.
- `Store.CharacterTable.Add` names some unknown attribute of the body, not
  the first one in the body's order, because a map has no order.
- Concurrent requests are not modelled. This includes two signups racing
  for one username; the table has no uniqueness constraint on usernames.
- The `user` lookup inside `token_required` is not modelled. An `id` claim of
  a type the database refuses there would be reported as an invalid token;
  the model lets every token with an `id` claim through.
- `Auth.FirstWithName` takes the account `.first()` returns to be the first
  in table order. The query has no `ORDER BY`, and `username` has no unique
  constraint, so with two accounts of one name the database may return
  either. `Auth.Login` is stated for the account `Auth.FirstWithName` picks.
- `Filters.AddIntCondition` carries the argument in its error in every case.
  For more than 4300 digits Python's message states the limit and the digit
  count instead, and the handler re-raises that message.
- `PyText.ParseInt` reads ASCII digits and ASCII whitespace only. Python's
  `int()` also accepts the other Unicode decimal digits (such as fullwidth
  digits) and strips Unicode whitespace (such as U+00A0) from a string that
  holds a non-ASCII character. The model refuses such strings, so a filter,
  `limit` or `skip` written that way is a 500 in the model and a number in
  the service.
  The limit of 4300 digits is the default of `sys.get_int_max_str_digits()`
  in the Python releases that have the limit; a process that changes it, or
  an older Python without it, is not modelled.
- `Auth.Signup` takes the new user id as a parameter. The user key sequence
  and its 32-bit range are not modelled.
