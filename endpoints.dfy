/** The write endpoints as the service exposes them: each one runs behind the
    `token_required` gate, and the table is only touched once the gate lets
    the request through. */
module Endpoints {
  import opened Values
  import opened Models
  import opened Store
  import opened Auth

  datatype Response =
    | Denied(gate: GateDecision)
    | Added(add: AddOutcome)
    | Replaced(put: PutOutcome)
    | Removed(delete: DeleteOutcome)

  /** `POST /api/characters` */
  method PostCharacter(table: CharacterTable, jwtKey: Option<string>, authorization: Option<string>,
                       decode: (string, string) -> Decoded, body: map<string, Json>)
    returns (r: Response)
    requires table.Valid()
    modifies table
    ensures table.Valid()
    ensures TokenRequired(jwtKey, authorization, decode) != Proceed ==>
      r == Denied(TokenRequired(jwtKey, authorization, decode)) && unchanged(table)
    ensures TokenRequired(jwtKey, authorization, decode) == Proceed ==>
      r.Added? && AddEffect(old(table.rows), old(table.nextId), body, r.add, table.rows, table.nextId)
  {
    var gate := TokenRequired(jwtKey, authorization, decode);
    if gate != Proceed {
      return Denied(gate);
    }
    var outcome := table.Add(body);
    return Added(outcome);
  }

  /** `PUT /api/characters/<id>` */
  method PutCharacter(table: CharacterTable, jwtKey: Option<string>, authorization: Option<string>,
                      decode: (string, string) -> Decoded, id: int, body: map<string, Json>)
    returns (r: Response)
    requires table.Valid()
    modifies table
    ensures table.Valid() && table.nextId == old(table.nextId)
    ensures TokenRequired(jwtKey, authorization, decode) != Proceed ==>
      r == Denied(TokenRequired(jwtKey, authorization, decode)) && unchanged(table)
    ensures TokenRequired(jwtKey, authorization, decode) == Proceed ==>
      r.Replaced? && PutEffect(old(table.rows), id, body, r.put, table.rows)
  {
    var gate := TokenRequired(jwtKey, authorization, decode);
    if gate != Proceed {
      return Denied(gate);
    }
    var outcome := table.Put(id, body);
    return Replaced(outcome);
  }

  /** `DELETE /api/characters/<id>` */
  method DeleteCharacter(table: CharacterTable, jwtKey: Option<string>, authorization: Option<string>,
                         decode: (string, string) -> Decoded, id: int)
    returns (r: Response)
    requires table.Valid()
    modifies table
    ensures table.Valid() && table.nextId == old(table.nextId)
    ensures TokenRequired(jwtKey, authorization, decode) != Proceed ==>
      r == Denied(TokenRequired(jwtKey, authorization, decode)) && unchanged(table)
    ensures TokenRequired(jwtKey, authorization, decode) == Proceed ==>
      r.Removed? && DeleteEffect(old(table.rows), id, r.delete, table.rows)
  {
    var gate := TokenRequired(jwtKey, authorization, decode);
    if gate != Proceed {
      return Denied(gate);
    }
    var outcome := table.Delete(id);
    return Removed(outcome);
  }
}
