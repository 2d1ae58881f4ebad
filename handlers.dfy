/**
 * What each request handler answers and what it writes back, as a function of the
 * collection it reads from the store. The `Store` methods in module `App` are proved
 * to behave as these functions say; the lemmas here state the properties of the API.
 */
module Handlers {
  import opened Options
  import opened Campaigns

  const NOT_FOUND_ERROR := "Not found"
  const DELETED_MESSAGE := "Deleted"

  /** A handler's answer; the payload is the JSON body the client receives. */
  datatype Response =
    | Listed(records: seq<Campaign>)
    | Created(record: Campaign)
    | Updated(record: Campaign)
    | Deleted(message: string)
    | BadRequest(error: string)
    | NotFound(error: string)

  /** The HTTP status each handler returns with its answer. */
  function StatusCode(r: Response): (code: int)
    ensures code == 201 <==> r.Created?
    ensures code == 400 <==> r.BadRequest?
    ensures code == 404 <==> r.NotFound?
    ensures code == 200 <==> r.Listed? || r.Updated? || r.Deleted?
  {
    match r
    case Listed(_) => 200
    case Created(_) => 201
    case Updated(_) => 200
    case Deleted(_) => 200
    case BadRequest(_) => 400
    case NotFound(_) => 404
  }

  /** A handler's answer and the collection it writes to the store, or `None` when it does not write. */
  datatype Outcome = Outcome(response: Response, written: Option<seq<Campaign>>)

  /** `add_campaign`: validate, build the record, prepend it, write. */
  function CreateOutcome(db: seq<Campaign>, body: Body, id: string): (o: Outcome)
    ensures o.response.Created? || o.response.BadRequest?
    ensures o.response.BadRequest? ==> o.response.error == MISSING_FIELDS_ERROR || o.response.error == INVALID_DATE_ERROR
    ensures o.written.Some? <==> o.response.Created?
    ensures o.response.Created? ==> o.response.record.id == id && o.written == Some([o.response.record] + db)
  {
    match ValidateCreate(body)
    case Some(e) => Outcome(BadRequest(e), None)
    case None =>
      var c := NewCampaign(body, id);
      Outcome(Created(c), Some([c] + db))
  }

  /** `update_campaign`: merge into the first record with the id and write, or answer 404. */
  function UpdateOutcome(db: seq<Campaign>, id: string, body: Body): (o: Outcome)
    ensures o.response.Updated? || o.response == NotFound(NOT_FOUND_ERROR)
    ensures o.written.Some? <==> o.response.Updated?
    ensures o.response.Updated? ==>
      o.response.record.id == id && |o.written.value| == |db| && o.response.record in o.written.value
  {
    match FirstIndex(db, id)
    case None => Outcome(NotFound(NOT_FOUND_ERROR), None)
    case Some(k) =>
      var c := Merge(db[k], body);
      assert db[k := c][k] == c;
      Outcome(Updated(c), Some(db[k := c]))
  }

  /** `delete_campaign`: filter the id out; when nothing was filtered answer 404 without writing. */
  function DeleteOutcome(db: seq<Campaign>, id: string): (o: Outcome)
    ensures o == Outcome(NotFound(NOT_FOUND_ERROR), None) || o.response == Deleted(DELETED_MESSAGE)
    ensures o.written.Some? <==> o.response.Deleted?
    ensures o.written.Some? ==> |o.written.value| < |db| && forall c :: c in o.written.value ==> c in db && c.id != id
  {
    var kept := Remove(db, id);
    if |kept| == |db| then Outcome(NotFound(NOT_FOUND_ERROR), None)
    else Outcome(Deleted(DELETED_MESSAGE), Some(kept))
  }

  // ---------------------------------------------------------------------------
  // Create

  /** A create without all three required keys is refused before the date is looked at, and writes nothing. */
  lemma CreateMissingFields(db: seq<Campaign>, body: Body, id: string)
    requires !HasRequiredKeys(body)
    ensures CreateOutcome(db, body, id) == Outcome(BadRequest(MISSING_FIELDS_ERROR), None)
    ensures StatusCode(CreateOutcome(db, body, id).response) == 400
  {
  }

  /** With all required keys present, a date `strptime` refuses is reported, and nothing is written. */
  lemma CreateInvalidDate(db: seq<Campaign>, body: Body, id: string)
    requires HasRequiredKeys(body) && !Dates.IsValidDate(body[START_DATE_KEY])
    ensures CreateOutcome(db, body, id) == Outcome(BadRequest(INVALID_DATE_ERROR), None)
    ensures StatusCode(CreateOutcome(db, body, id).response) == 400
  {
  }

  /**
   * A create succeeds exactly when both checks pass; the new record is the one
   * `NewCampaign` builds from the body, it comes first, and the old collection follows it
   * unchanged and in order.
   */
  lemma CreateSucceeds(db: seq<Campaign>, body: Body, id: string)
    ensures CreateOutcome(db, body, id).response.Created?
        <==> HasRequiredKeys(body) && Dates.IsValidDate(body[START_DATE_KEY])
    ensures CreateOutcome(db, body, id).written.Some? <==> CreateOutcome(db, body, id).response.Created?
    ensures
      var o := CreateOutcome(db, body, id);
      o.response.Created? ==>
        && StatusCode(o.response) == 201
        && o.response.record.id == id
        && o.response.record == NewCampaign(body, id)
        && o.response.record.status == (if STATUS_KEY in body then body[STATUS_KEY] else DEFAULT_STATUS)
        && |o.written.value| == |db| + 1
        && o.written.value[0] == o.response.record
        && o.written.value[1..] == db
  {
    var o := CreateOutcome(db, body, id);
    if o.response.Created? {
      assert o.written.value == [o.response.record] + db;
    }
  }

  /** A create with a fresh id keeps the ids unique. */
  lemma CreateKeepsUnique(db: seq<Campaign>, body: Body, id: string)
    requires UniqueIds(db) && id !in Ids(db)
    ensures CreateOutcome(db, body, id).written.Some? ==> UniqueIds(CreateOutcome(db, body, id).written.value)
  {
    if ValidateCreate(body).None? {
      PrependKeepsUnique(db, NewCampaign(body, id));
    }
  }

  /** Creating A and then B lists B before A, both before the older records. */
  lemma CreateTwiceOrder(db: seq<Campaign>, bodyA: Body, idA: string, bodyB: Body, idB: string)
    requires CreateOutcome(db, bodyA, idA).response.Created?
    requires CreateOutcome(CreateOutcome(db, bodyA, idA).written.value, bodyB, idB).response.Created?
    ensures
      var a := CreateOutcome(db, bodyA, idA);
      var b := CreateOutcome(a.written.value, bodyB, idB);
      b.written == Some([b.response.record, a.response.record] + db)
  {
    var a := CreateOutcome(db, bodyA, idA);
    assert ValidateCreate(bodyA).None?;
    var b := CreateOutcome(a.written.value, bodyB, idB);
    assert ValidateCreate(bodyB).None?;
    assert a.written.value == [a.response.record] + db;
    assert b.written.value == [b.response.record] + a.written.value;
    assert [b.response.record] + ([a.response.record] + db) == [b.response.record, a.response.record] + db;
  }

  // ---------------------------------------------------------------------------
  // Update

  /** An update answers 404 exactly when no record has the id, and then writes nothing. */
  lemma UpdateNotFound(db: seq<Campaign>, id: string, body: Body)
    ensures UpdateOutcome(db, id, body).response.NotFound? <==> id !in Ids(db)
    ensures UpdateOutcome(db, id, body).response.NotFound? ==>
      UpdateOutcome(db, id, body) == Outcome(NotFound(NOT_FOUND_ERROR), None)
  {
  }

  /**
   * An update of an existing id changes only the first record with that id, and on it
   * only the supplied whitelisted fields; the length, the order and every other record
   * are kept.
   */
  lemma UpdateChangesOnlyFirstMatch(db: seq<Campaign>, id: string, body: Body)
    requires id in Ids(db)
    ensures
      var o := UpdateOutcome(db, id, body);
      var k := FirstIndex(db, id).value;
      && o.response.Updated?
      && StatusCode(o.response) == 200
      && o.written.Some?
      && |o.written.value| == |db|
      && (forall j :: 0 <= j < |db| && j != k ==> o.written.value[j] == db[j])
      && o.written.value[k] == o.response.record
      && ToJson(o.response.record) == ToJson(db[k]) + Updates(body)
  {
    MergeIsJsonUpdate(db[FirstIndex(db, id).value], body);
  }

  /** With unique ids the record an update changes is the only one carrying the id. */
  lemma UpdateTouchesTheOnlyMatch(db: seq<Campaign>, id: string, body: Body, j: nat)
    requires UniqueIds(db) && j < |db| && db[j].id == id
    ensures UpdateOutcome(db, id, body).written == Some(db[j := Merge(db[j], body)])
  {
    FirstIndexIsOnly(db, id, j);
  }

  /** An update cannot change an id, so it keeps the ids unique. */
  lemma UpdateKeepsUnique(db: seq<Campaign>, id: string, body: Body)
    requires UniqueIds(db)
    ensures UpdateOutcome(db, id, body).written.Some? ==> UniqueIds(UpdateOutcome(db, id, body).written.value)
  {
    if FirstIndex(db, id).Some? {
      var k := FirstIndex(db, id).value;
      ReplaceKeepsUnique(db, k, Merge(db[k], body));
    }
  }

  /** Setting only the status, as in `PUT {"status": "Paused"}`, leaves every other field as it was. */
  lemma UpdateStatusOnly(c: Campaign, status: string)
    ensures Merge(c, map[STATUS_KEY := status]) == c.(status := status)
  {
  }

  // ---------------------------------------------------------------------------
  // Delete

  /**
   * A delete succeeds exactly when some record has the id; it then writes the collection
   * without every such record, the rest in their order. Otherwise it answers 404 and
   * writes nothing.
   */
  lemma DeleteCases(db: seq<Campaign>, id: string)
    ensures DeleteOutcome(db, id).response.Deleted? <==> id in Ids(db)
    ensures id in Ids(db) ==>
      DeleteOutcome(db, id) == Outcome(Deleted(DELETED_MESSAGE), Some(Remove(db, id)))
    ensures id !in Ids(db) ==>
      DeleteOutcome(db, id) == Outcome(NotFound(NOT_FOUND_ERROR), None)
    ensures DeleteOutcome(db, id).written.Some? ==> id !in Ids(DeleteOutcome(db, id).written.value)
  {
  }

  /** Deleting the same id twice answers "Deleted" and then 404. */
  lemma {:induction false} DeleteTwice(db: seq<Campaign>, id: string)
    requires id in Ids(db)
    ensures DeleteOutcome(db, id).response == Deleted(DELETED_MESSAGE)
    ensures DeleteOutcome(DeleteOutcome(db, id).written.value, id) == Outcome(NotFound(NOT_FOUND_ERROR), None)
  {
    var w := Remove(db, id);
    assert id !in Ids(w);
  }

  /** Deleting only removes records, so it keeps the ids unique. */
  lemma DeleteKeepsUnique(db: seq<Campaign>, id: string)
    requires UniqueIds(db)
    ensures DeleteOutcome(db, id).written.Some? ==> UniqueIds(DeleteOutcome(db, id).written.value)
  {
    RemoveKeepsUnique(db, id);
  }
}
