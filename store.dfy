/**
 * The service itself: a store standing for `campaigns.json`, with `read_db` and
 * `write_db`, and the four request handlers as methods that read it, change the list
 * they read and write it back.
 */
module App {
  import opened Options
  import opened Campaigns
  import opened Handlers

  /** The content of the file: a list of records, or text that is not valid JSON (the `JSONDecodeError` case). */
  datatype FileState = Parsed(records: seq<Campaign>) | Unparseable

  /** What `read_db` returns for a file: its list, or `[]` when it is not valid JSON. */
  function Contents(f: FileState): (db: seq<Campaign>)
    ensures f.Unparseable? ==> db == []
    ensures f.Parsed? ==> db == f.records
  {
    match f
    case Parsed(records) => records
    case Unparseable => []
  }

  /** The file after a handler: rewritten with what it wrote, or left as it was. */
  function AfterWrite(f: FileState, written: Option<seq<Campaign>>): (f': FileState) {
    match written
    case None => f
    case Some(db) => Parsed(db)
  }

  class Store {
    var file: FileState

    /** A store over a file as found at startup; the freshly created file `[]` satisfies the invariant. */
    constructor (initial: FileState)
      ensures file == initial
      ensures initial == Parsed([]) ==> Valid()
    {
      file := initial;
    }

    /** The collection a handler sees when it calls `read_db`. */
    function Snapshot(): seq<Campaign>
      reads this
    {
      Contents(file)
    }

    /** The collection's invariant: no two records share an id. */
    predicate Valid()
      reads this
    {
      UniqueIds(Snapshot())
    }

    /** `read_db`: the stored list; a file that is not valid JSON reads as the empty list. */
    method ReadDb() returns (db: seq<Campaign>)
      ensures file.Parsed? ==> db == file.records
      ensures file.Unparseable? ==> db == []
    {
      match file
      case Parsed(records) => db := records;
      case Unparseable => db := [];
    }

    /** `write_db`: the file is overwritten with the whole list, which the next read returns as it was. */
    method WriteDb(db: seq<Campaign>)
      modifies this
      ensures file == Parsed(db)
      ensures Snapshot() == db
    {
      file := Parsed(db);
    }

    /** `GET /api/campaigns`: every record, in stored order. */
    method GetCampaigns() returns (r: Response)
      ensures r == Listed(Snapshot())
      ensures StatusCode(r) == 200
    {
      var db := ReadDb();
      r := Listed(db);
    }

    /** `POST /api/campaigns` with `newId` standing for the `uuid4()` the handler draws. */
    method AddCampaign(body: Body, newId: string) returns (r: Response)
      requires newId != "" && newId !in Ids(Snapshot())
      modifies this
      ensures r == CreateOutcome(old(Snapshot()), body, newId).response
      ensures file == AfterWrite(old(file), CreateOutcome(old(Snapshot()), body, newId).written)
      ensures old(Valid()) ==> Valid()
    {
      match ValidateCreate(body)
      case Some(e) =>
        return BadRequest(e);
      case None =>
      var c := NewCampaign(body, newId);
      var db := ReadDb();
      db := [c] + db;
      WriteDb(db);
      if old(Valid()) {
        CreateKeepsUnique(old(Snapshot()), body, newId);
      }
      r := Created(c);
    }

    /** `PUT /api/campaigns/<id>`: the `for c in db` loop with its early return. */
    method UpdateCampaign(id: string, body: Body) returns (r: Response)
      modifies this
      ensures r == UpdateOutcome(old(Snapshot()), id, body).response
      ensures file == AfterWrite(old(file), UpdateOutcome(old(Snapshot()), id, body).written)
      ensures old(Valid()) ==> Valid()
    {
      var db := ReadDb();
      for i := 0 to |db|
        invariant db == old(Snapshot()) && file == old(file)
        invariant forall j :: 0 <= j < i ==> db[j].id != id
      {
        if db[i].id == id {
          var c := Merge(db[i], body);
          db := db[i := c];
          WriteDb(db);
          if old(Valid()) {
            UpdateKeepsUnique(old(Snapshot()), id, body);
          }
          return Updated(c);
        }
      }
      return NotFound(NOT_FOUND_ERROR);
    }

    /** `DELETE /api/campaigns/<id>` */
    method DeleteCampaign(id: string) returns (r: Response)
      modifies this
      ensures r == DeleteOutcome(old(Snapshot()), id).response
      ensures file == AfterWrite(old(file), DeleteOutcome(old(Snapshot()), id).written)
      ensures old(Valid()) ==> Valid()
    {
      var db := ReadDb();
      var newDb := Remove(db, id);
      if |newDb| == |db| {
        return NotFound(NOT_FOUND_ERROR);
      }
      WriteDb(newDb);
      if old(Valid()) {
        DeleteKeepsUnique(db, id);
      }
      r := Deleted(DELETED_MESSAGE);
    }
  }

  /**
   * Two creates against an empty store, then a listing: the default status, the order
   * and distinct ids. `Dates.IsoExample` shows that "2024-01-15" is such a date.
   */
  method ExampleCreates(idA: string, idB: string, date: string)
    requires idA != "" && idB != "" && idA != idB
    requires Dates.IsValidDate(date)
  {
    var store := new Store(Parsed([]));
    var bodyA := map[CAMPAIGN_NAME_KEY := "X", CLIENT_NAME_KEY := "Y", START_DATE_KEY := date];
    assert HasRequiredKeys(bodyA) && bodyA[START_DATE_KEY] == date;
    var a := store.AddCampaign(bodyA, idA);
    assert a == Created(Campaign(idA, "X", "Y", date, DEFAULT_STATUS));
    assert store.Snapshot() == [a.record];

    var bodyB := bodyA[STATUS_KEY := "Paused"];
    assert HasRequiredKeys(bodyB) && bodyB[START_DATE_KEY] == date;
    assert idB !in Ids([a.record]);
    var b := store.AddCampaign(bodyB, idB);
    assert b == Created(Campaign(idB, "X", "Y", date, "Paused"));

    var all := store.GetCampaigns();
    assert all.records == [b.record, a.record];
  }

  /** A partial update, then the same delete twice. */
  method ExampleUpdateAndDelete(a: Campaign, b: Campaign)
    requires a.id != b.id
  {
    var store := new Store(Parsed([b, a]));
    var patch := map[STATUS_KEY := "Done", ID_KEY := "other"];
    assert CAMPAIGN_NAME_KEY !in patch && CLIENT_NAME_KEY !in patch && START_DATE_KEY !in patch;
    assert FirstIndex(store.Snapshot(), a.id) == Some(1);
    var u := store.UpdateCampaign(a.id, patch);
    var done := a.(status := "Done");
    assert u == Updated(done);
    assert store.Snapshot() == [b, done];

    assert Remove([done], a.id) == [];
    assert [b, done][1..] == [done];
    assert Remove([b, done], a.id) == [b];
    var d := store.DeleteCampaign(a.id);
    assert d == Deleted(DELETED_MESSAGE);
    assert store.Snapshot() == [b];
    d := store.DeleteCampaign(a.id);
    assert d == NotFound(NOT_FOUND_ERROR);
  }
}
