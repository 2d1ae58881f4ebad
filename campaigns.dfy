/**
 * Campaign records and the per-record logic of the request handlers: which bodies a
 * create accepts, the record a create builds, the whitelisted merge an update applies,
 * and the id lookups and filter the collection handlers use.
 */
module Campaigns {
  import opened Options
  import Dates

  /** A JSON request body, reduced to its string-valued keys. */
  type Body = map<string, string>

  const ID_KEY := "id"
  const CAMPAIGN_NAME_KEY := "campaign_name"
  const CLIENT_NAME_KEY := "client_name"
  const START_DATE_KEY := "start_date"
  const STATUS_KEY := "status"

  /** The keys a create insists on, in the order it checks them. */
  const REQUIRED_KEYS: seq<string> := [CAMPAIGN_NAME_KEY, CLIENT_NAME_KEY, START_DATE_KEY]
  /** The keys an update copies from its body; `id` is not among them. */
  const UPDATABLE_KEYS: seq<string> := [CAMPAIGN_NAME_KEY, CLIENT_NAME_KEY, START_DATE_KEY, STATUS_KEY]
  /** The fields of a stored record. */
  const FIELD_NAMES: set<string> := {ID_KEY, CAMPAIGN_NAME_KEY, CLIENT_NAME_KEY, START_DATE_KEY, STATUS_KEY}

  const DEFAULT_STATUS := "Active"
  const MISSING_FIELDS_ERROR := "Missing required fields"
  const INVALID_DATE_ERROR := "Invalid date format"

  datatype Campaign = Campaign(id: string, campaignName: string, clientName: string, startDate: string, status: string)

  /** The JSON object a record is stored as and returned as. */
  function ToJson(c: Campaign): (m: map<string, string>)
    ensures m.Keys == FIELD_NAMES
  {
    map[ID_KEY := c.id, CAMPAIGN_NAME_KEY := c.campaignName, CLIENT_NAME_KEY := c.clientName,
        START_DATE_KEY := c.startDate, STATUS_KEY := c.status]
  }

  /** Two records with the same JSON object are the same record. */
  lemma ToJsonInjective(a: Campaign, b: Campaign)
    requires ToJson(a) == ToJson(b)
    ensures a == b
  {
    assert ToJson(a)[ID_KEY] == ToJson(b)[ID_KEY];
    assert ToJson(a)[CAMPAIGN_NAME_KEY] == ToJson(b)[CAMPAIGN_NAME_KEY];
    assert ToJson(a)[CLIENT_NAME_KEY] == ToJson(b)[CLIENT_NAME_KEY];
    assert ToJson(a)[START_DATE_KEY] == ToJson(b)[START_DATE_KEY];
    assert ToJson(a)[STATUS_KEY] == ToJson(b)[STATUS_KEY];
  }

  // ---------------------------------------------------------------------------
  // Create

  /** `all(k in data for k in keys)` */
  function AllPresent(keys: seq<string>, body: Body): (b: bool)
    ensures b <==> forall i :: 0 <= i < |keys| ==> keys[i] in body
  {
    |keys| == 0 || (keys[0] in body && AllPresent(keys[1..], body))
  }

  predicate HasRequiredKeys(body: Body) {
    CAMPAIGN_NAME_KEY in body && CLIENT_NAME_KEY in body && START_DATE_KEY in body
  }

  /**
   * The create handler's two checks, in order: an empty body or a missing required key
   * gives "Missing required fields" (presence only, so an empty string passes); only
   * then is the date parsed, and a date `strptime` refuses gives "Invalid date format".
   */
  function ValidateCreate(body: Body): (r: Option<string>)
    ensures r == Some(MISSING_FIELDS_ERROR) <==> !HasRequiredKeys(body)
    ensures r == Some(INVALID_DATE_ERROR) <==> HasRequiredKeys(body) && !Dates.IsValidDate(body[START_DATE_KEY])
    ensures r == None <==> HasRequiredKeys(body) && Dates.IsValidDate(body[START_DATE_KEY])
  {
    RequiredKeysCheck(body);
    if |body| == 0 || !AllPresent(REQUIRED_KEYS, body) then Some(MISSING_FIELDS_ERROR)
    else if !Dates.IsValidDate(body[START_DATE_KEY]) then Some(INVALID_DATE_ERROR)
    else None
  }

  /** The source's test `not data or not all(...)` fails exactly when all three required keys are present. */
  lemma RequiredKeysCheck(body: Body)
    ensures (|body| != 0 && AllPresent(REQUIRED_KEYS, body)) <==> HasRequiredKeys(body)
  {
    if HasRequiredKeys(body) {
      assert body != map[];
      forall i | 0 <= i < |REQUIRED_KEYS|
        ensures REQUIRED_KEYS[i] in body
      {
      }
    }
    if AllPresent(REQUIRED_KEYS, body) {
      assert REQUIRED_KEYS[0] in body && REQUIRED_KEYS[1] in body && REQUIRED_KEYS[2] in body;
    }
  }

  /**
   * The record a successful create stores: the fresh id, the three required values as
   * given, and the given status or "Active". No other key of the body is kept.
   */
  function NewCampaign(body: Body, id: string): (c: Campaign)
    requires HasRequiredKeys(body)
    ensures c.id == id
    ensures forall k :: k in REQUIRED_KEYS ==> ToJson(c)[k] == body[k]
    ensures ToJson(c)[STATUS_KEY] == if STATUS_KEY in body then body[STATUS_KEY] else DEFAULT_STATUS
  {
    Campaign(id, body[CAMPAIGN_NAME_KEY], body[CLIENT_NAME_KEY], body[START_DATE_KEY],
             if STATUS_KEY in body then body[STATUS_KEY] else DEFAULT_STATUS)
  }

  /** Keys outside the four input fields make no difference to the created record. */
  lemma NewCampaignIgnoresExtraKeys(body: Body, other: Body, id: string)
    requires HasRequiredKeys(body)
    requires forall k :: k in UPDATABLE_KEYS ==> (k in body <==> k in other) && (k in body ==> body[k] == other[k])
    ensures HasRequiredKeys(other) && NewCampaign(body, id) == NewCampaign(other, id)
  {
    assert UPDATABLE_KEYS[0] in body && UPDATABLE_KEYS[1] in body && UPDATABLE_KEYS[2] in body;
    assert UPDATABLE_KEYS[3] == STATUS_KEY;
  }

  // ---------------------------------------------------------------------------
  // Update

  /** The part of an update body the handler copies: `{k: v for k, v in data.items() if k in whitelist}`. */
  function Updates(body: Body): (u: map<string, string>)
    ensures forall k :: k in u <==> k in body && k in UPDATABLE_KEYS
    ensures forall k :: k in u ==> u[k] == body[k]
    ensures ID_KEY !in u && u.Keys <= FIELD_NAMES
  {
    map k | k in body && k in UPDATABLE_KEYS :: body[k]
  }

  /**
   * `c.update(...)` with the whitelisted part of the body. The id is never touched, and
   * the date is not checked again.
   */
  function Merge(c: Campaign, body: Body): (r: Campaign)
    ensures r.id == c.id
  {
    Campaign(
      c.id,
      if CAMPAIGN_NAME_KEY in body then body[CAMPAIGN_NAME_KEY] else c.campaignName,
      if CLIENT_NAME_KEY in body then body[CLIENT_NAME_KEY] else c.clientName,
      if START_DATE_KEY in body then body[START_DATE_KEY] else c.startDate,
      if STATUS_KEY in body then body[STATUS_KEY] else c.status)
  }

  /**
   * In JSON terms a merge is Python's `dict.update` with the whitelisted part of the body:
   * supplied whitelisted keys are overwritten, every other field is kept.
   */
  lemma MergeIsJsonUpdate(c: Campaign, body: Body)
    ensures ToJson(Merge(c, body)) == ToJson(c) + Updates(body)
  {
    var lhs, rhs := ToJson(Merge(c, body)), ToJson(c) + Updates(body);
    assert Updates(body).Keys <= FIELD_NAMES;
    assert lhs.Keys == rhs.Keys;
    forall k | k in lhs
      ensures lhs[k] == rhs[k]
    {
      if k == ID_KEY {
        assert k !in UPDATABLE_KEYS;
      }
    }
  }

  /** Merging the same body twice changes nothing the first merge did not. */
  lemma MergeIdempotent(c: Campaign, body: Body)
    ensures Merge(Merge(c, body), body) == Merge(c, body)
  {
  }

  // ---------------------------------------------------------------------------
  // Ids in a collection

  function Ids(db: seq<Campaign>): (ids: set<string>) {
    set c | c in db :: c.id
  }

  /** The one structural invariant of the collection: no two records share an id. */
  predicate UniqueIds(db: seq<Campaign>) {
    forall i, j :: 0 <= i < j < |db| ==> db[i].id != db[j].id
  }

  /** The position the update handler's `for c in db` loop stops at: the first record with the id. */
  function FirstIndex(db: seq<Campaign>, id: string): (r: Option<nat>)
    ensures r.Some? ==> r.value < |db| && db[r.value].id == id
    ensures r.Some? ==> forall j :: 0 <= j < r.value ==> db[j].id != id
    ensures r.None? <==> id !in Ids(db)
  {
    if |db| == 0 then None
    else if db[0].id == id then Some(0)
    else
      match FirstIndex(db[1..], id)
      case None =>
        assert Ids(db) == {db[0].id} + Ids(db[1..]) by { assert db == [db[0]] + db[1..]; }
        None
      case Some(k) => Some(k + 1)
  }

  /** `[c for c in db if c['id'] != id]` */
  function Remove(db: seq<Campaign>, id: string): (r: seq<Campaign>)
    ensures forall c :: c in r <==> c in db && c.id != id
    ensures |r| <= |db|
    ensures |r| == |db| <==> id !in Ids(db)
  {
    if |db| == 0 then []
    else
      assert db == [db[0]] + db[1..];
      assert Ids(db) == {db[0].id} + Ids(db[1..]);
      if db[0].id != id then [db[0]] + Remove(db[1..], id) else Remove(db[1..], id)
  }

  /** The filter keeps the relative order of what it keeps. */
  lemma {:induction false} RemoveConcat(a: seq<Campaign>, b: seq<Campaign>, id: string)
    ensures Remove(a + b, id) == Remove(a, id) + Remove(b, id)
  {
    if |a| > 0 {
      assert (a + b)[1..] == a[1..] + b;
      RemoveConcat(a[1..], b, id);
    } else {
      assert a + b == b;
    }
  }

  /** With nothing to remove, the filter gives back the collection as it was. */
  lemma {:induction false} RemoveAbsent(db: seq<Campaign>, id: string)
    requires id !in Ids(db)
    ensures Remove(db, id) == db
  {
    if |db| > 0 {
      assert db[1..] == db[|[db[0]]|..];
      assert Ids(db[1..]) <= Ids(db);
      RemoveAbsent(db[1..], id);
    }
  }

  /** Removing records cannot make two ids collide. */
  lemma {:induction false} RemoveKeepsUnique(db: seq<Campaign>, id: string)
    requires UniqueIds(db)
    ensures UniqueIds(Remove(db, id))
  {
    if |db| > 0 {
      var rest := Remove(db[1..], id);
      assert UniqueIds(db[1..]);
      RemoveKeepsUnique(db[1..], id);
      if db[0].id != id {
        assert forall c :: c in rest ==> c in db[1..];
        assert forall j :: 0 <= j < |rest| ==> rest[j] in db[1..];
        forall j | 0 <= j < |rest|
          ensures db[0].id != rest[j].id
        {
          var i :| 0 <= i < |db[1..]| && db[1..][i] == rest[j];
          assert db[i + 1] == rest[j];
        }
        assert Remove(db, id) == [db[0]] + rest;
      }
    }
  }

  /** Putting a record with a new id in front keeps the ids unique. */
  lemma PrependKeepsUnique(db: seq<Campaign>, c: Campaign)
    requires UniqueIds(db) && c.id !in Ids(db)
    ensures UniqueIds([c] + db)
  {
    forall j | 0 < j < |[c] + db|
      ensures ([c] + db)[0].id != ([c] + db)[j].id
    {
      assert ([c] + db)[j] == db[j - 1];
      assert db[j - 1] in db;
    }
  }

  /** Replacing a record by one with the same id keeps the ids unique. */
  lemma ReplaceKeepsUnique(db: seq<Campaign>, k: nat, c: Campaign)
    requires UniqueIds(db) && k < |db| && db[k].id == c.id
    ensures UniqueIds(db[k := c])
  {
  }

  /** With unique ids, the first record with an id is the only one. */
  lemma FirstIndexIsOnly(db: seq<Campaign>, id: string, j: nat)
    requires UniqueIds(db) && FirstIndex(db, id).Some?
    requires j < |db| && db[j].id == id
    ensures j == FirstIndex(db, id).value
  {
  }
}
