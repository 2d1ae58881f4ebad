# Campaign tracker: a Dafny model of its store and request handlers

The campaign tracker is a small Flask service. It keeps a list of campaign records in
`campaigns.json`. Each record has an `id`, `campaign_name`, `client_name`, `start_date`
and `status`. Four JSON endpoints list, create, update and delete these records. A
successful create, update or delete reads the whole file, changes the list it read, and
writes the whole list back. A listing and every 400 or 404 answer write nothing.

This project models that core.

- `options.dfy` (`Options`) holds the optional-value datatype.
- `dates.dfy` (`Dates`) models the date check `datetime.strptime(s, '%Y-%m-%d')`. CPython
  compiles this format to a regular expression: `%Y` is four digits; `%m` is
  `1[0-2]|0[1-9]|[1-9]`; `%d` is `3[01]|[12]\d|0[1-9]|[1-9]| [1-9]`. The expression is
  matched at the start of the string. Text left over at the end is an error, and so is an
  out-of-range `datetime.date` (year 0, or a day past the end of the month in the Gregorian
  calendar). `ParseDate` follows that construction. `Spellings` describes the accepted
  strings independently. `ParseDateExactly` proves that the two agree. So `2024-1-5` and
  `2024-01- 5` are accepted, as Python accepts them.
- `campaigns.dfy` (`Campaigns`) holds the record, its JSON object (`ToJson`), the
  validation of a create body, the record a create builds, the whitelisted merge of an
  update, the search for the first record with an id, and the filter that delete applies.
- `handlers.dfy` (`Handlers`) gives each handler's answer (payload and HTTP status) as a
  function of the collection it reads. It also gives what the handler writes back, if
  anything. Its lemmas state the API's properties: validation order, prepend order,
  field-by-field merge, "nothing else changes", delete-twice, and id uniqueness under
  every operation.
- `store.dfy` (`App`) holds the class `Store`. Its field `file` stands for
  `campaigns.json`: either a parsed list, or text that is not valid JSON (the `JSONDecodeError` case).
  `ReadDb` and `WriteDb` are `read_db` and `write_db`. `GetCampaigns` answers with the
  stored list as read (`Listed(Snapshot())`, status 200) and writes nothing. The three
  mutating handlers are methods that read the store, change the list and write it back.
  Each of them is proved to answer and write exactly as its function in `Handlers` says. Each also keeps the ids unique.
  `UpdateCampaign` keeps the source's `for` loop with its early return.

The request body is a `map<string, string>`. A JSON `null` POST body behaves like the
empty object `{}`: both are refused as "Missing required fields". `uuid4()` becomes a
parameter `newId`. The caller must supply an id that is non-empty and not already in the
collection.

The model follows what the code does, including where that is looser than one might expect:
- A create checks only that the required keys are present, so an empty name is accepted.
  Nothing requires the names to be non-empty.
- The date check accepts unpadded months and days, and days padded with a space, not
  only the strict `YYYY-MM-DD` layout.
- A delete removes every record with the id, not just one.
- If the file is not valid JSON, a handler sees an empty collection. A create on such a store
  replaces the file with a one-record list. An update or delete answers 404 and leaves the
  file as it is.

## Model

| member | source | states |
|---|---|---|
| Handlers.StatusCode | app.py:39-74 | 201 exactly for a created record, 400 exactly for a refused create, 404 exactly for an unknown id, 200 for a listing, an update or a delete |
| Handlers.CreateOutcome | app.py:35-54 | a create either answers 400 with one of its two messages and writes nothing, or answers with a record carrying the new id and writes that record followed by the collection read |
| Handlers.UpdateOutcome | app.py:56-65 | an update either answers 404 "Not found" and writes nothing, or answers with a record carrying the id and writes a collection of the same length that contains it |
| Handlers.DeleteOutcome | app.py:67-74 | a delete either answers 404 "Not found" and writes nothing, or answers "Deleted" and writes a strictly shorter collection of old records, none with the id |
| Campaigns.Updates | app.py:62 | the comprehension keeps exactly the supplied keys among the four updatable ones, with their supplied values; `id` is never among them |
| App.Contents | app.py:17-20 | a file whose text is not valid JSON (the `JSONDecodeError` case) reads as the empty list; a parsed file reads as its list |
| Dates.MatchYear | app.py:41 | `%Y` reads exactly four leading digits, as a value from 0 to 9999 |
| Dates.MatchMonth | app.py:41 | `%m` consumes one or two leading characters and reads a month from 1 to 12 |
| Dates.MatchDay | app.py:41 | `%d` consumes one or two leading characters and reads a day from 1 to 31 |
| Dates.ParseDate | app.py:40-43 | whatever `strptime(s, '%Y-%m-%d')` accepts is a calendar date: year 1..9999, month 1..12, day within the month, Gregorian leap years |
| Dates.YearRead | app.py:41 | a four-digit zero-padded year followed by anything is read back as that year |
| Dates.YearSpelled | app.py:41 | the four characters `%Y` matched are the zero-padded spelling of the year it read |
| Dates.Pad4Digits | app.py:41 | the zero-padded year is four digits whose decimal value is the year |
| Dates.MonthRead | app.py:41 | every spelling of a month, followed by `-`, is read back as that month with its own width |
| Dates.MonthSpelled | app.py:41 | the characters `%m` matched are one of the spellings of the month it read |
| Dates.DayRead | app.py:41 | every spelling of a day is read back as that day, consuming all of it |
| Dates.DaySpelled | app.py:41 | the characters `%d` matched are one of the spellings of the day it read |
| Dates.ParseDateSpelled | app.py:40-43 | an accepted string is one of the spellings of the date it is read as |
| Dates.SpellingParses | app.py:40-43 | each spelling of a calendar date is accepted and read as that date |
| Dates.ParseDateExactly | app.py:40-43 | `s` is accepted as `d` if and only if `d` is a calendar date and `s` is one of its spellings |
| Dates.ParseIsoFormat | app.py:40-43 | the zero-padded `YYYY-MM-DD` form of every calendar date is accepted as that date |
| Dates.LeapDay | app.py:40-43 | `YYYY-02-29` is accepted exactly when the year is a leap year |
| Dates.IsoExample | app.py:40-43 | `2024-01-15` is accepted as 15 January 2024 |
| Dates.UnpaddedExample | app.py:40-43 | `2024-1-5` is accepted as 5 January 2024 |
| Dates.RefusedExamples | app.py:40-43 | `13/25/2024`, `0000-01-01` and `2024-01-15 ` are refused |
| Campaigns.ToJson | app.py:44-50 | a record is a JSON object with exactly the five fields `id, campaign_name, client_name, start_date, status` |
| Campaigns.ToJsonInjective | app.py:44-50 | distinct records have distinct JSON objects |
| Campaigns.AllPresent | app.py:38 | `all(k in data for k in keys)` holds exactly when every listed key is in the body |
| Campaigns.RequiredKeysCheck | app.py:38 | the test `not data or not all(...)` passes exactly when all three required keys are present; the empty body is one of the failing cases |
| Campaigns.ValidateCreate | app.py:38-43 | "Missing required fields" exactly when a required key is absent; otherwise "Invalid date format" exactly when `strptime` refuses `start_date`; otherwise no error |
| Campaigns.NewCampaign | app.py:44-50 | the created record has the given id, the three required values as supplied, and the supplied status or "Active" |
| Campaigns.NewCampaignIgnoresExtraKeys | app.py:44-50 | body keys other than the four input fields do not affect the created record |
| Campaigns.Merge | app.py:62 | an update never changes the id |
| Campaigns.MergeIsJsonUpdate | app.py:62 | in JSON terms an update is `dict.update` with the whitelisted supplied keys: those are overwritten (a `start_date` is taken as given, with no date check), every other field is kept |
| Campaigns.MergeIdempotent | app.py:62 | applying the same update body twice gives the same record as applying it once |
| Campaigns.FirstIndex | app.py:60-61 | the index the `for c in db` loop stops at is the first record with the id; it is absent exactly when no record has the id |
| Campaigns.Remove | app.py:70 | the filter keeps exactly the records whose id differs; it is shorter than the input exactly when some record has the id |
| Campaigns.RemoveConcat | app.py:70 | the filter keeps the relative order of the records it keeps |
| Campaigns.RemoveAbsent | app.py:70-71 | when no record has the id, the filter returns the collection unchanged |
| Campaigns.RemoveKeepsUnique | app.py:70 | filtering keeps ids unique |
| Campaigns.PrependKeepsUnique | app.py:52 | prepending a record with a fresh id keeps ids unique |
| Campaigns.ReplaceKeepsUnique | app.py:62 | replacing a record by one with the same id keeps ids unique |
| Campaigns.FirstIndexIsOnly | app.py:60-62 | with unique ids, the first record with an id is the only record with it |
| Handlers.CreateMissingFields | app.py:38-39 | a body lacking a required key gets 400 "Missing required fields", whatever its date, and nothing is written |
| Handlers.CreateInvalidDate | app.py:40-43 | a body with all required keys but a refused date gets 400 "Invalid date format", and nothing is written |
| Handlers.CreateSucceeds | app.py:44-54 | a create succeeds exactly when both checks pass; it then answers 201 with the record `NewCampaign` builds from the body, carrying the new id and the status or "Active", and writes that record at index 0, followed by the old collection unchanged and in order |
| Handlers.CreateKeepsUnique | app.py:45-53 | a create with a fresh id keeps ids unique |
| Handlers.CreateTwiceOrder | app.py:51-53 | creating A then B stores B, then A, then the older records |
| Handlers.UpdateNotFound | app.py:65 | an update answers 404 "Not found" exactly when no record has the id, and then writes nothing |
| Handlers.UpdateChangesOnlyFirstMatch | app.py:59-64 | an update of an existing id answers 200 with the merged record and writes a collection of the same length; only the first record with the id changes, and it gets exactly the supplied whitelisted fields |
| Handlers.UpdateTouchesTheOnlyMatch | app.py:60-64 | with unique ids, an update rewrites the record carrying the id and no other |
| Handlers.UpdateKeepsUnique | app.py:62-63 | an update keeps ids unique |
| Handlers.UpdateStatusOnly | app.py:62 | `PUT {"status": s}` changes the status and nothing else |
| Handlers.DeleteCases | app.py:69-74 | a delete answers "Deleted" exactly when some record has the id; it then writes the filtered collection, where no record has the id; otherwise it answers 404 "Not found" and writes nothing |
| Handlers.DeleteTwice | app.py:69-74 | deleting the same id twice answers "Deleted" and then 404 |
| Handlers.DeleteKeepsUnique | app.py:70-73 | a delete keeps ids unique |
| App.Store.constructor | app.py:10-12 | a store starts from the file as found at startup; the freshly created `[]` file satisfies the unique-id invariant |
| App.Store.ReadDb | app.py:14-20 | `read_db` returns the stored list, or the empty list when the file is not valid JSON |
| App.Store.WriteDb | app.py:22-25 | `write_db` overwrites the whole file, and the next read returns the written list unchanged |
| App.Store.GetCampaigns | app.py:31-33 | the listing is every stored record in stored order, with status 200 |
| App.Store.AddCampaign | app.py:35-54 | the answer and the file afterwards are those of `CreateOutcome` on the collection read; ids stay unique |
| App.Store.UpdateCampaign | app.py:56-65 | the loop answers and writes as `UpdateOutcome` says; no write on 404; ids stay unique |
| App.Store.DeleteCampaign | app.py:67-74 | the answer and the file afterwards are those of `DeleteOutcome`; no write on 404; ids stay unique |

## Left out

- Flask routing, `request.get_json`, `jsonify`, `render_template`, the `index` page and `app.run` are HTTP and UI plumbing. The handlers take the decoded body and return a `Response` together with its `StatusCode`.
- JSON encoding and decoding are not modelled. A stored record is the five-field `Campaign`, and the file is either such a list or `Unparseable`. A file that holds valid JSON of another shape is not modelled.
- A file whose bytes do not decode as text is not modelled: `json.load` then raises `UnicodeDecodeError`, which `except json.JSONDecodeError` (`app.py:19`) does not catch, so `read_db` raises instead of returning `[]`. `Unparseable` covers only text that is not valid JSON.
- Body values other than strings are not modelled, for example `null` or numbers. An update stores such a value as given. On a create, a non-string `start_date` makes `strptime` raise `TypeError`, which `except ValueError` does not catch, so the request fails and nothing is stored; other non-string values in a create would be stored as given. Non-object bodies are not modelled either: a JSON list or string that contains the key names passes `k in data` and then fails with a `TypeError`.
- A request with no body at all, or with a non-JSON content type, is refused by `request.get_json()` itself (415, or 400 for an empty JSON body), before the handler code runs. The model starts from a decoded body.
- A `PUT` whose body is JSON `null` crashes in `data.items()` when the id exists. This is the framework's error path. `UpdateCampaign` always receives a map.
- The `threading.Lock` and the lost update are not modelled. The lock covers each read and each write, but not the read-modify-write cycle, so two concurrent requests can overwrite each other's changes. The model is sequential and cannot express this.
- `uuid4()` randomness is not modelled. `App.Store.AddCampaign` requires the caller's id to be non-empty and fresh, which the source gets from randomness.
- Creating `campaigns.json` at startup (`app.py:10-12`) is not modelled: the constructor takes the initial file state, and `Parsed([])` is the freshly created file. Failures to open or write the file are not modelled either.
- Dates.ParseDate: only ASCII digits are modelled. Python's `\d` also matches other Unicode decimal digits in the year and in the second digit of the day, and `strptime` would accept those.
