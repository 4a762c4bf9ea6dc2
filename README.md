# TinyLink link store, modelled in Dafny

TinyLink is a URL shortener. Its backend (`backend/server.js`) keeps one table,
`links`, that maps a short code to a target URL, a click count, the time of the
last click and the creation time. Five handlers work on that table:

- POST `/api/links` creates a link. It takes a custom code, or it generates one.
- GET `/api/links` lists every link, newest first.
- GET `/api/links/:code` reads one link.
- DELETE `/api/links/:code` removes one link.
- GET `/:code` redirects to the stored URL and counts the click.

Every path that takes a code checks it against the pattern
`^[A-Za-z0-9]{6,8}$` before touching the table.

The model has seven modules, one file each:

- `CodeFormat` (`code_format.dfy`) covers the code pattern. `IsValidCode` reads it as "6 to 8 ASCII letters or digits". `MatchRepeat` reads it the way the regular expression consumes input. A lemma proves the two agree on every string.
- `CodeGenerator` (`code_generator.dfy`) covers the do-while loop that draws at most ten candidates. The random draw is an oracle `gen: nat -> string`, where `gen(i)` is the candidate of attempt `i + 1`. The loop is a method proved against the function `GeneratedCode`.
- `LinkModel` (`link_model.dfy`) holds the table as a value, `Store(links, clock)`. `links` maps each code to its record. `clock` is a logical database clock. Each handler is a pure function from a store to a `Step`, that is, a response and the new store. The module also holds the table invariant `Wellformed`.
- `LinkListing` (`link_listing.dfy`) covers `ORDER BY created_at DESC`.
- `LinkProperties` (`link_properties.dfy`) holds the lemmas about the handlers: the invariant they keep, what one request may change, and what sequences of requests do.
- `LinksTable` is a class in `LinkServer` (`link_server.dfy`). It is the shared table as a mutable object. It has a `links` map field, a `clock` field and the `isWebUri` check. Each handler is a method with a `modifies` clause. Its contract ties the response and the new fields to the functions in `LinkModel`.

Points where the model follows the code closely:

- The URL is judged before the code. A url that is absent, not a string, or empty gets 400 "url is required". A url that `isWebUri` refuses gets 400 "invalid url".
- A custom code is used only when it is present and non-empty. An empty string is falsy in JavaScript, so `code: ""` goes to the generator, as when the dashboard's code field is left blank.
- The generator retries only candidates that fail the pattern. It never consults the table. If the candidate it settles on is already taken, create answers 409 and does not try another one. A collision is not retried (`CreateLink`'s `Conflict` clause).
- The redirect route declines `api`, `healthz` and `code` before any lookup. `healthz` is itself a well-formed code. So a link created with the custom code `healthz` is stored, but it is never redirected (`ReservedCodeIsCreatableButNeverRedirected`).
- `created_at` and `last_clicked` come from the database clock. Here that clock is `Store.clock`, which every insert and every redirect advances. The invariant `Wellformed` states four facts:
  - timestamps are distinct and in the past;
  - a link has a `last_clicked` time exactly when its click count is positive;
  - that time comes after the link's creation;
  - every key is a well-formed code and every URL passed `isWebUri`.

## Model

| member | source | states |
|---|---|---|
| CodeFormat.MatchRepeatCharacterized | backend/server.js:12 | the bounded repetition `[A-Za-z0-9]{min,max}` anchored at both ends accepts a string iff its length is between min and max and every character is an ASCII letter or digit |
| CodeFormat.CodeRegexAgrees | backend/server.js:12 | `CODE_REGEX.test(s)` holds iff `s` has 6, 7 or 8 characters, each an ASCII letter or digit |
| CodeFormat.CodeFormatExamples | backend/server.js:12 | "ab" (too short), "valid!!" (bad characters), "api" and "code" are refused; "healthz" and "aB3dE9z" are accepted; 9 characters are refused |
| CodeGenerator.FirstValidIndex | backend/server.js:44-48 | the index returned is the first of the ten attempts whose candidate matches the pattern; None means none of the ten matches |
| CodeGenerator.GeneratedCode | backend/server.js:44-52 | a generated code always matches the pattern; the generator fails exactly when all ten candidates are malformed |
| CodeGenerator.GenerateCode | backend/server.js:43-48 | the do-while loop runs at least once and at most 10 times, returns the last candidate drawn, stops at the first well-formed one, and uses all ten attempts when it ends on a malformed one |
| LinkModel.ChosenCode | backend/server.js:36-53 | the code create inserts: the custom code when present, non-empty and well-formed (none when it is malformed), otherwise exactly the generator's code; it always matches the pattern |
| LinkModel.CreateLink | backend/server.js:26-67 | a missing or empty url gives 400 and a non-web url gives 400, both before the code is looked at; a malformed custom code gives 400; ten malformed candidates give 500; a taken code gives 409 with no retry; otherwise 201 with clicks 0 and exactly one new entry stamped with the clock; every failure leaves the store unchanged |
| LinkModel.GetLink | backend/server.js:82-93 | 400 iff the code is malformed, 404 iff it is well-formed and absent, otherwise the stored row of that code |
| LinkModel.DeleteLink | backend/server.js:96-107 | 400 iff the code is malformed, 404 iff it is well-formed and absent, otherwise 204 with exactly that key removed; no other outcome changes the store |
| LinkModel.VisitLink | backend/server.js:111-133 | reserved names pass through untouched; a malformed or absent code gives 404 with the store unchanged; a present code gives 302 to its stored URL, one more click and last_clicked set to now, and leaves every other entry unchanged |
| LinkListing.NewestExists | backend/server.js:73 | every non-empty table has a record with the largest created_at |
| LinkListing.ListRows | backend/server.js:71-74 | the listing holds every stored record exactly as stored, and only those, in strictly decreasing created_at order |
| LinkProperties.CreatePreservesWellformed | backend/server.js:36-59 | create keeps the table invariant: keys are well-formed codes, URLs passed isWebUri, timestamps are distinct and in the past |
| LinkProperties.DeletePreservesWellformed | backend/server.js:96-102 | delete keeps the table invariant |
| LinkProperties.VisitPreservesWellformed | backend/server.js:113-130 | a redirect keeps the table invariant, including "clicked iff last_clicked is set" |
| LinkProperties.ApplyPreservesWellformed | backend/server.js:26-133 | every handler keeps the table invariant |
| LinkProperties.RunPreservesWellformed | backend/server.js:26-133 | any sequence of requests keeps the table invariant |
| LinkProperties.ApplyFrame | backend/server.js:57-129 | one request never changes a surviving record's URL or created_at; it raises the click count by exactly 1 on a counted redirect to that code and leaves it unchanged otherwise; only a delete of that code removes a record; only a create adds one, with 0 clicks |
| LinkProperties.RunCountsEveryClick | backend/server.js:117-133 | over any sequence of requests that does not delete the code, the record survives with the same URL and its clicks grow by exactly the number of redirects to it, so no update is lost |
| LinkProperties.VisitsCountAll | backend/server.js:113-114 | n redirects in a row to an unreserved, well-formed code are all counted, and none deletes it |
| LinkProperties.VisitNTimes | backend/server.js:121-133 | N redirects to a stored code raise its click count by exactly N and keep its URL |
| LinkProperties.DeleteTwice | backend/server.js:98-102 | a second delete of the same code never answers 204, answers 404 after a successful first delete, and changes nothing |
| LinkProperties.CreateThenGet | backend/server.js:55-63 | a code just created reads back with the submitted URL, 0 clicks and no last click |
| LinkProperties.CreateThenVisitTwice | backend/server.js:111-133 | after a create, two redirects to the new code both go to the submitted URL, and clicks read 1 then 2 (unless the code is a reserved name) |
| LinkProperties.ReservedCodeIsCreatableButNeverRedirected | backend/server.js:113 | "healthz" is accepted as a custom code at create, but the redirect route passes it through without a lookup |
| LinkServer.LinksTable.Create | backend/server.js:26-67 | the handler's response and the new table are those of CreateLink; a failure leaves the table alone; a success adds exactly the new code with 0 clicks |
| LinkServer.LinksTable.List | backend/server.js:71-79 | answers 200 with the listing of ListRows: every stored record, newest created_at first |
| LinkServer.LinksTable.Get | backend/server.js:82-93 | answers as GetLink; a row comes back iff the code is well-formed and present |
| LinkServer.LinksTable.Delete | backend/server.js:96-107 | answers as DeleteLink; 204 removes exactly that key, anything else leaves the table alone |
| LinkServer.LinksTable.Visit | backend/server.js:111-140 | answers as VisitLink; a 302 goes to the stored URL, adds exactly one click to that code, keeps its URL and leaves every other record unchanged |
| LinkServer.DeleteTwiceScenario | backend/server.js:96-107 | through the table object, deleting a present code twice answers 204 and then 404, and removes only that key |

## Left out

- Concurrency and transactions are left out: the connection pool, `beginTransaction`, `SELECT ... FOR UPDATE`, `commit` and `rollback` (backend/server.js:117-139). Each redirect is one atomic step. "No lost update" is proved for serialised redirects only (`RunCountsEveryClick`), not for interleavings.
- Storage and transport faults are left out. These are the `catch` branches that answer 500 "internal_server_error" and log with `console.error` (backend/server.js:65-66, 76-77, 90-91, 104-105, 134-138). The model's store never fails.
- The random draw `Math.random().toString(36)...substring(2, 9)` (backend/server.js:43) is left out. It is floating point and random, so it is replaced by an arbitrary candidate oracle `gen`. As a result, the model does not show that generated codes have 7 characters.
- `isWebUri` from the valid-url library is not modelled. It is a parameter, and the `isWebUri` field of the table.
- The table definition is not part of the source, so two assumptions about it are made. First, codes are compared exactly, case-sensitively, as map keys; under a case-insensitive MySQL collation "ABCdef" would collide with a stored "abcdef" (409, and found by get and redirect), which the model does not capture. Second, the column defaults are taken to be clicks 0, last_clicked NULL and created_at the current time (`Insert`, and the `Wellformed` clause "clicked iff last_clicked is set").
- Database timestamps are replaced by the logical clock `Store.clock`. Two links created in the same database second share a `created_at` value in MySQL, and their relative order in the listing is then unspecified. The model's clock never repeats a value, so it does not capture such ties.
- Non-string request values are only partly modelled. A non-string `url` is modelled as absent (`None`). A non-string `code` is not modelled: `RegExp.test` would coerce a truthy number to a string. The model's `code` is an optional string.
- `shortUrl` is not built. `BASE_URL` and the request host are used to build it (backend/server.js:58-59), so the `Created` response carries the code, the URL and the click count, but no `shortUrl`.
- GET `/` and GET `/healthz` (backend/server.js:14-22) answer constants and never touch the table, so they are not modelled.
- Express routing and `next()` are not modelled. `PassThrough` means that the redirect route declines the request. Whatever a later route or Express's fallback then answers is not modelled.
- JSON bodies are not built. The 400 error messages appear only as the `BadInput` variants.
- backend/db.js (connection-pool settings) is not part of this model. Neither are the frontend files (frontend/tinylink/src/App.js, pages/DashBoard.jsx, pages/Stats.js), which only render server responses.
