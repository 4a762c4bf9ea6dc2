/**
 * The links table and the request handlers of backend/server.js, each handler
 * one atomic step from a store to a response and a new store. The table is an
 * abstract map from code to record; the database clock that fills created_at
 * and last_clicked is a counter that every insert and every redirect advances.
 */
module LinkModel {
  import opened Wrappers
  import opened CodeFormat
  import opened CodeGenerator

  /** One record of the links table, keyed by its code. */
  datatype Link = Link(url: string, clicks: nat, lastClicked: Option<nat>, createdAt: nat)

  /** A selected row: the record together with its code. */
  datatype LinkRow = LinkRow(code: string, url: string, clicks: nat, lastClicked: Option<nat>, createdAt: nat)

  function RowOf(code: string, l: Link): LinkRow {
    LinkRow(code, l.url, l.clicks, l.lastClicked, l.createdAt)
  }

  /** The table and the clock: `clock` is the next timestamp the database hands out. */
  datatype Store = Store(links: map<string, Link>, clock: nat)

  /** Why a request is answered with 400. */
  datatype BadInput =
    | UrlRequired      // 'url is required'
    | UrlNotWeb        // 'invalid url; must be absolute (http/https)'
    | CodeNotMatching  // 'code must match [A-Za-z0-9]{6,8}'
    | BadCodeFormat    // 'invalid code format'

  /** What a handler answers, with the HTTP status it sends. */
  datatype Response =
    | Created(code: string, url: string, clicks: nat)  // 201
    | Fetched(row: LinkRow)                            // 200
    | Listed(rows: seq<LinkRow>)                       // 200
    | Deleted                                          // 204
    | Redirect(location: string)                       // 302
    | BadRequest(reason: BadInput)                     // 400
    | NotFound                                         // 404
    | Conflict                                         // 409
    | GenerationFailed                                 // 500
    | PassThrough  // next(): the redirect route declines the request and sends nothing

  /** The outcome of one handler: what it answers and the store it leaves. */
  datatype Step = Step(resp: Response, next: Store)

  /** Path segments the redirect route leaves to other routes. */
  const ReservedNames: set<string> := {"api", "healthz", "code"}

  /** Every timestamp the clock handed out so far is distinct and in the past. */
  predicate DistinctStamps(m: map<string, Link>) {
    forall a, b :: a in m && b in m && a != b ==> m[a].createdAt != m[b].createdAt
  }

  predicate LinkWellformed(code: string, l: Link, clock: nat, isWebUri: string -> bool) {
    && IsValidCode(code)
    && isWebUri(l.url)
    && l.createdAt < clock
    && (l.clicks == 0 <==> l.lastClicked.None?)
    && (l.lastClicked.Some? ==> l.createdAt < l.lastClicked.value < clock)
  }

  /**
   * What the handlers maintain: every key is a well-formed code, every URL passed
   * isWebUri, timestamps are distinct and in the past, a record has been clicked
   * exactly when it has a last_clicked time, and that time follows its creation.
   */
  predicate Wellformed(st: Store, isWebUri: string -> bool) {
    && (forall c :: c in st.links ==> LinkWellformed(c, st.links[c], st.clock, isWebUri))
    && DistinctStamps(st.links)
  }

  /** `!url || typeof url !== 'string'`: an absent, non-string or empty url. */
  predicate UrlMissing(url: Option<string>) {
    url.None? || url.value == ""
  }

  /** `if (finalCode)`: a custom code is used only when present and non-empty. */
  predicate HasCustomCode(code: Option<string>) {
    code.Some? && code.value != ""
  }

  /** The code create would try to insert: the custom code if well-formed, else the generated one. */
  function ChosenCode(code: Option<string>, gen: nat -> string): (r: Option<string>)
    ensures r.Some? ==> IsValidCode(r.value)
    ensures HasCustomCode(code) ==> (r.Some? <==> IsValidCode(code.value))
    ensures HasCustomCode(code) && r.Some? ==> r.value == code.value
    ensures !HasCustomCode(code) ==> r == GeneratedCode(gen)
  {
    if HasCustomCode(code) then
      if IsValidCode(code.value) then Some(code.value) else None
    else GeneratedCode(gen)
  }

  /** The INSERT: a duplicate key is a conflict, otherwise a fresh record with no clicks. */
  function Insert(st: Store, code: string, url: string): Step {
    if code in st.links then Step(Conflict, st)
    else Step(Created(code, url, 0), Store(st.links[code := Link(url, 0, None, st.clock)], st.clock + 1))
  }

  /** POST /api/links. */
  function CreateLink(st: Store, isWebUri: string -> bool, url: Option<string>,
                      code: Option<string>, gen: nat -> string): (r: Step)
    // the URL is judged first, before anything about the code
    ensures UrlMissing(url) ==> r == Step(BadRequest(UrlRequired), st)
    ensures !UrlMissing(url) && !isWebUri(url.value) ==> r == Step(BadRequest(UrlNotWeb), st)
    ensures r.resp == BadRequest(CodeNotMatching) <==>
              !UrlMissing(url) && isWebUri(url.value) && HasCustomCode(code) && !IsValidCode(code.value)
    ensures r.resp == GenerationFailed <==>
              !UrlMissing(url) && isWebUri(url.value) && !HasCustomCode(code) &&
              forall k :: 0 <= k < MaxAttempts ==> !IsValidCode(gen(k))
    // a duplicate key is reported, never retried with another candidate
    ensures r.resp == Conflict <==>
              !UrlMissing(url) && isWebUri(url.value) &&
              ChosenCode(code, gen).Some? && ChosenCode(code, gen).value in st.links
    ensures r.resp.Created? <==>
              !UrlMissing(url) && isWebUri(url.value) &&
              ChosenCode(code, gen).Some? && ChosenCode(code, gen).value !in st.links
    ensures r.resp.Created? ==>
              && r.resp.code == ChosenCode(code, gen).value
              && r.resp.url == url.value && r.resp.clicks == 0
              && r.next.links == st.links[r.resp.code := Link(url.value, 0, None, st.clock)]
              && r.next.clock == st.clock + 1
    // every failure leaves the store exactly as it was
    ensures !r.resp.Created? ==> r.next == st
  {
    if UrlMissing(url) then Step(BadRequest(UrlRequired), st)
    else if !isWebUri(url.value) then Step(BadRequest(UrlNotWeb), st)
    else if HasCustomCode(code) then
      if IsValidCode(code.value) then Insert(st, code.value, url.value)
      else Step(BadRequest(CodeNotMatching), st)
    else
      match GeneratedCode(gen)
      case None => Step(GenerationFailed, st)
      case Some(c) => Insert(st, c, url.value)
  }

  /** GET /api/links/:code. */
  function GetLink(st: Store, code: string): (r: Response)
    ensures r.Fetched? || r == BadRequest(BadCodeFormat) || r == NotFound
    ensures r == BadRequest(BadCodeFormat) <==> !IsValidCode(code)
    ensures r == NotFound <==> IsValidCode(code) && code !in st.links
    ensures r.Fetched? ==> code in st.links && r.row == RowOf(code, st.links[code])
  {
    if !IsValidCode(code) then BadRequest(BadCodeFormat)
    else if code !in st.links then NotFound
    else Fetched(RowOf(code, st.links[code]))
  }

  /** DELETE /api/links/:code. */
  function DeleteLink(st: Store, code: string): (r: Step)
    ensures r.resp == Deleted || r.resp == BadRequest(BadCodeFormat) || r.resp == NotFound
    ensures r.resp == BadRequest(BadCodeFormat) <==> !IsValidCode(code)
    ensures r.resp == NotFound <==> IsValidCode(code) && code !in st.links
    ensures r.resp == Deleted ==> code in st.links && r.next == Store(st.links - {code}, st.clock)
    ensures r.resp != Deleted ==> r.next == st
  {
    if !IsValidCode(code) then Step(BadRequest(BadCodeFormat), st)
    else if code !in st.links then Step(NotFound, st)
    else Step(Deleted, Store(st.links - {code}, st.clock))
  }

  /** The record after one more click at time `now`. */
  function Clicked(l: Link, now: nat): Link {
    l.(clicks := l.clicks + 1, lastClicked := Some(now))
  }

  /** GET /:code, the redirect, as one serialised read-and-increment. */
  function VisitLink(st: Store, code: string): (r: Step)
    ensures code in ReservedNames ==> r == Step(PassThrough, st)
    ensures r.resp == NotFound <==> code !in ReservedNames && (!IsValidCode(code) || code !in st.links)
    ensures r.resp.Redirect? <==> code !in ReservedNames && IsValidCode(code) && code in st.links
    ensures r.resp.Redirect? ==>
              && r.resp.location == st.links[code].url
              && r.next.links == st.links[code := Clicked(st.links[code], st.clock)]
              && r.next.clock == st.clock + 1
    ensures !r.resp.Redirect? ==> r.next == st
  {
    if code in ReservedNames then Step(PassThrough, st)
    else if !IsValidCode(code) then Step(NotFound, st)
    else if code !in st.links then Step(NotFound, st)
    else
      Step(Redirect(st.links[code].url),
           Store(st.links[code := Clicked(st.links[code], st.clock)], st.clock + 1))
  }
}
