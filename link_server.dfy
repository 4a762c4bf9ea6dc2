/**
 * The request handlers of backend/server.js over the shared links table. The
 * table is one mutable object; each handler runs as one atomic step, and its
 * contract ties the response and the new table to the handler's semantics in
 * LinkModel and LinkListing.
 */
module LinkServer {
  import opened Wrappers
  import opened CodeFormat
  import opened CodeGenerator
  import opened LinkModel
  import opened LinkListing
  import opened LinkProperties

  class LinksTable {
    /** The rows of the links table, keyed by code. */
    var links: map<string, Link>
    /** The next timestamp the database clock hands out. */
    var clock: nat
    /** The URL check of the valid-url library, taken as given. */
    const isWebUri: string -> bool

    function Snapshot(): Store
      reads this
    {
      Store(links, clock)
    }

    ghost predicate Valid()
      reads this
    {
      Wellformed(Snapshot(), isWebUri)
    }

    constructor (isWebUri: string -> bool)
      ensures Valid() && this.isWebUri == isWebUri
      ensures links == map[] && clock == 0
    {
      this.isWebUri := isWebUri;
      links := map[];
      clock := 0;
    }

    /** POST /api/links with body { url, code }; `gen` supplies the generator's draws. */
    method Create(url: Option<string>, code: Option<string>, gen: nat -> string) returns (resp: Response)
      requires Valid()
      modifies this
      ensures Valid()
      ensures resp == CreateLink(old(Snapshot()), isWebUri, url, code, gen).resp
      ensures Snapshot() == CreateLink(old(Snapshot()), isWebUri, url, code, gen).next
      ensures !resp.Created? ==> links == old(links) && clock == old(clock)
      ensures resp.Created? ==> old(resp.code !in links) && links == old(links)[resp.code := Link(resp.url, 0, None, old(clock))]
    {
      CreatePreservesWellformed(Snapshot(), isWebUri, url, code, gen);
      if url.None? || url.value == "" {
        return BadRequest(UrlRequired);
      }
      if !isWebUri(url.value) {
        return BadRequest(UrlNotWeb);
      }
      var finalCode: string;
      if code.Some? && code.value != "" {
        finalCode := code.value;
        if !IsValidCode(finalCode) {
          return BadRequest(CodeNotMatching);
        }
      } else {
        var attempts;
        finalCode, attempts := GenerateCode(gen);
        if !IsValidCode(finalCode) {
          return GenerationFailed;
        }
      }
      if finalCode in links {
        return Conflict;
      }
      links := links[finalCode := Link(url.value, 0, None, clock)];
      clock := clock + 1;
      resp := Created(finalCode, url.value, 0);
    }

    /** GET /api/links. */
    method List() returns (resp: Response)
      requires Valid()
      ensures resp == Listed(ListRows(links))
    {
      resp := Listed(ListRows(links));
    }

    /** GET /api/links/:code. */
    method Get(code: string) returns (resp: Response)
      ensures resp == GetLink(Snapshot(), code)
      ensures resp.Fetched? <==> IsValidCode(code) && code in links
    {
      if !IsValidCode(code) {
        return BadRequest(BadCodeFormat);
      }
      if code !in links {
        return NotFound;
      }
      resp := Fetched(RowOf(code, links[code]));
    }

    /** DELETE /api/links/:code. */
    method Delete(code: string) returns (resp: Response)
      requires Valid()
      modifies this
      ensures Valid()
      ensures resp == DeleteLink(old(Snapshot()), code).resp
      ensures Snapshot() == DeleteLink(old(Snapshot()), code).next
      ensures resp == Deleted ==> old(code in links) && links == old(links) - {code}
      ensures resp != Deleted ==> links == old(links)
      ensures clock == old(clock)
    {
      DeletePreservesWellformed(Snapshot(), isWebUri, code);
      if !IsValidCode(code) {
        return BadRequest(BadCodeFormat);
      }
      if code !in links {
        return NotFound;
      }
      links := links - {code};
      resp := Deleted;
    }

    /** GET /:code: read the URL and count the click in one atomic step. */
    method Visit(code: string) returns (resp: Response)
      requires Valid()
      modifies this
      ensures Valid()
      ensures resp == VisitLink(old(Snapshot()), code).resp
      ensures Snapshot() == VisitLink(old(Snapshot()), code).next
      ensures resp.Redirect? ==>
                && old(code in links)
                && resp.location == old(links[code].url)
                && code in links
                && links[code].url == old(links[code].url)
                && links[code].clicks == old(links[code].clicks) + 1
                && forall c :: c in old(links) && c != code ==> c in links && links[c] == old(links[c])
      ensures !resp.Redirect? ==> links == old(links) && clock == old(clock)
    {
      VisitPreservesWellformed(Snapshot(), isWebUri, code);
      if code in ReservedNames {
        return PassThrough;
      }
      if !IsValidCode(code) {
        return NotFound;
      }
      if code !in links {
        return NotFound;
      }
      var url := links[code].url;
      links := links[code := Clicked(links[code], clock)];
      clock := clock + 1;
      resp := Redirect(url);
    }
  }

  /** Two deletes of the same code through the table: the second reports 404. */
  method DeleteTwiceScenario(t: LinksTable, code: string) returns (first: Response, second: Response)
    requires t.Valid() && IsValidCode(code) && code in t.links
    modifies t
    ensures first == Deleted && second == NotFound
    ensures t.links == old(t.links) - {code}
  {
    first := t.Delete(code);
    second := t.Delete(code);
  }
}
