/**
 * Properties of the handlers taken together: the table invariant they keep,
 * what one request may change, and what sequences of requests do.
 */
module LinkProperties {
  import opened Wrappers
  import opened CodeFormat
  import opened CodeGenerator
  import opened LinkModel

  /** The requests that reach the handlers of the links table. */
  datatype Request =
    | CreateReq(url: Option<string>, customCode: Option<string>, gen: nat -> string)
    | ListReq
    | GetReq(code: string)
    | DeleteReq(code: string)
    | VisitReq(code: string)

  /** The store after handling one request. */
  function Apply(st: Store, isWebUri: string -> bool, req: Request): Store {
    match req
    case CreateReq(url, code, gen) => CreateLink(st, isWebUri, url, code, gen).next
    case ListReq => st
    case GetReq(_) => st
    case DeleteReq(code) => DeleteLink(st, code).next
    case VisitReq(code) => VisitLink(st, code).next
  }

  /** The store after handling the requests one after another. */
  function Run(st: Store, isWebUri: string -> bool, reqs: seq<Request>): Store
    decreases |reqs|
  {
    if reqs == [] then st else Run(Apply(st, isWebUri, reqs[0]), isWebUri, reqs[1..])
  }

  lemma CreatePreservesWellformed(st: Store, isWebUri: string -> bool, url: Option<string>,
                                  code: Option<string>, gen: nat -> string)
    requires Wellformed(st, isWebUri)
    ensures Wellformed(CreateLink(st, isWebUri, url, code, gen).next, isWebUri)
  {
    var r := CreateLink(st, isWebUri, url, code, gen);
    if r.resp.Created? {
      var n := r.next;
      forall c | c in n.links ensures LinkWellformed(c, n.links[c], n.clock, isWebUri) {
        if c != r.resp.code {
          assert LinkWellformed(c, st.links[c], st.clock, isWebUri);
        }
      }
    }
  }

  lemma DeletePreservesWellformed(st: Store, isWebUri: string -> bool, code: string)
    requires Wellformed(st, isWebUri)
    ensures Wellformed(DeleteLink(st, code).next, isWebUri)
  {
  }

  lemma VisitPreservesWellformed(st: Store, isWebUri: string -> bool, code: string)
    requires Wellformed(st, isWebUri)
    ensures Wellformed(VisitLink(st, code).next, isWebUri)
  {
    var r := VisitLink(st, code);
    if r.resp.Redirect? {
      var n := r.next;
      forall c | c in n.links ensures LinkWellformed(c, n.links[c], n.clock, isWebUri) {
        assert LinkWellformed(c, st.links[c], st.clock, isWebUri);
      }
    }
  }

  /** Every handler keeps the table invariant. */
  lemma ApplyPreservesWellformed(st: Store, isWebUri: string -> bool, req: Request)
    requires Wellformed(st, isWebUri)
    ensures Wellformed(Apply(st, isWebUri, req), isWebUri)
  {
    match req
    case CreateReq(url, code, gen) => CreatePreservesWellformed(st, isWebUri, url, code, gen);
    case ListReq =>
    case GetReq(_) =>
    case DeleteReq(code) => DeletePreservesWellformed(st, isWebUri, code);
    case VisitReq(code) => VisitPreservesWellformed(st, isWebUri, code);
  }

  /** So does every sequence of requests, from any store that already keeps it. */
  lemma {:induction false} RunPreservesWellformed(st: Store, isWebUri: string -> bool, reqs: seq<Request>)
    requires Wellformed(st, isWebUri)
    ensures Wellformed(Run(st, isWebUri, reqs), isWebUri)
    decreases |reqs|
  {
    if reqs != [] {
      ApplyPreservesWellformed(st, isWebUri, reqs[0]);
      RunPreservesWellformed(Apply(st, isWebUri, reqs[0]), isWebUri, reqs[1..]);
    }
  }

  /** A redirect that counts a click on `code`. */
  predicate CountsClick(req: Request, code: string) {
    req.VisitReq? && req.code == code && code !in ReservedNames && IsValidCode(code)
  }

  /**
   * What one request may do to one record: the URL and created_at of a record
   * that survives never change, its click count grows by exactly one on a
   * redirect to it and stays put otherwise, only a delete of that code removes
   * it, and only a create adds a record, always with no clicks.
   */
  lemma ApplyFrame(st: Store, isWebUri: string -> bool, req: Request, c: string)
    ensures var n := Apply(st, isWebUri, req);
            c in st.links && c in n.links ==>
              && n.links[c].url == st.links[c].url
              && n.links[c].createdAt == st.links[c].createdAt
              && n.links[c].clicks == st.links[c].clicks + (if CountsClick(req, c) then 1 else 0)
    ensures c in st.links && !(req.DeleteReq? && req.code == c) ==> c in Apply(st, isWebUri, req).links
    ensures var n := Apply(st, isWebUri, req);
            c !in st.links && c in n.links ==> req.CreateReq? && n.links[c].clicks == 0
  {
  }

  /** The number of requests that count a click on `code`. */
  function CountClicks(reqs: seq<Request>, code: string): nat
    decreases |reqs|
  {
    if reqs == [] then 0
    else (if CountsClick(reqs[0], code) then 1 else 0) + CountClicks(reqs[1..], code)
  }

  predicate NoDeleteOf(reqs: seq<Request>, code: string) {
    forall i :: 0 <= i < |reqs| ==> !(reqs[i].DeleteReq? && reqs[i].code == code)
  }

  /**
   * Redirects are serialised, so none is lost: over any sequence of requests
   * that does not delete `code`, its record stays, keeps its URL, and its
   * click count grows by exactly the number of redirects to it.
   */
  lemma {:induction false} RunCountsEveryClick(st: Store, isWebUri: string -> bool, reqs: seq<Request>, code: string)
    requires code in st.links && NoDeleteOf(reqs, code)
    ensures var fin := Run(st, isWebUri, reqs);
            && code in fin.links
            && fin.links[code].url == st.links[code].url
            && fin.links[code].createdAt == st.links[code].createdAt
            && fin.links[code].clicks == st.links[code].clicks + CountClicks(reqs, code)
    decreases |reqs|
  {
    if reqs != [] {
      ApplyFrame(st, isWebUri, reqs[0], code);
      assert NoDeleteOf(reqs[1..], code) by {
        forall i | 0 <= i < |reqs[1..]| ensures !(reqs[1..][i].DeleteReq? && reqs[1..][i].code == code) {
          assert reqs[1..][i] == reqs[i + 1];
        }
      }
      RunCountsEveryClick(Apply(st, isWebUri, reqs[0]), isWebUri, reqs[1..], code);
    }
  }

  /** n redirects in a row to an unreserved stored code. */
  function Visits(code: string, n: nat): (reqs: seq<Request>)
    ensures |reqs| == n && forall i :: 0 <= i < n ==> reqs[i] == VisitReq(code)
  {
    if n == 0 then [] else [VisitReq(code)] + Visits(code, n - 1)
  }

  lemma {:induction false} VisitsCountAll(code: string, n: nat)
    requires code !in ReservedNames && IsValidCode(code)
    ensures CountClicks(Visits(code, n), code) == n && NoDeleteOf(Visits(code, n), code)
  {
    if n > 0 {
      assert Visits(code, n)[1..] == Visits(code, n - 1);
      VisitsCountAll(code, n - 1);
    }
  }

  /** N redirects to a stored code raise its click count by exactly N. */
  lemma VisitNTimes(st: Store, isWebUri: string -> bool, code: string, n: nat)
    requires code in st.links && code !in ReservedNames && IsValidCode(code)
    ensures var fin := Run(st, isWebUri, Visits(code, n));
            code in fin.links && fin.links[code].clicks == st.links[code].clicks + n
            && fin.links[code].url == st.links[code].url
  {
    VisitsCountAll(code, n);
    RunCountsEveryClick(st, isWebUri, Visits(code, n), code);
  }

  /** Deleting twice: the second delete finds nothing and changes nothing. */
  lemma DeleteTwice(st: Store, code: string)
    ensures var first := DeleteLink(st, code);
            var second := DeleteLink(first.next, code);
            && second.next == first.next
            && second.resp != Deleted
            && (first.resp == Deleted ==> second.resp == NotFound)
  {
  }

  /** A created link reads back with the submitted URL, no clicks and no last click. */
  lemma CreateThenGet(st: Store, isWebUri: string -> bool, url: Option<string>,
                      code: Option<string>, gen: nat -> string)
    ensures var r := CreateLink(st, isWebUri, url, code, gen);
            r.resp.Created? ==>
              GetLink(r.next, r.resp.code) ==
                Fetched(LinkRow(r.resp.code, url.value, 0, None, st.clock))
  {
  }

  /**
   * Create, then visit twice: each visit redirects to the submitted URL and the
   * click count reads 1, then 2, unless the code is a reserved name.
   */
  lemma CreateThenVisitTwice(st: Store, isWebUri: string -> bool, url: Option<string>,
                             code: Option<string>, gen: nat -> string)
    ensures var r := CreateLink(st, isWebUri, url, code, gen);
            r.resp.Created? && r.resp.code !in ReservedNames ==>
              var v1 := VisitLink(r.next, r.resp.code);
              var v2 := VisitLink(v1.next, r.resp.code);
              && v1.resp == Redirect(url.value) && v2.resp == Redirect(url.value)
              && v1.next.links[r.resp.code].clicks == 1
              && v2.next.links[r.resp.code].clicks == 2
  {
  }

  /**
   * "healthz" passes the code format, so create accepts it as a custom code,
   * but the redirect route never looks it up.
   */
  lemma ReservedCodeIsCreatableButNeverRedirected(st: Store, isWebUri: string -> bool, url: string,
                                                  gen: nat -> string)
    requires url != "" && isWebUri(url) && "healthz" !in st.links
    ensures var r := CreateLink(st, isWebUri, Some(url), Some("healthz"), gen);
            r.resp == Created("healthz", url, 0) &&
            VisitLink(r.next, "healthz") == Step(PassThrough, r.next)
  {
    CodeFormatExamples();
  }
}
