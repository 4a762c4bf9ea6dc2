/**
 * GET /api/links: every record of the table, newest created_at first.
 */
module LinkListing {
  import opened LinkModel

  /** `code` holds the largest created_at in `m`. */
  predicate IsNewest(m: map<string, Link>, code: string) {
    code in m && forall c :: c in m ==> m[c].createdAt <= m[code].createdAt
  }

  /** Every non-empty table has a newest record. */
  lemma {:induction false} NewestExists(m: map<string, Link>)
    requires |m| > 0
    ensures exists code :: IsNewest(m, code)
    decreases |m|
  {
    var a :| a in m;
    var rest := m - {a};
    assert |rest| == |m| - 1 by {
      assert rest.Keys == m.Keys - {a};
    }
    assert forall c :: c in m ==> c == a || c in rest;
    if |rest| == 0 {
      assert rest.Keys == {};
      assert IsNewest(m, a);
    } else {
      NewestExists(rest);
      var b :| IsNewest(rest, b);
      if m[a].createdAt <= m[b].createdAt {
        assert IsNewest(m, b);
      } else {
        assert IsNewest(m, a);
      }
    }
  }

  function Codes(rows: seq<LinkRow>): (cs: seq<string>)
    ensures |cs| == |rows|
    ensures forall i :: 0 <= i < |rows| ==> cs[i] == rows[i].code
  {
    if rows == [] then [] else [rows[0].code] + Codes(rows[1..])
  }

  /** The rows of the table ordered by created_at descending. */
  function ListRows(m: map<string, Link>): (rows: seq<LinkRow>)
    requires DistinctStamps(m)
    // every row is a stored record, shown as stored
    ensures forall i :: 0 <= i < |rows| ==> rows[i].code in m && rows[i] == RowOf(rows[i].code, m[rows[i].code])
    // every stored record is listed
    ensures forall c :: c in m ==> c in Codes(rows)
    // newest first; in particular no record is listed twice
    ensures forall i, j :: 0 <= i < j < |rows| ==> rows[i].createdAt > rows[j].createdAt
    ensures |rows| == |m|
    decreases |m|
  {
    if |m| == 0 then []
    else
      NewestExists(m);
      var k :| IsNewest(m, k);
      var rest := m - {k};
      assert |rest| == |m| - 1 by {
        assert rest.Keys == m.Keys - {k};
      }
      [RowOf(k, m[k])] + ListRows(rest)
  }
}
