/** The `where(or(...ids.map(id => eq(table.id, id))))` lookups the procedures use to fetch the
    rows whose key is among a list of ids. */
module Query {
  import opened Wrappers

  /** The rows, in table order, whose key is one of `ids`. */
  function SelectWhereKeyIn<R(!new)>(rows: seq<R>, key: R -> string, ids: seq<string>): (r: seq<R>)
    ensures |r| <= |rows|
    ensures forall x :: x in r <==> x in rows && key(x) in ids
    ensures |ids| == 0 ==> r == []
  {
    if |rows| == 0 then []
    else (if key(rows[0]) in ids then [rows[0]] else []) + SelectWhereKeyIn(rows[1..], key, ids)
  }

  /** The lookup as the source writes it: `or()` of no conditions is no condition at all, and a
      query without a condition returns every row. */
  function SelectWhereKeyInAsWritten<R(!new)>(rows: seq<R>, key: R -> string, ids: seq<string>): (r: seq<R>)
    ensures |ids| > 0 ==> forall x :: x in r <==> x in rows && key(x) in ids
    ensures |ids| == 0 ==> r == rows
  {
    if |ids| == 0 then rows else SelectWhereKeyIn(rows, key, ids)
  }

  /** The lookup a procedure runs in the given variant: the two agree on every non-empty list
      of ids, and only the written one returns the whole table for an empty list. */
  function Select<R(!new)>(v: Variant, rows: seq<R>, key: R -> string, ids: seq<string>): (r: seq<R>)
    ensures v.Corrected? || |ids| > 0 ==> forall x :: x in r <==> x in rows && key(x) in ids
    ensures v.AsWritten? && |ids| == 0 ==> r == rows
    ensures v.Corrected? && |ids| == 0 ==> r == []
  {
    if v.AsWritten? then SelectWhereKeyInAsWritten(rows, key, ids) else SelectWhereKeyIn(rows, key, ids)
  }

  /** The selection keeps table order: selecting from two halves and joining is selecting from
      the whole. */
  lemma {:induction false} SelectDistributes<R(!new)>(a: seq<R>, b: seq<R>, key: R -> string, ids: seq<string>)
    ensures SelectWhereKeyIn(a + b, key, ids) == SelectWhereKeyIn(a, key, ids) + SelectWhereKeyIn(b, key, ids)
  {
    if |a| == 0 {
      assert a + b == b;
    } else {
      assert (a + b)[1..] == a[1..] + b;
      SelectDistributes(a[1..], b, key, ids);
    }
  }
}
