/** Lists of records with an id (session-registry.ts): look-up, duplicates, and the list
    operations of the recovery. */
module Rows {
  import opened Text

  datatype Row<T> = Row(id: Str, v: T)

  function Front<T>(s: seq<T>): seq<T>
    requires s != []
  {
    s[..|s| - 1]
  }

  function Last<T>(s: seq<T>): T
    requires s != []
  {
    s[|s| - 1]
  }

  lemma FrontLast<T>(s: seq<T>)
    requires s != []
    ensures s == Front(s) + [Last(s)]
    ensures forall x :: x in s <==> x in Front(s) || x == Last(s)
  {
    assert s == Front(s) + [Last(s)];
  }

  function Ids<T>(rows: seq<Row<T>>): (ids: set<Str>)
    ensures forall r | r in rows :: r.id in ids
  {
    if rows == [] then {}
    else (
      FrontLast(rows);
      Ids(Front(rows)) + {Last(rows).id}
    )
  }

  /** A map filled from the list: a later row replaces an earlier one with the same id. */
  function Find<T(==)>(rows: seq<Row<T>>, id: Str): (r: Option<T>)
    ensures r.Some? <==> id in Ids(rows)
    ensures r.Some? ==> Row(id, r.value) in rows
  {
    if rows == [] then None
    else (
      FrontLast(rows);
      if Last(rows).id == id then Some(Last(rows).v) else Find(Front(rows), id)
    )
  }

  predicate Unique<T(==)>(rows: seq<Row<T>>) {
    rows == [] || (Unique(Front(rows)) && Last(rows).id !in Ids(Front(rows)))
  }

  lemma {:induction false} FindUnique<T>(rows: seq<Row<T>>, r: Row<T>)
    requires Unique(rows) && r in rows
    ensures Find(rows, r.id) == Some(r.v)
  {
    FrontLast(rows);
    if r != Last(rows) {
      FindUnique(Front(rows), r);
    }
  }

  /** The first row of every id, in order. */
  function Dedup<T(==)>(rows: seq<Row<T>>): (r: seq<Row<T>>)
    ensures |r| <= |rows| && Unique(r)
    ensures forall x | x in r :: x in rows
    ensures Ids(r) == Ids(rows)
  {
    if rows == [] then []
    else (
      FrontLast(rows);
      var kept := Dedup(Front(rows));
      if Last(rows).id in Ids(kept) then kept
      else (
        assert Front(kept + [Last(rows)]) == kept;
        kept + [Last(rows)]
      )
    )
  }

  lemma {:induction false} DedupUnique<T>(rows: seq<Row<T>>)
    requires Unique(rows)
    ensures Dedup(rows) == rows
  {
    if rows != [] {
      FrontLast(rows);
      DedupUnique(Front(rows));
    }
  }

  /** The first row wins. */
  lemma {:induction false} DedupKeepsFirst<T>(rows: seq<Row<T>>, i: nat)
    requires i < |rows| && forall j | 0 <= j < i :: rows[j].id != rows[i].id
    ensures rows[i] in Dedup(rows)
  {
    FrontLast(rows);
    if i < |rows| - 1 {
      DedupKeepsFirst(Front(rows), i);
    } else {
      assert Find(Front(rows), rows[i].id).None?;
    }
  }

  /** The loop over a Map that ignores a key it already has. */
  method DeduplicateBy<T(==)>(rows: seq<Row<T>>) returns (result: seq<Row<T>>)
    ensures result == Dedup(rows)
  {
    result := [];
    var seen: set<Str> := {};
    var i := 0;
    while i < |rows|
      invariant 0 <= i <= |rows|
      invariant result == Dedup(rows[..i])
      invariant seen == Ids(result)
    {
      assert Front(rows[..i + 1]) == rows[..i] && Last(rows[..i + 1]) == rows[i];
      if rows[i].id !in seen {
        ghost var before := result;
        result := result + [rows[i]];
        FrontLast(result);
        assert Front(result) == before;
        seen := seen + {rows[i].id};
      }
      i := i + 1;
    }
    assert rows[..i] == rows;
  }

  method AssertUnique<T(==)>(rows: seq<Row<T>>) returns (issues: nat)
    ensures issues == 0 <==> Unique(rows)
  {
    issues := 0;
    var seen: set<Str> := {};
    var i := 0;
    while i < |rows|
      invariant 0 <= i <= |rows|
      invariant issues == 0 <==> Unique(rows[..i])
      invariant seen == Ids(rows[..i])
    {
      assert Front(rows[..i + 1]) == rows[..i] && Last(rows[..i + 1]) == rows[i];
      FrontLast(rows[..i + 1]);
      if rows[i].id in seen {
        issues := issues + 1;
      }
      seen := seen + {rows[i].id};
      i := i + 1;
    }
    assert rows[..i] == rows;
  }
}
