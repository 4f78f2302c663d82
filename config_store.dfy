/** The `admin_config` table and its two operations: reading every row in
    page-then-display-order, and replacing all rows inside one transaction.
    The table's UNIQUE(page_number, component_type) constraint makes a
    replacement that repeats a (page, component) pair fail and roll back. */
module ConfigStore {
  import opened Layout

  /** One row of the table (its autoincrement id is never read and is left out). */
  datatype ConfigRow = ConfigRow(pageNumber: int, componentType: string, displayOrder: int)

  /** The rows the database is seeded with when the table is empty:
      page 2 shows about_me then birthdate, page 3 shows address. */
  const DefaultRows: seq<ConfigRow> :=
    [ConfigRow(2, AboutMe, 0), ConfigRow(2, Birthdate, 1), ConfigRow(3, Address, 0)]

  /** `ORDER BY page_number, display_order`: `a` may come before `b`. */
  predicate KeyLe(a: ConfigRow, b: ConfigRow) {
    a.pageNumber < b.pageNumber ||
    (a.pageNumber == b.pageNumber && a.displayOrder <= b.displayOrder)
  }

  predicate SortedRows(rows: seq<ConfigRow>) {
    forall i, j :: 0 <= i < j < |rows| ==> KeyLe(rows[i], rows[j])
  }

  /** Insert `x` into sorted `s` after every row whose key is not greater. */
  function InsertRow(x: ConfigRow, s: seq<ConfigRow>): seq<ConfigRow> {
    if |s| == 0 then [x]
    else if KeyLe(s[|s| - 1], x) then s + [x]
    else InsertRow(x, s[..|s| - 1]) + [s[|s| - 1]]
  }

  /** The rows in the order the query returns them; rows with equal keys keep table order. */
  function SortRows(rows: seq<ConfigRow>): seq<ConfigRow> {
    if |rows| == 0 then []
    else InsertRow(rows[|rows| - 1], SortRows(rows[..|rows| - 1]))
  }

  lemma {:induction false} InsertRowPermutes(x: ConfigRow, s: seq<ConfigRow>)
    ensures multiset(InsertRow(x, s)) == multiset(s) + multiset{x}
  {
    if |s| > 0 && !KeyLe(s[|s| - 1], x) {
      InsertRowPermutes(x, s[..|s| - 1]);
      assert s == s[..|s| - 1] + [s[|s| - 1]];
    }
  }

  /** Every row of `InsertRow(x, s)` is `x` or a row of `s`. */
  lemma InsertRowMembers(x: ConfigRow, s: seq<ConfigRow>)
    ensures forall y :: y in InsertRow(x, s) <==> y == x || y in s
  {
    InsertRowPermutes(x, s);
    forall y ensures y in InsertRow(x, s) <==> y == x || y in s {
      assert y in InsertRow(x, s) <==> y in multiset(InsertRow(x, s));
    }
  }

  lemma {:induction false} InsertRowKeepsSorted(x: ConfigRow, s: seq<ConfigRow>)
    requires SortedRows(s)
    ensures SortedRows(InsertRow(x, s))
  {
    if |s| > 0 && !KeyLe(s[|s| - 1], x) {
      var front := s[..|s| - 1];
      var last := s[|s| - 1];
      InsertRowKeepsSorted(x, front);
      InsertRowMembers(x, front);
      var t := InsertRow(x, front);
      assert forall y :: y in t ==> KeyLe(y, last) by {
        forall y | y in t ensures KeyLe(y, last) {
          if y != x {
            var i :| 0 <= i < |front| && front[i] == y;
            assert s[i] == y;
          }
        }
      }
      forall i, j | 0 <= i < j < |t + [last]| ensures KeyLe((t + [last])[i], (t + [last])[j]) {
        assert (t + [last])[i] == t[i];
        if j < |t| {
          assert (t + [last])[j] == t[j];
        } else {
          assert t[i] in t;
        }
      }
    } else if |s| > 0 {
      forall i, j | 0 <= i < j < |s + [x]| ensures KeyLe((s + [x])[i], (s + [x])[j]) {
        assert (s + [x])[i] == s[i];
        if j < |s| {
          assert (s + [x])[j] == s[j];
        } else if i < |s| - 1 {
          assert KeyLe(s[i], s[|s| - 1]);
        }
      }
    }
  }

  /** The query returns the table's rows, each as often as stored, in key order. */
  lemma {:induction false} SortRowsIsSortedPermutation(rows: seq<ConfigRow>)
    ensures SortedRows(SortRows(rows))
    ensures multiset(SortRows(rows)) == multiset(rows)
  {
    if |rows| > 0 {
      var front := rows[..|rows| - 1];
      SortRowsIsSortedPermutation(front);
      InsertRowKeepsSorted(rows[|rows| - 1], SortRows(front));
      InsertRowPermutes(rows[|rows| - 1], SortRows(front));
      assert rows == front + [rows[|rows| - 1]];
    }
  }

  /** Rows already in key order come back in the order they are stored. */
  lemma {:induction false} SortRowsOfSorted(rows: seq<ConfigRow>)
    requires SortedRows(rows)
    ensures SortRows(rows) == rows
  {
    if |rows| > 0 {
      var front := rows[..|rows| - 1];
      assert SortedRows(front);
      SortRowsOfSorted(front);
      if |front| > 0 {
        assert KeyLe(front[|front| - 1], rows[|rows| - 1]);
      }
      assert front + [rows[|rows| - 1]] == rows;
    }
  }

  /** The rows written for `configs`: each keeps its page and component, and
      its display order is its position in the whole list. */
  function Stored(configs: seq<ConfigRow>): (r: seq<ConfigRow>)
    ensures |r| == |configs|
    ensures forall i :: 0 <= i < |r| ==>
              r[i].pageNumber == configs[i].pageNumber &&
              r[i].componentType == configs[i].componentType &&
              r[i].displayOrder == i
  {
    seq(|configs|, i requires 0 <= i < |configs| =>
      ConfigRow(configs[i].pageNumber, configs[i].componentType, i))
  }

  /** Some row of `rows` has the same page and component as `x`. */
  predicate Clashes(rows: seq<ConfigRow>, x: ConfigRow) {
    exists j | 0 <= j < |rows| ::
      rows[j].pageNumber == x.pageNumber && rows[j].componentType == x.componentType
  }

  /** No two entries share a page and a component, as the UNIQUE constraint demands. */
  predicate UniqueKeys(configs: seq<ConfigRow>) {
    forall i, j :: 0 <= i < j < |configs| ==>
      !(configs[i].pageNumber == configs[j].pageNumber &&
        configs[i].componentType == configs[j].componentType)
  }

  class ConfigTable {
    var rows: seq<ConfigRow>

    /** Opening the database: an empty table is seeded with the default layout. */
    constructor Open(existing: seq<ConfigRow>)
      ensures rows == if existing == [] then DefaultRows else existing
    {
      if |existing| == 0 {
        rows := DefaultRows;
      } else {
        rows := existing;
      }
    }

    /** `configOps.getConfig`: every row, ordered by page and then display order. */
    function Ordered(): (r: seq<ConfigRow>)
      reads this
      ensures SortedRows(r) && multiset(r) == multiset(rows)
    {
      SortRowsIsSortedPermutation(rows);
      SortRows(rows)
    }

    /** `configOps.updateConfig`: in one transaction, delete every row, then
        insert each entry with its position as display order. An insert that
        repeats a (page, component) pair violates the UNIQUE constraint and
        the transaction rolls back, leaving the table as it was. */
    method Replace(configs: seq<ConfigRow>) returns (ok: bool)
      modifies this
      ensures ok <==> UniqueKeys(configs)
      ensures ok ==> rows == Stored(configs)
      ensures !ok ==> rows == old(rows)
    {
      var inserted: seq<ConfigRow> := [];
      var i := 0;
      while i < |configs|
        invariant 0 <= i <= |configs|
        invariant inserted == Stored(configs[..i])
        invariant UniqueKeys(configs[..i])
      {
        var row := ConfigRow(configs[i].pageNumber, configs[i].componentType, i);
        if Clashes(inserted, row) {
          var j :| 0 <= j < |inserted| && inserted[j].pageNumber == row.pageNumber &&
                   inserted[j].componentType == row.componentType;
          assert configs[j] == configs[..i][j];
          return false;
        }
        assert configs[..i + 1] == configs[..i] + [configs[i]];
        forall a, b | 0 <= a < b < i + 1
          ensures !(configs[a].pageNumber == configs[b].pageNumber &&
                    configs[a].componentType == configs[b].componentType)
        {
          if b == i {
            assert inserted[a].pageNumber == configs[a].pageNumber;
            assert inserted[a].componentType == configs[a].componentType;
          } else {
            assert configs[..i][a] == configs[a] && configs[..i][b] == configs[b];
          }
        }
        inserted := inserted + [row];
        i := i + 1;
      }
      assert configs[..i] == configs;
      rows := inserted;
      return true;
    }
  }
}
