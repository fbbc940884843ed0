/** Sums over the rows of a table. */
module Sums {

  /** The sum of `f` over the rows of a table. */
  ghost function Sum<Row>(rows: map<string, Row>, f: Row -> real): real
    decreases |rows|
  {
    if rows == map[] then 0.0
    else
      var k :| k in rows;
      f(rows[k]) + Sum(rows - {k}, f)
  }

  /** Any row may be taken first. */
  lemma {:induction false} SumTakes<Row>(rows: map<string, Row>, f: Row -> real, k: string)
    requires k in rows
    ensures Sum(rows, f) == f(rows[k]) + Sum(rows - {k}, f)
    decreases |rows|
  {
    var first :| first in rows && Sum(rows, f) == f(rows[first]) + Sum(rows - {first}, f);
    if first != k {
      SumTakes(rows - {first}, f, k);
      SumTakes(rows - {k}, f, first);
      assert rows - {first} - {k} == rows - {k} - {first};
    }
  }

  /** Writing one row replaces its share of the sum. */
  lemma SumAfter<Row>(rows: map<string, Row>, f: Row -> real, k: string, row: Row)
    ensures Sum(rows[k := row], f) == Sum(rows, f) + f(row) - if k in rows then f(rows[k]) else 0.0
  {
    SumTakes(rows[k := row], f, k);
    assert rows[k := row] - {k} == rows - {k};
    if k in rows {
      SumTakes(rows, f, k);
    } else {
      assert rows - {k} == rows;
    }
  }

  lemma {:induction false} SumSame<Row>(a: map<string, Row>, b: map<string, Row>, f: Row -> real)
    requires a.Keys == b.Keys && forall k :: k in a ==> f(a[k]) == f(b[k])
    ensures Sum(a, f) == Sum(b, f)
    decreases |a|
  {
    if a == map[] {
      assert b == map[];
    } else {
      var k :| k in a;
      SumTakes(a, f, k);
      SumTakes(b, f, k);
      SumSame(a - {k}, b - {k}, f);
    }
  }

  lemma {:induction false} SumLess<Row>(a: map<string, Row>, b: map<string, Row>, f: Row -> real)
    requires a.Keys == b.Keys && forall k :: k in a ==> f(a[k]) <= f(b[k])
    ensures Sum(a, f) <= Sum(b, f)
    decreases |a|
  {
    if a == map[] {
      assert b == map[];
    } else {
      var k :| k in a;
      SumTakes(a, f, k);
      SumTakes(b, f, k);
      SumLess(a - {k}, b - {k}, f);
    }
  }
}
