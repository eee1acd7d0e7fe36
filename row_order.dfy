/** The `ORDER BY` of the user listing: a lexicographic order on rows over a
    list of (column, direction) keys, and the rows sorted by it. */
module RowOrder {
  import opened UserData
  import Text

  datatype Direction = Asc | Desc

  /** One `orderBy($column, $direction)` clause. */
  datatype OrderKey = OrderKey(column: string, direction: Direction)

  /** Column values in ascending order: NULL first, strings compared by code
      point. */
  predicate CellLess(a: Cell, b: Cell) {
    match a
    case Null => b.Text?
    case Text(x) => b.Text? && Text.StrLess(x, b.s)
  }

  lemma CellLessIrreflexive(a: Cell)
    ensures !CellLess(a, a)
  {
    if a.Text? { Text.StrLessIrreflexive(a.s); }
  }

  lemma CellLessTransitive(a: Cell, b: Cell, c: Cell)
    requires CellLess(a, b) && CellLess(b, c)
    ensures CellLess(a, c)
  {
    if a.Text? { Text.StrLessTransitive(a.s, b.s, c.s); }
  }

  lemma CellLessTotal(a: Cell, b: Cell)
    requires a != b
    ensures CellLess(a, b) || CellLess(b, a)
  {
    if a.Text? && b.Text? { Text.StrLessTotal(a.s, b.s); }
  }

  /** A row's values in the order columns, most significant first. */
  function KeyTuple(row: Row, keys: seq<OrderKey>): (t: seq<Cell>)
    ensures |t| == |keys|
    ensures forall i :: 0 <= i < |keys| ==> t[i] == Get(row, keys[i].column)
  {
    seq(|keys|, i requires 0 <= i < |keys| => Get(row, keys[i].column))
  }

  /** `a` sorts strictly before `b`: the first position where they differ
      decides, ascending or descending as that key says. */
  predicate TupleLess(a: seq<Cell>, b: seq<Cell>, keys: seq<OrderKey>)
    decreases |keys|
  {
    if |keys| == 0 || |a| == 0 || |b| == 0 then false
    else if a[0] == b[0] then TupleLess(a[1..], b[1..], keys[1..])
    else if keys[0].direction == Asc then CellLess(a[0], b[0])
    else CellLess(b[0], a[0])
  }

  lemma {:induction false} TupleLessIrreflexive(a: seq<Cell>, keys: seq<OrderKey>)
    ensures !TupleLess(a, a, keys)
    decreases |keys|
  {
    if |keys| > 0 && |a| > 0 {
      TupleLessIrreflexive(a[1..], keys[1..]);
    }
  }

  lemma {:induction false} TupleLessTransitive(a: seq<Cell>, b: seq<Cell>, c: seq<Cell>, keys: seq<OrderKey>)
    requires TupleLess(a, b, keys) && TupleLess(b, c, keys)
    ensures TupleLess(a, c, keys)
    decreases |keys|
  {
    if a[0] == b[0] && b[0] == c[0] {
      TupleLessTransitive(a[1..], b[1..], c[1..], keys[1..]);
    } else if a[0] == b[0] {
    } else if b[0] == c[0] {
    } else if keys[0].direction == Asc {
      CellLessTransitive(a[0], b[0], c[0]);
      CellLessIrreflexive(a[0]);
    } else {
      CellLessTransitive(c[0], b[0], a[0]);
      CellLessIrreflexive(a[0]);
    }
  }

  lemma {:induction false} TupleLessTotal(a: seq<Cell>, b: seq<Cell>, keys: seq<OrderKey>)
    requires |a| == |b| == |keys| && a != b
    ensures TupleLess(a, b, keys) || TupleLess(b, a, keys)
    decreases |keys|
  {
    if a[0] == b[0] {
      assert a == [a[0]] + a[1..] && b == [b[0]] + b[1..];
      TupleLessTotal(a[1..], b[1..], keys[1..]);
    } else {
      CellLessTotal(a[0], b[0]);
    }
  }

  /** Row `r` comes strictly before row `s` under the keys. */
  predicate Precedes(r: Row, s: Row, keys: seq<OrderKey>) {
    TupleLess(KeyTuple(r, keys), KeyTuple(s, keys), keys)
  }

  lemma PrecedesIrreflexive(r: Row, keys: seq<OrderKey>)
    ensures !Precedes(r, r, keys)
  {
    TupleLessIrreflexive(KeyTuple(r, keys), keys);
  }

  lemma PrecedesTransitive(r: Row, s: Row, t: Row, keys: seq<OrderKey>)
    requires Precedes(r, s, keys) && Precedes(s, t, keys)
    ensures Precedes(r, t, keys)
  {
    TupleLessTransitive(KeyTuple(r, keys), KeyTuple(s, keys), KeyTuple(t, keys), keys);
  }

  lemma PrecedesAsymmetric(r: Row, s: Row, keys: seq<OrderKey>)
    requires Precedes(r, s, keys)
    ensures !Precedes(s, r, keys)
  {
    if Precedes(s, r, keys) {
      PrecedesTransitive(r, s, r, keys);
      PrecedesIrreflexive(r, keys);
    }
  }

  /** The last key is on `id`, as both branches of the query guarantee. */
  predicate EndsWithId(keys: seq<OrderKey>) {
    |keys| > 0 && keys[|keys| - 1].column == "id"
  }

  predicate UniqueIds(rows: seq<Row>) {
    forall i, j :: 0 <= i < j < |rows| ==> Get(rows[i], "id") != Get(rows[j], "id")
  }

  /** With `id` as the last key, rows with different ids never tie: the
      order is total on them. */
  lemma DistinctIdsOrdered(r: Row, s: Row, keys: seq<OrderKey>)
    requires EndsWithId(keys) && Get(r, "id") != Get(s, "id")
    ensures Precedes(r, s, keys) || Precedes(s, r, keys)
  {
    var n := |keys| - 1;
    assert KeyTuple(r, keys)[n] != KeyTuple(s, keys)[n];
    TupleLessTotal(KeyTuple(r, keys), KeyTuple(s, keys), keys);
  }

  /** Strictly increasing under the keys. */
  predicate Sorted(rows: seq<Row>, keys: seq<OrderKey>) {
    forall i, j :: 0 <= i < j < |rows| ==> Precedes(rows[i], rows[j], keys)
  }

  /** `x` put into place in a sequence sorted by the keys. */
  function Insert(x: Row, s: seq<Row>, keys: seq<OrderKey>): (r: seq<Row>)
    ensures multiset(r) == multiset(s) + multiset{x}
  {
    if |s| == 0 then [x]
    else if Precedes(x, s[0], keys) then [x] + s
    else
      assert s == [s[0]] + s[1..];
      [s[0]] + Insert(x, s[1..], keys)
  }

  /** Inserting a row that ties with none of a sorted sequence keeps it sorted. */
  lemma {:induction false} InsertSorted(x: Row, s: seq<Row>, keys: seq<OrderKey>)
    requires Sorted(s, keys)
    requires forall y :: y in s ==> Precedes(x, y, keys) || Precedes(y, x, keys)
    ensures Sorted(Insert(x, s, keys), keys)
  {
    if |s| == 0 {
    } else if Precedes(x, s[0], keys) {
      var r := [x] + s;
      forall i, j | 0 <= i < j < |r| ensures Precedes(r[i], r[j], keys) {
        if i == 0 && j > 1 { PrecedesTransitive(x, s[0], s[j - 1], keys); }
      }
    } else {
      assert s == [s[0]] + s[1..];
      var rest := Insert(x, s[1..], keys);
      InsertSorted(x, s[1..], keys);
      var r := [s[0]] + rest;
      forall j | 0 < j < |r| ensures Precedes(s[0], r[j], keys) {
        var y := r[j];
        assert y == rest[j - 1];
        assert y in multiset(rest);
        if y != x {
          assert y in multiset(s[1..]);
          var k :| 0 <= k < |s[1..]| && s[1..][k] == y;
          assert y == s[k + 1];
        }
      }
      assert Sorted(r, keys);
    }
  }

  /** The rows in the order the keys give: `ORDER BY` evaluated. */
  function SortRows(rows: seq<Row>, keys: seq<OrderKey>): (r: seq<Row>)
    ensures multiset(r) == multiset(rows)
  {
    if |rows| == 0 then []
    else
      assert rows == [rows[0]] + rows[1..];
      Insert(rows[0], SortRows(rows[1..], keys), keys)
  }

  /** With unique ids and `id` as last key, sorting yields a strictly
      increasing sequence. */
  lemma {:induction false} SortRowsSorted(rows: seq<Row>, keys: seq<OrderKey>)
    requires EndsWithId(keys) && UniqueIds(rows)
    ensures Sorted(SortRows(rows, keys), keys)
  {
    if |rows| > 0 {
      assert rows == [rows[0]] + rows[1..];
      var rest := SortRows(rows[1..], keys);
      SortRowsSorted(rows[1..], keys);
      forall y | y in rest ensures Precedes(rows[0], y, keys) || Precedes(y, rows[0], keys) {
        assert y in multiset(rows[1..]);
        var j :| 0 <= j < |rows[1..]| && rows[1..][j] == y;
        assert y == rows[j + 1];
        DistinctIdsOrdered(rows[0], y, keys);
      }
      InsertSorted(rows[0], rest, keys);
    }
  }

  /** The order is total, so the sorted arrangement of a set of rows is the
      only one: any two sorted sequences of the same rows are equal. */
  lemma {:induction false} SortedUnique(s: seq<Row>, t: seq<Row>, keys: seq<OrderKey>)
    requires Sorted(s, keys) && Sorted(t, keys) && multiset(s) == multiset(t)
    ensures s == t
    decreases |s|
  {
    assert |s| == |multiset(s)| == |multiset(t)| == |t|;
    if |s| > 0 {
      SortedHeadsAgree(s, t, keys);
      assert s == [s[0]] + s[1..] && t == [t[0]] + t[1..];
      assert multiset(s) == multiset{s[0]} + multiset(s[1..]);
      assert multiset(t) == multiset{t[0]} + multiset(t[1..]);
      assert multiset(s[1..]) == multiset(s) - multiset{s[0]};
      assert multiset(t[1..]) == multiset(t) - multiset{t[0]};
      SortedUnique(s[1..], t[1..], keys);
    }
  }

  /** Two sorted sequences of the same rows start with the same row. */
  lemma SortedHeadsAgree(s: seq<Row>, t: seq<Row>, keys: seq<OrderKey>)
    requires Sorted(s, keys) && Sorted(t, keys) && multiset(s) == multiset(t)
    requires |s| > 0 && |t| > 0
    ensures s[0] == t[0]
  {
    if s[0] != t[0] {
      assert s[0] in multiset(t) && t[0] in multiset(s);
      var i :| 0 <= i < |t| && t[i] == s[0];
      var j :| 0 <= j < |s| && s[j] == t[0];
      assert Precedes(t[0], s[0], keys);
      PrecedesAsymmetric(t[0], s[0], keys);
      assert false;
    }
  }
}
