/**
 * The part of a pandas DataFrame that the sampling script relies on: an ordered
 * list of column names and an ordered list of rows, every row holding one cell
 * per column. Only the queries the script makes on its stratification column are
 * modelled: `value_counts` (Count), `nunique` (the size of Classes), `isnull().any()`
 * (AnyNull) and selection by an `isin` mask (DropClasses).
 */
module Frames {
  import opened Wrappers

  /** A row maps each column name to its cell; `None` is a missing value. */
  type Row<V> = map<string, Option<V>>

  datatype Table<V> = Table(columns: seq<string>, rows: seq<Row<V>>)

  function ColumnSet(columns: seq<string>): set<string> {
    set c | c in columns
  }

  /** Every row has exactly one cell for each column of the table. */
  predicate Rectangular<V>(t: Table<V>) {
    forall i :: 0 <= i < |t.rows| ==> t.rows[i].Keys == ColumnSet(t.columns)
  }

  /** A DataFrame: a table whose rows all have the table's columns. */
  type Frame<V> = t: Table<V> | Rectangular(t) witness Table([], [])

  /** The cell of row `r` in column `col` (`None` also when the row has no such column). */
  function Stratum<V>(r: Row<V>, col: string): Option<V> {
    if col in r then r[col] else None
  }

  /** `df[col]`: the column as a series, one cell per row, in row order. */
  function Column<V>(f: Frame<V>, col: string): (s: seq<Option<V>>)
    requires col in f.columns
    ensures |s| == |f.rows|
    ensures forall i :: 0 <= i < |s| ==> col in f.rows[i] && s[i] == f.rows[i][col]
  {
    seq(|f.rows|, i requires 0 <= i < |f.rows| => f.rows[i][col])
  }

  /** `df[col].isnull().any()`. */
  function AnyNull<V>(rows: seq<Row<V>>, col: string): (b: bool)
    ensures b <==> exists i :: 0 <= i < |rows| && Stratum(rows[i], col).None?
  {
    if rows == [] then false
    else if Stratum(rows[0], col).None? then true
    else
      var rest := AnyNull(rows[1..], col);
      assert rest ==> exists i :: 0 <= i < |rows| && Stratum(rows[i], col).None? by {
        if rest {
          var i :| 0 <= i < |rows[1..]| && Stratum(rows[1..][i], col).None?;
          assert Stratum(rows[i + 1], col).None?;
        }
      }
      rest
  }

  /** `df[col].value_counts()[v]`: the number of rows whose cell is `v` (nulls are never counted). */
  function Count<V(==)>(rows: seq<Row<V>>, col: string, v: V): (n: nat)
    ensures n <= |rows|
  {
    if rows == [] then 0
    else (if Stratum(rows[0], col) == Some(v) then 1 else 0) + Count(rows[1..], col, v)
  }

  /** The non-null values present in the column, so that `nunique()` is its size. */
  function Classes<V(==)>(rows: seq<Row<V>>, col: string): (c: set<V>)
    ensures |c| <= |rows|
  {
    if rows == [] then {}
    else
      (match Stratum(rows[0], col)
       case Some(v) => {v}
       case None => {}) + Classes(rows[1..], col)
  }

  /** A class is present exactly when it is counted at least once. */
  lemma {:induction false} ClassesAreCounted<V>(rows: seq<Row<V>>, col: string, v: V)
    ensures v in Classes(rows, col) <==> Count(rows, col, v) > 0
  {
    if rows != [] {
      ClassesAreCounted(rows[1..], col, v);
    }
  }

  /** `~df[col].isin(drop)` for one row: a null cell is never in `drop`. */
  predicate OutsideClasses<V(==)>(r: Row<V>, col: string, drop: set<V>) {
    match Stratum(r, col)
    case None => true
    case Some(v) => v !in drop
  }

  /** `df[~df[col].isin(drop)]`: the rows outside the classes in `drop`, in their order. */
  function DropClasses<V(==)>(rows: seq<Row<V>>, col: string, drop: set<V>): (kept: seq<Row<V>>)
    ensures |kept| <= |rows|
    ensures forall r :: r in kept ==> r in rows && OutsideClasses(r, col, drop)
  {
    if rows == [] then []
    else (if OutsideClasses(rows[0], col, drop) then [rows[0]] else []) + DropClasses(rows[1..], col, drop)
  }

  /** Selecting rows of a frame gives a frame with the same columns. */
  lemma DropClassesRectangular<V>(f: Frame<V>, col: string, drop: set<V>)
    ensures Rectangular(Table(f.columns, DropClasses(f.rows, col, drop)))
  {
    var kept := DropClasses(f.rows, col, drop);
    forall i | 0 <= i < |kept| ensures kept[i].Keys == ColumnSet(f.columns) {
      assert kept[i] in kept;
      var j :| 0 <= j < |f.rows| && f.rows[j] == kept[i];
    }
  }

  /** `idx` lists, in increasing order, the positions in `b` at which the elements of `a` sit. */
  ghost predicate Embeds<T>(idx: seq<nat>, a: seq<T>, b: seq<T>) {
    && |idx| == |a|
    && (forall k :: 0 <= k < |idx| ==> idx[k] < |b| && a[k] == b[idx[k]])
    && (forall k, l :: 0 <= k < l < |idx| ==> idx[k] < idx[l])
  }

  /** `a` is `b` with some elements deleted and the rest left in order. */
  ghost predicate IsSubsequence<T>(a: seq<T>, b: seq<T>) {
    exists idx :: Embeds(idx, a, b)
  }

  /** Dropping classes removes their rows and leaves every other class's count alone. */
  lemma {:induction false} CountDropClasses<V>(rows: seq<Row<V>>, col: string, drop: set<V>, v: V)
    ensures Count(DropClasses(rows, col, drop), col, v) == if v in drop then 0 else Count(rows, col, v)
  {
    if rows != [] {
      CountDropClasses(rows[1..], col, drop, v);
      var tail := DropClasses(rows[1..], col, drop);
      if OutsideClasses(rows[0], col, drop) {
        assert DropClasses(rows, col, drop) == [rows[0]] + tail;
        assert ([rows[0]] + tail)[1..] == tail;
      } else {
        assert DropClasses(rows, col, drop) == tail;
      }
    }
  }

  /** The classes left after dropping are the old classes minus the dropped ones. */
  lemma ClassesDropClasses<V>(rows: seq<Row<V>>, col: string, drop: set<V>)
    ensures Classes(DropClasses(rows, col, drop), col) == Classes(rows, col) - drop
  {
    var kept := DropClasses(rows, col, drop);
    forall v | v in Classes(kept, col) ensures v in Classes(rows, col) - drop {
      CountDropClasses(rows, col, drop, v);
      ClassesAreCounted(rows, col, v);
      ClassesAreCounted(kept, col, v);
    }
    forall v | v in Classes(rows, col) - drop ensures v in Classes(kept, col) {
      CountDropClasses(rows, col, drop, v);
      ClassesAreCounted(rows, col, v);
      ClassesAreCounted(kept, col, v);
    }
  }

  /** Every row outside the dropped classes is kept as often as it occurs; no other row is kept. */
  lemma {:induction false} MultisetDropClasses<V>(rows: seq<Row<V>>, col: string, drop: set<V>)
    ensures forall r :: multiset(DropClasses(rows, col, drop))[r]
                        == if OutsideClasses(r, col, drop) then multiset(rows)[r] else 0
  {
    if rows != [] {
      MultisetDropClasses(rows[1..], col, drop);
      assert rows == [rows[0]] + rows[1..];
      assert multiset(rows) == multiset([rows[0]]) + multiset(rows[1..]);
    }
  }

  /** Moving an embedding one place to the right embeds the same sequence behind one more element. */
  lemma ShiftEmbedding<T>(idx: seq<nat>, a: seq<T>, b: seq<T>, x: T) returns (shifted: seq<nat>)
    requires Embeds(idx, a, b)
    ensures Embeds(shifted, a, [x] + b)
    ensures forall k :: 0 <= k < |shifted| ==> shifted[k] > 0
  {
    shifted := seq(|idx|, k requires 0 <= k < |idx| => idx[k] + 1);
    forall k | 0 <= k < |shifted| ensures shifted[k] < |[x] + b| && a[k] == ([x] + b)[shifted[k]] {
      assert ([x] + b)[idx[k] + 1] == b[idx[k]];
    }
  }

  /** An embedding that avoids position 0 extends to one that also maps a leading element there. */
  lemma ConsEmbedding<T>(idx: seq<nat>, a: seq<T>, b: seq<T>)
    requires |b| > 0
    requires Embeds(idx, a, b)
    requires forall k :: 0 <= k < |idx| ==> idx[k] > 0
    ensures Embeds([0] + idx, [b[0]] + a, b)
  {
    var idx', a' := [0] + idx, [b[0]] + a;
    forall k | 0 < k < |idx'| ensures idx'[k] < |b| && a'[k] == b[idx'[k]] {
      assert idx'[k] == idx[k - 1] && a'[k] == a[k - 1];
    }
  }

  /** The kept rows sit at increasing positions of the input. */
  lemma {:induction false} DropClassesEmbedding<V>(rows: seq<Row<V>>, col: string, drop: set<V>)
    returns (idx: seq<nat>)
    ensures Embeds(idx, DropClasses(rows, col, drop), rows)
  {
    if rows == [] {
      idx := [];
    } else {
      var rest := DropClassesEmbedding(rows[1..], col, drop);
      var tail := DropClasses(rows[1..], col, drop);
      assert rows == [rows[0]] + rows[1..];
      var shifted := ShiftEmbedding(rest, tail, rows[1..], rows[0]);
      if OutsideClasses(rows[0], col, drop) {
        assert DropClasses(rows, col, drop) == [rows[0]] + tail;
        ConsEmbedding(shifted, tail, rows);
        idx := [0] + shifted;
      } else {
        assert DropClasses(rows, col, drop) == tail;
        idx := shifted;
      }
    }
  }

  lemma DropClassesIsSubsequence<V>(rows: seq<Row<V>>, col: string, drop: set<V>)
    ensures IsSubsequence(DropClasses(rows, col, drop), rows)
  {
    var idx := DropClassesEmbedding(rows, col, drop);
  }

  /** When no row belongs to a dropped class the selection returns its input. */
  lemma {:induction false} DropClassesNothingToDrop<V>(rows: seq<Row<V>>, col: string, drop: set<V>)
    requires forall r :: r in rows ==> OutsideClasses(r, col, drop)
    ensures DropClasses(rows, col, drop) == rows
  {
    if rows != [] {
      DropClassesNothingToDrop(rows[1..], col, drop);
      assert rows == [rows[0]] + rows[1..];
    }
  }

  /** A subset has at most as many elements as its superset. */
  lemma {:induction false} SubsetCardinality<T>(a: set<T>, b: set<T>)
    requires a <= b
    ensures |a| <= |b|
  {
    if a != {} {
      var x :| x in a;
      SubsetCardinality(a - {x}, b - {x});
    }
  }
}
