/** Tables as the processor sees them once pandas has parsed a file: named
    columns, rows of cells, and the few DataFrame operations it uses (column
    lookup, `df.loc[:, mask]`, `duplicated`/`drop_duplicates`, `pd.concat`). */
module Tables {

  /** A parsed cell: empty (NaN), an integer, or text. */
  datatype Cell = Missing | Int(value: int) | Text(text: string)

  type Row = seq<Cell>

  /** The value of a DataFrame: its column labels and its rows, in file order. */
  datatype Table = Table(columns: seq<string>, rows: seq<Row>)

  /** A DataFrame object. The validator renames its columns and drops its
      duplicate rows in place, the transformer adds a column and relabels it,
      so callers holding the same object see those changes. */
  class Frame {
    var columns: seq<string>
    var rows: seq<seq<Cell>>

    constructor (t: Table)
      ensures columns == t.columns && rows == t.rows
    {
      columns := t.columns;
      rows := t.rows;
    }

    function Value(): Table
      reads this
    {
      Table(columns, rows)
    }
  }

  /** Every row has one cell per column. */
  predicate Rectangular(t: Table)
  {
    forall r :: r in t.rows ==> |r| == |t.columns|
  }

  predicate Distinct<T(==)>(s: seq<T>)
  {
    forall i, j :: 0 <= i < j < |s| ==> s[i] != s[j]
  }

  function ColumnSet(cols: seq<string>): set<string>
  {
    set c | c in cols
  }

  /** The first position of `x` in `s`. */
  function IndexOf<T(==)>(s: seq<T>, x: T): (k: nat)
    requires x in s
    ensures k < |s| && s[k] == x
    ensures forall j :: 0 <= j < k ==> s[j] != x
  {
    if s[0] == x then 0 else 1 + IndexOf(s[1..], x)
  }

  lemma IndexOfDistinct<T>(s: seq<T>, k: nat)
    requires Distinct(s) && k < |s|
    ensures IndexOf(s, s[k]) == k
  {
  }

  /** `df[name]`: the cells of one column, in row order. */
  function Column(t: Table, name: string): (col: seq<Cell>)
    requires Rectangular(t) && name in t.columns
    ensures |col| == |t.rows|
  {
    var j := IndexOf(t.columns, name);
    seq(|t.rows|, i requires 0 <= i < |t.rows| => t.rows[i][j])
  }

  /** Positions of the columns whose label is in `keep`, in increasing order. */
  function Kept(cols: seq<string>, keep: set<string>): (idx: seq<nat>)
    ensures forall k :: 0 <= k < |idx| ==> idx[k] < |cols| && cols[idx[k]] in keep
    ensures forall i :: 0 <= i < |cols| && cols[i] in keep ==> i in idx
    ensures forall k1, k2 :: 0 <= k1 < k2 < |idx| ==> idx[k1] < idx[k2]
  {
    if cols == [] then []
    else Kept(cols[..|cols| - 1], keep) + (if cols[|cols| - 1] in keep then [|cols| - 1] else [])
  }

  function Pick<T>(s: seq<T>, idx: seq<nat>): (r: seq<T>)
    requires forall k :: 0 <= k < |idx| ==> idx[k] < |s|
    ensures |r| == |idx|
  {
    seq(|idx|, k requires 0 <= k < |idx| => s[idx[k]])
  }

  /** The labels at the kept positions are exactly the labels in `keep`,
      and stay distinct when they were. */
  lemma PickKept(cols: seq<string>, keep: set<string>)
    ensures var q := Pick(cols, Kept(cols, keep));
      && ColumnSet(q) == ColumnSet(cols) * keep
      && (Distinct(cols) ==> Distinct(q))
  {
    var idx := Kept(cols, keep);
    var q := Pick(cols, idx);
    forall c | c in ColumnSet(cols) * keep ensures c in ColumnSet(q) {
      var i := IndexOf(cols, c);
      var k :| 0 <= k < |idx| && idx[k] == i;
      assert q[k] == c;
    }
  }

  /** `df.loc[:, df.columns.isin(keep)]`: a new table holding only the columns
      labelled in `keep`, in their original order, with every row. */
  function Project(t: Table, keep: set<string>): (p: Table)
    requires Rectangular(t)
    ensures Rectangular(p) && |p.rows| == |t.rows|
    ensures ColumnSet(p.columns) == ColumnSet(t.columns) * keep
    ensures Distinct(t.columns) ==> Distinct(p.columns)
  {
    var idx := Kept(t.columns, keep);
    PickKept(t.columns, keep);
    Table(Pick(t.columns, idx), seq(|t.rows|, i requires 0 <= i < |t.rows| => Pick(t.rows[i], idx)))
  }

  /** A kept column reads the same in the projection as in the original. */
  lemma ProjectColumn(t: Table, keep: set<string>, c: string)
    requires Rectangular(t) && c in keep && c in t.columns
    ensures c in Project(t, keep).columns
    ensures Column(Project(t, keep), c) == Column(t, c)
  {
    var idx := Kept(t.columns, keep);
    var p := Project(t, keep);
    var m := IndexOf(t.columns, c);
    var k :| 0 <= k < |idx| && idx[k] == m;
    assert p.columns[k] == c;
    forall j | 0 <= j < k ensures p.columns[j] != c {
      assert idx[j] < m;
    }
    assert IndexOf(p.columns, c) == k;
  }

  /** How many rows `df.duplicated()` flags: rows equal to an earlier row. */
  function CountDuplicates(s: seq<Row>): nat
  {
    if s == [] then 0
    else CountDuplicates(s[..|s| - 1]) + (if s[|s| - 1] in s[..|s| - 1] then 1 else 0)
  }

  /** `drop_duplicates()`: keeps the first occurrence of every row. */
  function Dedup(s: seq<Row>): (d: seq<Row>)
    ensures forall x :: x in d <==> x in s
    ensures Distinct(d)
    ensures |d| <= |s|
  {
    if s == [] then []
    else
      var init := Dedup(s[..|s| - 1]);
      var last := s[|s| - 1];
      assert forall x :: x in s <==> x in s[..|s| - 1] || x == last by {
        assert s == s[..|s| - 1] + [last];
      }
      if last in s[..|s| - 1] then init else init + [last]
  }

  /** Dropping removes exactly the rows `duplicated()` counts. */
  lemma {:induction false} DedupRemovesCounted(s: seq<Row>)
    ensures |Dedup(s)| + CountDuplicates(s) == |s|
  {
    if s != [] {
      DedupRemovesCounted(s[..|s| - 1]);
    }
  }

  /** `duplicated().any()` holds exactly when some row repeats an earlier one. */
  lemma {:induction false} CountDuplicatesZero(s: seq<Row>)
    ensures CountDuplicates(s) == 0 <==> Distinct(s)
  {
    if s != [] {
      var init, last := s[..|s| - 1], s[|s| - 1];
      CountDuplicatesZero(init);
      if Distinct(s) {
        assert Distinct(init);
        assert last !in init;
      }
      if Distinct(init) && last !in init {
        forall i, j | 0 <= i < j < |s| ensures s[i] != s[j] {
          if j < |s| - 1 {
            assert s[i] == init[i] && s[j] == init[j];
          } else {
            assert s[i] == init[i];
          }
        }
      }
    }
  }

  /** A table without duplicates is left as it is. */
  lemma {:induction false} DedupDistinct(s: seq<Row>)
    requires Distinct(s)
    ensures Dedup(s) == s
  {
    if s != [] {
      var init := s[..|s| - 1];
      assert Distinct(init);
      DedupDistinct(init);
      assert s[|s| - 1] !in init;
      assert s == init + [s[|s| - 1]];
    }
  }

  /** The survivors keep the order of their first occurrences. */
  lemma {:induction false} DedupKeepsFirstOrder(s: seq<Row>)
    ensures forall k1, k2 :: 0 <= k1 < k2 < |Dedup(s)| ==>
      IndexOf(s, Dedup(s)[k1]) < IndexOf(s, Dedup(s)[k2])
  {
    if s != [] {
      var init, last := s[..|s| - 1], s[|s| - 1];
      DedupKeepsFirstOrder(init);
      var d, d0 := Dedup(s), Dedup(init);
      forall x | x in init ensures IndexOf(s, x) == IndexOf(init, x) {
        PrefixIndexOf(init, [last], x);
        assert s == init + [last];
      }
      forall k1, k2 | 0 <= k1 < k2 < |d| ensures IndexOf(s, d[k1]) < IndexOf(s, d[k2]) {
        assert d[k1] in d0;
        if k2 < |d0| {
          assert d[k1] == d0[k1] && d[k2] == d0[k2];
        } else {
          assert d[k2] == last && last !in init;
          assert IndexOf(s, last) == |s| - 1;
        }
      }
    }
  }

  lemma PrefixIndexOf<T>(a: seq<T>, b: seq<T>, x: T)
    requires x in a
    ensures IndexOf(a + b, x) == IndexOf(a, x)
  {
    var k := IndexOf(a, x);
    assert (a + b)[k] == x;
    forall j | 0 <= j < k ensures (a + b)[j] != x {
      assert (a + b)[j] == a[j];
    }
  }

  /** Column labels of `more` that `cols` lacks, appended in their order: how
      `pd.concat` unions the labels of differently shaped frames. */
  function Union(cols: seq<string>, more: seq<string>): (u: seq<string>)
    ensures ColumnSet(u) == ColumnSet(cols) + ColumnSet(more)
    ensures |cols| <= |u| && u[..|cols|] == cols
    ensures Distinct(cols) ==> Distinct(u)
  {
    if more == [] then cols
    else
      var u0 := Union(cols, more[..|more| - 1]);
      var c := more[|more| - 1];
      assert ColumnSet(more) == ColumnSet(more[..|more| - 1]) + {c} by {
        assert more == more[..|more| - 1] + [c];
      }
      assert ColumnSet(u0 + [c]) == ColumnSet(u0) + {c};
      if c in u0 then u0 else u0 + [c]
  }

  lemma {:induction false} UnionOfDistinct(more: seq<string>)
    requires Distinct(more)
    ensures Union([], more) == more
  {
    if more != [] {
      var init := more[..|more| - 1];
      assert Distinct(init);
      UnionOfDistinct(init);
      assert more == init + [more[|more| - 1]];
    }
  }

  function AllColumns(frames: seq<Table>): (cols: seq<string>)
    ensures forall k :: 0 <= k < |frames| ==> ColumnSet(frames[k].columns) <= ColumnSet(cols)
  {
    if frames == [] then []
    else Union(AllColumns(frames[..|frames| - 1]), frames[|frames| - 1].columns)
  }

  /** The rows of `t` laid out under `cols`, a cell left missing where `t` has no
      such column. */
  function Realign(t: Table, cols: seq<string>): (rows: seq<seq<Cell>>)
    requires Rectangular(t)
    ensures |rows| == |t.rows|
    ensures forall i :: 0 <= i < |rows| ==> |rows[i]| == |cols|
  {
    seq(|t.rows|, i requires 0 <= i < |t.rows| => AlignRow(t.columns, t.rows[i], cols))
  }

  /** One row labelled `labels`, laid out under `cols`. */
  function AlignRow(labels: seq<string>, row: Row, cols: seq<string>): (r: Row)
    requires |row| == |labels|
    ensures |r| == |cols|
  {
    seq(|cols|, j requires 0 <= j < |cols| =>
      if cols[j] in labels then row[IndexOf(labels, cols[j])] else Missing)
  }

  predicate AllRectangular(frames: seq<Table>)
  {
    forall k :: 0 <= k < |frames| ==> Rectangular(frames[k])
  }

  function TotalRows(frames: seq<Table>): nat
  {
    if frames == [] then 0 else TotalRows(frames[..|frames| - 1]) + |frames[|frames| - 1].rows|
  }

  function Stack(frames: seq<Table>, cols: seq<string>): (rows: seq<seq<Cell>>)
    requires AllRectangular(frames)
    ensures |rows| == TotalRows(frames)
    ensures forall i :: 0 <= i < |rows| ==> |rows[i]| == |cols|
  {
    if frames == [] then []
    else Stack(frames[..|frames| - 1], cols) + Realign(frames[|frames| - 1], cols)
  }

  /** `pd.concat(frames, ignore_index=True)` over a non-empty list: the union of
      the labels, and every frame's rows in order. */
  function Concat(frames: seq<Table>): (r: Table)
    requires AllRectangular(frames)
    ensures Rectangular(r) && |r.rows| == TotalRows(frames)
    ensures forall k :: 0 <= k < |frames| ==> ColumnSet(frames[k].columns) <= ColumnSet(r.columns)
  {
    var cols := AllColumns(frames);
    Table(cols, Stack(frames, cols))
  }

  /** Concatenating a single frame gives that frame back. */
  lemma ConcatSingle(t: Table)
    requires Rectangular(t) && Distinct(t.columns)
    ensures Concat([t]) == t
  {
    assert [t][..0] == [];
    UnionOfDistinct(t.columns);
    assert AllColumns([t]) == t.columns;
    var rows := Realign(t, t.columns);
    forall i | 0 <= i < |t.rows| ensures rows[i] == t.rows[i] {
      forall j | 0 <= j < |t.columns| ensures rows[i][j] == t.rows[i][j] {
        IndexOfDistinct(t.columns, j);
      }
    }
    assert rows == t.rows;
    assert Stack([t], t.columns) == Stack([], t.columns) + rows;
  }

  /** The concatenation's labels are exactly the labels of its frames, each
      once. */
  lemma {:induction false} AllColumnsExact(frames: seq<Table>)
    ensures Distinct(AllColumns(frames))
    ensures forall c :: c in AllColumns(frames) <==> exists k :: 0 <= k < |frames| && c in frames[k].columns
  {
    if frames != [] {
      var init := frames[..|frames| - 1];
      AllColumnsExact(init);
      var last := frames[|frames| - 1];
      forall c | c in AllColumns(frames)
        ensures exists k :: 0 <= k < |frames| && c in frames[k].columns
      {
        assert c in ColumnSet(AllColumns(frames));
        if c in ColumnSet(AllColumns(init)) {
          var k :| 0 <= k < |init| && c in init[k].columns;
          assert frames[k] == init[k];
        } else {
          assert c in ColumnSet(last.columns);
        }
      }
      forall c, k | 0 <= k < |frames| && c in frames[k].columns
        ensures c in AllColumns(frames)
      {
        assert c in ColumnSet(frames[k].columns);
      }
    }
  }

  /** Stacking two lists of frames one after the other stacks each in turn. */
  lemma {:induction false} StackAppend(a: seq<Table>, b: seq<Table>, cols: seq<string>)
    requires AllRectangular(a) && AllRectangular(b)
    ensures AllRectangular(a + b)
    ensures Stack(a + b, cols) == Stack(a, cols) + Stack(b, cols)
  {
    assert AllRectangular(a + b) by {
      forall m | 0 <= m < |a + b| ensures Rectangular((a + b)[m]) {
        if m >= |a| {
          assert (a + b)[m] == b[m - |a|];
        }
      }
    }
    if b == [] {
      assert a + b == a;
    } else {
      var init := b[..|b| - 1];
      assert AllRectangular(init) by {
        forall m | 0 <= m < |init| ensures Rectangular(init[m]) {
          assert init[m] == b[m];
        }
      }
      assert (a + b)[..|a + b| - 1] == a + init;
      assert (a + b)[|a + b| - 1] == b[|b| - 1];
      StackAppend(a, init, cols);
    }
  }

  /** Row `j` of frame `k` sits, laid out under the combined labels, right
      after the rows of the frames before it. */
  lemma StackRow(frames: seq<Table>, cols: seq<string>, k: nat, j: nat)
    requires AllRectangular(frames) && k < |frames| && j < |frames[k].rows|
    ensures TotalRows(frames[..k]) + j < TotalRows(frames)
    ensures Stack(frames, cols)[TotalRows(frames[..k]) + j] == Realign(frames[k], cols)[j]
  {
    StackAround(frames, cols, k);
    Middle(Stack(frames[..k], cols), Realign(frames[k], cols), Stack(frames[k + 1..], cols), j);
  }

  lemma Middle<T>(a: seq<T>, b: seq<T>, c: seq<T>, j: nat)
    requires j < |b|
    ensures |a| + j < |a + (b + c)| && (a + (b + c))[|a| + j] == b[j]
  {
  }

  /** The stacked rows split around frame `k`. */
  lemma StackAround(frames: seq<Table>, cols: seq<string>, k: nat)
    requires AllRectangular(frames) && k < |frames|
    ensures AllRectangular(frames[..k]) && AllRectangular(frames[k + 1..])
    ensures Stack(frames, cols)
      == Stack(frames[..k], cols) + (Realign(frames[k], cols) + Stack(frames[k + 1..], cols))
  {
    var front, rest := frames[..k], frames[k + 1..];
    var tail := [frames[k]] + rest;
    assert frames == front + tail;
    SliceRectangular(frames, 0, k);
    SliceRectangular(frames, k + 1, |frames|);
    assert [frames[k]][..0] == [];
    assert Stack([frames[k]], cols) == Realign(frames[k], cols);
    StackAppend([frames[k]], rest, cols);
    StackAppend(front, tail, cols);
  }

  lemma SliceRectangular(frames: seq<Table>, lo: nat, hi: nat)
    requires AllRectangular(frames) && lo <= hi <= |frames|
    ensures AllRectangular(frames[lo..hi])
  {
    forall m | 0 <= m < hi - lo ensures Rectangular(frames[lo..hi][m]) {
      assert frames[lo..hi][m] == frames[lo + m];
    }
  }

  /** `pd.concat` keeps every row of every frame, in frame order. Under each
      combined label a row holds its frame's cell, or a missing cell where its
      frame has no such column. */
  lemma ConcatCell(frames: seq<Table>, k: nat, j: nat, c: string)
    requires AllRectangular(frames) && k < |frames| && j < |frames[k].rows|
    requires exists m :: 0 <= m < |frames| && c in frames[m].columns
    ensures var r := Concat(frames);
      && c in r.columns
      && TotalRows(frames[..k]) + j < |r.rows|
      && Column(r, c)[TotalRows(frames[..k]) + j] == if c in frames[k].columns then Column(frames[k], c)[j] else Missing
  {
    var cols := AllColumns(frames);
    AllColumnsExact(frames);
    StackRow(frames, cols, k, j);
    var n := IndexOf(cols, c);
    AlignCell(frames[k], cols, j, n);
  }

  /** Cell `n` of row `j` of `t` laid out under `cols`. */
  lemma AlignCell(t: Table, cols: seq<string>, j: nat, n: nat)
    requires Rectangular(t) && j < |t.rows| && n < |cols|
    ensures Realign(t, cols)[j][n] == if cols[n] in t.columns then Column(t, cols[n])[j] else Missing
  {
    assert Realign(t, cols)[j] == AlignRow(t.columns, t.rows[j], cols);
  }
}
