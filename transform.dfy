/** `CSVProcessor.process_data`: add a `full_name` column joining first and last
    name with a blank, then relabel every column for display (underscores
    become blanks, words are title-cased). The same in all three drafts. */
module Transform {
  import opened Wrappers
  import opened Text
  import opened Tables

  /** One cell of `first + " " + last`. pandas skips empty cells, so an empty
      side gives an empty result; adding a string to an integer raises. */
  function FullNameCell(first: Cell, last: Cell): Option<Cell>
  {
    match first
    case Missing => Some(Missing)
    case Int(_) => None
    case Text(f) =>
      match last
      case Missing => Some(Missing)
      case Int(_) => None
      case Text(l) => Some(Text(f + " " + l))
  }

  /** The pairs of cells on which the concatenation raises a TypeError: an
      integer first name, or a text first name beside an integer last name. */
  predicate Clash(first: Cell, last: Cell)
  {
    first.Int? || (first.Text? && last.Int?)
  }

  /** The cell a row gets when the concatenation does not raise. */
  function Joined(first: Cell, last: Cell): Cell
  {
    if first.Text? && last.Text? then Text(first.text + " " + last.text) else Missing
  }

  /** `df["first_name"] + " " + df["last_name"]`, or None for the TypeError. */
  function FullNames(first: seq<Cell>, last: seq<Cell>): (r: Option<seq<Cell>>)
    requires |first| == |last|
    ensures r.Some? ==> |r.value| == |first|
  {
    if forall k | 0 <= k < |first| :: FullNameCell(first[k], last[k]).Some? then
      Some(seq(|first|, k requires 0 <= k < |first| => FullNameCell(first[k], last[k]).value))
    else None
  }

  /** The column raises exactly when some row clashes, and otherwise holds the
      joined names row by row. */
  lemma FullNamesExact(first: seq<Cell>, last: seq<Cell>)
    requires |first| == |last|
    ensures FullNames(first, last).None? <==> exists k :: 0 <= k < |first| && Clash(first[k], last[k])
    ensures FullNames(first, last).Some? ==>
      forall k :: 0 <= k < |first| ==> FullNames(first, last).value[k] == Joined(first[k], last[k])
  {
    forall k | 0 <= k < |first|
      ensures FullNameCell(first[k], last[k]).Some? <==> !Clash(first[k], last[k])
      ensures !Clash(first[k], last[k]) ==> FullNameCell(first[k], last[k]).value == Joined(first[k], last[k])
    {
    }
  }

  /** `df[name] = col`: overwrite the column in place when the label exists,
      otherwise append it as the last column. */
  function SetColumn(t: Table, name: string, col: seq<Cell>): (u: Table)
    requires Rectangular(t) && |col| == |t.rows|
    ensures Rectangular(u) && |u.rows| == |t.rows|
    ensures u.columns == if name in t.columns then t.columns else t.columns + [name]
  {
    if name in t.columns then
      var j := IndexOf(t.columns, name);
      Table(t.columns, seq(|t.rows|, i requires 0 <= i < |t.rows| => t.rows[i][j := col[i]]))
    else
      Table(t.columns + [name], seq(|t.rows|, i requires 0 <= i < |t.rows| => t.rows[i] + [col[i]]))
  }

  /** The assigned column reads back as given, and every other column keeps its
      cells. */
  lemma SetColumnReads(t: Table, name: string, col: seq<Cell>, c: string)
    requires Rectangular(t) && |col| == |t.rows| && c in t.columns + [name]
    ensures c in SetColumn(t, name, col).columns
    ensures Column(SetColumn(t, name, col), c) == if c == name then col else Column(t, c)
  {
    var u := SetColumn(t, name, col);
    if name !in t.columns && c != name {
      PrefixIndexOf(t.columns, [name], c);
    }
    if name !in t.columns && c == name {
      assert u.columns[|t.columns|] == name;
      assert IndexOf(u.columns, name) == |t.columns|;
    }
  }

  /** One label as `column.replace("_", " ").title()` renders it. */
  function DisplayLabel(c: string): string
  {
    Title(Replace(c, '_', ' '))
  }

  function Relabel(cols: seq<string>): (r: seq<string>)
    ensures |r| == |cols|
  {
    seq(|cols|, i requires 0 <= i < |cols| => DisplayLabel(cols[i]))
  }

  /** Two normalised labels (no upper case, no blank) never get the same
      display label, because title-casing only changes case and the blanks it
      shows were underscores. */
  lemma DisplayLabelInjective(a: string, b: string)
    requires Lowered(a) && Lowered(b) && DisplayLabel(a) == DisplayLabel(b)
    ensures a == b
  {
    var ra, rb := Replace(a, '_', ' '), Replace(b, '_', ' ');
    TitleKeepsLetters(ra);
    TitleKeepsLetters(rb);
    assert Lower(ra) == ra by {
      forall i | 0 <= i < |ra| ensures Lower(ra)[i] == ra[i] {
        assert a[i] in a;
      }
    }
    assert Lower(rb) == rb by {
      forall i | 0 <= i < |rb| ensures Lower(rb)[i] == rb[i] {
        assert b[i] in b;
      }
    }
    assert ra == rb;
    forall i | 0 <= i < |a| ensures a[i] == b[i] {
      assert a[i] in a && b[i] in b;
      assert ra[i] == rb[i];
    }
  }

  /** Relabelling distinct normalised labels keeps them distinct, and each
      column is found at the position of its old label. */
  lemma RelabelPositions(cols: seq<string>, c: string)
    requires Distinct(cols) && (forall x :: x in cols ==> Lowered(x)) && c in cols
    ensures Distinct(Relabel(cols))
    ensures DisplayLabel(c) in Relabel(cols)
    ensures IndexOf(Relabel(cols), DisplayLabel(c)) == IndexOf(cols, c)
  {
    var r := Relabel(cols);
    forall i, j | 0 <= i < j < |r| ensures r[i] != r[j] {
      if r[i] == r[j] {
        assert cols[i] in cols && cols[j] in cols;
        DisplayLabelInjective(cols[i], cols[j]);
      }
    }
    var k := IndexOf(cols, c);
    assert r[k] == DisplayLabel(c);
    forall j | 0 <= j < k ensures r[j] != DisplayLabel(c) {
      assert r[j] != r[k];
    }
  }

  /** The four labels a validated table has, as they are shown. */
  lemma StandardLabels()
    ensures DisplayLabel("first_name") == "First Name"
    ensures DisplayLabel("last_name") == "Last Name"
    ensures DisplayLabel("age") == "Age"
    ensures DisplayLabel("full_name") == "Full Name"
  {
    TwoWordLabel("first", "name", "First", "Name");
    assert "first" + "_" + "name" == "first_name" && "First" + " " + "Name" == "First Name";
    TwoWordLabel("last", "name", "Last", "Name");
    assert "last" + "_" + "name" == "last_name" && "Last" + " " + "Name" == "Last Name";
    TwoWordLabel("full", "name", "Full", "Name");
    assert "full" + "_" + "name" == "full_name" && "Full" + " " + "Name" == "Full Name";
    AgeLabel();
  }

  lemma AgeLabel()
    ensures DisplayLabel("age") == "Age"
  {
    var s, e := "age", "Age";
    assert Replace(s, '_', ' ') == s;
    forall i | 0 <= i < |s|
      ensures e[i] == if i > 0 && IsCased(s[i - 1]) then ToLower(s[i]) else ToUpper(s[i])
    {
      if i == 0 {
      } else if i == 1 {
      } else {
      }
    }
    TitleOfLiteral(s, e);
  }

  /** `a_b` is shown as the two words title-cased, with a blank between. */
  lemma TwoWordLabel(a: string, b: string, ta: string, tb: string)
    requires a == "first" || a == "last" || a == "full"
    requires b == "name" && tb == "Name"
    requires ta == [ToUpper(a[0])] + a[1..]
    ensures DisplayLabel(a + "_" + b) == ta + " " + tb
  {
    var s := a + "_" + b;
    var e := ta + " " + tb;
    assert Replace(s, '_', ' ') == a + " " + b;
    forall i | 0 <= i < |a + " " + b|
      ensures e[i] == if i > 0 && IsCased((a + " " + b)[i - 1]) then ToLower((a + " " + b)[i]) else ToUpper((a + " " + b)[i])
    {
      if i < |a| {
      } else if i == |a| {
      } else {
        assert (a + " " + b)[i] == b[i - |a| - 1];
      }
    }
    TitleOfLiteral(a + " " + b, e);
  }

  /** Checks `title()` of a literal character by character. */
  lemma TitleOfLiteral(s: string, expected: string)
    requires |s| == |expected|
    requires forall i :: 0 <= i < |s| ==>
      expected[i] == if i > 0 && IsCased(s[i - 1]) then ToLower(s[i]) else ToUpper(s[i])
    ensures Title(s) == expected
  {
    forall i | 0 <= i < |s| ensures Title(s)[i] == expected[i] {
      TitleFromAt(s, false, i);
      assert Title(s)[i] == TitleFrom(s, false)[i];
      assert expected[i] == if i > 0 && IsCased(s[i - 1]) then ToLower(s[i]) else ToUpper(s[i]);
    }
  }

  /** `process_data(df)` as a value: None for the TypeError of the
      concatenation, else the table with its full names and display labels. */
  function Transformed(t: Table): (r: Option<Table>)
    requires Rectangular(t) && "first_name" in t.columns && "last_name" in t.columns
    ensures r.Some? ==> Rectangular(r.value) && |r.value.rows| == |t.rows|
  {
    var names := FullNames(Column(t, "first_name"), Column(t, "last_name"));
    if names.None? then None
    else
      var u := SetColumn(t, "full_name", names.value);
      Some(Table(Relabel(u.columns), u.rows))
  }

  /** The in-place version: assigns the column on `df` and then its labels. When
      the concatenation raises, `df` is left as it was. */
  method ProcessData(df: Frame) returns (ok: bool)
    requires Rectangular(df.Value()) && "first_name" in df.columns && "last_name" in df.columns
    modifies df
    ensures ok <==> Transformed(old(df.Value())).Some?
    ensures df.Value() == if ok then Transformed(old(df.Value())).value else old(df.Value())
  {
    var names := FullNames(Column(df.Value(), "first_name"), Column(df.Value(), "last_name"));
    if names.None? {
      return false;
    }
    var u := SetColumn(df.Value(), "full_name", names.value);
    df.rows := u.rows;
    df.columns := Relabel(u.columns);
    return true;
  }

  /** Adding a lower-case label, if absent, keeps the labels distinct and
      lower-case. */
  lemma AddedColumnKeepsLabels(cols: seq<string>, name: string)
    requires Distinct(cols) && (forall x :: x in cols ==> Lowered(x)) && Lowered(name)
    ensures var u := if name in cols then cols else cols + [name];
      Distinct(u) && forall x :: x in u ==> Lowered(x)
  {
    if name !in cols {
      var u := cols + [name];
      forall i, j | 0 <= i < j < |u| ensures u[i] != u[j] {
        if j < |cols| {
          assert u[i] == cols[i] && u[j] == cols[j];
        } else {
          assert u[i] == cols[i] && u[i] in cols;
        }
      }
    }
  }

  /** The transformed table's labels are distinct when the input's were
      distinct and lower-case. */
  lemma TransformedDistinct(t: Table)
    requires Rectangular(t) && "first_name" in t.columns && "last_name" in t.columns
    requires Distinct(t.columns) && forall x :: x in t.columns ==> Lowered(x)
    ensures Transformed(t).Some? ==> Distinct(Transformed(t).value.columns)
  {
    var names := FullNames(Column(t, "first_name"), Column(t, "last_name"));
    if names.Some? {
      var u := SetColumn(t, "full_name", names.value);
      AddedColumnKeepsLabels(t.columns, "full_name");
      RelabelPositions(u.columns, "full_name");
    }
  }

  /** What `process_data` promises: it raises exactly when a row clashes;
      otherwise it keeps every row, shows `full_name` (added at the end unless
      it was there) under "Full Name" holding first and last name joined by a
      blank (empty when either is empty), and shows every other column under
      its display label with its cells unchanged. */
  lemma TransformedExact(t: Table, c: string)
    requires Rectangular(t) && "first_name" in t.columns && "last_name" in t.columns
    requires Distinct(t.columns) && forall x :: x in t.columns ==> Lowered(x)
    requires c in t.columns && c != "full_name"
    ensures var first, last := Column(t, "first_name"), Column(t, "last_name");
      Transformed(t).None? <==> exists i :: 0 <= i < |t.rows| && Clash(first[i], last[i])
    ensures Transformed(t).Some? ==>
      var r := Transformed(t).value;
      var first, last := Column(t, "first_name"), Column(t, "last_name");
      && |r.rows| == |t.rows| && Rectangular(r) && Distinct(r.columns)
      && r.columns == Relabel(if "full_name" in t.columns then t.columns else t.columns + ["full_name"])
      && "Full Name" in r.columns
      && (forall i :: 0 <= i < |r.rows| ==> Column(r, "Full Name")[i] == Joined(first[i], last[i]))
      && DisplayLabel(c) in r.columns
      && Column(r, DisplayLabel(c)) == Column(t, c)
  {
    var first, last := Column(t, "first_name"), Column(t, "last_name");
    FullNamesExact(first, last);
    var names := FullNames(first, last);
    if names.Some? {
      var u := SetColumn(t, "full_name", names.value);
      var r := Transformed(t).value;
      AddedColumnKeepsLabels(t.columns, "full_name");
      StandardLabels();
      SetColumnReads(t, "full_name", names.value, "full_name");
      RelabelPositions(u.columns, "full_name");
      SetColumnReads(t, "full_name", names.value, c);
      RelabelPositions(u.columns, c);
      assert Column(r, "Full Name") == Column(u, "full_name");
      assert Column(r, DisplayLabel(c)) == Column(u, c);
    }
  }
}
