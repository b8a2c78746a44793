/** `CSVProcessor.validate_data`: normalise the labels, reject a table without
    the required columns, prune extra columns, record advisory issues and drop
    duplicate rows. The same steps in all three drafts, except for when the
    duplicates are counted. */
module Validation {
  import opened Wrappers
  import opened Text
  import opened Tables
  import opened Drafts

  const Required: set<string> := {"first_name", "last_name", "age"}

  /** One label after `str.lower().str.replace(" ", "_").str.strip()`. The blank
      becomes an underscore BEFORE stripping, so a padded label keeps
      underscores at its ends. */
  function Normalize(name: string): (r: string)
    ensures Lowered(r)
    ensures |r| <= |name|
  {
    var lowered := Lower(name);
    var joined := Replace(lowered, ' ', '_');
    assert Lowered(joined) by {
      forall c | c in joined ensures !IsUpper(c) && c != ' ' {
        var i :| 0 <= i < |joined| && joined[i] == c;
        assert lowered[i] == ToLower(name[i]);
      }
    }
    Strip(joined)
  }

  function NormalizeColumns(cols: seq<string>): seq<string>
  {
    seq(|cols|, i requires 0 <= i < |cols| => Normalize(cols[i]))
  }

  /** The tables this model handles: one cell per column in every row, and
      labels that stay pairwise distinct once normalised. */
  predicate Admissible(t: Table)
  {
    Rectangular(t) && Distinct(NormalizeColumns(t.columns))
  }

  datatype MissingCounts = MissingCounts(firstName: nat, lastName: nat)

  /** The validation report: one optional entry per issue kind. */
  datatype Report = Report(
    missingRequiredColumns: Option<set<string>>,
    extraColumns: Option<set<string>>,
    missingValues: Option<MissingCounts>,
    nonIntegerAge: Option<seq<Cell>>,
    ageOutliers: Option<seq<int>>,
    duplicates: Option<nat>)

  const NoIssues := Report(None, None, None, None, None, None)

  /** `(is_valid, report)`, or the TypeError pandas raises when it compares a
      text `age` column with a number. */
  datatype Outcome = Checked(valid: bool, report: Report) | AgeNotComparable

  /** What `validate_data` returns, with the caller's table as it leaves it. */
  datatype Verdict = Verdict(outcome: Outcome, caller: Table)

  /** `str(cell)` as `astype(str)` renders it. */
  function AgeText(c: Cell): string
  {
    match c
    case Missing => "nan"
    case Int(n) => IntString(n)
    case Text(s) => s
  }

  predicate DigitAge(c: Cell)
  {
    IsDigits(AgeText(c))
  }

  /** An integer age passes `isdigit` exactly when it is not negative; an empty
      cell never does. */
  lemma DigitAgeCases(c: Cell)
    ensures c.Int? ==> (DigitAge(c) <==> c.value >= 0)
    ensures c.Missing? ==> !DigitAge(c)
  {
    if c.Missing? {
      assert AgeText(c)[0] == 'n';
    }
  }

  /** The ages whose text is not all digits, in row order. */
  function NonDigitAges(ages: seq<Cell>): (r: seq<Cell>)
    ensures forall c :: c in r <==> c in ages && !DigitAge(c)
    ensures |r| <= |ages|
  {
    if ages == [] then []
    else
      var last := ages[|ages| - 1];
      assert ages == ages[..|ages| - 1] + [last];
      NonDigitAges(ages[..|ages| - 1]) + (if DigitAge(last) then [] else [last])
  }

  predicate OutOfRange(n: int) { n < 0 || n > 120 }

  /** The integer ages below 0 or above 120, in row order (an empty cell compares
      false both ways). */
  function Outliers(ages: seq<Cell>): (r: seq<int>)
    ensures forall n :: n in r <==> Int(n) in ages && OutOfRange(n)
    ensures |r| <= |ages|
  {
    if ages == [] then []
    else
      var last := ages[|ages| - 1];
      assert ages == ages[..|ages| - 1] + [last];
      Outliers(ages[..|ages| - 1]) + (if last.Int? && OutOfRange(last.value) then [last.value] else [])
  }

  /** Listing the non-digit ages of two stretches of rows one after the other
      gives the listing of both: with `NonDigitAgesOne` this makes the list a
      filter that keeps row order and one entry per failing row. */
  lemma {:induction false} NonDigitAgesAppend(a: seq<Cell>, b: seq<Cell>)
    ensures NonDigitAges(a + b) == NonDigitAges(a) + NonDigitAges(b)
  {
    if b == [] {
      assert a + b == a;
    } else {
      var init := b[..|b| - 1];
      assert (a + b)[..|a + b| - 1] == a + init;
      assert (a + b)[|a + b| - 1] == b[|b| - 1];
      NonDigitAgesAppend(a, init);
    }
  }

  /** One row is listed exactly when its age is not all digits. */
  lemma NonDigitAgesOne(c: Cell)
    ensures NonDigitAges([c]) == if DigitAge(c) then [] else [c]
  {
    assert [c][..0] == [];
  }

  /** The same filter law for the outliers. */
  lemma {:induction false} OutliersAppend(a: seq<Cell>, b: seq<Cell>)
    ensures Outliers(a + b) == Outliers(a) + Outliers(b)
  {
    if b == [] {
      assert a + b == a;
    } else {
      var init := b[..|b| - 1];
      assert (a + b)[..|a + b| - 1] == a + init;
      assert (a + b)[|a + b| - 1] == b[|b| - 1];
      OutliersAppend(a, init);
    }
  }

  /** One row is listed exactly when it holds an integer out of range. */
  lemma OutliersOne(c: Cell)
    ensures Outliers([c]) == if c.Int? && OutOfRange(c.value) then [c.value] else []
  {
    assert [c][..0] == [];
  }

  /** `isnull().sum()` of one column. */
  function CountMissing(col: seq<Cell>): nat
  {
    multiset(col)[Missing]
  }

  predicate HasText(col: seq<Cell>)
  {
    exists k | 0 <= k < |col| :: col[k].Text?
  }

  /** The `duplicates` value: counted before the drop in csv_processor.py,
      after it in the other drafts. */
  function DuplicatesRecorded(rows: seq<Row>, draft: Draft): nat
  {
    if draft.CountsBeforeDrop() then CountDuplicates(rows) else CountDuplicates(Dedup(rows))
  }

  /** Normalised labels are lower-case and blank-free. */
  lemma NormalizedLabels(cols: seq<string>)
    ensures forall x :: x in NormalizeColumns(cols) ==> Lowered(x)
  {
    var n := NormalizeColumns(cols);
    forall x | x in n ensures Lowered(x) {
      var i :| 0 <= i < |n| && n[i] == x;
      assert x == Normalize(cols[i]);
    }
  }

  /** The labels as `validate_data` leaves them on the caller's table. */
  function Normalized(t: Table): (df: Table)
    requires Rectangular(t)
    ensures Rectangular(df)
  {
    Table(NormalizeColumns(t.columns), t.rows)
  }

  predicate HasRequired(t: Table)
  {
    Required <= ColumnSet(t.columns)
  }

  /** Columns beyond the required ones make `validate_data` prune. */
  predicate HasExtra(t: Table)
  {
    ColumnSet(t.columns) > Required
  }

  /** The table the checks run on: a pruned copy (`df.loc[...]` rebinds the
      local name) when there are extra columns, otherwise the caller's own. */
  function Working(df: Table): (w: Table)
    requires Rectangular(df) && HasRequired(df)
    ensures Rectangular(w) && HasRequired(w) && |w.rows| == |df.rows|
  {
    if HasExtra(df) then Project(df, Required) else df
  }

  /** Steps 4 to 7 of `validate_data` on the working table: missing names,
      ages that are not digits, ages out of range, duplicates. */
  function Inspect(work: Table, report: Report, draft: Draft): Outcome
    requires Rectangular(work) && HasRequired(work)
  {
    var firstMissing := CountMissing(Column(work, "first_name"));
    var lastMissing := CountMissing(Column(work, "last_name"));
    var r1 := if firstMissing + lastMissing > 0
      then report.(missingValues := Some(MissingCounts(firstMissing, lastMissing))) else report;
    var ages := Column(work, "age");
    var nonDigit := NonDigitAges(ages);
    var r2 := if nonDigit != [] then r1.(nonIntegerAge := Some(nonDigit)) else r1;
    if HasText(ages) then AgeNotComparable
    else
      var outliers := Outliers(ages);
      var r3 := if outliers != [] then r2.(ageOutliers := Some(outliers)) else r2;
      var r4 := if !Distinct(work.rows) then r3.(duplicates := Some(DuplicatesRecorded(work.rows, draft))) else r3;
      Checked(true, r4)
  }

  /** `validate_data(df)`: the outcome, and the caller's table afterwards. The
      labels are renamed on the caller's table; the drop of duplicates reaches
      it only when nothing was pruned. */
  function Validate(t: Table, draft: Draft): (v: Verdict)
    requires Admissible(t)
    ensures v.caller.columns == NormalizeColumns(t.columns)
    ensures Rectangular(v.caller) && |v.caller.rows| <= |t.rows|
    ensures v.outcome.Checked? && v.outcome.valid ==> HasRequired(v.caller)
  {
    var df := Normalized(t);
    if !HasRequired(df) then
      Verdict(Checked(false, NoIssues.(missingRequiredColumns := Some(Required - ColumnSet(df.columns)))), df)
    else
      var work := Working(df);
      var report := if HasExtra(df) then NoIssues.(extraColumns := Some(ColumnSet(work.columns) - Required)) else NoIssues;
      var outcome := Inspect(work, report, draft);
      var dropped := outcome.Checked? && !Distinct(work.rows) && !HasExtra(df);
      Verdict(outcome, if dropped then df.(rows := Dedup(df.rows)) else df)
  }

  /** The in-place version: renames `df`'s labels, prunes into a new frame
      when there are extra columns, then runs the checks on whichever frame
      the local name holds. */
  method ValidateData(df: Frame, draft: Draft) returns (outcome: Outcome)
    requires Admissible(df.Value())
    modifies df
    ensures outcome == Validate(old(df.Value()), draft).outcome
    ensures df.Value() == Validate(old(df.Value()), draft).caller
  {
    ghost var t := df.Value();
    var report := NoIssues;
    df.columns := NormalizeColumns(df.columns);
    ghost var named := df.Value();
    assert named == Normalized(t);
    var present := ColumnSet(df.columns);
    if !(Required <= present) {
      report := report.(missingRequiredColumns := Some(Required - present));
      return Checked(false, report);
    }
    var work := df;
    if present > Required {
      work := new Frame(Project(df.Value(), Required));
      report := report.(extraColumns := Some(ColumnSet(work.columns) - Required));
    }
    assert work.Value() == Working(named);
    assert work == df <==> !HasExtra(named);
    outcome := InspectFrame(work, report, draft);
  }

  /** Steps 4 to 7 on the frame `work`: builds the report entry by entry and
      drops duplicate rows from `work` in place. */
  method InspectFrame(work: Frame, report0: Report, draft: Draft) returns (outcome: Outcome)
    requires Rectangular(work.Value()) && HasRequired(work.Value())
    modifies work
    ensures outcome == Inspect(old(work.Value()), report0, draft)
    ensures work.columns == old(work.columns)
    ensures work.rows == if outcome.Checked? && !Distinct(old(work.rows)) then Dedup(old(work.rows)) else old(work.rows)
  {
    var t := work.Value();
    var report := report0;
    var firstMissing := CountMissing(Column(t, "first_name"));
    var lastMissing := CountMissing(Column(t, "last_name"));
    if firstMissing + lastMissing > 0 {
      report := report.(missingValues := Some(MissingCounts(firstMissing, lastMissing)));
    }
    var ages := Column(t, "age");
    var nonDigit := NonDigitAges(ages);
    if nonDigit != [] {
      report := report.(nonIntegerAge := Some(nonDigit));
    }
    if HasText(ages) {
      return AgeNotComparable;
    }
    var outliers := Outliers(ages);
    if outliers != [] {
      report := report.(ageOutliers := Some(outliers));
    }
    if !Distinct(work.rows) {
      var count: nat;
      if draft.CountsBeforeDrop() {
        count := CountDuplicates(work.rows);
        work.rows := Dedup(work.rows);
      } else {
        work.rows := Dedup(work.rows);
        count := CountDuplicates(work.rows);
      }
      report := report.(duplicates := Some(count));
    }
    return Checked(true, report);
  }

  /** The entries of an optional list, none when the key is absent. */
  function Listed<T>(o: Option<seq<T>>): seq<T>
  {
    if o.Some? then o.value else []
  }

  /** A label padded with blanks normalises to one with underscores at its
      ends, which is none of the required names. */
  lemma PaddedLabelMatchesNothing(name: string)
    requires name != [] && name[0] == ' '
    ensures Normalize(name) != [] && Normalize(name)[0] == '_'
    ensures Normalize(name) !in Required
  {
    var joined := Replace(Lower(name), ' ', '_');
    JoinedLeadingBlank(name);
    StripKeepsFirst(joined);
    assert Normalize(name) == Strip(joined);
    assert "first_name"[0] == 'f' && "last_name"[0] == 'l' && "age"[0] == 'a';
  }

  lemma JoinedLeadingBlank(name: string)
    requires name != [] && name[0] == ' '
    ensures var joined := Replace(Lower(name), ' ', '_');
      joined != [] && joined[0] == '_' && !IsSpace(joined[0])
  {
    assert Lower(name)[0] == ' ';
  }

  /** Stripping a string that starts with a non-blank keeps that first
      character. */
  lemma StripKeepsFirst(s: string)
    requires s != [] && !IsSpace(s[0])
    ensures Strip(s) != [] && Strip(s)[0] == s[0]
  {
    var r := Strip(s);
    var i :| TrimmedAt(s, r, i);
  }

  /** Stripping a string with no whitespace at all changes nothing. */
  lemma StripClean(s: string)
    requires forall k :: 0 <= k < |s| ==> !IsSpace(s[k])
    ensures Strip(s) == s
  {
    var r := Strip(s);
    var i :| TrimmedAt(s, r, i);
  }

  /** A label whose only whitespace is ordinary blanks is not stripped at all:
      it normalises to its lower-case form with every blank turned into `_`. */
  lemma NormalizeExact(name: string)
    requires forall k :: 0 <= k < |name| ==> IsSpace(name[k]) ==> name[k] == ' '
    ensures Normalize(name) == Replace(Lower(name), ' ', '_')
  {
    var joined := Replace(Lower(name), ' ', '_');
    JoinedClean(name);
    StripClean(joined);
  }

  /** A label already in normal form is left as it is. */
  lemma NormalizeKeepsNormal(name: string)
    requires Lowered(name) && forall k :: 0 <= k < |name| ==> !IsSpace(name[k])
    ensures Normalize(name) == name
  {
    NormalizeExact(name);
    JoinedOfNormal(name);
  }

  lemma JoinedOfNormal(name: string)
    requires Lowered(name)
    ensures Replace(Lower(name), ' ', '_') == name
  {
    var joined := Replace(Lower(name), ' ', '_');
    forall k | 0 <= k < |name| ensures joined[k] == name[k] {
      JoinedAt(name, k);
      assert name[k] in name;
    }
  }

  /** One position of a lower-cased label with blanks replaced. */
  lemma JoinedAt(name: string, k: nat)
    requires k < |name|
    ensures Replace(Lower(name), ' ', '_')[k] == if name[k] == ' ' then '_' else ToLower(name[k])
  {
    assert Lower(name)[k] == ToLower(name[k]);
  }

  /** Lower-casing and replacing blanks leaves no whitespace when blanks were
      the only whitespace. */
  lemma JoinedClean(name: string)
    requires forall k :: 0 <= k < |name| ==> IsSpace(name[k]) ==> name[k] == ' '
    ensures var joined := Replace(Lower(name), ' ', '_');
      forall k :: 0 <= k < |joined| ==> !IsSpace(joined[k])
  {
    var lowered := Lower(name);
    forall k | 0 <= k < |name| ensures lowered[k] == ' ' <==> name[k] == ' ' {
    }
  }

  /** The checks after the label test never reject: they raise or accept. */
  lemma InspectNeverRejects(work: Table, report: Report, draft: Draft)
    requires Rectangular(work) && HasRequired(work)
    ensures Inspect(work, report, draft).Checked? ==> Inspect(work, report, draft).valid
  {
  }

  /** The verdict is negative exactly when a required column is missing after
      normalisation; the report then holds only the missing names, and the
      rows are untouched. */
  lemma RejectedExactlyWithoutRequired(t: Table, draft: Draft)
    requires Admissible(t)
    ensures var v := Validate(t, draft);
      v.outcome.Checked? && !v.outcome.valid <==> !HasRequired(Normalized(t))
    ensures var v := Validate(t, draft);
      !HasRequired(Normalized(t)) ==>
        && v.outcome.report == NoIssues.(missingRequiredColumns := Some(Required - ColumnSet(NormalizeColumns(t.columns))))
        && v.outcome.report.missingRequiredColumns.value != {}
        && v.caller.rows == t.rows
  {
    var df := Normalized(t);
    if HasRequired(df) {
      var work := Working(df);
      var report := if HasExtra(df) then NoIssues.(extraColumns := Some(ColumnSet(work.columns) - Required)) else NoIssues;
      InspectNeverRejects(work, report, draft);
    } else {
      var x :| x in Required && x !in ColumnSet(df.columns);
      assert x in Required - ColumnSet(df.columns);
    }
  }

  /** `extra_columns` is taken from the already pruned frame, so it is always
      empty: present (as an empty set) exactly when columns were pruned, and
      the checks start from that report. */
  lemma ExtraColumnsAlwaysEmpty(t: Table, draft: Draft)
    requires Admissible(t) && HasRequired(Normalized(t))
    ensures Validate(t, draft).outcome
         == Inspect(Working(Normalized(t)), if HasExtra(Normalized(t)) then NoIssues.(extraColumns := Some({})) else NoIssues, draft)
  {
    var df := Normalized(t);
    var w := Working(df);
    var report := if HasExtra(df) then NoIssues.(extraColumns := Some(ColumnSet(w.columns) - Required)) else NoIssues;
    assert Validate(t, draft).outcome == Inspect(w, report, draft);
    if HasExtra(df) {
      assert ColumnSet(w.columns) - Required == {};
    }
  }

  /** The age and name columns the checks read are the caller's. */
  lemma WorkingColumn(df: Table, c: string)
    requires Rectangular(df) && HasRequired(df) && c in Required
    ensures c in Working(df).columns && c in df.columns
    ensures Column(Working(df), c) == Column(df, c)
  {
    if HasExtra(df) {
      ProjectColumn(df, Required, c);
    }
  }

  /** A report none of whose advisory entries is set yet. */
  predicate Fresh(r: Report)
  {
    r.missingValues.None? && r.nonIntegerAge.None? && r.ageOutliers.None? && r.duplicates.None?
  }

  /** What the checks add to a fresh report, entry by entry. */
  lemma InspectEntries(work: Table, report: Report, draft: Draft)
    requires Rectangular(work) && HasRequired(work) && Fresh(report)
    ensures var o := Inspect(work, report, draft);
      var first := Column(work, "first_name");
      var last := Column(work, "last_name");
      var ages := Column(work, "age");
      && (o.AgeNotComparable? <==> HasText(ages))
      && (o.Checked? ==>
        && o.valid
        && o.report.missingRequiredColumns == report.missingRequiredColumns
        && o.report.extraColumns == report.extraColumns
        && (o.report.missingValues.Some? <==> Missing in first || Missing in last)
        && (o.report.missingValues.Some? ==> o.report.missingValues.value == MissingCounts(CountMissing(first), CountMissing(last)))
        && o.report.nonIntegerAge == (if NonDigitAges(ages) == [] then None else Some(NonDigitAges(ages)))
        && (forall c :: c in Listed(o.report.nonIntegerAge) <==> c in ages && !DigitAge(c))
        && o.report.ageOutliers == (if Outliers(ages) == [] then None else Some(Outliers(ages)))
        && (forall n :: n in Listed(o.report.ageOutliers) <==> Int(n) in ages && OutOfRange(n))
        && (o.report.duplicates.Some? <==> !Distinct(work.rows))
        && (o.report.duplicates.Some? ==> o.report.duplicates.value == DuplicatesRecorded(work.rows, draft)))
  {
    var first := Column(work, "first_name");
    var last := Column(work, "last_name");
    var ages := Column(work, "age");
    assert Missing in first <==> CountMissing(first) > 0;
    assert Missing in last <==> CountMissing(last) > 0;
    if !HasText(ages) {
      var fm, lm := CountMissing(first), CountMissing(last);
      var r1 := if fm + lm > 0 then report.(missingValues := Some(MissingCounts(fm, lm))) else report;
      var nonDigit := NonDigitAges(ages);
      var r2 := if nonDigit != [] then r1.(nonIntegerAge := Some(nonDigit)) else r1;
      var outliers := Outliers(ages);
      var r3 := if outliers != [] then r2.(ageOutliers := Some(outliers)) else r2;
      var r4 := if !Distinct(work.rows) then r3.(duplicates := Some(DuplicatesRecorded(work.rows, draft))) else r3;
      assert Inspect(work, report, draft) == Checked(true, r4);
    }
  }

  /** With the required columns present the verdict is positive unless the age
      column holds text; the report then lists exactly the empty names, the
      ages that are not all digits and the integer ages out of range, each
      entry absent when it would be empty. */
  lemma AcceptedReport(t: Table, draft: Draft)
    requires Admissible(t) && HasRequired(Normalized(t))
    ensures var o := Validate(t, draft).outcome;
      var df := Normalized(t);
      var first := Column(df, "first_name");
      var last := Column(df, "last_name");
      var ages := Column(df, "age");
      && (o.AgeNotComparable? <==> HasText(ages))
      && (o.Checked? ==>
        && o.valid
        && o.report.missingRequiredColumns.None?
        && (o.report.missingValues.Some? <==> Missing in first || Missing in last)
        && (o.report.missingValues.Some? ==> o.report.missingValues.value == MissingCounts(CountMissing(first), CountMissing(last)))
        && o.report.nonIntegerAge == (if NonDigitAges(ages) == [] then None else Some(NonDigitAges(ages)))
        && (forall c :: c in Listed(o.report.nonIntegerAge) <==> c in ages && !DigitAge(c))
        && o.report.ageOutliers == (if Outliers(ages) == [] then None else Some(Outliers(ages)))
        && (forall n :: n in Listed(o.report.ageOutliers) <==> Int(n) in ages && OutOfRange(n)))
  {
    var df := Normalized(t);
    ExtraColumnsAlwaysEmpty(t, draft);
    InspectEntries(Working(df), if HasExtra(df) then NoIssues.(extraColumns := Some({})) else NoIssues, draft);
    WorkingColumn(df, "first_name");
    WorkingColumn(df, "last_name");
    WorkingColumn(df, "age");
  }

  /** A negative age is reported twice, as not an integer and as an outlier;
      an empty age is reported as not an integer only. */
  lemma NegativeAgeInBothLists(t: Table, draft: Draft, n: int)
    requires Admissible(t) && HasRequired(Normalized(t))
    requires Validate(t, draft).outcome.Checked?
    ensures var r := Validate(t, draft).outcome.report;
      var ages := Column(Normalized(t), "age");
      && (Int(n) in ages && n < 0 ==> Int(n) in Listed(r.nonIntegerAge) && n in Listed(r.ageOutliers))
      && (Missing in ages ==> Missing in Listed(r.nonIntegerAge))
  {
    AcceptedReport(t, draft);
    DigitAgeCases(Int(n));
    DigitAgeCases(Missing);
  }

  /** Pruning keeps exactly the three required columns. */
  lemma PrunedLabels(df: Table)
    requires Rectangular(df) && Distinct(df.columns) && HasRequired(df) && HasExtra(df)
    ensures ColumnSet(Working(df).columns) == Required
    ensures |Working(df).columns| == 3
  {
    var w := Project(df, Required);
    assert ColumnSet(w.columns) == Required;
    DistinctCardinality(w.columns);
    RequiredSize();
  }

  /** Pruning keeps exactly the three required columns, each with its cells. */
  lemma PruneKeepsRequired(df: Table, c: string)
    requires Rectangular(df) && Distinct(df.columns) && HasRequired(df) && HasExtra(df)
    requires c in Required
    ensures ColumnSet(Working(df).columns) == Required
    ensures |Working(df).columns| == 3
    ensures Column(Working(df), c) == Column(df, c)
  {
    PrunedLabels(df);
    WorkingColumn(df, c);
  }

  lemma RequiredSize()
    ensures |Required| == 3
  {
    assert Required == {"first_name"} + {"last_name"} + {"age"};
  }

  lemma {:induction false} DistinctCardinality(s: seq<string>)
    requires Distinct(s)
    ensures |ColumnSet(s)| == |s|
  {
    if s != [] {
      var init := s[..|s| - 1];
      assert Distinct(init);
      DistinctCardinality(init);
      assert s == init + [s[|s| - 1]];
      assert ColumnSet(s) == ColumnSet(init) + {s[|s| - 1]};
    }
  }

  /** In csv_processor.py `duplicates` is present exactly when some rows of the
      checked table repeat, and equals the number of rows the drop removes. */
  lemma DuplicatesCountRemoved(t: Table)
    requires Admissible(t) && HasRequired(Normalized(t))
    requires Validate(t, Current).outcome.Checked?
    ensures var r := Validate(t, Current).outcome.report;
      var rows := Working(Normalized(t)).rows;
      && (r.duplicates.Some? <==> !Distinct(rows))
      && (r.duplicates.Some? ==> r.duplicates.value == |rows| - |Dedup(rows)| > 0)
  {
    var df := Normalized(t);
    var rows := Working(df).rows;
    ExtraColumnsAlwaysEmpty(t, Current);
    InspectEntries(Working(df), if HasExtra(df) then NoIssues.(extraColumns := Some({})) else NoIssues, Current);
    DedupRemovesCounted(rows);
    CountDuplicatesZero(rows);
  }

  /** In csv_processor2.py and csv_processor_old.py the count is taken after
      the drop, so whenever there were duplicates it records 0. */
  lemma DuplicatesZeroAfterDrop(t: Table, draft: Draft)
    requires Admissible(t) && HasRequired(Normalized(t)) && draft != Current
    requires Validate(t, draft).outcome.Checked?
    requires !Distinct(Working(Normalized(t)).rows)
    ensures Validate(t, draft).outcome.report.duplicates == Some(0)
  {
    var df := Normalized(t);
    ExtraColumnsAlwaysEmpty(t, draft);
    InspectEntries(Working(df), if HasExtra(df) then NoIssues.(extraColumns := Some({})) else NoIssues, draft);
    CountDuplicatesZero(Dedup(Working(df).rows));
  }

  /** The caller sees the drop of duplicates only when no column was pruned:
      then its rows are the first occurrences, in their original order;
      otherwise its rows are untouched. */
  lemma DropReachesCallerOnlyWithoutPruning(t: Table, draft: Draft)
    requires Admissible(t)
    ensures var v := Validate(t, draft);
      v.caller.rows
        == if v.outcome.Checked? && v.outcome.valid && !HasExtra(Normalized(t)) then Dedup(t.rows) else t.rows
  {
    if Distinct(t.rows) {
      DedupDistinct(t.rows);
    }
  }

  /** An empty table whose labels are exactly the required ones is accepted
      with an empty report. */
  lemma EmptyTableIsClean(t: Table, draft: Draft)
    requires Admissible(t) && t.rows == []
    requires ColumnSet(NormalizeColumns(t.columns)) == Required
    ensures Validate(t, draft) == Verdict(Checked(true, NoIssues), Normalized(t))
  {
    var df := Normalized(t);
    ExtraColumnsAlwaysEmpty(t, draft);
    var ages := Column(df, "age");
    assert ages == [];
    assert !HasText(ages);
  }
}
