/** `scf_tools/process.py`: the same derived columns as the fedsurvey script, assembled one
    assignment at a time into `df_new`, then cleared of infinities in place, appended to the
    merged table and filtered by the fourteen alternatives. Reading and writing the .dta
    files is not modelled; the merged table is a parameter. */
module ScfToolsProcess {
  import opened Wrappers
  import opened Strings
  import opened Cells
  import opened Labelling
  import FedsurveyProcess

  /** `.replace([np.inf, -np.inf], np.nan)` on one column. */
  function CleanColumn(c: Column): (r: Column)
    ensures r.name == c.name && |r.cells| == |c.cells|
    ensures forall i :: 0 <= i < |c.cells| ==> r.cells[i] == ReplaceInf(c.cells[i]) && !r.cells[i].Inf?
  {
    Column(c.name, seq(|c.cells|, i requires 0 <= i < |c.cells| => ReplaceInf(c.cells[i])))
  }

  /** The cleanup of line 84 on every column of `df_new`. */
  function Cleaned(cols: seq<Column>): (r: seq<Column>)
    ensures |r| == |cols| && forall k :: 0 <= k < |cols| ==> r[k] == CleanColumn(cols[k])
  {
    seq(|cols|, k requires 0 <= k < |cols| => CleanColumn(cols[k]))
  }

  /** What the script leaves in `df` for a merged table of height `n`. */
  function ProcessSpec(df: seq<Column>, n: nat, qcut: Qcut): Result<seq<Column>, string>
    requires Rectangular(df, n)
  {
    match Transformations(df, n, qcut)
    case Failure(e) => Failure(e)
    case Success(derived) => Success(FilterColumns(df + Cleaned(derived), FullPatterns))
  }

  /** The in-place `replace` over every cell of every column. */
  method ReplaceInfinities(cols: seq<Column>) returns (out: seq<Column>)
    ensures out == Cleaned(cols)
  {
    out := cols;
    for k := 0 to |out|
      invariant |out| == |cols|
      invariant forall j :: 0 <= j < k ==> out[j] == CleanColumn(cols[j])
      invariant forall j :: k <= j < |out| ==> out[j] == cols[j]
    {
      var cells := out[k].cells;
      for i := 0 to |cells|
        invariant |cells| == |cols[k].cells|
        invariant forall j :: 0 <= j < i ==> cells[j] == ReplaceInf(cols[k].cells[j])
        invariant forall j :: i <= j < |cells| ==> cells[j] == cols[k].cells[j]
      {
        if cells[i].Inf? {
          cells := cells[i := Missing];
        }
      }
      out := out[k := Column(out[k].name, cells)];
    }
  }

  /** `df[name]` on the merged table: the column's cells, or the KeyError. */
  method Select(df: seq<Column>, name: string) returns (r: Result<seq<Value>, string>)
    ensures r.Success? <==> name in Names(df)
    ensures r.Success? ==> Find(df, name) == Some(Column(name, r.value))
    ensures r.Failure? ==> r.error == name
  {
    match Find(df, name)
    case None => return Failure(name);
    case Some(c) => return Success(c.cells);
  }

  /** Lines 53-54: one `<col>_lbl` column per mapping, in order, or the KeyError of the
      first mapped column the table lacks. */
  method LabelLoop(df: seq<Column>) returns (r: Result<seq<Column>, string>)
    ensures r.Failure? ==> Lookup(df, Required) == Failure(r.error)
    ensures r.Success? ==> |r.value| == |Mappings|
                           && forall k :: 0 <= k < |Mappings| ==>
                                Required[k] in Names(df)
                                && r.value[k] == Column(Mappings[k].0 + "_lbl", LabelCells(Find(df, Required[k]).value.cells, Mappings[k].1))
  {
    MappedFirst();
    var dfNew: seq<Column> := [];
    for k := 0 to |Mappings|
      invariant |dfNew| == k
      invariant forall j :: 0 <= j < k ==>
                  Required[j] in Names(df)
                  && dfNew[j] == Column(Mappings[j].0 + "_lbl", LabelCells(Find(df, Required[j]).value.cells, Mappings[j].1))
    {
      var (name, mapping) := Mappings[k];
      var cells := Select(df, name);
      if cells.Failure? {
        LookupFailsAt(df, Required, k);
        return Failure(name);
      }
      dfNew := dfNew + [Column(name + "_lbl", LabelCells(cells.value, mapping))];
    }
    r := Success(dfNew);
  }

  /** Lines 60-81: the age bins, the six ratio and scale columns and the deciles appended to
      the label columns, or the KeyError of the first numeric input the table lacks. */
  method NumericSteps(df: seq<Column>, n: nat, qcut: Qcut, labels: seq<Column>) returns (r: Result<seq<Column>, string>)
    requires Rectangular(df, n)
    requires forall k :: 0 <= k < 8 ==> Required[k] in Names(df)
    ensures r.Failure? ==> Lookup(df, Required) == Failure(r.error)
    ensures r.Success? ==>
              && (forall k :: 0 <= k < |Required| ==> Required[k] in Names(df))
              && r.value == labels + NumericColumns(Find(df, Required[8]).value.cells, Find(df, Required[9]).value.cells,
                                                    Find(df, Required[10]).value.cells, Find(df, Required[11]).value.cells,
                                                    Find(df, Required[12]).value.cells, qcut)
  {
    NumericInputs();
    var dfNew := labels;
    var age := Select(df, Required[8]);
    if age.Failure? {
      LookupFailsAt(df, Required, 8);
      return Failure(Required[8]);
    }
    assert forall j :: 0 <= j < 9 ==> Required[j] in Names(df);
    var ageColumn := Column("age_lbl", AgeCells(age.value));
    dfNew := dfNew + [ageColumn];
    var equity := Select(df, Required[9]);
    if equity.Failure? {
      LookupFailsAt(df, Required, 9);
      return Failure(Required[9]);
    }
    assert forall j :: 0 <= j < 10 ==> Required[j] in Names(df);
    var fin := Select(df, Required[10]);
    if fin.Failure? {
      LookupFailsAt(df, Required, 10);
      return Failure(Required[10]);
    }
    assert forall j :: 0 <= j < 11 ==> Required[j] in Names(df);
    var income := Select(df, Required[11]);
    if income.Failure? {
      LookupFailsAt(df, Required, 11);
      return Failure(Required[11]);
    }
    assert forall j :: 0 <= j < 12 ==> Required[j] in Names(df);
    assert Find(df, Required[9]).value in df && Find(df, Required[10]).value in df && Find(df, Required[11]).value in df;
    var ratios := [Column("equityfin", RatioCells(equity.value, fin.value)),
                     Column("finincome", RatioCells(fin.value, income.value)),
                     Column("finmill", ScaleCells(fin.value, 1000000.0)),
                     Column("fillthou", ScaleCells(fin.value, 1000.0)),
                     Column("incomemill", ScaleCells(income.value, 1000000.0)),
                     Column("incomethou", ScaleCells(income.value, 1000.0))];
    dfNew := dfNew + ratios;
    var year := Select(df, Required[12]);
    if year.Failure? {
      LookupFailsAt(df, Required, 12);
      return Failure(Required[12]);
    }
    assert Find(df, Required[12]).value in df;
    var decileColumn := Column("findeciles", DecileCells(year.value, fin.value, qcut));
    dfNew := dfNew + [decileColumn];
    AppendParts(labels, ageColumn, ratios, decileColumn);
    assert [ageColumn] + ratios + [decileColumn]
           == NumericColumns(age.value, equity.value, fin.value, income.value, year.value, qcut);
    r := Success(dfNew);
  }

  /** Labels built from the first column of each mapped name are the label columns of the
      derived table. */
  lemma LabelsFound(df: seq<Column>, labels: seq<Column>)
    requires forall k :: 0 <= k < |Required| ==> Required[k] in Names(df)
    requires |labels| == |Mappings|
    requires forall k :: 0 <= k < |Mappings| ==>
               labels[k] == Column(Mappings[k].0 + "_lbl", LabelCells(Find(df, Required[k]).value.cells, Mappings[k].1))
    ensures labels == LabelColumns(FoundCells(df, Required), Mappings)
  {
    var cells := FoundCells(df, Required);
    var expected := LabelColumns(cells, Mappings);
    forall k | 0 <= k < |Mappings| ensures labels[k] == expected[k] {
      assert Find(df, Required[k]).value.cells == cells[k];
    }
  }

  /** The script, step by step. */
  method Process(df: seq<Column>, n: nat, qcut: Qcut) returns (r: Result<seq<Column>, string>)
    requires Rectangular(df, n)
    ensures r == ProcessSpec(df, n, qcut)
  {
    var labels := LabelLoop(df);
    if labels.Failure? {
      return Failure(labels.error);
    }
    var derived := NumericSteps(df, n, qcut, labels.value);
    if derived.Failure? {
      return Failure(derived.error);
    }
    TransformationsFound(df, n, qcut);
    LabelsFound(df, labels.value);
    var df_new := ReplaceInfinities(derived.value);
    r := Success(FilterColumns(df + df_new, FullPatterns));
  }

  // ---------------------------------------------------------------- properties

  /** The cleanup keeps every column's name. */
  lemma CleanedNames(cols: seq<Column>)
    ensures Names(Cleaned(cols)) == Names(cols)
  {
  }

  /** The output is the matching merged columns, in order, followed by the cleaned derived
      columns but `fillthou`; no derived column in it holds an infinity. */
  lemma OutputLayout(df: seq<Column>, n: nat, qcut: Qcut)
    requires Rectangular(df, n)
    ensures var r := ProcessSpec(df, n, qcut);
            r.Success? ==>
              var cleaned := Cleaned(Transformations(df, n, qcut).value);
              && r.value == FilterColumns(df, FullPatterns) + (cleaned[..12] + cleaned[13..])
              && NoInfinity(cleaned)
  {
    var t := Transformations(df, n, qcut);
    if t.Success? {
      TransformationsShape(df, n, qcut);
      CleanedNames(t.value);
      FilterAppend(df, Cleaned(t.value), FullPatterns);
      DerivedFiltered(Cleaned(t.value));
    }
  }

  /** The script fails exactly as the fedsurvey script does: on the first missing required
      column. */
  lemma SameKeyError(df: seq<Column>, n: nat, qcut: Qcut)
    requires Rectangular(df, n)
    ensures ProcessSpec(df, n, qcut).Failure? <==> FedsurveyProcess.Process(df, n, qcut).Failure?
    ensures ProcessSpec(df, n, qcut).Failure? ==> ProcessSpec(df, n, qcut).error == FedsurveyProcess.Process(df, n, qcut).error
  {
  }

  /** The first column of that name, if any, holds no infinity. */
  predicate Finite(df: seq<Column>, name: string)
  {
    name in Names(df) ==> forall i :: 0 <= i < |Find(df, name).value.cells| ==> !Find(df, name).value.cells[i].Inf?
  }

  /** A table none of whose cells is infinite is left as it is by the cleanup. */
  lemma CleanupKeepsFinite(cols: seq<Column>)
    requires NoInfinity(cols)
    ensures Cleaned(cols) == cols
  {
    forall k | 0 <= k < |cols| ensures CleanColumn(cols[k]) == cols[k] {
      var c := cols[k];
      assert CleanColumn(c).cells == c.cells;
    }
  }

  /** No cell is infinite. */
  predicate NoInfinity(cols: seq<Column>)
  {
    forall c, i :: c in cols && 0 <= i < |c.cells| ==> !c.cells[i].Inf?
  }

  /** Label columns hold text or missing cells only. */
  lemma LabelsFinite(cells: seq<seq<Value>>, ms: seq<(string, Mapping)>)
    requires |ms| <= |cells|
    ensures NoInfinity(LabelColumns(cells, ms))
  {
    var labels := LabelColumns(cells, ms);
    forall c, i | c in labels && 0 <= i < |c.cells| ensures !c.cells[i].Inf? {
      var k :| 0 <= k < |labels| && labels[k] == c;
      LabelLookup(cells[k][i], ms[k].1, "");
    }
  }

  /** With finite fin and income cells, the age bins, ratios, scales and deciles are finite. */
  lemma NumericFinite(age: seq<Value>, equity: seq<Value>, fin: seq<Value>, income: seq<Value>,
                      year: seq<Value>, qcut: Qcut)
    requires |equity| == |fin| == |income| == |year|
    requires forall i :: 0 <= i < |fin| ==> !fin[i].Inf? && !income[i].Inf?
    ensures NoInfinity(NumericColumns(age, equity, fin, income, year, qcut))
  {
    var numeric := NumericColumns(age, equity, fin, income, year, qcut);
    forall c, i | c in numeric && 0 <= i < |c.cells| ensures !c.cells[i].Inf? {
      var k :| 0 <= k < |numeric| && numeric[k] == c;
      if k == 3 || k == 4 {
        ScaleRules(fin[i], if k == 3 then 1000000.0 else 1000.0);
      } else if k == 5 || k == 6 {
        ScaleRules(income[i], if k == 5 then 1000000.0 else 1000.0);
      } else if k == 7 {
        DecileValues(year, fin, qcut, i);
      }
    }
  }

  /** When no fin or income cell is infinite, no derived cell is: labels and age bins are
      text or missing, ratios are cleaned, scales keep their sources' finiteness and deciles
      are numbers or missing. */
  lemma DerivedFinite(df: seq<Column>, n: nat, qcut: Qcut)
    requires Rectangular(df, n) && Finite(df, "fin") && Finite(df, "income")
    requires Transformations(df, n, qcut).Success?
    ensures NoInfinity(Transformations(df, n, qcut).value)
  {
    TransformationsFound(df, n, qcut);
    NumericInputs();
    var cells := FoundCells(df, Required);
    LookupHeights(df, n, Required);
    LabelsFinite(cells, Mappings);
    NumericFinite(cells[8], cells[9], cells[10], cells[11], cells[12], qcut);
  }

  /** When no fin or income cell is infinite the cleanup changes nothing, and the script's
      output is the fedsurvey script's full table. */
  lemma AgreesWithFedsurvey(df: seq<Column>, n: nat, qcut: Qcut)
    requires Rectangular(df, n) && Finite(df, "fin") && Finite(df, "income")
    ensures var r := ProcessSpec(df, n, qcut);
            r.Success? ==> r.value == FedsurveyProcess.Process(df, n, qcut).value.full
  {
    if Transformations(df, n, qcut).Success? {
      DerivedFinite(df, n, qcut);
      CleanupKeepsFinite(Transformations(df, n, qcut).value);
    }
  }
}
