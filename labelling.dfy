/** The column rules both `process.py` scripts share: eight code-to-label lookups, the
    5-year age bins, the ratio and scale columns, the per-year financial deciles, and the
    substring allowlists that choose the output columns. Tables are sequences of named
    columns of equal height. */
module Labelling {
  import opened Wrappers
  import opened PyRange
  import opened Decimal
  import opened Strings
  import opened Cells

  /** A code-to-label dictionary of `mappings`. */
  type Mapping = map<int, string>

  const HhsexLabels: Mapping := map[0 := "inap.", 1 := "male", 2 := "female"]
  const EdclLabels: Mapping := map[1 := "no high school diploma/GED", 2 := "high school diploma or GED",
                                   3 := "some college or Assoc. degree", 4 := "Bachelors degree or higher"]
  const MarriedLabels: Mapping := map[1 := "married/living with partner", 2 := "neither married nor living with partner"]
  const LfLabels: Mapping := map[0 := "working in some way", 1 := "not working at all"]
  const RaceclLabels: Mapping := map[1 := "white non-Hispanic", 2 := "nonwhite or Hispanic"]
  const Racecl4Labels: Mapping := map[1 := "white non-Hispanic", 2 := "black/African-American non-Hispanic",
                                      3 := "Hispanic or Latino", 4 := "Other or Multiple race"]
  const Racecl5Labels: Mapping := map[1 := "white non-Hispanic", 2 := "black/African-American non-Hispanic",
                                      3 := "Hispanic or Latino", 4 := "Asian", 5 := "Other or Multiple race"]
  const RaceLabels: Mapping := map[1 := "white non-Hispanic", 2 := "black/African-American", 3 := "Hispanic",
                                   4 := "Asian", 5 := "other"]

  /** `mappings.items()`, in insertion order. */
  const Mappings: seq<(string, Mapping)> :=
    [("hhsex", HhsexLabels), ("edcl", EdclLabels), ("married", MarriedLabels), ("lf", LfLabels),
     ("racecl", RaceclLabels), ("racecl4", Racecl4Labels), ("racecl5", Racecl5Labels), ("race", RaceLabels)]

  /** The input columns in the order the scripts first index them; a missing one raises
      KeyError with its name. */
  const Required: seq<string> :=
    ["hhsex", "edcl", "married", "lf", "racecl", "racecl4", "racecl5", "race",
     "age", "equity", "fin", "income", "year"]

  /** The derived columns, in the order both scripts create them: the labels, then the
      age bins, ratios, scales and deciles. */
  const LabelNames: seq<string> :=
    ["hhsex_lbl", "edcl_lbl", "married_lbl", "lf_lbl", "racecl_lbl", "racecl4_lbl", "racecl5_lbl", "race_lbl"]
  const NumericNames: seq<string> :=
    ["age_lbl", "equityfin", "finincome", "finmill", "fillthou", "incomemill", "incomethou", "findeciles"]
  const DerivedNames: seq<string> := LabelNames + NumericNames

  /** The alternatives of the full and the minimal `filter(regex=...)`. */
  const FullPatterns: seq<string> :=
    ["age", "race", "hhsex", "edcl", "married", "lf", "fin", "inc", "equity", "networth", "asset", "year", "wgt", "savres"]
  const MinimalPatterns: seq<string> := ["age", "edcl", "fin", "inc", "networth", "asset", "year", "wgt"]

  // ---------------------------------------------------------------- code labels

  /** `Series.map(mapping)` on one cell: a number equal to a code gets its label, any other
      cell is missing. */
  function Label(v: Value, m: Mapping): Value
  {
    match v
    case Num(x) => if x.Floor as real == x && x.Floor in m then Text(m[x.Floor]) else Missing
    case _ => Missing
  }

  /** A label is produced exactly for a cell holding a code of the mapping, and it is that
      code's label; every other cell gives missing. */
  lemma LabelLookup(v: Value, m: Mapping, s: string)
    ensures Label(v, m) == Text(s) <==> exists code :: code in m && v == Num(code as real) && m[code] == s
    ensures Label(v, m) == Missing <==> forall code :: code in m ==> v != Num(code as real)
    ensures Label(v, m).Text? || Label(v, m).Missing?
  {
    if v.Num? && v.x.Floor as real == v.x && v.x.Floor in m {
      assert v == Num(v.x.Floor as real);
    }
  }

  /** The mapped columns are the first eight required ones, in order. */
  lemma MappedFirst()
    ensures |Mappings| == 8 && forall k :: 0 <= k < 8 ==> Mappings[k].0 == Required[k]
  {
  }

  /** Eight columns are labelled, each `<col>_lbl`; hhsex maps 0, 1, 2 and leaves 9 missing. */
  lemma EightLabelledColumns()
    ensures |Mappings| == 8
    ensures forall k :: 0 <= k < 8 ==> Mappings[k].0 + "_lbl" == DerivedNames[k]
    ensures Label(Num(0.0), HhsexLabels) == Text("inap.") && Label(Num(1.0), HhsexLabels) == Text("male")
    ensures Label(Num(2.0), HhsexLabels) == Text("female") && Label(Num(9.0), HhsexLabels) == Missing
  {
  }

  function LabelCells(cells: seq<Value>, m: Mapping): (r: seq<Value>)
    ensures |r| == |cells| && forall i :: 0 <= i < |cells| ==> r[i] == Label(cells[i], m)
  {
    seq(|cells|, i requires 0 <= i < |cells| => Label(cells[i], m))
  }

  // ---------------------------------------------------------------- column lookup

  /** `df[name]` for each name in turn: the cells of the first column so named, or the
      KeyError of the first name the table lacks. */
  function Lookup(cols: seq<Column>, names: seq<string>): (r: Result<seq<seq<Value>>, string>)
    ensures r.Success? <==> forall k :: 0 <= k < |names| ==> names[k] in Names(cols)
    ensures r.Success? ==> |r.value| == |names|
                           && forall k :: 0 <= k < |names| ==> Find(cols, names[k]) == Some(Column(names[k], r.value[k]))
    ensures r.Failure? ==> r.error in names && r.error !in Names(cols)
  {
    if names == [] then Success([])
    else match Find(cols, names[0])
      case None => Failure(names[0])
      case Some(c) =>
        match Lookup(cols, names[1..])
        case Failure(e) => Failure(e)
        case Success(rest) => Success([c.cells] + rest)
  }

  /** The KeyError names the first missing column: every earlier one is present. */
  lemma {:induction false} LookupFailsAt(cols: seq<Column>, names: seq<string>, k: nat)
    requires k < |names| && names[k] !in Names(cols)
    requires forall j :: 0 <= j < k ==> names[j] in Names(cols)
    ensures Lookup(cols, names) == Failure(names[k])
  {
    if k > 0 {
      LookupFailsAt(cols, names[1..], k - 1);
    }
  }

  /** The `<col>_lbl` columns for the given mappings, from their looked-up cells, in order. */
  function LabelColumns(cells: seq<seq<Value>>, ms: seq<(string, Mapping)>): (r: seq<Column>)
    requires |ms| <= |cells|
    ensures |r| == |ms|
    ensures forall k :: 0 <= k < |ms| ==> r[k] == Column(ms[k].0 + "_lbl", LabelCells(cells[k], ms[k].1))
  {
    if ms == [] then []
    else [Column(ms[0].0 + "_lbl", LabelCells(cells[0], ms[0].1))] + LabelColumns(cells[1..], ms[1..])
  }

  // ---------------------------------------------------------------- age bins

  /** The bin edges `range(20, 100, 5)` and the label starts `range(20, 95, 5)`. */
  const AgeLow: int := 20
  const AgeWidth: nat := 5
  const AgeEdges: seq<int> := Range(AgeLow, 100, AgeWidth)
  const AgeStarts: seq<int> := Range(AgeLow, 95, AgeWidth)
  /** `labels = [f"({i+1}-{i+5}]" for i in range(20, 95, 5)]`. */
  const AgeLabels: seq<string> := IntervalLabels(AgeStarts)

  function IntervalLabels(starts: seq<int>): (r: seq<string>)
    ensures |r| == |starts|
    ensures forall i :: 0 <= i < |starts| ==>
              r[i] == "(" + DecimalString(starts[i] + 1) + "-" + DecimalString(starts[i] + 5) + "]"
  {
    if starts == [] then []
    else ["(" + DecimalString(starts[0] + 1) + "-" + DecimalString(starts[0] + 5) + "]"] + IntervalLabels(starts[1..])
  }

  lemma AgeEdgesListed()
    ensures |AgeEdges| == 16 && forall i :: 0 <= i < 16 ==> AgeEdges[i] == 20 + 5 * i
  {
    RangeLength(20, 100, 5);
    forall i | 0 <= i < 16 ensures AgeEdges[i] == 20 + 5 * i {
      RangeAt(20, 100, 5, i);
    }
  }

  /** Fifteen labels, the k-th reading "(21+5k-25+5k]". */
  lemma AgeLabelsListed()
    ensures |AgeLabels| == 15
    ensures forall k :: 0 <= k < 15 ==>
              AgeLabels[k] == "(" + DecimalString(21 + 5 * k) + "-" + DecimalString(25 + 5 * k) + "]"
  {
    assert |AgeStarts| == 15 by {
      RangeLength(AgeLow, 95, AgeWidth);
    }
    forall k | 0 <= k < 15
      ensures AgeLabels[k] == "(" + DecimalString(21 + 5 * k) + "-" + DecimalString(25 + 5 * k) + "]"
    {
      assert AgeStarts[k] == 20 + 5 * k by {
        RangeAt(AgeLow, 95, AgeWidth, k);
      }
    }
  }

  /** The first label is "(21-25]". */
  lemma FirstAgeLabel()
    ensures |AgeLabels| == 15 && AgeLabels[0] == "(21-25]"
  {
    AgeLabelsListed();
    TwoDigitsLiteral(21, '2', '1');
    TwoDigitsLiteral(25, '2', '5');
    IntervalText(['2', '1'], ['2', '5']);
  }

  /** The last label is "(91-95]". */
  lemma LastAgeLabel()
    ensures |AgeLabels| == 15 && AgeLabels[14] == "(91-95]"
  {
    AgeLabelsListed();
    TwoDigitsLiteral(91, '9', '1');
    TwoDigitsLiteral(95, '9', '5');
    IntervalText(['9', '1'], ['9', '5']);
  }

  lemma IntervalText(a: string, b: string)
    requires |a| == 2 && |b| == 2
    ensures "(" + a + "-" + b + "]" == ['(', a[0], a[1], '-', b[0], b[1], ']']
  {
  }

  /** `pd.cut(..., right=True)`: the first bin (edges[i], edges[i+1]] from `i` on holding `a`. */
  function BinFrom(edges: seq<int>, a: real, i: nat): (r: Option<nat>)
    ensures r.Some? ==> i <= r.value && r.value + 1 < |edges|
                        && edges[r.value] as real < a <= edges[r.value + 1] as real
    decreases |edges| - i
  {
    if i + 1 >= |edges| then None
    else if edges[i] as real < a <= edges[i + 1] as real then Some(i)
    else BinFrom(edges, a, i + 1)
  }

  /** The age label of one cell; `pd.cut` needs one label per bin, which AgeLabelsListed shows. */
  function AgeLabel(v: Value): Value
  {
    if !v.Num? then Missing
    else
      var bin := BinFrom(AgeEdges, v.x, 0);
      if bin.Some? && bin.value < |AgeLabels| then Text(AgeLabels[bin.value]) else Missing
  }

  lemma {:induction false} BinFromFinds(a: real, k: nat, i: nat)
    requires i <= k < 15 && (20 + 5 * k) as real < a <= (25 + 5 * k) as real
    ensures BinFrom(AgeEdges, a, i) == Some(k)
    decreases k - i
  {
    AgeEdgesListed();
    if i < k {
      BinFromFinds(a, k, i + 1);
    }
  }

  lemma {:induction false} BinFromOutside(a: real, i: nat)
    requires a <= 20.0 || a > 95.0
    ensures BinFrom(AgeEdges, a, i) == None
    decreases 16 - i
  {
    AgeEdgesListed();
    if i + 1 < 16 {
      BinFromOutside(a, i + 1);
    }
  }

  /** An age in (20+5k, 25+5k] gets the k-th label. */
  lemma AgeBinInside(a: real, k: nat)
    requires k < 15 && (20 + 5 * k) as real < a <= (25 + 5 * k) as real
    ensures k < |AgeLabels| && AgeLabel(Num(a)) == Text(AgeLabels[k])
  {
    AgeLabelsListed();
    BinFromFinds(a, k, 0);
  }

  /** An age gets a label exactly when it lies in (20, 95]; a cell that is not a number never
      does. */
  lemma AgeBinOutside(v: Value)
    ensures AgeLabel(v) == Missing <==> !v.Num? || v.x <= 20.0 || v.x > 95.0
  {
    if v.Num? {
      var a := v.x;
      if a <= 20.0 || a > 95.0 {
        BinFromOutside(a, 0);
      } else {
        var t := ((a - 20.0) / 5.0).Floor;
        assert (t as real) * 5.0 <= a - 20.0 < (t as real) * 5.0 + 5.0;
        var j := if (t * 5 + 20) as real == a then t - 1 else t;
        assert 0 <= j < 15;
        AgeBinInside(a, j);
      }
    }
  }

  function AgeCells(ages: seq<Value>): (r: seq<Value>)
    ensures |r| == |ages| && forall i :: 0 <= i < |ages| ==> r[i] == AgeLabel(ages[i])
  {
    seq(|ages|, i requires 0 <= i < |ages| => AgeLabel(ages[i]))
  }

  // ---------------------------------------------------------------- ratios and scales

  /** IEEE division of two cells, NaN written as missing; text counts as missing. */
  function Div(a: Value, b: Value): Value
  {
    match (a, b)
    case (Num(x), Num(y)) =>
      if y != 0.0 then Num(x / y)
      else if x > 0.0 then Inf(true)
      else if x < 0.0 then Inf(false)
      else Missing
    case (Num(x), Inf(_)) => Num(0.0)
    case (Inf(s), Num(y)) => if y < 0.0 then Inf(!s) else Inf(s)
    case _ => Missing
  }

  /** The quotient of two finite numbers times the denominator is the numerator; a zero
      denominator gives an infinity of the numerator's sign, or missing for 0/0. */
  lemma DivExact(x: real, y: real)
    ensures y != 0.0 ==> Div(Num(x), Num(y)).Num? && Div(Num(x), Num(y)).x * y == x
    ensures y == 0.0 ==> Div(Num(x), Num(y)) == (if x > 0.0 then Inf(true) else if x < 0.0 then Inf(false) else Missing)
  {
  }

  /** `.replace([np.inf, -np.inf], np.nan)` on one cell. */
  function ReplaceInf(v: Value): (r: Value)
    ensures !r.Inf? && (v.Inf? ==> r == Missing) && (!v.Inf? ==> r == v)
  {
    if v.Inf? then Missing else v
  }

  /** `num.div(den).replace([inf, -inf], nan)`. */
  function Ratio(a: Value, b: Value): Value
  {
    ReplaceInf(Div(a, b))
  }

  /** A zero denominator gives missing, a nonzero one the quotient; a ratio is never infinite. */
  lemma RatioRules(a: Value, x: real, y: real)
    ensures Ratio(a, Num(0.0)) == Missing
    ensures y != 0.0 ==> Ratio(Num(x), Num(y)) == Num(x / y)
    ensures !Ratio(a, Num(y)).Inf?
  {
  }

  function RatioCells(num: seq<Value>, den: seq<Value>): (r: seq<Value>)
    requires |num| == |den|
    ensures |r| == |num| && forall i :: 0 <= i < |num| ==> r[i] == Ratio(num[i], den[i])
  {
    seq(|num|, i requires 0 <= i < |num| => Ratio(num[i], den[i]))
  }

  /** `col / d` for a positive constant. */
  function ScaleCells(cells: seq<Value>, d: real): (r: seq<Value>)
    requires d > 0.0
    ensures |r| == |cells| && forall i :: 0 <= i < |cells| ==> r[i] == Div(cells[i], Num(d))
  {
    seq(|cells|, i requires 0 <= i < |cells| => Div(cells[i], Num(d)))
  }

  /** A scaled cell is the number divided by the constant; infinities keep their sign and
      missing stays missing, so a scaled cell is infinite exactly when its source is. */
  lemma ScaleRules(v: Value, d: real)
    requires d > 0.0
    ensures v.Num? ==> Div(v, Num(d)) == Num(v.x / d) && Div(v, Num(d)).x * d == v.x
    ensures v.Inf? ==> Div(v, Num(d)) == v
    ensures (v.Missing? || v.Text?) ==> Div(v, Num(d)) == Missing
    ensures Div(v, Num(d)).Inf? <==> v.Inf?
  {
  }

  // ---------------------------------------------------------------- deciles

  /** A bin index of `qcut(q=10, labels=False)`: at most ten bins survive `duplicates="drop"`. */
  type Decile = b: nat | b < 10

  /** `pd.qcut` on one year's fin values, asked for the bin of the value at a position; None
      where it yields NaN. The quantile computation is not modelled. */
  type Qcut = (seq<Value>, nat) -> Option<Decile>

  /** The fin values of the rows whose year is `y`, in row order. */
  function Group(years: seq<Value>, fins: seq<Value>, y: Value): seq<Value>
    requires |years| == |fins|
    decreases |years|
  {
    if years == [] then []
    else
      Group(years[..|years| - 1], fins[..|fins| - 1], y)
      + (if years[|years| - 1] == y then [fins[|fins| - 1]] else [])
  }

  /** `groupby("year")["fin"].transform(qcut) / 10` at row `i`: rows without a year belong to
      no group, and a missing fin has no bin. */
  function DecileAt(years: seq<Value>, fins: seq<Value>, qcut: Qcut, i: nat): Value
    requires |years| == |fins| && i < |fins|
  {
    if years[i].Missing? || fins[i].Missing? || fins[i].Text? then Missing
    else match qcut(Group(years, fins, years[i]), |Group(years[..i], fins[..i], years[i])|)
      case None => Missing
      case Some(b) => Num(b as real / 10.0)
  }

  function DecileCells(years: seq<Value>, fins: seq<Value>, qcut: Qcut): (r: seq<Value>)
    requires |years| == |fins|
    ensures |r| == |fins| && forall i :: 0 <= i < |fins| ==> r[i] == DecileAt(years, fins, qcut, i)
  {
    seq(|fins|, i requires 0 <= i < |fins| => DecileAt(years, fins, qcut, i))
  }

  /** Every decile cell is missing or one of 0, 0.1, ..., 0.9. */
  lemma DecileValues(years: seq<Value>, fins: seq<Value>, qcut: Qcut, i: nat)
    requires |years| == |fins| && i < |fins|
    ensures var v := DecileAt(years, fins, qcut, i);
            v == Missing || (v.Num? && 0 <= (v.x * 10.0).Floor < 10 && (v.x * 10.0).Floor as real == v.x * 10.0)
  {
  }

  /** Deciles are computed within a year: a row of another year added to the table does not
      change the decile of any existing row. */
  lemma DecileWithinYear(years: seq<Value>, fins: seq<Value>, qcut: Qcut, y: Value, f: Value, i: nat)
    requires |years| == |fins| && i < |fins| && years[i] != y
    ensures DecileAt(years + [y], fins + [f], qcut, i) == DecileAt(years, fins, qcut, i)
  {
    var ys, fs := years + [y], fins + [f];
    assert ys[..|ys| - 1] == years && fs[..|fs| - 1] == fins;
    assert Group(ys, fs, years[i]) == Group(years, fins, years[i]);
    assert ys[..i] == years[..i] && fs[..i] == fins[..i];
  }

  // ---------------------------------------------------------------- derived columns

  /** The derived columns after the labels, from the age, equity, fin, income and year cells. */
  function NumericColumns(age: seq<Value>, equity: seq<Value>, fin: seq<Value>, income: seq<Value>,
                          year: seq<Value>, qcut: Qcut): seq<Column>
    requires |equity| == |fin| == |income| == |year|
  {
    [Column("age_lbl", AgeCells(age))]
    + [Column("equityfin", RatioCells(equity, fin)),
       Column("finincome", RatioCells(fin, income)),
       Column("finmill", ScaleCells(fin, 1000000.0)),
       Column("fillthou", ScaleCells(fin, 1000.0)),
       Column("incomemill", ScaleCells(income, 1000000.0)),
       Column("incomethou", ScaleCells(income, 1000.0))]
    + [Column("findeciles", DecileCells(year, fin, qcut))]
  }

  /** Every looked-up column has the table's height. */
  lemma LookupHeights(cols: seq<Column>, n: nat, names: seq<string>)
    requires Rectangular(cols, n) && Lookup(cols, names).Success?
    ensures forall k :: 0 <= k < |names| ==> |Lookup(cols, names).value[k]| == n
  {
    var cells := Lookup(cols, names).value;
    forall k | 0 <= k < |names| ensures |cells[k]| == n {
      assert Find(cols, names[k]).value in cols;
    }
  }

  /** The sixteen derived columns of a table of height `n`, or the KeyError of the first
      required column it lacks. */
  function Transformations(cols: seq<Column>, n: nat, qcut: Qcut): (r: Result<seq<Column>, string>)
    requires Rectangular(cols, n)
  {
    match Lookup(cols, Required)
    case Failure(e) => Failure(e)
    case Success(cells) =>
      LookupHeights(cols, n, Required);
      Success(LabelColumns(cells, Mappings) + NumericColumns(cells[8], cells[9], cells[10], cells[11], cells[12], qcut))
  }

  /** After the eight mapped columns the scripts read age, equity, fin, income and year. */
  lemma NumericInputs()
    ensures |Required| == 13 && Required[8..] == ["age", "equity", "fin", "income", "year"]
  {
  }

  /** The cells of the first column of each name, for names the table has. */
  function FoundCells(cols: seq<Column>, names: seq<string>): (r: seq<seq<Value>>)
    requires forall k :: 0 <= k < |names| ==> names[k] in Names(cols)
    ensures |r| == |names| && forall k :: 0 <= k < |names| ==> Find(cols, names[k]) == Some(Column(names[k], r[k]))
  {
    seq(|names|, k requires 0 <= k < |names| => Find(cols, names[k]).value.cells)
  }

  /** With every required column present, the derived columns are computed from the first
      column of each required name. */
  lemma TransformationsFound(cols: seq<Column>, n: nat, qcut: Qcut)
    requires Rectangular(cols, n)
    requires forall k :: 0 <= k < |Required| ==> Required[k] in Names(cols)
    ensures var cells := FoundCells(cols, Required);
            Transformations(cols, n, qcut).Success?
            && Transformations(cols, n, qcut).value
               == LabelColumns(cells, Mappings) + NumericColumns(cells[8], cells[9], cells[10], cells[11], cells[12], qcut)
  {
    var look := Lookup(cols, Required);
    assert look.value == FoundCells(cols, Required);
    LookupHeights(cols, n, Required);
  }

  /** A KeyError names the first required column the table lacks, and it is raised
      exactly when one is missing. */
  lemma TransformationsFailure(cols: seq<Column>, n: nat, qcut: Qcut)
    requires Rectangular(cols, n)
    ensures var r := Transformations(cols, n, qcut);
            && (r.Failure? <==> exists k :: 0 <= k < |Required| && Required[k] !in Names(cols))
            && (r.Failure? ==> r.error in Required && r.error !in Names(cols))
  {
  }

  /** The label columns are named `<col>_lbl` in the order of `mappings`. */
  lemma LabelColumnsShape(cells: seq<seq<Value>>, n: nat)
    requires |cells| >= |Mappings| && forall k :: 0 <= k < |Mappings| ==> |cells[k]| == n
    ensures Names(LabelColumns(cells, Mappings)) == LabelNames
    ensures Rectangular(LabelColumns(cells, Mappings), n)
  {
    var labels := LabelColumns(cells, Mappings);
    forall k | 0 <= k < 8 ensures labels[k].name == LabelNames[k] {
      assert labels[k].name == Mappings[k].0 + "_lbl";
    }
  }

  /** The columns after the labels carry the eight numeric names and the table's height. */
  lemma NumericColumnsShape(age: seq<Value>, equity: seq<Value>, fin: seq<Value>, income: seq<Value>,
                            year: seq<Value>, qcut: Qcut, n: nat)
    requires |age| == |equity| == |fin| == |income| == |year| == n
    ensures Names(NumericColumns(age, equity, fin, income, year, qcut)) == NumericNames
    ensures Rectangular(NumericColumns(age, equity, fin, income, year, qcut), n)
  {
    var numeric := NumericColumns(age, equity, fin, income, year, qcut);
    forall k | 0 <= k < 8 ensures numeric[k].name == NumericNames[k] && |numeric[k].cells| == n {
    }
  }

  /** The derived columns are the sixteen named ones, each of the table's height. */
  lemma TransformationsShape(cols: seq<Column>, n: nat, qcut: Qcut)
    requires Rectangular(cols, n)
    ensures var r := Transformations(cols, n, qcut);
            r.Success? ==> Names(r.value) == DerivedNames && Rectangular(r.value, n)
  {
    var look := Lookup(cols, Required);
    if look.Success? {
      var cells := look.value;
      LookupHeights(cols, n, Required);
      var labels := LabelColumns(cells, Mappings);
      var numeric := NumericColumns(cells[8], cells[9], cells[10], cells[11], cells[12], qcut);
      LabelColumnsShape(cells, n);
      NumericColumnsShape(cells[8], cells[9], cells[10], cells[11], cells[12], qcut, n);
      NamesAppend(labels, numeric);
    }
  }

  // ---------------------------------------------------------------- column filters

  /** `filter(regex=...)` with plain alternatives: the columns whose name contains one of
      them, in table order. */
  function FilterColumns(cols: seq<Column>, pats: seq<string>): (r: seq<Column>)
    ensures forall c :: c in r <==> c in cols && ContainsAny(c.name, pats)
  {
    if cols == [] then []
    else (if ContainsAny(cols[0].name, pats) then [cols[0]] else []) + FilterColumns(cols[1..], pats)
  }

  /** Filtering the original columns followed by the derived ones keeps that order. */
  lemma {:induction false} FilterAppend(a: seq<Column>, b: seq<Column>, pats: seq<string>)
    ensures FilterColumns(a + b, pats) == FilterColumns(a, pats) + FilterColumns(b, pats)
  {
    if a != [] {
      assert (a + b)[0] == a[0] && (a + b)[1..] == a[1..] + b;
      FilterAppend(a[1..], b, pats);
    } else {
      assert a + b == b;
    }
  }

  /** A filter whose every column matches keeps the table as it is. */
  lemma {:induction false} FilterKeepsAll(cols: seq<Column>, pats: seq<string>)
    requires forall c :: c in cols ==> ContainsAny(c.name, pats)
    ensures FilterColumns(cols, pats) == cols
  {
    if cols != [] {
      FilterKeepsAll(cols[1..], pats);
    }
  }

  /** A filter that matches every column but the k-th removes just that one. */
  lemma FilterDropsOne(cols: seq<Column>, pats: seq<string>, k: nat)
    requires k < |cols| && !ContainsAny(cols[k].name, pats)
    requires forall i :: 0 <= i < |cols| && i != k ==> ContainsAny(cols[i].name, pats)
    ensures FilterColumns(cols, pats) == cols[..k] + cols[k + 1..]
  {
    FilterKeepsSlice(cols, pats, 0, k);
    FilterKeepsSlice(cols, pats, k + 1, |cols|);
    FilterDropsSingle(cols[k], pats);
    SpliceAt(cols, k);
    FilterSplice(cols[0..k], [cols[k]], cols[k + 1..|cols|], pats);
  }

  /** A lone column that matches no alternative is filtered out. */
  lemma FilterDropsSingle(c: Column, pats: seq<string>)
    requires !ContainsAny(c.name, pats)
    ensures FilterColumns([c], pats) == []
  {
    assert [c][1..] == [];
  }

  /** A sequence is its prefix, the k-th element and its suffix. */
  lemma SpliceAt(cols: seq<Column>, k: nat)
    requires k < |cols|
    ensures cols == cols[0..k] + [cols[k]] + cols[k + 1..|cols|]
  {
  }

  /** The filter keeps a slice whose every column matches. */
  lemma FilterKeepsSlice(cols: seq<Column>, pats: seq<string>, lo: nat, hi: nat)
    requires lo <= hi <= |cols|
    requires forall i :: lo <= i < hi ==> ContainsAny(cols[i].name, pats)
    ensures FilterColumns(cols[lo..hi], pats) == cols[lo..hi]
  {
    forall c | c in cols[lo..hi] ensures ContainsAny(c.name, pats) {
      var i :| 0 <= i < hi - lo && cols[lo..hi][i] == c;
      assert cols[lo + i] == c;
    }
    FilterKeepsAll(cols[lo..hi], pats);
  }

  lemma FilterSplice(kept: seq<Column>, dropped: seq<Column>, rest: seq<Column>, pats: seq<string>)
    requires FilterColumns(kept, pats) == kept && FilterColumns(dropped, pats) == [] && FilterColumns(rest, pats) == rest
    ensures FilterColumns(kept + dropped + rest, pats) == kept + rest
  {
    FilterAppend(kept + dropped, rest, pats);
    FilterAppend(kept, dropped, pats);
    assert kept + [] == kept;
  }

  /** Of the sixteen derived columns the full filter keeps all but `fillthou`, in order. */
  lemma DerivedFiltered(derived: seq<Column>)
    requires Names(derived) == DerivedNames
    ensures FilterColumns(derived, FullPatterns) == derived[..12] + derived[13..]
  {
    DerivedKept();
    FillthouDropped();
    forall i | 0 <= i < 16 && i != 12 ensures ContainsAny(derived[i].name, FullPatterns) {
      if i < 12 {
        assert derived[i].name == (DerivedNames[..12] + DerivedNames[13..])[i];
      } else {
        assert derived[i].name == (DerivedNames[..12] + DerivedNames[13..])[i - 1];
      }
    }
    FilterDropsOne(derived, FullPatterns, 12);
  }

  /** Every minimal alternative is a full alternative, so a name the minimal filter keeps
      the full filter keeps too. */
  lemma MinimalWithinFull(name: string)
    ensures ContainsAny(name, MinimalPatterns) ==> ContainsAny(name, FullPatterns)
  {
    if ContainsAny(name, MinimalPatterns) {
      var k :| 0 <= k < |MinimalPatterns| && Contains(name, MinimalPatterns[k]);
      var j := [0, 3, 6, 7, 9, 10, 11, 12][k];
      assert FullPatterns[j] == MinimalPatterns[k];
    }
  }

  /** `fillthou` contains none of the fourteen alternatives. */
  lemma FillthouDropped()
    ensures !ContainsAny("fillthou", FullPatterns)
  {
    forall k | 0 <= k < |FullPatterns| ensures !Contains("fillthou", FullPatterns[k]) {
      FillthouLacks(k);
    }
  }

  /** The k-th alternative does not occur in `fillthou`. */
  lemma FillthouLacks(k: nat)
    requires k < |FullPatterns|
    ensures !Contains("fillthou", FullPatterns[k])
  {
    if k == 5 {
      FillthouLacksLf();
    } else if k < 5 {
      FillthouLacksA();
    } else if k < 10 {
      FillthouLacksB();
    } else {
      FillthouLacksC();
    }
  }

  /** `lf` fails on position: the only `f` of `fillthou` is its first character. */
  lemma FillthouLacksLf()
    ensures !Contains("fillthou", FullPatterns[5])
  {
    OccurrenceChars("fillthou", "lf", 1);
    assert "fillthou"[1..] == "illthou";
  }

  /** Each alternative before `lf` has a character that `fillthou` lacks. */
  lemma FillthouLacksA()
    ensures forall k :: 0 <= k < 5 ==> !Contains("fillthou", FullPatterns[k])
  {
    OccurringChar("fillthou", "age", 'a');
    OccurringChar("fillthou", "race", 'a');
    OccurringChar("fillthou", "hhsex", 's');
    OccurringChar("fillthou", "edcl", 'e');
    OccurringChar("fillthou", "married", 'a');
  }

  /** So do the four alternatives after `lf`. */
  lemma FillthouLacksB()
    ensures forall k :: 6 <= k < 10 ==> !Contains("fillthou", FullPatterns[k])
  {
    OccurringChar("fillthou", "fin", 'n');
    OccurringChar("fillthou", "inc", 'n');
    OccurringChar("fillthou", "equity", 'e');
    OccurringChar("fillthou", "networth", 'n');
  }

  /** And the last four. */
  lemma FillthouLacksC()
    ensures forall k :: 10 <= k < 14 ==> !Contains("fillthou", FullPatterns[k])
  {
    OccurringChar("fillthou", "asset", 'a');
    OccurringChar("fillthou", "year", 'y');
    OccurringChar("fillthou", "wgt", 'w');
    OccurringChar("fillthou", "savres", 's');
  }

  /** Every derived name but `fillthou` (the 13th) contains one of the alternatives. */
  lemma DerivedKept()
    ensures DerivedNames[12] == "fillthou"
    ensures forall name :: name in DerivedNames[..12] + DerivedNames[13..] ==> ContainsAny(name, FullPatterns)
  {
    LabelNamesKept();
    NumericNamesKept();
    assert DerivedNames[..12] + DerivedNames[13..] == LabelNames + (NumericNames[..4] + NumericNames[5..]);
  }

  /** The eight label columns match `hhsex`, `edcl`, `married`, `lf` or `race`. */
  lemma LabelNamesKept()
    ensures forall name :: name in LabelNames ==> ContainsAny(name, FullPatterns)
  {
    forall name | name in LabelNames ensures ContainsAny(name, FullPatterns) {
      if name == "hhsex_lbl" {
        PrefixContained(name, FullPatterns, 2);
      } else if name == "edcl_lbl" {
        PrefixContained(name, FullPatterns, 3);
      } else if name == "married_lbl" {
        PrefixContained(name, FullPatterns, 4);
      } else if name == "lf_lbl" {
        PrefixContained(name, FullPatterns, 5);
      } else if name == "racecl_lbl" {
        PrefixContained(name, FullPatterns, 1);
      } else if name == "racecl4_lbl" {
        PrefixContained(name, FullPatterns, 1);
      } else if name == "racecl5_lbl" {
        PrefixContained(name, FullPatterns, 1);
      } else if name == "race_lbl" {
        PrefixContained(name, FullPatterns, 1);
      }
    }
  }

  /** The age bins and the ratio columns other than `fillthou` match `age`, `fin`, `inc` or `equity`. */
  lemma NumericNamesKept()
    ensures NumericNames[4] == "fillthou"
    ensures forall name :: name in NumericNames[..4] + NumericNames[5..] ==> ContainsAny(name, FullPatterns)
  {
    forall name | name in NumericNames[..4] + NumericNames[5..] ensures ContainsAny(name, FullPatterns) {
      if name == "age_lbl" {
        PrefixContained(name, FullPatterns, 0);
      } else if name == "equityfin" {
        PrefixContained(name, FullPatterns, 8);
      } else if name == "finincome" {
        PrefixContained(name, FullPatterns, 6);
      } else if name == "finmill" {
        PrefixContained(name, FullPatterns, 6);
      } else if name == "incomemill" {
        PrefixContained(name, FullPatterns, 7);
      } else if name == "incomethou" {
        PrefixContained(name, FullPatterns, 7);
      } else if name == "findeciles" {
        PrefixContained(name, FullPatterns, 6);
      }
    }
  }
}
