/** `fedsurvey/scf/process.py`: the merged table gains the sixteen derived columns of
    `transformations` side by side, and two tables are kept: the full one, filtered by the
    fourteen alternatives over original and derived columns, and the minimal one, filtered
    by eight alternatives over the original columns only. Reading and writing the .dta files
    is not modelled; the merged table is a parameter. */
module FedsurveyProcess {
  import opened Wrappers
  import opened Strings
  import opened Cells
  import opened Labelling

  datatype Outputs = Outputs(full: seq<Column>, minimal: seq<Column>)

  /** The script on a merged table of height `n`; a missing required column is the KeyError
      that stops it. */
  function Process(merged: seq<Column>, n: nat, qcut: Qcut): (r: Result<Outputs, string>)
    requires Rectangular(merged, n)
  {
    match Transformations(merged, n, qcut)
    case Failure(e) => Failure(e)
    case Success(labeled) =>
      Success(Outputs(FilterColumns(merged + labeled, FullPatterns), FilterColumns(merged, MinimalPatterns)))
  }

  /** The script stops exactly when a required column is missing, naming the first one. */
  lemma KeyErrorRule(merged: seq<Column>, n: nat, qcut: Qcut, k: nat)
    requires Rectangular(merged, n)
    ensures Process(merged, n, qcut).Failure? <==> exists j :: 0 <= j < |Required| && Required[j] !in Names(merged)
    ensures k < |Required| && Required[k] !in Names(merged) && (forall j :: 0 <= j < k ==> Required[j] in Names(merged))
            ==> Process(merged, n, qcut) == Failure(Required[k])
  {
    TransformationsFailure(merged, n, qcut);
    if k < |Required| && Required[k] !in Names(merged) && (forall j :: 0 <= j < k ==> Required[j] in Names(merged)) {
      LookupFailsAt(merged, Required, k);
    }
  }

  /** The full table is the matching original columns, in order, followed by every derived
      column but `fillthou`, in the order they were created. */
  lemma FullTableLayout(merged: seq<Column>, n: nat, qcut: Qcut)
    requires Rectangular(merged, n)
    ensures var r := Process(merged, n, qcut);
            r.Success? ==>
              var derived := Transformations(merged, n, qcut).value;
              && Names(derived) == DerivedNames
              && r.value.full == FilterColumns(merged, FullPatterns) + (derived[..12] + derived[13..])
  {
    var t := Transformations(merged, n, qcut);
    if t.Success? {
      TransformationsShape(merged, n, qcut);
      FilterAppend(merged, t.value, FullPatterns);
      DerivedFiltered(t.value);
    }
  }

  /** Every column of both output tables has the merged table's height. */
  lemma OutputHeights(merged: seq<Column>, n: nat, qcut: Qcut)
    requires Rectangular(merged, n)
    ensures var r := Process(merged, n, qcut);
            r.Success? ==> Rectangular(r.value.full, n) && Rectangular(r.value.minimal, n)
  {
    var t := Transformations(merged, n, qcut);
    if t.Success? {
      TransformationsShape(merged, n, qcut);
      forall c | c in FilterColumns(merged + t.value, FullPatterns) ensures |c.cells| == n {
        assert c in merged + t.value;
      }
    }
  }

  /** No column of the full table is named `fillthou`, whichever table it came from. */
  lemma FillthouNeverKept(merged: seq<Column>, n: nat, qcut: Qcut)
    requires Rectangular(merged, n)
    ensures var r := Process(merged, n, qcut);
            r.Success? ==> forall c :: c in r.value.full ==> c.name != "fillthou"
  {
    FillthouDropped();
  }

  /** The minimal table holds original columns only, every one of which the full table
      holds too, in the same relative order. */
  lemma MinimalWithinFullTable(merged: seq<Column>, n: nat, qcut: Qcut)
    requires Rectangular(merged, n)
    ensures var r := Process(merged, n, qcut);
            r.Success? ==>
              && (forall c :: c in r.value.minimal ==> c in merged && c in r.value.full)
              && r.value.minimal == FilterColumns(FilterColumns(merged, FullPatterns), MinimalPatterns)
  {
    var r := Process(merged, n, qcut);
    if r.Success? {
      forall c | c in r.value.minimal ensures c in r.value.full {
        MinimalWithinFull(c.name);
      }
      FilterNarrows(merged);
    }
  }

  /** Filtering by the full alternatives first does not change the minimal filter. */
  lemma {:induction false} FilterNarrows(cols: seq<Column>)
    ensures FilterColumns(FilterColumns(cols, FullPatterns), MinimalPatterns) == FilterColumns(cols, MinimalPatterns)
  {
    if cols != [] {
      FilterNarrows(cols[1..]);
      MinimalWithinFull(cols[0].name);
      var head := if ContainsAny(cols[0].name, FullPatterns) then [cols[0]] else [];
      FilterAppend(head, FilterColumns(cols[1..], FullPatterns), MinimalPatterns);
      if head != [] {
        assert head[1..] == [];
      }
    }
  }
}
