/** `scf_tools.merge.merge_files`: pick the per-year files of the raw directory, read them
    in sorted order with one retry policy, tag each row with its year, concatenate, and
    write the result in the chosen format. Directory listing, readers and writers are
    oracles; a table is a sequence of rows. */
module Merge {
  import opened Wrappers
  import opened Decimal
  import opened Strings
  import opened Cells

  const FromEnd: map<string, string> := map["sas" := "", "stata" := ".dta", "csv" := ".csv"]
  const ToEnd: map<string, string> :=
    map["sas" := ".sas7bdat", "stata" := ".dta", "csv" := ".csv", "pickle" := ".pkl"]
  /** The keys of `read_funcs` and of `write_funcs`. */
  const ReadFormats: set<string> := {"stata", "csv", "sas"}
  const WriteFormats: set<string> := {"stata", "csv", "pickle"}
  /** The raw directory and the merged file's base name, relative to the package directory. */
  const RawDir: string := "data/_raw"
  const MergedBase: string := "scf_merged"

  /** What one call of a pandas reader does: rows, a ValueError, or another exception. */
  datatype ReadResult = Rows(rows: seq<Row>) | ValueError | OtherError

  /** `read_funcs[from_format]` applied to (file name, convert_categoricals); the first read
      passes no keyword, which the reader sees as true. */
  type Reader = (string, bool) -> ReadResult

  /** A writer applied to (format, path, table): true when it returns, false when it raises. */
  type Writer = (string, string, Merged) -> bool

  /** The concatenated table with its fresh index. */
  datatype Merged = Merged(index: seq<nat>, rows: seq<Row>)

  datatype MergeOutcome =
    | UnknownInputFormat                       // KeyError from from_end[from_format]
    | NoFilesFound                             // reported, nothing written
    | ReadRaised(file: string)                 // the retry raised; the exception propagates
    | NothingToConcatenate                     // pd.concat([]) raises ValueError
    | UnknownOutputFormat                      // KeyError from to_end[to_format]
    | UnsupportedOutput(path: string)          // no writer: reported, nothing written
    | WriteFailed(path: string)                // the writer raised: reported
    | Written(path: string, merged: Merged, withIndex: bool)

  /** The glob `*[0-9][0-9][0-9][0-9]<ext>` on a file name. */
  predicate MatchesYearFile(name: string, ext: string)
  {
    |name| >= 4 + |ext| && EndsWith(name, ext) && AllDigits(name[|name| - |ext| - 4..|name| - |ext|])
  }

  function Matching(listing: seq<string>, ext: string): (r: seq<string>)
    ensures forall x :: x in r <==> x in listing && MatchesYearFile(x, ext)
    ensures forall x :: multiset(r)[x] == if MatchesYearFile(x, ext) then multiset(listing)[x] else 0
  {
    if listing == [] then []
    else
      assert listing == [listing[0]] + listing[1..];
      (if MatchesYearFile(listing[0], ext) then [listing[0]] else []) + Matching(listing[1..], ext)
  }

  /** `sorted(raw_dir.glob(...))`. */
  function Selected(listing: seq<string>, ext: string): seq<string>
  {
    Sort(Matching(listing, ext))
  }

  /** Exactly the names matching the pattern, each once per listing entry, in ascending order. */
  lemma SelectedIsSortedMatch(listing: seq<string>, ext: string)
    ensures Sorted(Selected(listing, ext))
    ensures forall x :: x in Selected(listing, ext) <==> x in listing && MatchesYearFile(x, ext)
  {
    var m := Matching(listing, ext);
    assert forall x :: x in Selected(listing, ext) <==> x in multiset(m);
  }

  /** The order in which the directory is listed does not change the selection. */
  lemma SelectionIgnoresListingOrder(l1: seq<string>, l2: seq<string>, ext: string)
    requires multiset(l1) == multiset(l2)
    ensures Selected(l1, ext) == Selected(l2, ext)
  {
    assert multiset(Matching(l1, ext)) == multiset(Matching(l2, ext));
    SortIgnoresListingOrder(Matching(l1, ext), Matching(l2, ext));
  }

  /** `str.rfind('.')`. */
  function LastDot(name: string): (r: Option<nat>)
    ensures r.Some? ==> r.value < |name| && name[r.value] == '.'
                        && forall k :: r.value < k < |name| ==> name[k] != '.'
    ensures r.None? ==> forall k :: 0 <= k < |name| ==> name[k] != '.'
  {
    if name == [] then None
    else if name[|name| - 1] == '.' then Some(|name| - 1)
    else LastDot(name[..|name| - 1])
  }

  /** `PurePath.stem`: the name without its last suffix; a leading or final dot is no suffix. */
  function Stem(name: string): string
  {
    var dot := LastDot(name);
    if dot.Some? && 0 < dot.value < |name| - 1 then name[..dot.value] else name
  }

  /** `stem[-4:]`. */
  function LastFour(s: string): string
  {
    if |s| >= 4 then s[|s| - 4..] else s
  }

  function YearTag(name: string): string
  {
    LastFour(Stem(name))
  }

  /** For the stata and csv patterns the year column holds exactly the four matched digits. */
  lemma YearTagIsMatchedDigits(name: string, ext: string)
    requires ext == ".dta" || ext == ".csv"
    requires MatchesYearFile(name, ext)
    ensures YearTag(name) == name[|name| - 8..|name| - 4] && AllDigits(YearTag(name))
  {
    var n := |name|;
    assert name[n - 4..] == ext;
    assert name[n - 4] == '.' && name[n - 3] != '.' && name[n - 2] != '.' && name[n - 1] != '.';
    assert n >= 8 && name[n - 5] != '.';
    var dot := LastDot(name);
    assert dot == Some(n - 4);
    assert Stem(name) == name[..n - 4];
  }

  /** With the sas pattern (empty extension) a dot-free name is tagged with its last four digits. */
  lemma SasYearTag(name: string)
    requires MatchesYearFile(name, "") && forall k :: 0 <= k < |name| ==> name[k] != '.'
    ensures YearTag(name) == name[|name| - 4..]
  {
    assert LastDot(name) == None;
  }

  /** The sas pattern has no extension, so a SAS data file such as "rscfp2019.sas7bdat" is
      never selected. */
  lemma SasPatternMissesSasFiles()
    ensures FromEnd["sas"] == "" && !MatchesYearFile("rscfp2019.sas7bdat", FromEnd["sas"])
    ensures MatchesYearFile("rscfp2019.dta", FromEnd["stata"])
  {
    var sas := "rscfp2019.sas7bdat";
    assert |sas| == 18 && sas[14] == 'b';
    assert sas[14..18][0] == 'b';
    var dta := "rscfp2019.dta";
    assert dta[5..9] == "2019";
  }

  /** Every format `from_end` accepts has a reader, so the "Unsupported input format"
      branch can never be taken. */
  lemma EveryInputFormatHasReader()
    ensures FromEnd.Keys == ReadFormats
  {
  }

  /** `.assign(year=...)`: set the year column of every row. */
  function Tagged(rows: seq<Row>, tag: string): (r: seq<Row>)
    ensures |r| == |rows|
    ensures forall i :: 0 <= i < |r| ==> r[i] == rows[i]["year" := Text(tag)]
  {
    seq(|rows|, i requires 0 <= i < |rows| => rows[i]["year" := Text(tag)])
  }

  /** What the try/except around one file yields. */
  datatype FileRead = Read(rows: seq<Row>) | Skipped | Raised

  /** Only `pd.read_stata` takes `convert_categoricals`; `pd.read_csv` and `pd.read_sas`
      raise TypeError on the unexpected keyword before reading anything. */
  predicate RetryAccepted(fromFormat: string)
  {
    fromFormat == "stata"
  }

  function ReadFile(name: string, fromFormat: string, read: Reader): FileRead
  {
    match read(name, true)
    case Rows(t) => Read(Tagged(t, YearTag(name)))
    case ValueError =>
      if !RetryAccepted(fromFormat) then Raised
      else
        (match read(name, false)
         case Rows(t) => Read(Tagged(t, YearTag(name)))
         case _ => Raised)
    case OtherError => Skipped
  }

  /** The retry policy: a ValueError is retried once without categorical conversion, which
      only the stata reader accepts; any other first error skips the file; only a failing
      retry escapes. */
  lemma RetryPolicy(name: string, fromFormat: string, read: Reader)
    ensures ReadFile(name, fromFormat, read).Skipped? <==> read(name, true).OtherError?
    ensures ReadFile(name, fromFormat, read).Raised? <==>
              read(name, true).ValueError? && (!RetryAccepted(fromFormat) || !read(name, false).Rows?)
    ensures ReadFile(name, fromFormat, read).Read? ==>
              ReadFile(name, fromFormat, read).rows == Tagged(if read(name, true).Rows? then read(name, true).rows
                                                              else read(name, false).rows, YearTag(name))
  {
  }

  /** For csv and sas input a first-read ValueError always escapes: the retry's keyword is
      refused, so a file is read exactly when its first read succeeds. */
  lemma NoRetryOutsideStata(name: string, fromFormat: string, read: Reader)
    requires fromFormat in FromEnd && fromFormat != "stata"
    ensures ReadFile(name, fromFormat, read).Raised? <==> read(name, true).ValueError?
    ensures ReadFile(name, fromFormat, read).Read? <==> read(name, true).Rows?
  {
  }

  /** One pass of the loop body: append the file's table, skip it, or raise. */
  function ReadStep(acc: Result<seq<seq<Row>>, string>, name: string, fromFormat: string, read: Reader): Result<seq<seq<Row>>, string>
  {
    if acc.Failure? then acc
    else match ReadFile(name, fromFormat, read)
      case Read(t) => Success(acc.value + [t])
      case Skipped => acc
      case Raised => Failure(name)
  }

  /** The loop over the selected files: the tables appended to `dfs`, or the file whose
      retry raised. */
  function ReadAll(files: seq<string>, fromFormat: string, read: Reader): Result<seq<seq<Row>>, string>
  {
    if files == [] then Success([])
    else ReadStep(ReadAll(files[..|files| - 1], fromFormat, read), files[|files| - 1], fromFormat, read)
  }

  /** The files that were read, in processing order. */
  function ReadFiles(files: seq<string>, fromFormat: string, read: Reader): (r: seq<string>)
    ensures forall x :: x in r ==> x in files
  {
    if files == [] then []
    else
      var last := files[|files| - 1];
      ReadFiles(files[..|files| - 1], fromFormat, read) + (if ReadFile(last, fromFormat, read).Read? then [last] else [])
  }

  /** Number of rows the files that were read hold. */
  function RowsRead(files: seq<string>, fromFormat: string, read: Reader): nat
  {
    if files == [] then 0
    else
      var last := files[|files| - 1];
      RowsRead(files[..|files| - 1], fromFormat, read) + (match ReadFile(last, fromFormat, read) case Read(t) => |t| case _ => 0)
  }

  /** `pd.concat(dfs, ignore_index=True)` as sequence append. */
  function Flatten(dfs: seq<seq<Row>>): (r: seq<Row>)
  {
    if dfs == [] then [] else Flatten(dfs[..|dfs| - 1]) + dfs[|dfs| - 1]
  }

  function Concat(dfs: seq<seq<Row>>): (r: Option<Merged>)
    ensures r.Some? <==> dfs != []
    ensures r.Some? ==> r.value.rows == Flatten(dfs) && |r.value.index| == |r.value.rows|
                        && forall i :: 0 <= i < |r.value.index| ==> r.value.index[i] == i
  {
    if dfs == [] then None
    else
      var rows := Flatten(dfs);
      Some(Merged(seq(|rows|, i requires 0 <= i < |rows| => i), rows))
  }

  /** When no retry raises, the k-th table read is the k-th read file's rows, each row tagged
      with that file's year, and the merged row count is the sum over the files read. */
  lemma {:induction false} ReadAllShape(files: seq<string>, fromFormat: string, read: Reader)
    requires ReadAll(files, fromFormat, read).Success?
    ensures var dfs := ReadAll(files, fromFormat, read).value;
            |dfs| == |ReadFiles(files, fromFormat, read)| && |Flatten(dfs)| == RowsRead(files, fromFormat, read)
            && forall k :: 0 <= k < |dfs| ==> ReadFile(ReadFiles(files, fromFormat, read)[k], fromFormat, read) == Read(dfs[k])
  {
    if files != [] {
      var init := files[..|files| - 1];
      var last := files[|files| - 1];
      ReadAllShape(init, fromFormat, read);
      var dfs0 := ReadAll(init, fromFormat, read).value;
      if ReadFile(last, fromFormat, read).Read? {
        var t := ReadFile(last, fromFormat, read).rows;
        FlattenSnoc(dfs0, t);
      }
    }
  }

  lemma FlattenSnoc(dfs: seq<seq<Row>>, t: seq<Row>)
    ensures Flatten(dfs + [t]) == Flatten(dfs) + t
  {
    assert (dfs + [t])[..|dfs|] == dfs;
  }

  /** Every merged row carries the year tag of the file it was read from. */
  lemma {:induction false} MergedRowsTagged(files: seq<string>, fromFormat: string, read: Reader, k: nat, i: nat)
    requires ReadAll(files, fromFormat, read).Success?
    requires k < |ReadAll(files, fromFormat, read).value| && i < |ReadAll(files, fromFormat, read).value[k]|
    ensures k < |ReadFiles(files, fromFormat, read)|
    ensures var row := ReadAll(files, fromFormat, read).value[k][i];
            "year" in row && row["year"] == Text(YearTag(ReadFiles(files, fromFormat, read)[k]))
  {
    ReadAllShape(files, fromFormat, read);
    var name := ReadFiles(files, fromFormat, read)[k];
    ReadFileTagged(name, fromFormat, read);
  }

  /** Every row of a file that was read carries that file's year tag. */
  lemma ReadFileTagged(name: string, fromFormat: string, read: Reader)
    ensures ReadFile(name, fromFormat, read).Read? ==>
              forall i :: 0 <= i < |ReadFile(name, fromFormat, read).rows| ==>
                "year" in ReadFile(name, fromFormat, read).rows[i] && ReadFile(name, fromFormat, read).rows[i]["year"] == Text(YearTag(name))
  {
  }

  /** Files are read in the order given, so with a sorted selection the tables are in
      ascending file-name order. */
  lemma {:induction false} ReadFilesInOrder(files: seq<string>, fromFormat: string, read: Reader)
    requires Sorted(files)
    ensures Sorted(ReadFiles(files, fromFormat, read))
    decreases |files|
  {
    if files != [] {
      var init := files[..|files| - 1];
      var last := files[|files| - 1];
      ReadFilesInOrder(init, fromFormat, read);
      var before := ReadFiles(init, fromFormat, read);
      forall i | 0 <= i < |before| ensures LessEq(before[i], last) {
        assert before[i] in init;
        var j :| 0 <= j < |init| && init[j] == before[i];
        assert files[j] == before[i];
      }
    }
  }

  lemma {:induction false} ReadAllFailureSticky(files: seq<string>, fromFormat: string, read: Reader, k: nat)
    requires k <= |files| && ReadAll(files[..k], fromFormat, read).Failure?
    ensures ReadAll(files, fromFormat, read) == ReadAll(files[..k], fromFormat, read)
    decreases |files| - k
  {
    if k < |files| {
      assert files[..k + 1][..k] == files[..k];
      assert ReadAll(files[..k + 1], fromFormat, read) == ReadAll(files[..k], fromFormat, read);
      ReadAllFailureSticky(files, fromFormat, read, k + 1);
    } else {
      assert files[..k] == files;
    }
  }

  function OutputPath(toFormat: string): string
    requires toFormat in ToEnd
  {
    RawDir + "/" + MergedBase + ToEnd[toFormat]
  }

  /** Lines choosing the output: the extension lookup, the writer lookup, the write. */
  function WriteOutcome(merged: Merged, toFormat: string, write: Writer): (r: MergeOutcome)
  {
    if toFormat !in ToEnd then UnknownOutputFormat
    else
      var path := OutputPath(toFormat);
      if toFormat !in WriteFormats then UnsupportedOutput(path)
      else if write(toFormat, path, merged) then Written(path, merged, toFormat != "csv")
      else WriteFailed(path)
  }

  /** What follows the selection: read every file, concatenate, write. */
  function ReadAndWrite(files: seq<string>, fromFormat: string, toFormat: string, read: Reader, write: Writer): (r: MergeOutcome)
    ensures !r.NoFilesFound? && !r.UnknownInputFormat?
  {
    match ReadAll(files, fromFormat, read)
    case Failure(f) => ReadRaised(f)
    case Success(dfs) =>
      if dfs == [] then NothingToConcatenate else WriteOutcome(Concat(dfs).value, toFormat, write)
  }

  /** `merge_files(from_format, to_format)` on a raw directory listed as `listing`. */
  function MergeSpec(listing: seq<string>, fromFormat: string, toFormat: string,
                     read: Reader, write: Writer): MergeOutcome
  {
    if fromFormat !in FromEnd then UnknownInputFormat
    else
      var files := Selected(listing, FromEnd[fromFormat]);
      if files == [] then NoFilesFound else ReadAndWrite(files, fromFormat, toFormat, read, write)
  }

  /** Nothing is written and nothing read when no file matches the input pattern. */
  lemma NoFilesRule(listing: seq<string>, fromFormat: string, toFormat: string, read: Reader, write: Writer)
    ensures MergeSpec(listing, fromFormat, toFormat, read, write) == NoFilesFound
            <==> fromFormat in FromEnd && forall x :: x in listing ==> !MatchesYearFile(x, FromEnd[fromFormat])
  {
    if fromFormat in FromEnd {
      var ext := FromEnd[fromFormat];
      SelectedIsSortedMatch(listing, ext);
      if Selected(listing, ext) != [] {
        var x := Selected(listing, ext)[0];
        assert x in listing && MatchesYearFile(x, ext);
      }
    }
  }

  /** A merge that gets past the selection reads the selected files in ascending order. */
  lemma MergeReadsSelection(listing: seq<string>, fromFormat: string, toFormat: string,
                            read: Reader, write: Writer)
    requires fromFormat in FromEnd
    ensures var files := Selected(listing, FromEnd[fromFormat]);
            Sorted(files)
            && (files != [] ==> MergeSpec(listing, fromFormat, toFormat, read, write)
                                == ReadAndWrite(files, fromFormat, toFormat, read, write))
  {
    SelectedIsSortedMatch(listing, FromEnd[fromFormat]);
  }

  /** A merge that writes holds the rows of the files read, in file order, tagged with their
      years (MergedRowsTagged), under a fresh index 0..n-1; when every file was skipped
      nothing is written. */
  lemma MergedContents(files: seq<string>, fromFormat: string, toFormat: string, read: Reader, write: Writer)
    requires Sorted(files)
    ensures var r := ReadAndWrite(files, fromFormat, toFormat, read, write);
            && (r.Written? ==>
                  && ReadAll(files, fromFormat, read).Success?
                  && Sorted(ReadFiles(files, fromFormat, read)) && ReadFiles(files, fromFormat, read) != []
                  && r.merged.rows == Flatten(ReadAll(files, fromFormat, read).value)
                  && |r.merged.rows| == RowsRead(files, fromFormat, read)
                  && forall i :: 0 <= i < |r.merged.index| ==> r.merged.index[i] == i)
            && (ReadAll(files, fromFormat, read) == Success([]) ==> r == NothingToConcatenate)
  {
    if ReadAll(files, fromFormat, read).Success? {
      ReadAllShape(files, fromFormat, read);
      ReadFilesInOrder(files, fromFormat, read);
    }
  }

  /** A SAS output has no writer: the path is computed but nothing is written. */
  lemma SasOutputUnsupported(merged: Merged, write: Writer)
    ensures WriteOutcome(merged, "sas", write) == UnsupportedOutput("data/_raw/scf_merged.sas7bdat")
  {
    assert "sas" !in WriteFormats;
    assert OutputPath("sas") == "data/_raw/scf_merged.sas7bdat";
  }

  /** Only the four known output formats get past the extension lookup. */
  lemma UnknownOutputRule(merged: Merged, toFormat: string, write: Writer)
    ensures WriteOutcome(merged, toFormat, write) == UnknownOutputFormat
            <==> toFormat !in {"sas", "stata", "csv", "pickle"}
  {
  }

  /** A write goes to data/_raw/scf_merged with the format's extension, and only csv drops
      the index. */
  lemma WrittenRule(merged: Merged, toFormat: string, write: Writer)
    ensures var r := WriteOutcome(merged, toFormat, write);
            r.Written? <==> toFormat in WriteFormats && write(toFormat, OutputPath(toFormat), merged)
    ensures var r := WriteOutcome(merged, toFormat, write);
            r.Written? ==> r.path == "data/_raw/scf_merged" + ToEnd[toFormat] && r.merged == merged
                           && r.withIndex == (toFormat != "csv")
  {
  }

  /** The for-loop of `merge_files` over the selected files, proved against ReadAll. */
  method ReadLoop(files: seq<string>, fromFormat: string, read: Reader) returns (r: Result<seq<seq<Row>>, string>)
    ensures r == ReadAll(files, fromFormat, read)
  {
    var dfs: seq<seq<Row>> := [];
    for i := 0 to |files|
      invariant ReadAll(files[..i], fromFormat, read) == Success(dfs)
    {
      assert files[..i + 1][..i] == files[..i];
      var name := files[i];
      var first := read(name, true);
      if first.Rows? {
        dfs := dfs + [Tagged(first.rows, YearTag(name))];
      } else if first.ValueError? {
        if !RetryAccepted(fromFormat) {
          ReadAllFailureSticky(files, fromFormat, read, i + 1);
          return Failure(name);
        }
        var retry := read(name, false);
        if !retry.Rows? {
          ReadAllFailureSticky(files, fromFormat, read, i + 1);
          return Failure(name);
        }
        dfs := dfs + [Tagged(retry.rows, YearTag(name))];
      }
    }
    assert files[..|files|] == files;
    r := Success(dfs);
  }

  /** `merge_files`, proved against MergeSpec. */
  method MergeFiles(listing: seq<string>, fromFormat: string, toFormat: string, read: Reader, write: Writer)
    returns (r: MergeOutcome)
    ensures r == MergeSpec(listing, fromFormat, toFormat, read, write)
  {
    if fromFormat !in FromEnd {
      return UnknownInputFormat;
    }
    var files := Selected(listing, FromEnd[fromFormat]);
    if files == [] {
      return NoFilesFound;
    }
    // `read_funcs.get(from_format)` always succeeds here (EveryInputFormatHasReader).
    var dfs := ReadLoop(files, fromFormat, read);
    if dfs.Failure? {
      return ReadRaised(dfs.error);
    }
    if dfs.value == [] {
      return NothingToConcatenate;
    }
    var merged := Concat(dfs.value).value;
    if toFormat !in ToEnd {
      return UnknownOutputFormat;
    }
    var path := OutputPath(toFormat);
    if toFormat !in WriteFormats {
      return UnsupportedOutput(path);
    }
    if write(toFormat, path, merged) {
      r := Written(path, merged, toFormat != "csv");
    } else {
      r := WriteFailed(path);
    }
  }
}
