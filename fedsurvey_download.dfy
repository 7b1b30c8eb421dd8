/** The fetcher of the `fedsurvey.scf` package: validation of (year, file type), archive
    name and URL construction, and the skip-if-exists rules for download and extraction.
    The network is a session oracle, the zip decoder an oracle, the disk a `Disk` object. */
module FedsurveyDownload {
  import opened Wrappers
  import opened PyRange
  import opened Decimal
  import opened FileStore
  import opened Http

  const ScfDataUrl: string := "https://www.federalreserve.gov/econres/files/"
  const FirstYear: int := 1989
  const LastYear: int := 2022
  const Interval: nat := 3
  const YearsInScf: set<int> := set y | y in Range(FirstYear, LastYear + 1, Interval)
  const FileTypes: map<string, string> := map["sas" := ".zip", "stata" := "s.zip", "csv" := "excel.zip"]
  const UnzipDir: string := "_raw"
  const ArchiveDir: string := "_zip"

  datatype Error =
    | InvalidFileType(fileType: string)   // ValueError from check_year_file_type
    | InvalidYear(year: int)              // ValueError from check_year_file_type
    | UnknownFileType(fileType: string)   // KeyError from FILE_TYPES[file_type]
    | NoSession                           // AttributeError: the default session None has no get
    | DownloadFailed(fileName: string)    // SystemExit raised on a RequestException
    | ArchiveMissing(path: string)        // FileNotFoundError opening the archive

  datatype Outcome = Pass | Fail(error: Error)

  /** The valid years are 1989, 1992, ..., 2022. */
  lemma YearsInScfExactly(y: int)
    ensures y in YearsInScf <==> 1989 <= y <= 2022 && (y - 1989) % 3 == 0
  {
    RangeMembership(FirstYear, LastYear + 1, Interval, y);
  }

  /** `range(1989, 2023, 3)` lists the twelve survey years in ascending order. */
  lemma YearRangeListed()
    ensures Range(FirstYear, LastYear + 1, Interval) == [1989, 1992, 1995, 1998, 2001, 2004, 2007, 2010, 2013, 2016, 2019, 2022]
  {
    assert Range(2025, 2023, 3) == [];
    assert Range(2022, 2023, 3) == [2022] + Range(2025, 2023, 3);
    assert Range(2019, 2023, 3) == [2019] + Range(2022, 2023, 3);
    assert Range(2016, 2023, 3) == [2016] + Range(2019, 2023, 3);
    assert Range(2013, 2023, 3) == [2013] + Range(2016, 2023, 3);
    assert Range(2010, 2023, 3) == [2010] + Range(2013, 2023, 3);
    assert Range(2007, 2023, 3) == [2007] + Range(2010, 2023, 3);
    assert Range(2004, 2023, 3) == [2004] + Range(2007, 2023, 3);
    assert Range(2001, 2023, 3) == [2001] + Range(2004, 2023, 3);
    assert Range(1998, 2023, 3) == [1998] + Range(2001, 2023, 3);
    assert Range(1995, 2023, 3) == [1995] + Range(1998, 2023, 3);
    assert Range(1992, 2023, 3) == [1992] + Range(1995, 2023, 3);
    assert Range(1989, 2023, 3) == [1989] + Range(1992, 2023, 3);
  }

  /** There are twelve survey years, the first 1989 and the last 2022. */
  lemma TwelveYears()
    ensures |YearsInScf| == 12 && 1989 in YearsInScf && 2022 in YearsInScf
  {
    YearRangeListed();
    RangeSetSize(FirstYear, LastYear + 1, Interval);
    YearsInScfExactly(1989);
    YearsInScfExactly(2022);
  }

  /** `check_year_file_type`: the file type is checked first, then the year. */
  function CheckYearFileType(year: int, fileType: string): (r: Outcome)
    ensures r.Pass? <==> fileType in FileTypes && year in YearsInScf
    ensures fileType !in FileTypes ==> r == Fail(InvalidFileType(fileType))
    ensures fileType in FileTypes && year !in YearsInScf ==> r == Fail(InvalidYear(year))
  {
    if fileType !in FileTypes then Fail(InvalidFileType(fileType))
    else if year !in YearsInScf then Fail(InvalidYear(year))
    else Pass
  }

  /** A bad type with a bad year reports the type. */
  lemma TypeCheckedBeforeYear(year: int, fileType: string)
    requires fileType !in FileTypes
    ensures CheckYearFileType(year, fileType).error.InvalidFileType?
  {
  }

  function ArchiveName(year: int, fileType: string): string
    requires fileType in FileTypes
  {
    "scfp" + DecimalString(year) + FileTypes[fileType]
  }

  function FileUrl(fileName: string): string
  {
    ScfDataUrl + fileName
  }

  function ArchivePath(saveDir: string, fileName: string): string
  {
    Join(Join(saveDir, ArchiveDir), fileName)
  }

  function RawDir(saveDir: string): string
  {
    Join(saveDir, UnzipDir)
  }

  /** The directories `make_dirs` creates. */
  function MadeDirs(saveDir: string): set<string>
  {
    {saveDir, Join(saveDir, UnzipDir), Join(saveDir, ArchiveDir)}
  }

  lemma ArchiveNameExample()
    ensures ArchiveName(2019, "stata") == "scfp2019s.zip"
    ensures FileUrl(ArchiveName(2019, "stata")) == "https://www.federalreserve.gov/econres/files/scfp2019s.zip"
  {
    assert DecimalString(2019) == "2019" by { FourDigits(2019); }
  }

  /** Distinct (year, file type) pairs never share an archive name, so no download can
      be skipped because of another year's or another type's archive. */
  lemma ArchiveNamesDistinct(y1: int, t1: string, y2: int, t2: string)
    requires y1 in YearsInScf && y2 in YearsInScf && t1 in FileTypes && t2 in FileTypes
    requires ArchiveName(y1, t1) == ArchiveName(y2, t2)
    ensures y1 == y2 && t1 == t2
  {
    YearsInScfExactly(y1);
    YearsInScfExactly(y2);
    FourDigits(y1);
    FourDigits(y2);
    var n1, n2 := ArchiveName(y1, t1), ArchiveName(y2, t2);
    assert n1[4..8] == DecimalString(y1) && n2[4..8] == DecimalString(y2);
    DigitsInjective(y1, y2);
    assert n1[8..] == FileTypes[t1] && n2[8..] == FileTypes[t2];
  }

  /** `save_year_zip` on a disk holding `files`: the result and the files afterwards. */
  function SaveStep(files: map<string, Bytes>, year: int, fileType: string, saveDir: string,
                    session: Option<Session>): (r: (Result<string, Error>, map<string, Bytes>))
    ensures r.0.Failure? ==> r.1 == files
    ensures r.0.Success? ==> fileType in FileTypes && r.0.value == ArchiveName(year, fileType)
                             && ArchivePath(saveDir, r.0.value) in r.1
    ensures fileType in FileTypes && ArchivePath(saveDir, ArchiveName(year, fileType)) in files
            ==> r == (Success(ArchiveName(year, fileType)), files)
    ensures r.1.Keys == files.Keys || (r.0.Success? && r.1.Keys == files.Keys + {ArchivePath(saveDir, r.0.value)})
    ensures fileType !in FileTypes ==> r == (Failure(UnknownFileType(fileType)), files)
    ensures fileType in FileTypes && ArchivePath(saveDir, ArchiveName(year, fileType)) !in files && session.None?
            ==> r == (Failure(NoSession), files)
    ensures fileType in FileTypes && ArchivePath(saveDir, ArchiveName(year, fileType)) !in files && session.Some?
            ==> var name := ArchiveName(year, fileType);
                var response := session.value(FileUrl(name));
                && (response.RequestFailed? || ErrorStatus(response.status) ==> r == (Failure(DownloadFailed(name)), files))
                && (response.Response? && !ErrorStatus(response.status) ==>
                      r == (Success(name), files[ArchivePath(saveDir, name) := response.body]))
  {
    if fileType !in FileTypes then (Failure(UnknownFileType(fileType)), files)
    else
      var name := ArchiveName(year, fileType);
      var path := ArchivePath(saveDir, name);
      if path in files then (Success(name), files)
      else if session.None? then (Failure(NoSession), files)
      else match session.value(FileUrl(name))
        case RequestFailed => (Failure(DownloadFailed(name)), files)
        case Response(status, body) =>
          if ErrorStatus(status) then (Failure(DownloadFailed(name)), files)
          else (Success(name), files[path := body])
  }

  /** A second `save_year_zip` after a successful one makes no request and writes nothing. */
  lemma SaveIdempotent(files: map<string, Bytes>, year: int, fileType: string, saveDir: string,
                       session: Option<Session>, again: Option<Session>)
    requires SaveStep(files, year, fileType, saveDir, session).0.Success?
    ensures var (r, after) := SaveStep(files, year, fileType, saveDir, session);
            SaveStep(after, year, fileType, saveDir, again) == (r, after)
  {
  }

  /** `unzip_file` on a disk holding `files`. */
  function UnzipStep(files: map<string, Bytes>, fileName: string, fileDir: string, saveDir: string,
                     unzip: Unzip): (r: (Outcome, map<string, Bytes>))
    ensures Join(RawDir(saveDir), fileName) in files ==> r == (Pass, files)
    ensures r.1 != files ==> r.0.Pass? && ArchivePath(fileDir, fileName) in files
                             && unzip(files[ArchivePath(fileDir, fileName)]).Some?
    ensures r.0.Fail? ==> r.0.error == ArchiveMissing(ArchivePath(fileDir, fileName))
    ensures files.Keys <= r.1.Keys
    ensures Join(RawDir(saveDir), fileName) !in files && ArchivePath(fileDir, fileName) !in files
            ==> r == (Fail(ArchiveMissing(ArchivePath(fileDir, fileName))), files)
    ensures Join(RawDir(saveDir), fileName) !in files && ArchivePath(fileDir, fileName) in files
            ==> var members := unzip(files[ArchivePath(fileDir, fileName)]);
                && (members.None? ==> r == (Pass, files))
                && (members.Some? ==> r == (Pass, files + Placed(RawDir(saveDir), members.value)))
  {
    if Join(RawDir(saveDir), fileName) in files then (Pass, files)
    else
      var local := ArchivePath(fileDir, fileName);
      if local !in files then (Fail(ArchiveMissing(local)), files)
      else match unzip(files[local])
        case None => (Pass, files)
        case Some(members) => (Pass, files + Placed(RawDir(saveDir), members))
  }

  /** `download_year` after `make_dirs`: validate, save the archive, extract it. */
  function YearStep(files: map<string, Bytes>, year: int, fileType: string, saveDir: string,
                    session: Option<Session>, unzip: Unzip): (r: (Outcome, map<string, Bytes>))
    ensures CheckYearFileType(year, fileType).Fail? ==> r == (CheckYearFileType(year, fileType), files)
    ensures r.0.Pass? ==> fileType in FileTypes && ArchivePath(saveDir, ArchiveName(year, fileType)) in r.1
    ensures r.0.Fail? && fileType in FileTypes && year in YearsInScf
            ==> r.0.error == if session.None? then NoSession else DownloadFailed(ArchiveName(year, fileType))
    ensures files.Keys <= r.1.Keys
    ensures CheckYearFileType(year, fileType).Pass? ==>
              var (saved, files1) := SaveStep(files, year, fileType, saveDir, session);
              && (saved.Failure? ==> r == (Fail(saved.error), files1))
              && (saved.Success? ==> UnzipStep(files1, saved.value, saveDir, saveDir, unzip).0.Pass?
                                     && r == (Pass, UnzipStep(files1, saved.value, saveDir, saveDir, unzip).1))
  {
    var check := CheckYearFileType(year, fileType);
    if check.Fail? then (check, files)
    else
      var (saved, files1) := SaveStep(files, year, fileType, saveDir, session);
      if saved.Failure? then (Fail(saved.error), files1)
      else
        var (_, files2) := UnzipStep(files1, saved.value, saveDir, saveDir, unzip);
        (Pass, files2)
  }

  method MakeDirs(disk: Disk, saveDir: string)
    modifies disk
    ensures disk.dirs == old(disk.dirs) + MadeDirs(saveDir) && disk.files == old(disk.files)
  {
    disk.MakeDir(saveDir);
    disk.MakeDir(Join(saveDir, UnzipDir));
    disk.MakeDir(Join(saveDir, ArchiveDir));
  }

  method SaveYearZip(disk: Disk, year: int, fileType: string, saveDir: string, session: Option<Session>)
    returns (r: Result<string, Error>)
    modifies disk
    ensures (r, disk.files) == SaveStep(old(disk.files), year, fileType, saveDir, session)
    ensures disk.dirs == old(disk.dirs)
  {
    if fileType !in FileTypes {
      return Failure(UnknownFileType(fileType));
    }
    var name := ArchiveName(year, fileType);
    var path := ArchivePath(saveDir, name);
    if path in disk.files {
      return Success(name);
    }
    if session.None? {
      return Failure(NoSession);
    }
    var response := session.value(FileUrl(name));
    if response.RequestFailed? || ErrorStatus(response.status) {
      return Failure(DownloadFailed(name));
    }
    disk.WriteFile(path, response.body);
    r := Success(name);
  }

  method UnzipFile(disk: Disk, fileName: string, fileDir: string, saveDir: string, unzip: Unzip)
    returns (r: Outcome)
    modifies disk
    ensures (r, disk.files) == UnzipStep(old(disk.files), fileName, fileDir, saveDir, unzip)
    ensures disk.dirs == old(disk.dirs)
  {
    if Join(RawDir(saveDir), fileName) in disk.files {
      return Pass;
    }
    var local := ArchivePath(fileDir, fileName);
    if local !in disk.files {
      return Fail(ArchiveMissing(local));
    }
    var members := unzip(disk.files[local]);
    if members.Some? {
      disk.ExtractAll(RawDir(saveDir), members.value);
    }
    r := Pass;
  }

  /** `download_year`: the directories are made first, then nothing else happens unless
      the year and type are valid. */
  method DownloadYear(disk: Disk, year: int, fileType: string, saveDir: string,
                      session: Option<Session>, unzip: Unzip)
    returns (r: Outcome)
    modifies disk
    ensures disk.dirs == old(disk.dirs) + MadeDirs(saveDir)
    ensures (r, disk.files) == YearStep(old(disk.files), year, fileType, saveDir, session, unzip)
  {
    MakeDirs(disk, saveDir);
    r := CheckYearFileType(year, fileType);
    if r.Fail? {
      return;
    }
    var saved := SaveYearZip(disk, year, fileType, saveDir, session);
    if saved.Failure? {
      return Fail(saved.error);
    }
    // The archive was just found or saved, so `unzip_file` cannot raise FileNotFoundError.
    var unzipped := UnzipFile(disk, saved.value, saveDir, saveDir, unzip);
    assert unzipped.Pass?;
  }

  /** The loop of `download_all_years` over `years`, from a disk holding `files`: each
      year in turn through `download_year`, stopping at the first exception. */
  function Run(files: map<string, Bytes>, years: seq<int>, fileType: string, saveDir: string,
               session: Session, unzip: Unzip): (r: (Outcome, map<string, Bytes>))
    ensures files.Keys <= r.1.Keys
    decreases |years|
  {
    if years == [] then (Pass, files)
    else
      var step := YearStep(files, years[0], fileType, saveDir, Some(session), unzip);
      if step.0.Fail? then step else Run(step.1, years[1..], fileType, saveDir, session, unzip)
  }

  /** The run from the i-th year is that year's step, then, if it passed, the run from the next. */
  lemma RunUnfolds(files: map<string, Bytes>, years: seq<int>, i: nat, fileType: string, saveDir: string,
                   session: Session, unzip: Unzip)
    requires i < |years|
    ensures var step := YearStep(files, years[i], fileType, saveDir, Some(session), unzip);
            Run(files, years[i..], fileType, saveDir, session, unzip)
            == if step.0.Fail? then step else Run(step.1, years[i + 1..], fileType, saveDir, session, unzip)
  {
    assert years[i..][1..] == years[i + 1..];
  }

  /** A run that finishes has the archive of every year it was given on disk. */
  lemma {:induction false} RunCoversEveryYear(files: map<string, Bytes>, years: seq<int>, fileType: string,
                                              saveDir: string, session: Session, unzip: Unzip)
    requires years != [] && Run(files, years, fileType, saveDir, session, unzip).0.Pass?
    ensures fileType in FileTypes
    ensures forall y :: y in years ==>
              ArchivePath(saveDir, ArchiveName(y, fileType)) in Run(files, years, fileType, saveDir, session, unzip).1
    decreases |years|
  {
    var step := YearStep(files, years[0], fileType, saveDir, Some(session), unzip);
    if |years| > 1 {
      RunCoversEveryYear(step.1, years[1..], fileType, saveDir, session, unzip);
    }
    assert forall y :: y in years ==> y == years[0] || y in years[1..];
  }

  /** An unknown file type stops the run at its first year, before anything is written. */
  lemma {:induction false} RunRejectsFileType(files: map<string, Bytes>, years: seq<int>, fileType: string,
                                              saveDir: string, session: Session, unzip: Unzip)
    requires years != [] && fileType !in FileTypes
    ensures Run(files, years, fileType, saveDir, session, unzip) == (Fail(InvalidFileType(fileType)), files)
  {
  }

  /** Over survey years with a known type, only a failed download ends the run early. */
  lemma {:induction false} RunFailsOnlyOnDownload(files: map<string, Bytes>, years: seq<int>, fileType: string,
                                                  saveDir: string, session: Session, unzip: Unzip)
    requires fileType in FileTypes && forall y :: y in years ==> y in YearsInScf
    requires Run(files, years, fileType, saveDir, session, unzip).0.Fail?
    ensures Run(files, years, fileType, saveDir, session, unzip).0.error.DownloadFailed?
    decreases |years|
  {
    var step := YearStep(files, years[0], fileType, saveDir, Some(session), unzip);
    if step.0.Pass? {
      RunFailsOnlyOnDownload(step.1, years[1..], fileType, saveDir, session, unzip);
    }
  }

  /** Over any arrangement of the survey years: an unknown type fails at once with nothing
      written; a run that finishes has every year's archive on disk; any other failure is a
      failed download (SystemExit). */
  lemma AllYearsOutcome(files: map<string, Bytes>, order: seq<int>, fileType: string, saveDir: string,
                        session: Session, unzip: Unzip)
    requires forall y :: y in order <==> y in YearsInScf
    ensures var (r, after) := Run(files, order, fileType, saveDir, session, unzip);
            && (fileType !in FileTypes ==> r == Fail(InvalidFileType(fileType)) && after == files)
            && (r.Pass? ==> (fileType in FileTypes &&
                  forall y :: y in YearsInScf ==> ArchivePath(saveDir, ArchiveName(y, fileType)) in after))
            && (r.Fail? && fileType in FileTypes ==> r.error.DownloadFailed?)
  {
    YearsInScfExactly(FirstYear);
    assert order != [] by { assert FirstYear in order; }
    var (r, after) := Run(files, order, fileType, saveDir, session, unzip);
    if fileType !in FileTypes {
      RunRejectsFileType(files, order, fileType, saveDir, session, unzip);
    } else if r.Pass? {
      RunCoversEveryYear(files, order, fileType, saveDir, session, unzip);
    } else {
      RunFailsOnlyOnDownload(files, order, fileType, saveDir, session, unzip);
    }
  }

  /** `download_all_years`: every survey year, in the order iterating the set `YEARS_IN_SCF`
      yields (`order`, an arrangement of the twelve years), through one session. */
  method DownloadAllYears(disk: Disk, fileType: string, saveDir: string, session: Session, unzip: Unzip,
                          order: seq<int>)
    returns (r: Outcome)
    requires forall y :: y in order <==> y in YearsInScf
    modifies disk
    ensures disk.dirs == old(disk.dirs) + MadeDirs(saveDir)
    ensures (r, disk.files) == Run(old(disk.files), order, fileType, saveDir, session, unzip)
  {
    MakeDirs(disk, saveDir);
    var i := 0;
    r := Pass;
    while i < |order| && r.Pass?
      invariant 0 <= i <= |order|
      invariant disk.dirs == old(disk.dirs) + MadeDirs(saveDir)
      invariant r.Pass? ==> Run(old(disk.files), order, fileType, saveDir, session, unzip)
                            == Run(disk.files, order[i..], fileType, saveDir, session, unzip)
      invariant r.Fail? ==> Run(old(disk.files), order, fileType, saveDir, session, unzip) == (r, disk.files)
    {
      RunUnfolds(disk.files, order, i, fileType, saveDir, session, unzip);
      r := DownloadYear(disk, order[i], fileType, saveDir, Some(session), unzip);
      i := i + 1;
    }
  }
}
