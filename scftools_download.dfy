/** The fetcher of the `scf_tools` package: `download_data(type)` fetches every survey
    year's summary-extract archive into data/_source and extracts it into data/_raw, skipping
    years whose archive is already present and carrying on past failed requests and bad
    archives. The package directory is a parameter, the network a session oracle. */
module ScfToolsDownload {
  import opened Wrappers
  import opened PyRange
  import opened Decimal
  import opened FileStore
  import opened Http

  const Url: string := "https://www.federalreserve.gov/econres/files/scfp"
  /** `range(1989, 2023, 3)` and its members as strings. */
  const YearNumbers: seq<int> := Range(1989, 2023, 3)
  const Years: seq<string> := seq(|YearNumbers|, i requires 0 <= i < |YearNumbers| => DecimalString(YearNumbers[i]))
  const Endings: map<string, string> := map["sas" := ".zip", "stata" := "s.zip", "csv" := "excel.zip"]

  /** The three directories, under the package directory `pkg`. */
  function DataDir(pkg: string): string { Join(pkg, "data") }
  function RawDir(pkg: string): string { Join(pkg, "data/_raw") }
  function SourceDir(pkg: string): string { Join(pkg, "data/_source") }

  function LocalName(year: string, ending: string): string
  {
    "scfp" + year + ending
  }

  function FileUrl(year: string, ending: string): string
  {
    Url + year + ending
  }

  function LocalFile(pkg: string, year: string, ending: string): string
  {
    Join(SourceDir(pkg), LocalName(year, ending))
  }

  /** The year strings are the twelve survey years, four decimal digits each, ascending. */
  lemma YearsAreSurveyYears()
    ensures |Years| == 12
    ensures forall i :: 0 <= i < |Years| ==>
              |Years[i]| == 4 && AllDigits(Years[i]) && ParseDigits(Years[i]) == 1989 + 3 * i
  {
    assert |YearNumbers| == 12 by {
      RangeLength(1989, 2023, 3);
    }
    forall i | 0 <= i < |Years|
      ensures |Years[i]| == 4 && AllDigits(Years[i]) && ParseDigits(Years[i]) == 1989 + 3 * i
    {
      var y := 1989 + 3 * i;
      assert YearNumbers[i] == y by {
        RangeAt(1989, 2023, 3, i);
      }
      assert Years[i] == DecimalString(y) == Digits(y);
      FourDigits(y);
      ParseDigitsInverse(y);
    }
  }

  /** The URL fetched for a year ends with the name the archive is saved under. */
  lemma UrlEndsWithLocalName(year: string, ending: string)
    ensures FileUrl(year, ending) == "https://www.federalreserve.gov/econres/files/" + LocalName(year, ending)
  {
  }

  /** Nothing extracted into data/_raw lands on an archive path in data/_source. */
  lemma RawAndSourceDisjoint(pkg: string, member: string, year: string, ending: string)
    ensures Join(RawDir(pkg), member) != LocalFile(pkg, year, ending)
  {
    var n := |pkg|;
    assert Join(RawDir(pkg), member)[n + 7] == 'r';
    assert LocalFile(pkg, year, ending)[n + 7] == 's';
  }

  /** One pass of the loop body for `year` on a disk holding `files`. */
  function YearStep(files: map<string, Bytes>, pkg: string, year: string, ending: string,
                    get: Session, unzip: Unzip): map<string, Bytes>
  {
    var local := LocalFile(pkg, year, ending);
    if local in files then files
    else match get(FileUrl(year, ending))
      case RequestFailed => files
      case Response(_, body) =>
        var saved := files[local := body];
        match unzip(body)
        case None => saved
        case Some(members) => saved + Placed(RawDir(pkg), members)
  }

  /** The loop over `years`, in order, from a disk holding `files`. */
  function Fetch(files: map<string, Bytes>, pkg: string, years: seq<string>, ending: string,
                 get: Session, unzip: Unzip): map<string, Bytes>
    decreases |years|
  {
    if years == [] then files
    else Fetch(YearStep(files, pkg, years[0], ending, get, unzip), pkg, years[1..], ending, get, unzip)
  }

  /** An archive already on disk is neither fetched nor extracted again: the step is the
      same whatever the network and the zip decoder would do. */
  lemma ExistingArchiveSkipped(files: map<string, Bytes>, pkg: string, year: string, ending: string,
                               get: Session, unzip: Unzip, get2: Session, unzip2: Unzip)
    requires LocalFile(pkg, year, ending) in files
    ensures YearStep(files, pkg, year, ending, get, unzip) == files
    ensures YearStep(files, pkg, year, ending, get2, unzip2) == YearStep(files, pkg, year, ending, get, unzip)
  {
  }

  /** A response is saved whatever its status (there is no `raise_for_status`) and its body
      is then extracted into data/_raw when it decodes, while a bad zip leaves just the saved
      archive; a failed request leaves the disk as it was. */
  lemma ResponseSavedWhateverStatus(files: map<string, Bytes>, pkg: string, year: string, ending: string,
                                    get: Session, unzip: Unzip)
    requires LocalFile(pkg, year, ending) !in files
    ensures var after := YearStep(files, pkg, year, ending, get, unzip);
            && (get(FileUrl(year, ending)).RequestFailed? ==> after == files)
            && (get(FileUrl(year, ending)).Response? ==>
                  LocalFile(pkg, year, ending) in after
                  && after[LocalFile(pkg, year, ending)] == get(FileUrl(year, ending)).body)
    ensures var response := get(FileUrl(year, ending));
            response.Response? ==>
              var saved := files[LocalFile(pkg, year, ending) := response.body];
              && (unzip(response.body).None? ==> YearStep(files, pkg, year, ending, get, unzip) == saved)
              && (unzip(response.body).Some? ==>
                    YearStep(files, pkg, year, ending, get, unzip) == saved + Placed(RawDir(pkg), unzip(response.body).value))
  {
    var local := LocalFile(pkg, year, ending);
    var response := get(FileUrl(year, ending));
    if response.Response? {
      var members := unzip(response.body);
      if members.Some? {
        forall p | p in Placed(RawDir(pkg), members.value) ensures p != local {
          var m :| m in members.value && p == Join(RawDir(pkg), m);
          RawAndSourceDisjoint(pkg, m, year, ending);
        }
      }
    }
  }

  /** A step only adds or replaces files: archives already in data/_source keep their
      contents, and every file stays. */
  lemma StepKeepsArchives(files: map<string, Bytes>, pkg: string, year: string, ending: string,
                          get: Session, unzip: Unzip, y: string)
    ensures var after := YearStep(files, pkg, year, ending, get, unzip);
            files.Keys <= after.Keys
            && (LocalFile(pkg, y, ending) in files ==> after[LocalFile(pkg, y, ending)] == files[LocalFile(pkg, y, ending)])
  {
    var local := LocalFile(pkg, year, ending);
    var kept := LocalFile(pkg, y, ending);
    var response := get(FileUrl(year, ending));
    if local !in files && response.Response? {
      var members := unzip(response.body);
      if members.Some? {
        forall p | p in Placed(RawDir(pkg), members.value) ensures p != kept {
          var m :| m in members.value && p == Join(RawDir(pkg), m);
          RawAndSourceDisjoint(pkg, m, y, ending);
        }
      }
      if kept in files {
        assert kept != local;
      }
    }
  }

  /** After the loop every year has its archive in data/_source unless it was missing
      before and its request failed; archives present before keep their contents. */
  lemma {:induction false} FetchArchives(files: map<string, Bytes>, pkg: string, years: seq<string>,
                                         ending: string, get: Session, unzip: Unzip)
    ensures var after := Fetch(files, pkg, years, ending, get, unzip);
            && files.Keys <= after.Keys
            && (forall y :: y in years && (LocalFile(pkg, y, ending) in files || get(FileUrl(y, ending)).Response?)
                  ==> LocalFile(pkg, y, ending) in after)
            && (forall y :: LocalFile(pkg, y, ending) in files
                  ==> after[LocalFile(pkg, y, ending)] == files[LocalFile(pkg, y, ending)])
    decreases |years|
  {
    if years != [] {
      var step := YearStep(files, pkg, years[0], ending, get, unzip);
      var after := Fetch(step, pkg, years[1..], ending, get, unzip);
      FetchArchives(step, pkg, years[1..], ending, get, unzip);
      forall y | LocalFile(pkg, y, ending) in files
        ensures LocalFile(pkg, y, ending) in step && step[LocalFile(pkg, y, ending)] == files[LocalFile(pkg, y, ending)]
      {
        StepKeepsArchives(files, pkg, years[0], ending, get, unzip, y);
      }
      if LocalFile(pkg, years[0], ending) !in files {
        ResponseSavedWhateverStatus(files, pkg, years[0], ending, get, unzip);
      }
      assert forall y :: y in years ==> y == years[0] || y in years[1..];
    }
  }

  /** `download_data(type)` with the package directory `pkg`: false for the ValueError on an
      unknown type, raised before any directory is made. */
  method DownloadData(disk: Disk, fileType: string, pkg: string, get: Session, unzip: Unzip)
    returns (ok: bool)
    modifies disk
    ensures ok <==> fileType in Endings
    ensures !ok ==> disk.dirs == old(disk.dirs) && disk.files == old(disk.files)
    ensures ok ==> disk.dirs == old(disk.dirs) + {DataDir(pkg), RawDir(pkg), SourceDir(pkg)}
    ensures ok ==> disk.files == Fetch(old(disk.files), pkg, Years, Endings[fileType], get, unzip)
  {
    if fileType !in Endings {
      return false;
    }
    var ending := Endings[fileType];
    disk.MakeDir(DataDir(pkg));
    disk.MakeDir(RawDir(pkg));
    disk.MakeDir(SourceDir(pkg));
    for i := 0 to |Years|
      invariant disk.dirs == old(disk.dirs) + {DataDir(pkg), RawDir(pkg), SourceDir(pkg)}
      invariant Fetch(old(disk.files), pkg, Years, ending, get, unzip)
                == Fetch(disk.files, pkg, Years[i..], ending, get, unzip)
    {
      assert Years[i..][1..] == Years[i + 1..];
      var year := Years[i];
      var local := LocalFile(pkg, year, ending);
      if local in disk.files {
        continue;
      }
      var response := get(FileUrl(year, ending));
      if response.RequestFailed? {
        continue;
      }
      disk.WriteFile(local, response.body);
      var members := unzip(response.body);
      if members.Some? {
        disk.ExtractAll(RawDir(pkg), members.value);
      }
    }
    ok := true;
  }
}
