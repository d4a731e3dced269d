/** The stand-alone script diskimageprocessor.py: one SIP per disk image,
    carved by the tool the disktype report's file system line selects, and
    a description row per SIP built from the carved files. Directory
    creation, copying, mounting, and the checksum, permission and
    Brunnhilde commands are outside the model; the modification dates of
    the carved files arrive already formatted. */
module Processor {
  import opened Outcomes
  import opened PyStr
  import opened StrOrder
  import opened Sizes
  import opened Paths
  import opened Carving
  import opened Statements
  import Analysis
  import TskOptions

  /** The suffixes (letter case significant) of the files treated as disk
      images. */
  const ImageSuffixes: seq<string> := [".E01", ".000", ".raw", ".img", ".dd", ".iso"]

  predicate IsDiskImage(file: string) {
    EndsWithAny(file, ImageSuffixes)
  }

  /** A suffix survives lower-casing. */
  lemma LowerKeepsSuffix(file: string, sfx: string)
    requires EndsWith(file, sfx)
    ensures EndsWith(Lower(file), Lower(sfx))
  {
    var head := file[..|file| - |sfx|];
    assert file == head + sfx;
    LowerConcat(head, sfx);
    var l := Lower(head) + Lower(sfx);
    assert l[|Lower(head)|..] == Lower(sfx);
  }

  /** Every image this script takes, the tsk_recover options script takes
      as well. */
  lemma ImagesAcceptedByTskOptions(file: string)
    requires IsDiskImage(file)
    ensures TskOptions.IsDiskImage(file)
  {
    var k :| 0 <= k < |ImageSuffixes| && EndsWith(file, ImageSuffixes[k]);
    assert ImageSuffixes[k] == TskOptions.ImageSuffixes[if k <= 1 then k else k + 1];
  }

  /** The lower-cased suffixes are among the analyzer's. */
  lemma LoweredSuffixes()
    ensures Lower(ImageSuffixes[0]) == Analysis.ImageSuffixes[0]
    ensures forall k :: 1 <= k < |ImageSuffixes| ==> Lower(ImageSuffixes[k]) == ImageSuffixes[k]
    ensures forall k :: 1 <= k < |ImageSuffixes| ==> ImageSuffixes[k] in Analysis.ImageSuffixes
  {
    assert Lower(".E01") == ".e01";
    assert Lower(".000") == ".000";
    assert Lower(".raw") == ".raw";
    assert Lower(".img") == ".img";
    assert Lower(".dd") == ".dd";
    assert Lower(".iso") == ".iso";
    assert Analysis.ImageSuffixes[1] == ".000";
    assert Analysis.ImageSuffixes[4] == ".raw";
  }

  /** Every image this script takes, the analyzer takes as well. */
  lemma ImagesAcceptedByAnalyzer(file: string)
    requires IsDiskImage(file)
    ensures Analysis.IsDiskImage(file)
  {
    var k :| 0 <= k < |ImageSuffixes| && EndsWith(file, ImageSuffixes[k]);
    LowerKeepsSuffix(file, ImageSuffixes[k]);
    LoweredSuffixes();
    var j :| 0 <= j < |Analysis.ImageSuffixes| && Analysis.ImageSuffixes[j] == Lower(ImageSuffixes[k]);
  }

  /** Split images (".001") are taken by the other scripts only. */
  lemma SplitImageSkipped()
    ensures !IsDiskImage("disk.001") && TskOptions.IsDiskImage("disk.001")
  {
    assert EndsWith("disk.001", TskOptions.ImageSuffixes[2]);
  }

  /** The script converts an image whose extension is exactly ".E01"; the
      toolkit's test accepts it too. */
  lemma ScriptEwfIsToolkitEwf(file: string)
    requires SplitExt(file).1 == ".E01"
    ensures IsEwf(SplitExt(file).1)
  {
    UpperEwfIsEwf();
  }

  lemma UpperEwfIsEwf()
    ensures IsEwf(".E01")
  {
    var l := Lower(".E01");
    assert l[1..] == EwfExtensions[1];
  }

  /** The toolkit also converts extensions the script copies as they are. */
  lemma LowerCaseEwfNotConverted()
    ensures IsEwf(".e01") && ".e01" != ".E01"
  {
    assert EndsWith(Lower(".e01"), EwfExtensions[1]);
  }

  const FsMarker: string := "file system"

  lemma MarkedLineNotEmpty(line: string)
    requires Contains(line, FsMarker)
    ensures |line| > 0
  {
    assert OccursAt(line, FsMarker, Find(line, FsMarker).value);
  }

  /** The position of the last disktype line mentioning a file system. */
  function LastFsIndex(lines: seq<string>): (r: Option<nat>)
    ensures r.Some? ==> r.value < |lines| && Contains(lines[r.value], FsMarker)
    ensures r.Some? ==> forall j :: r.value < j < |lines| ==> !Contains(lines[j], FsMarker)
    ensures r.None? <==> forall j :: 0 <= j < |lines| ==> !Contains(lines[j], FsMarker)
    decreases |lines|
  {
    if |lines| == 0 then None
    else if Contains(lines[|lines| - 1], FsMarker) then Some(|lines| - 1)
    else
      var r := LastFsIndex(lines[..|lines| - 1]);
      assert forall j :: 0 <= j < |lines| - 1 ==> lines[..|lines| - 1][j] == lines[j];
      r
  }

  /** The file system line as evidently intended: the last line mentioning
      a file system, or "" when there is none. */
  function DiskFs(lines: seq<string>): (r: string)
    ensures r == "" <==> LastFsIndex(lines).None?
  {
    match LastFsIndex(lines)
    case None => ""
    case Some(k) =>
      MarkedLineNotEmpty(lines[k]);
      lines[k]
  }

  /** The file system line as written: `disk_fs` is only assigned inside
      the loop, so a report without a file system line leaves the value
      from the previous disk (`carried`) in place, and for the first disk
      reading it raises NameError. */
  function DiskFsAsWritten(lines: seq<string>, carried: Option<string>): (r: Result<string>)
    ensures r.Err? <==> LastFsIndex(lines).None? && carried.None?
    ensures r.Err? ==> r.error == NameError("disk_fs")
  {
    match LastFsIndex(lines)
    case Some(k) => Ok(lines[k])
    case None =>
      match carried
      case Some(prev) => Ok(prev)
      case None => Err(NameError("disk_fs"))
  }

  /** The two agree exactly when the report has a file system line: a
      carried line, always a real file system line, is never "". */
  lemma DiskFsAsWrittenDiffers(lines: seq<string>, carried: Option<string>)
    requires carried.Some? ==> Contains(carried.value, FsMarker)
    ensures DiskFsAsWritten(lines, carried) == Ok(DiskFs(lines)) <==> LastFsIndex(lines).Some?
  {
    if carried.Some? {
      MarkedLineNotEmpty(carried.value);
    }
  }

  /** The names tsk_recover handles, looked for anywhere in the line. */
  predicate MentionsTskName(l: string) {
    exists k :: 0 <= k < |TskFileSystems| && Contains(l, TskFileSystems[k])
  }

  /** The tool the script picks from the lower-cased file system line. */
  function LineStrategy(line: string): Strategy {
    var l := Lower(line);
    if MentionsTskName(l) then TskRecover
    else if Contains(l, "hfs") && !Contains(l, "hfs+") then HfsExplorer
    else if Contains(l, "udf") then MountAndCopy
    else Unsupported
  }

  lemma ContainsSelf(s: string)
    ensures Contains(s, s)
  {
    ContainsAt(s, s, 0);
  }

  lemma HfsMentionsNoTskName()
    ensures !MentionsTskName("hfs") && Contains("hfs", "hfs") && !Contains("hfs", "hfs+")
  {
    MissingChar("hfs", "ntfs", 0);
    MissingChar("hfs", "fat", 1);
    MissingChar("hfs", "ext", 0);
    MissingChar("hfs", "iso9660", 0);
    MissingChar("hfs", "hfs+", 3);
    MissingChar("hfs", "ufs", 0);
    MissingChar("hfs", "raw", 0);
    MissingChar("hfs", "swap", 1);
    MissingChar("hfs", "yaffs2", 0);
    ContainsSelf("hfs");
  }

  lemma UdfMentionsNoTskName()
    ensures !MentionsTskName("udf") && !Contains("udf", "hfs") && Contains("udf", "udf")
  {
    MissingChar("udf", "ntfs", 0);
    MissingChar("udf", "fat", 1);
    MissingChar("udf", "ext", 0);
    MissingChar("udf", "iso9660", 0);
    MissingChar("udf", "hfs+", 0);
    MissingChar("udf", "ufs", 2);
    MissingChar("udf", "raw", 0);
    MissingChar("udf", "swap", 0);
    MissingChar("udf", "yaffs2", 0);
    MissingChar("udf", "hfs", 0);
    ContainsSelf("udf");
  }

  /** On every file system name the toolkit can carve, the script picks the
      same tool. */
  lemma LineStrategyAgrees(fs: string)
    requires ChooseStrategy(fs) != Unsupported
    ensures LineStrategy(fs) == ChooseStrategy(fs)
  {
    var l := Lower(fs);
    LowerIdempotent(fs);
    assert Lower(l) == l;
    if Contains(l, "fat") {
      assert Contains(l, TskFileSystems[1]);
    } else if l in TskFileSystems {
      var k :| 0 <= k < |TskFileSystems| && TskFileSystems[k] == l;
      ContainsSelf(l);
    } else if l == "hfs" {
      HfsMentionsNoTskName();
    } else {
      UdfMentionsNoTskName();
    }
  }

  /** A line naming HFS+ is carved with tsk_recover. */
  lemma HfsPlusLineIsTsk(line: string)
    requires Contains(Lower(line), "hfs+")
    ensures LineStrategy(line) == TskRecover
  {
    assert Contains(Lower(line), TskFileSystems[4]);
  }

  /** The commands the script runs with an argument list: fiwalk and
      tsk_recover for a TSK file system, unhfs for HFS; the other tools run
      through the shell or in Python. */
  function CarveArgvs(s: Strategy, exportAll: bool, diskimage: string, filesDir: string, dfxml: string): seq<seq<string>> {
    match s
    case TskRecover =>
      [["fiwalk", "-X", dfxml, diskimage],
       ["tsk_recover", if exportAll then "-e" else "-a", diskimage, filesDir]]
    case HfsExplorer =>
      [["bash", "/usr/share/hfsexplorer/bin/unhfs", "-v", "-resforks", "APPLEDOUBLE", "-o", filesDir, diskimage]]
    case _ => []
  }

  /** The script's commands are the toolkit's: its fiwalk and tsk_recover
      lists, and its unhfs list with the default binary and resource forks
      kept. */
  lemma CarveArgvsMatchToolkit(s: Strategy, exportAll: bool, diskimage: string, filesDir: string, dfxml: string)
    ensures var argvs := CarveArgvs(s, exportAll, diskimage, filesDir, dfxml);
            && (s == TskRecover ==>
                  |argvs| == 2 && argvs[0] == FiwalkArgv(dfxml, Some(diskimage)).value
                  && argvs[1] == TskArgv(exportAll, diskimage, filesDir))
            && (s == HfsExplorer ==>
                  |argvs| == 1 && argvs[0] == UnhfsArgv(UnhfsDefaultBin, true, filesDir, diskimage))
            && (s == MountAndCopy || s == Unsupported ==> |argvs| == 0)
  {
  }

  /** How the main loop handles one file. */
  datatype Outcome =
    | NotAnImage
    | NoRawImage
    | Carved(strategy: Strategy, conversion: seq<seq<string>>, argvs: seq<seq<string>>)

  /** The image the script carves from, and the conversion commands
      before it: a ".E01" image is exported to "<id>.img" in the SIP's
      diskimage directory (None when ewfexport failed); any other image is
      its copy there. */
  function ImagePlan(file: string, source: string, diskimageDir: string, converted: bool): (r: Option<(string, seq<seq<string>>)>)
    ensures r.None? <==> SplitExt(file).1 == ".E01" && !converted
    ensures r.Some? && SplitExt(file).1 == ".E01" ==>
              r.value == (PathJoin(diskimageDir, SplitExt(file).0 + ".img"),
                          [EwfexportArgv(PathJoin(diskimageDir, SplitExt(file).0), PathJoin(source, file))])
    ensures r.Some? && SplitExt(file).1 != ".E01" ==> r.value == (PathJoin(diskimageDir, file), [])
  {
    var parts := SplitExt(file);
    if parts.1 != ".E01" then Some((PathJoin(diskimageDir, file), []))
    else if !converted then None
    else
      var argv := EwfexportArgv(PathJoin(diskimageDir, parts.0), PathJoin(source, file));
      Some((PathJoin(diskimageDir, parts.0 + ".img"), [argv]))
  }

  /** The file system line a pass uses, corrected or as written. */
  function FsLine(corrected: bool, lines: seq<string>, carried: Option<string>): (r: Result<string>)
    ensures corrected ==> r == Ok(DiskFs(lines))
    ensures !corrected ==> r == DiskFsAsWritten(lines, carried)
  {
    if corrected then Ok(DiskFs(lines)) else DiskFsAsWritten(lines, carried)
  }

  /** One pass of the main loop for `file` (a name in the directory
      `source`), with `converted` saying whether ewfexport succeeded and
      `lines` the disktype report. With `corrected` false the file system
      line is read as written; the returned option is the `disk_fs` left
      for the next file. */
  function ProcessFileWith(corrected: bool, file: string, source: string, sipsDir: string, exportAll: bool, converted: bool,
                           lines: seq<string>, carried: Option<string>): (r: Result<(Outcome, Option<string>)>)
    ensures r.Err? ==> !corrected && r.error == NameError("disk_fs")
    ensures var plan := ImagePlan(file, source, PathJoin(PathJoin(PathJoin(sipsDir, file), "objects"), "diskimage"), converted);
            r.Ok? ==> (r.value.0.Carved? <==> IsDiskImage(file) && plan.Some?)
                      && (r.value.0.Carved? ==> r.value.0.conversion == plan.value.1)
  {
    if !IsDiskImage(file) then Ok((NotAnImage, carried))
    else
      var sip := PathJoin(sipsDir, file);
      var objects := PathJoin(sip, "objects");
      var subdoc := PathJoin(PathJoin(sip, "metadata"), "submissionDocumentation");
      match ImagePlan(file, source, PathJoin(objects, "diskimage"), converted)
      case None => Ok((NoRawImage, carried))
      case Some((diskimage, conversion)) =>
        var fs :- FsLine(corrected, lines, carried);
        var s := LineStrategy(fs);
        Ok((Carved(s, conversion, CarveArgvs(s, exportAll, diskimage, PathJoin(objects, "files"),
                                              PathJoin(subdoc, "dfxml.xml"))),
            Some(fs)))
  }

  /** What one pass does: files without an image suffix and images that
      could not be converted are skipped; otherwise the tool is the one the
      file system line selects, preceded by the conversion for ".E01". The
      as-written pass fails only on a first disk without a file system
      line. */
  lemma ProcessFileSpec(corrected: bool, file: string, source: string, sipsDir: string, exportAll: bool, converted: bool,
                        lines: seq<string>, carried: Option<string>)
    ensures var r := ProcessFileWith(corrected, file, source, sipsDir, exportAll, converted, lines, carried);
            && (r.Err? <==> !corrected && IsDiskImage(file) && !(SplitExt(file).1 == ".E01" && !converted)
                            && LastFsIndex(lines).None? && carried.None?)
            && (r.Ok? ==>
                  && (r.value.0 == NotAnImage <==> !IsDiskImage(file))
                  && (r.value.0 == NoRawImage <==> IsDiskImage(file) && SplitExt(file).1 == ".E01" && !converted)
                  && (r.value.0.Carved? ==>
                        var fs := if corrected then DiskFs(lines) else DiskFsAsWritten(lines, carried).value;
                        && r.value.0.strategy == LineStrategy(fs)
                        && r.value.1 == Some(fs)))
  {
  }

  /** A converted ".E01" image runs ewfexport on the source image first. */
  lemma EwfConvertedFirst(corrected: bool, file: string, source: string, sipsDir: string, exportAll: bool,
                          lines: seq<string>, carried: Option<string>)
    requires IsDiskImage(file) && SplitExt(file).1 == ".E01"
    requires ProcessFileWith(corrected, file, source, sipsDir, exportAll, true, lines, carried).Ok?
    ensures var o := ProcessFileWith(corrected, file, source, sipsDir, exportAll, true, lines, carried).value.0;
            o.Carved? && |o.conversion| == 1 && o.conversion[0][0] == "ewfexport" && o.conversion[0][10] == PathJoin(source, file)
  {
    var objects := PathJoin(PathJoin(sipsDir, file), "objects");
    var plan := ImagePlan(file, source, PathJoin(objects, "diskimage"), true);
    assert plan.Some? && |plan.value.1| == 1;
    var argv := plan.value.1[0];
    assert argv[0] == "ewfexport" && argv[10] == PathJoin(source, file);
  }

  /** The description row of a SIP. */
  datatype SipRow = SipRow(identifier: string, dateStatement: string, earliest: string, latest: string,
                           extent: string, scope: string)

  /** The phrase naming the tool in the scope note. */
  function ToolPhrase(s: Strategy): Option<string> {
    match s
    case TskRecover => Some("using SleuthKit's tsk_recover")
    case HfsExplorer => Some("using the HFSExplorer command line utility unhfs")
    case MountAndCopy => Some("by mounting disk image and copying files with Python's shutil.copytree function")
    case Unsupported => None
  }

  /** A carved file: its size and its modification date as text. */
  datatype CarvedFile = CarvedFile(size: nat, modified: string)

  function TotalSize(files: seq<CarvedFile>): nat
    decreases |files|
  {
    if |files| == 0 then 0 else TotalSize(files[..|files| - 1]) + files[|files| - 1].size
  }

  function ModifiedDates(files: seq<CarvedFile>): (r: seq<string>)
    ensures |r| == |files| && forall i :: 0 <= i < |files| ==> r[i] == files[i].modified
  {
    seq(|files|, i requires 0 <= i < |files| => files[i].modified)
  }

  /** The date range: the first ten characters of the least and greatest
      modification dates, "N/A" for both without files. */
  function DateRange(mdates: seq<string>): (string, string) {
    if |mdates| == 0 then ("N/A", "N/A") else (Take(Min(mdates), 10), Take(Max(mdates), 10))
  }

  /** Every date, cut to ten characters, lies within the range, and both
      ends are cut dates of the list. */
  lemma DateRangeBounds(mdates: seq<string>)
    requires |mdates| > 0
    ensures var (e, l) := DateRange(mdates);
            && (exists i :: 0 <= i < |mdates| && e == Take(mdates[i], 10))
            && (exists i :: 0 <= i < |mdates| && l == Take(mdates[i], 10))
            && forall i :: 0 <= i < |mdates| ==> LexLe(e, Take(mdates[i], 10)) && LexLe(Take(mdates[i], 10), l)
  {
    var lo, hi := Min(mdates), Max(mdates);
    forall i | 0 <= i < |mdates|
      ensures LexLe(Take(lo, 10), Take(mdates[i], 10)) && LexLe(Take(mdates[i], 10), Take(hi, 10))
    {
      assert mdates[i] in mdates;
      LexLeTake(lo, mdates[i], 10);
      LexLeTake(mdates[i], hi, 10);
    }
  }

  /** The date statement as written: the whole dates are compared, so two
      different dates in one year give "2019 - 2019". */
  function DateStatementAsWritten(earliest: string, latest: string): (r: string)
    ensures earliest == latest ==> r == Take(earliest, 4)
  {
    if earliest == latest then Take(earliest, 4) else Take(earliest, 4) + " - " + Take(latest, 4)
  }

  /** The two statements differ exactly for different dates in one year. */
  lemma DateStatementDiffers(earliest: string, latest: string)
    ensures DateStatementAsWritten(earliest, latest) != YearStatement(earliest, latest, " - ")
            <==> earliest != latest && Take(earliest, 4) == Take(latest, 4)
  {
    var y := Take(earliest, 4);
    if earliest != latest && y == Take(latest, 4) {
      assert |DateStatementAsWritten(earliest, latest)| > |y|;
    }
  }

  lemma SameYearTwice()
    ensures DateStatementAsWritten("2019-01-01", "2019-05-05") == "2019 - 2019"
    ensures YearStatement("2019-01-01", "2019-05-05", " - ") == "2019"
  {
    assert "2019-01-01" != "2019-05-05" by {
      assert "2019-01-01"[6] != "2019-05-05"[6];
    }
    assert Take("2019-01-01", 4) == "2019";
    assert Take("2019-05-05", 4) == "2019";
  }

  /** The locals `disk_fs` and `tool` left by the previous SIP of the
      description loop. */
  datatype Carry = Carry(diskFs: Option<string>, tool: Option<string>)

  /** A SIP to describe: its name, its carved files, its disktype report
      (None when "disktype.txt" was never written, as for an ".E01" whose
      conversion failed) and its Brunnhilde format report. */
  datatype Sip = Sip(name: string, files: seq<CarvedFile>, disktype: Option<seq<string>>, formatsCsv: Option<seq<seq<string>>>)

  const ScopePrefix: string := "File includes both a disk image and logical files carved from the disk image "

  /** The scope note of a SIP with files: the tool, then the common
      formats. */
  function ScopeNote(tool: string, formats: string): (r: string)
    ensures StartsWith(r, ScopePrefix + tool)
  {
    var head := ScopePrefix + tool;
    var r := head + (". Most common file formats: " + formats);
    assert r[..|head|] == head;
    r
  }

  /** The tool named by a file system line, or else the one carried over. */
  function NextTool(fs: string, carried: Option<string>): (r: Option<string>)
    ensures ToolPhrase(LineStrategy(fs)).Some? ==> r == ToolPhrase(LineStrategy(fs))
    ensures ToolPhrase(LineStrategy(fs)).None? ==> r == carried
  {
    match ToolPhrase(LineStrategy(fs))
    case Some(t) => Some(t)
    case None => carried
  }

  /** One pass of `create_spreadsheet`. A byte total beyond the unit names
      raises IndexError. With `corrected` false the date statement compares
      whole dates and the file system line is read as written; in both,
      a line naming no known tool leaves the previous SIP's tool in place,
      and the first SIP raises NameError when its note needs one. A SIP
      without "disktype.txt" raises IOError when the report is
      opened. */
  function DescribeSipWith(corrected: bool, sip: Sip, carry: Carry): (r: Result<(SipRow, Carry)>)
    ensures r.Ok? ==> r.value.0.identifier == sip.name
    ensures sip.disktype.None? ==> r.Err?
    ensures sip.disktype.None? && LegacyExtent(|sip.files|, TotalSize(sip.files), HalfAwayFromZero).Ok? ==>
              r == Err(IOError("disktype.txt"))
  {
    var extent :- LegacyExtent(|sip.files|, TotalSize(sip.files), HalfAwayFromZero);
    var (e, l) := DateRange(ModifiedDates(sip.files));
    var statement := if corrected then YearStatement(e, l, " - ") else DateStatementAsWritten(e, l);
    var lines :- if sip.disktype.Some? then Ok(sip.disktype.value) else Err(IOError("disktype.txt"));
    var fs :- FsLine(corrected, lines, carry.diskFs);
    var tool := NextTool(fs, carry.tool);
    var next := Carry(Some(fs), tool);
    if extent == "EMPTY" then Ok((SipRow(sip.name, statement, e, l, extent, ""), next))
    else
      match tool
      case None => Err(NameError("tool"))
      case Some(t) =>
        Ok((SipRow(sip.name, statement, e, l, extent, ScopeNote(t, FormatList(sip.formatsCsv, ScriptNoFormats))), next))
  }

  /** The whole loop of `create_spreadsheet` over the SIPs, in sorted
      order, each pass handing its file system line and tool to the next.
      The first failing SIP ends the loop, so no later SIP gets a row;
      in particular the run succeeds only if every SIP has its
      "disktype.txt". */
  function DescribeSips(corrected: bool, sips: seq<Sip>, carry: Carry): (r: Result<seq<SipRow>>)
    ensures r.Ok? ==> |r.value| == |sips|
    ensures r.Ok? ==> forall i :: 0 <= i < |sips| ==> r.value[i].identifier == sips[i].name
    ensures r.Ok? ==> forall i :: 0 <= i < |sips| ==> sips[i].disktype.Some?
    decreases |sips|
  {
    if |sips| == 0 then Ok([])
    else
      var (row, next) :- DescribeSipWith(corrected, sips[0], carry);
      var rest :- DescribeSips(corrected, sips[1..], next);
      Ok([row] + rest)
  }

  /** What a row states, for the corrected reading: the extent gives the
      number of carved files ("EMPTY" for none), the dates span the
      modification dates, the statement names one year exactly when both
      ends share it, and the note is empty exactly for an empty SIP. */
  lemma DescribeSipSpec(sip: Sip, carry: Carry)
    requires DescribeSipWith(true, sip, carry).Ok?
    ensures var row := DescribeSipWith(true, sip, carry).value.0;
            var n := |sip.files|;
            && (row.extent == "EMPTY" <==> n == 0)
            && (n > 0 ==> CountOf(row.extent) == Some(n))
            && (row.earliest, row.latest) == DateRange(ModifiedDates(sip.files))
            && (row.dateStatement == Take(row.earliest, 4) <==> Take(row.earliest, 4) == Take(row.latest, 4))
            && (row.scope == "" <==> n == 0)
  {
    var n := |sip.files|;
    var extent := LegacyExtent(n, TotalSize(sip.files), HalfAwayFromZero).value;
    if n > 0 {
      LegacyExtentCount(n, TotalSize(sip.files), HalfAwayFromZero);
      EmptyHasNoCount();
      assert extent != "EMPTY";
    }
  }

  /** A SIP with files names, in its note, the tool its own file system
      line selects, or else the tool of the SIP before it. */
  lemma DescribeSipTool(corrected: bool, sip: Sip, carry: Carry)
    requires DescribeSipWith(corrected, sip, carry).Ok?
    requires LegacyExtent(|sip.files|, TotalSize(sip.files), HalfAwayFromZero).value != "EMPTY"
    ensures sip.disktype.Some?
    ensures var fs := if corrected then DiskFs(sip.disktype.value) else DiskFsAsWritten(sip.disktype.value, carry.diskFs).value;
            var tool := if ToolPhrase(LineStrategy(fs)).Some? then ToolPhrase(LineStrategy(fs)) else carry.tool;
            && tool.Some?
            && StartsWith(DescribeSipWith(corrected, sip, carry).value.0.scope, ScopePrefix + tool.value)
  {
    var fs := FsLine(corrected, sip.disktype.value, carry.diskFs).value;
    var tool := NextTool(fs, carry.tool);
    assert tool.Some?;
    var formats := FormatList(sip.formatsCsv, ScriptNoFormats);
    assert DescribeSipWith(corrected, sip, carry).value.0.scope == ScopeNote(tool.value, formats);
  }

  /** The as-written pass reports the range of the same dates, and its
      statement differs only for two dates in one year. */
  lemma DescribeSipAsWrittenDates(sip: Sip, carry: Carry)
    requires DescribeSipWith(false, sip, carry).Ok?
    ensures var row := DescribeSipWith(false, sip, carry).value.0;
            && (row.earliest, row.latest) == DateRange(ModifiedDates(sip.files))
            && (row.dateStatement != YearStatement(row.earliest, row.latest, " - ")
                <==> row.earliest != row.latest && Take(row.earliest, 4) == Take(row.latest, 4))
  {
    var row := DescribeSipWith(false, sip, carry).value.0;
    DateStatementDiffers(row.earliest, row.latest);
  }
}
