/** One disk's row of the analysis spreadsheet (`write_to_spreadsheet` in
    diskimageanalyzer.py): the volume count, the de-duplicated file
    systems, the date range and year statement across all of the disk's
    DFXML documents, the extent, the virus flag and the most common
    formats. Finding the documents (a directory walk) and reading the two
    report files are outside the model: the documents arrive as sequences
    of file objects, the format report as its CSV rows (None when it cannot
    be opened) and the virus log as its first line (None when unreadable). */
module Analysis {
  import opened Outcomes
  import opened PyStr
  import opened StrOrder
  import opened Paths
  import opened Sizes
  import opened Volumes
  import opened Dfxml
  import opened DfxmlStats
  import opened Statements

  /** The extensions (lower case) of the files the analyzer treats as disk
      images; the test ignores letter case. */
  const ImageSuffixes: seq<string> := [".e01", ".000", ".ewf", ".001", ".raw", ".img", ".dd", ".iso"]

  predicate IsDiskImage(file: string) {
    EndsWithAny(Lower(file), ImageSuffixes)
  }

  /** The record `_parse_dfxml` gives one document, or None when the
      document is skipped with the warning that it holds no file objects.
      As written (`corrected` false) the document is parsed without
      `export_all`, by the parse as written, whose TypeError on a missing
      modified date already drops a document with no counted file. As
      intended `export_all` is passed on, the intended parse is used, and a
      document that counts no file is skipped as that warning says. */
  function ParseDoc(corrected: bool, doc: seq<FileObject>, exportAll: bool, year: nat): (r: Option<VolumeInfo>)
    ensures r.Some? ==> r.value.files > 0 && |r.value.earliest| > 0 && |r.value.latest| > 0
  {
    if !corrected then
      var r := ParseDfxmlAsWritten(doc, false, year);
      if r.Some? then NoCountedNoModified(doc, false); r else r
    else
      match ParseDfxml(doc, exportAll, year)
      case None => None
      case Some(info) => if info.files > 0 then Some(info) else None
  }

  /** A document that counts no file has no modified date. */
  lemma NoCountedNoModified(doc: seq<FileObject>, exportAll: bool)
    requires |FamilyBounds(CountedObjects(doc, exportAll), Modified).0| > 0
    ensures |CountedObjects(doc, exportAll)| > 0
  {
  }

  /** Which documents are kept: as written, those the parse as written
      reads; as intended, those the intended parse reads and that count a
      file. A kept document's record is the parse's. */
  lemma ParseDocSpec(corrected: bool, doc: seq<FileObject>, exportAll: bool, year: nat)
    ensures var r := ParseDoc(corrected, doc, exportAll, year);
            && (!corrected ==> r == ParseDfxmlAsWritten(doc, false, year))
            && (corrected ==> (r.Some? <==> ParseDfxml(doc, exportAll, year).Some? && |CountedObjects(doc, exportAll)| > 0))
            && (corrected && r.Some? ==> r == ParseDfxml(doc, exportAll, year))
            && (|CountedObjects(doc, corrected && exportAll)| == 0 ==> r.None?)
  {
    if !corrected && |CountedObjects(doc, false)| == 0 {
      assert FamilyTexts([], Modified) == [];
    }
  }

  /** The records among `reports`, in order. */
  function Kept(reports: seq<Option<VolumeInfo>>): (r: seq<VolumeInfo>)
    ensures |r| <= |reports|
    ensures forall i :: 0 <= i < |r| ==> Some(r[i]) in reports
    decreases |reports|
  {
    if |reports| == 0 then []
    else
      var init := Kept(reports[..|reports| - 1]);
      assert forall x :: x in reports[..|reports| - 1] ==> x in reports;
      match reports[|reports| - 1]
      case None => init
      case Some(info) => init + [info]
  }

  /** Nothing is kept exactly when every report is None. */
  lemma {:induction false} KeptEmpty(reports: seq<Option<VolumeInfo>>)
    ensures |Kept(reports)| == 0 <==> forall i :: 0 <= i < |reports| ==> reports[i].None?
    decreases |reports|
  {
    if |reports| > 0 {
      var init := reports[..|reports| - 1];
      KeptEmpty(init);
      assert forall i :: 0 <= i < |init| ==> init[i] == reports[i];
    }
  }

  /** The report of each document, in order. */
  function Reports(corrected: bool, docs: seq<seq<FileObject>>, exportAll: bool, year: nat): (r: seq<Option<VolumeInfo>>)
    ensures |r| == |docs|
    ensures forall i :: 0 <= i < |docs| ==> r[i] == ParseDoc(corrected, docs[i], exportAll, year)
  {
    seq(|docs|, i requires 0 <= i < |docs| => ParseDoc(corrected, docs[i], exportAll, year))
  }

  /** The records of the documents that are not skipped, in order. */
  function Parsed(corrected: bool, docs: seq<seq<FileObject>>, exportAll: bool, year: nat): (r: seq<VolumeInfo>)
    ensures |r| <= |docs|
    ensures forall i :: 0 <= i < |r| ==> r[i].files > 0 && |r[i].earliest| > 0 && |r[i].latest| > 0
  {
    Kept(Reports(corrected, docs, exportAll, year))
  }

  /** No record is left exactly when every document is skipped. */
  lemma ParsedEmpty(corrected: bool, docs: seq<seq<FileObject>>, exportAll: bool, year: nat)
    ensures |Parsed(corrected, docs, exportAll, year)| == 0 <==>
              forall i :: 0 <= i < |docs| ==> ParseDoc(corrected, docs[i], exportAll, year).None?
  {
    KeptEmpty(Reports(corrected, docs, exportAll, year));
  }

  /** A skipped document added at the end changes no record. */
  lemma ParsedSkip(corrected: bool, docs: seq<seq<FileObject>>, doc: seq<FileObject>, exportAll: bool, year: nat)
    requires ParseDoc(corrected, doc, exportAll, year).None?
    ensures Parsed(corrected, docs + [doc], exportAll, year) == Parsed(corrected, docs, exportAll, year)
  {
    var rs := Reports(corrected, docs + [doc], exportAll, year);
    assert rs[..|docs|] == Reports(corrected, docs, exportAll, year);
  }

  function TotalFiles(infos: seq<VolumeInfo>): nat
    decreases |infos|
  {
    if |infos| == 0 then 0 else TotalFiles(infos[..|infos| - 1]) + infos[|infos| - 1].files
  }

  function TotalSize(infos: seq<VolumeInfo>): nat
    decreases |infos|
  {
    if |infos| == 0 then 0 else TotalSize(infos[..|infos| - 1]) + infos[|infos| - 1].bytes
  }

  /** The disk has no files exactly when no parsed document counted one. */
  lemma {:induction false} TotalFilesZero(infos: seq<VolumeInfo>)
    ensures TotalFiles(infos) == 0 <==> forall i :: 0 <= i < |infos| ==> infos[i].files == 0
    decreases |infos|
  {
    if |infos| > 0 {
      TotalFilesZero(infos[..|infos| - 1]);
      assert forall i :: 0 <= i < |infos| - 1 ==> infos[..|infos| - 1][i] == infos[i];
    }
  }

  /** `list(dict.fromkeys(xs))`: each value once, at its first position. */
  function Dedup(xs: seq<string>): (r: seq<string>)
    ensures forall x :: x in r <==> x in xs
    ensures forall i, j :: 0 <= i < j < |r| ==> r[i] != r[j]
    decreases |xs|
  {
    if |xs| == 0 then []
    else
      var init := Dedup(xs[..|xs| - 1]);
      assert forall x :: x in xs <==> x in xs[..|xs| - 1] || x == xs[|xs| - 1] by {
        assert xs == xs[..|xs| - 1] + [xs[|xs| - 1]];
      }
      if xs[|xs| - 1] in init then init else init + [xs[|xs| - 1]]
  }

  lemma FirstIndexExtend(xs: seq<string>, y: string, x: string)
    requires x in xs
    ensures FirstIndex(xs + [y], x) == FirstIndex(xs, x)
  {
    var k := FirstIndex(xs, x);
    var k2 := FirstIndex(xs + [y], x);
    assert (xs + [y])[k] == x;
  }

  lemma FirstIndexLast(xs: seq<string>, y: string)
    requires y !in xs
    ensures FirstIndex(xs + [y], y) == |xs|
  {
    var k := FirstIndex(xs + [y], y);
    assert (xs + [y])[|xs|] == y;
  }

  /** The kept values appear in the order of their first occurrence. */
  lemma {:induction false} DedupKeepsFirstSeenOrder(xs: seq<string>, i: nat, j: nat)
    requires i < j < |Dedup(xs)|
    ensures FirstIndex(xs, Dedup(xs)[i]) < FirstIndex(xs, Dedup(xs)[j])
    decreases |xs|
  {
    var init, last := xs[..|xs| - 1], xs[|xs| - 1];
    var d := Dedup(init);
    assert xs == init + [last];
    assert Dedup(xs)[i] in init;
    FirstIndexExtend(init, last, Dedup(xs)[i]);
    if j < |d| {
      DedupKeepsFirstSeenOrder(init, i, j);
      assert Dedup(xs)[j] in init;
      FirstIndexExtend(init, last, Dedup(xs)[j]);
    } else {
      assert Dedup(xs)[j] == last && last !in init;
      FirstIndexLast(init, last);
    }
  }

  /** `volume["file_system"]` of every volume: KeyError for a volume
      without one (the lone volume of text with no file system line). */
  function FileSystems(vs: seq<Volume>): (r: Result<seq<string>>)
    ensures r.Ok? <==> forall i :: 0 <= i < |vs| ==> vs[i].fileSystem.Some?
    ensures r.Ok? ==> |r.value| == |vs| && forall i :: 0 <= i < |vs| ==> r.value[i] == vs[i].fileSystem.value
    ensures r.Err? ==> r.error == KeyError("file_system")
    decreases |vs|
  {
    if |vs| == 0 then Ok([])
    else
      var init :- FileSystems(vs[..|vs| - 1]);
      match vs[|vs| - 1].fileSystem
      case None => Err(KeyError("file_system"))
      case Some(fs) => Ok(init + [fs])
  }

  /** The running earliest date: an empty accumulator, or a strictly
      earlier date, is replaced. */
  function EarliestFold(acc: string, infos: seq<VolumeInfo>): string
    decreases |infos|
  {
    if |infos| == 0 then acc
    else EarliestFold(if |acc| == 0 || LexLess(infos[0].earliest, acc) then infos[0].earliest else acc, infos[1..])
  }

  /** The running latest date. */
  function LatestFold(acc: string, infos: seq<VolumeInfo>): string
    decreases |infos|
  {
    if |infos| == 0 then acc
    else LatestFold(if |acc| == 0 || LexLess(acc, infos[0].latest) then infos[0].latest else acc, infos[1..])
  }

  function Earliests(infos: seq<VolumeInfo>): (r: seq<string>)
    ensures |r| == |infos| && forall i :: 0 <= i < |infos| ==> r[i] == infos[i].earliest
  {
    seq(|infos|, i requires 0 <= i < |infos| => infos[i].earliest)
  }

  function Latests(infos: seq<VolumeInfo>): (r: seq<string>)
    ensures |r| == |infos| && forall i :: 0 <= i < |infos| ==> r[i] == infos[i].latest
  {
    seq(|infos|, i requires 0 <= i < |infos| => infos[i].latest)
  }

  lemma {:induction false} EarliestFoldIsMinFrom(acc: string, infos: seq<VolumeInfo>)
    requires |acc| > 0 && forall i :: 0 <= i < |infos| ==> |infos[i].earliest| > 0
    ensures EarliestFold(acc, infos) == MinFrom(acc, Earliests(infos))
    decreases |infos|
  {
    if |infos| > 0 {
      assert Earliests(infos)[1..] == Earliests(infos[1..]);
      var next := if LexLess(infos[0].earliest, acc) then infos[0].earliest else acc;
      EarliestFoldIsMinFrom(next, infos[1..]);
    }
  }

  lemma {:induction false} LatestFoldIsMaxFrom(acc: string, infos: seq<VolumeInfo>)
    requires |acc| > 0 && forall i :: 0 <= i < |infos| ==> |infos[i].latest| > 0
    ensures LatestFold(acc, infos) == MaxFrom(acc, Latests(infos))
    decreases |infos|
  {
    if |infos| > 0 {
      assert Latests(infos)[1..] == Latests(infos[1..]);
      var next := if LexLess(acc, infos[0].latest) then infos[0].latest else acc;
      LatestFoldIsMaxFrom(next, infos[1..]);
    }
  }

  /** Across documents with non-empty dates, the running earliest and
      latest dates are Python's `min` and `max` of the documents' dates. */
  lemma FoldsAreMinMax(infos: seq<VolumeInfo>)
    requires |infos| > 0
    requires forall i :: 0 <= i < |infos| ==> |infos[i].earliest| > 0 && |infos[i].latest| > 0
    ensures EarliestFold("", infos) == Min(Earliests(infos))
    ensures LatestFold("", infos) == Max(Latests(infos))
  {
    EarliestFoldIsMinFrom(infos[0].earliest, infos[1..]);
    LatestFoldIsMaxFrom(infos[0].latest, infos[1..]);
    assert Earliests(infos)[1..] == Earliests(infos[1..]);
    assert Latests(infos)[1..] == Latests(infos[1..]);
  }

  /** The scope note. */
  function ScopeContent(csv: Option<seq<seq<string>>>): string {
    "File formats: " + FormatList(csv, NoFormats)
  }

  /** The virus flag: the log's first line mentions "FOUND". */
  predicate VirusFound(firstLine: Option<string>) {
    firstLine.Some? && Contains(firstLine.value, "FOUND")
  }

  /** A row of the analysis spreadsheet. */
  datatype Row =
    | Described(disk: string, volumes: nat, fileSystems: string, dateStatement: string,
                earliest: string, latest: string, extent: string, virusFound: bool, scope: string)
    | Unreadable(disk: string)

  /** A spreadsheet cell. */
  datatype Cell = Text(text: string) | Number(n: int) | Flag(b: bool)

  /** The cells written for a row: nine columns, the failure row holding
      "N/A" in the six columns between the volume count and the note. */
  function Cells(row: Row): (r: seq<Cell>)
    ensures |r| == 9 && r[0] == Text(row.disk)
  {
    match row
    case Described(disk, n, fs, statement, e, l, extent, virus, scope) =>
      [Text(disk), Number(n), Text(fs), Text(statement), Text(e), Text(l), Text(extent), Flag(virus), Text(scope)]
    case Unreadable(disk) =>
      [Text(disk), Number(0), Text("N/A"), Text("N/A"), Text("N/A"), Text("N/A"), Text("N/A"), Text("N/A"),
       Text("Error reading DFXML files.")]
  }

  /** The inputs of one disk's row. `volumes` maps each image's file name
      to the volumes carving returned; `year` is the current year, used by
      the parse. */
  datatype DiskResult = DiskResult(
    path: string,
    volumes: map<string, seq<Volume>>,
    docs: seq<seq<FileObject>>,
    formatsCsv: Option<seq<seq<string>>>,
    virusLine: Option<string>,
    year: nat)

  /** The row of a disk with files: everything is already gathered except
      the dates, the statements and the notes. */
  function DescribeDisk(item: string, diskVolumes: seq<Volume>, fileSystems: seq<string>, infos: seq<VolumeInfo>,
                        formatsCsv: Option<seq<seq<string>>>, virusLine: Option<string>): (r: Result<Row>)
    ensures r.Ok? ==> r.value.Described? && r.value.disk == item
    ensures r.Err? ==> r.error == IndexError
  {
    var earliest := EarliestFold("", infos);
    var latest := LatestFold("", infos);
    var extent :- AnalyzerExtent(TotalFiles(infos), TotalSize(infos));
    Ok(Described(item, |diskVolumes|, Join(Dedup(fileSystems), ", "),
                 YearStatement(earliest, latest, "-"), earliest, latest, extent,
                 VirusFound(virusLine), ScopeContent(formatsCsv)))
  }

  /** The row of disk `item` from the records of its documents: KeyError
      for a disk carving never saw or a volume without a file system, the
      error row when no document counted a file, and otherwise the
      described row, whose extent raises IndexError for an unnamed byte
      total. */
  function RowOf(item: string, volumes: map<string, seq<Volume>>, infos: seq<VolumeInfo>,
                 formatsCsv: Option<seq<seq<string>>>, virusLine: Option<string>): (r: Result<Row>)
    ensures r.Err? ==> r.error in {KeyError(item), KeyError("file_system"), IndexError}
    ensures r.Ok? ==> r.value.disk == item
    ensures r.Ok? && r.value.Unreadable? <==>
              item in volumes && FileSystems(volumes[item]).Ok? && TotalFiles(infos) == 0
  {
    if item !in volumes then Err(KeyError(item))
    else
      var diskVolumes := volumes[item];
      var fileSystems :- FileSystems(diskVolumes);
      if TotalFiles(infos) == 0 then Ok(Unreadable(item))
      else DescribeDisk(item, diskVolumes, fileSystems, infos, formatsCsv, virusLine)
  }

  /** `write_to_spreadsheet`, as written (`corrected` false) or with
      `export_all` passed on to the parse (`corrected` true); see
      `ParseDoc`. The row is the error row exactly when the disk is known,
      every volume has a file system, and no document contributes a
      record. */
  function WriteRowWith(corrected: bool, d: DiskResult, exportAll: bool): (r: Result<Row>)
    ensures r.Err? ==> r.error in {KeyError(Basename(d.path)), KeyError("file_system"), IndexError}
    ensures r.Ok? ==> r.value.disk == Basename(d.path)
    ensures var item := Basename(d.path);
            r.Ok? && r.value.Unreadable? <==>
              item in d.volumes && FileSystems(d.volumes[item]).Ok?
              && |Parsed(corrected, d.docs, exportAll, d.year)| == 0
  {
    var infos := Parsed(corrected, d.docs, exportAll, d.year);
    TotalFilesZero(infos);
    assert TotalFiles(infos) == 0 <==> |infos| == 0 by {
      if |infos| > 0 {
        assert infos[0].files > 0;
      }
    }
    RowOf(Basename(d.path), d.volumes, infos, d.formatsCsv, d.virusLine)
  }

  /** The function as written: `export_all` never reaches the parse, and
      a document is dropped whenever the parse as written gives None. */
  function WriteRowAsWritten(d: DiskResult, exportAll: bool): (r: Result<Row>)
    ensures var item := Basename(d.path);
            r.Ok? && r.value.Unreadable? <==>
              item in d.volumes && FileSystems(d.volumes[item]).Ok?
              && forall i :: 0 <= i < |d.docs| ==> ParseDfxmlAsWritten(d.docs[i], false, d.year).None?
  {
    ParsedEmpty(false, d.docs, exportAll, d.year);
    forall i | 0 <= i < |d.docs| {
      ParseDocSpec(false, d.docs[i], exportAll, d.year);
    }
    WriteRowWith(false, d, exportAll)
  }

  /** The function as intended: `export_all` reaches the parse, and a
      document that counts no file is skipped. */
  function WriteRow(d: DiskResult, exportAll: bool): (r: Result<Row>)
    ensures r.Ok? ==> (r.value.Unreadable? <==>
                         forall i :: 0 <= i < |d.docs| ==>
                           ParseDfxml(d.docs[i], exportAll, d.year).None? || |CountedObjects(d.docs[i], exportAll)| == 0)
  {
    ParsedEmpty(true, d.docs, exportAll, d.year);
    forall i | 0 <= i < |d.docs| {
      ParseDocSpec(true, d.docs[i], exportAll, d.year);
    }
    WriteRowWith(true, d, exportAll)
  }

  /** What a described row states: the number of volumes carving returned,
      their file systems once each in first-seen order, the earliest and
      latest of the documents' dates, the statement of their years, an
      extent giving the disk's file count, and the virus flag. */
  lemma DescribedRow(d: DiskResult, exportAll: bool)
    requires WriteRow(d, exportAll).Ok? && WriteRow(d, exportAll).value.Described?
    ensures var row, item := WriteRow(d, exportAll).value, Basename(d.path);
            var infos := Parsed(true, d.docs, exportAll, d.year);
            var fs := FileSystems(d.volumes[item]).value;
            && row.volumes == |d.volumes[item]|
            && row.fileSystems == Join(Dedup(fs), ", ")
            && |infos| > 0
            && row.earliest == Min(Earliests(infos))
            && row.latest == Max(Latests(infos))
            && (row.dateStatement == Take(row.earliest, 4) <==> Take(row.earliest, 4) == Take(row.latest, 4))
            && CountOf(row.extent) == Some(TotalFiles(infos))
            && row.virusFound == VirusFound(d.virusLine)
  {
    var infos := Parsed(true, d.docs, exportAll, d.year);
    FoldsAreMinMax(infos);
    AnalyzerExtentCount(TotalFiles(infos), TotalSize(infos));
  }

  /** `export_all` never reaches the parse as written. */
  lemma ExportAllIgnoredAsWritten(d: DiskResult)
    ensures WriteRowAsWritten(d, true) == WriteRowAsWritten(d, false)
  {
    assert Reports(false, d.docs, true, d.year) == Reports(false, d.docs, false, d.year);
  }

  /** A document that counts no file changes no row, in either reading. */
  lemma EmptyDocumentIgnored(corrected: bool, d: DiskResult, doc: seq<FileObject>, exportAll: bool)
    requires |CountedObjects(doc, corrected && exportAll)| == 0
    ensures WriteRowWith(corrected, d.(docs := d.docs + [doc]), exportAll) == WriteRowWith(corrected, d, exportAll)
    ensures !corrected ==> WriteRowAsWritten(d.(docs := d.docs + [doc]), exportAll) == WriteRowAsWritten(d, exportAll)
  {
    ParseDocSpec(corrected, doc, exportAll, d.year);
    ParsedSkip(corrected, d.docs, doc, exportAll, d.year);
  }

  /** As written, a document none of whose counted files has a modified
      stamp is dropped as well, whatever its other stamps. */
  lemma UndatedDocumentIgnoredAsWritten(d: DiskResult, doc: seq<FileObject>, exportAll: bool)
    requires |FamilyBounds(CountedObjects(doc, false), Modified).0| == 0
    ensures WriteRowAsWritten(d.(docs := d.docs + [doc]), exportAll) == WriteRowAsWritten(d, exportAll)
  {
    ParseDocSpec(false, doc, exportAll, d.year);
    ParsedSkip(false, d.docs, doc, exportAll, d.year);
  }

  const DeletedStamp: string := "2020-01-02T00:00:00"

  /** A deleted (unallocated) five-byte file modified on 2 January 2020. */
  const DeletedFile: FileObject := FileObject("deleted.txt", Some("r"), Some(1), Some(5), Some(DeletedStamp), None, None)

  /** A disk whose one document holds only the deleted file. */
  const DeletedOnlyDisk: DiskResult := DiskResult("disk1", map["disk1" := []], [[DeletedFile]], None, None, 2026)

  /** A single document contributes its record unless it is skipped. */
  lemma ParsedOne(corrected: bool, doc: seq<FileObject>, exportAll: bool, year: nat)
    ensures var p := ParseDoc(corrected, doc, exportAll, year);
            Parsed(corrected, [doc], exportAll, year) == if p.Some? then [p.value] else []
  {
    var rs := Reports(corrected, [doc], exportAll, year);
    assert rs == [ParseDoc(corrected, doc, exportAll, year)];
    assert rs[..0] == [];
  }

  lemma DeletedFileCounted()
    ensures CountedObjects([DeletedFile], false) == []
    ensures CountedObjects([DeletedFile], true) == [DeletedFile]
  {
    assert [DeletedFile][..0] == [];
  }

  lemma DeletedFileBounds()
    ensures FamilyBounds([DeletedFile], Modified) == (DeletedStamp, DeletedStamp)
    ensures FamilyBounds([DeletedFile], Changed) == ("", "")
    ensures FamilyBounds([DeletedFile], Created) == ("", "")
  {
    var o := DeletedFile;
    SingleFamilyTexts(o, Modified);
    SingleFamilyTexts(o, Changed);
    SingleFamilyTexts(o, Created);
    BoundsOfOne(DeletedStamp);
  }

  /** With only modified times the range is theirs, cut to dates. */
  lemma ModifiedRangeOnly(t: string, missing: string)
    requires |t| > 0
    ensures DateRange((t, t), ("", ""), ("", ""), missing) == (Take(t, 10), Take(t, 10))
  {
  }

  /** The deleted file's one modified date gives the document's range. */
  lemma DeletedFileRange()
    ensures Range([DeletedFile], "2026") == ("2020-01-02", "2020-01-02")
  {
    DeletedFileBounds();
    ModifiedRangeOnly(DeletedStamp, "2026");
    assert Take(DeletedStamp, 10) == "2020-01-02";
  }

  /** As written the document is dropped; with `export_all` passed on it
      reports the file, its five bytes and its date. */
  lemma DeletedOnlyParsed()
    ensures Parsed(false, [[DeletedFile]], true, 2026) == []
    ensures Parsed(true, [[DeletedFile]], true, 2026) == [VolumeInfo(1, 5, "2020-01-02", "2020-01-02")]
  {
    DeletedFileCounted();
    ParsedOne(false, [DeletedFile], true, 2026);
    ParsedOne(true, [DeletedFile], true, 2026);
    ParseDocSpec(false, [DeletedFile], true, 2026);
    ParseDocSpec(true, [DeletedFile], true, 2026);
    DeletedFileRange();
    YearText();
    ParseOfSingle(DeletedFile, true, 2026, "2020-01-02", "2020-01-02");
  }

  lemma DiskOneName()
    ensures Basename("disk1") == "disk1"
  {
    BasenameOfName("disk1");
  }

  lemma FiveBytesNamed()
    ensures HumanReadableSize(5, HalfEven).Ok?
  {
    assert 5 < Pow1024(|Units|) by {
      Pow1024Monotone(1, |Units|);
    }
  }

  /** The totals and the date ends of a single record are its own. */
  lemma OneRecordTotals(info: VolumeInfo)
    ensures TotalFiles([info]) == info.files && TotalSize([info]) == info.bytes
    ensures EarliestFold("", [info]) == info.earliest && LatestFold("", [info]) == info.latest
  {
    assert [info][..0] == [] && [info][1..] == [];
  }

  /** The row of a known disk whose documents left one record. */
  lemma OneRecordRow(item: string, volumes: map<string, seq<Volume>>, info: VolumeInfo,
                     formatsCsv: Option<seq<seq<string>>>, virusLine: Option<string>)
    requires item in volumes && FileSystems(volumes[item]).Ok?
    requires info.files > 0 && HumanReadableSize(info.bytes, HalfEven).Ok?
    ensures var r := RowOf(item, volumes, [info], formatsCsv, virusLine);
            && r.Ok? && r.value.Described?
            && r.value.earliest == info.earliest && r.value.latest == info.latest
            && r.value.dateStatement == YearStatement(info.earliest, info.latest, "-")
            && CountOf(r.value.extent) == Some(info.files)
  {
    OneRecordTotals(info);
    AnalyzerExtentCount(info.files, info.bytes);
  }

  /** As written the disk holding only the deleted file gets the error
      row, even with `--export_all`. */
  lemma DeletedRowAsWritten()
    ensures WriteRowAsWritten(DeletedOnlyDisk, true) == Ok(Unreadable("disk1"))
  {
    DiskOneName();
    DeletedOnlyParsed();
    assert FileSystems([]) == Ok([]);
    assert TotalFiles([]) == 0;
  }

  /** With `--export_all` forwarded the disk's row is the one of the
      deleted file's record. */
  lemma DeletedRowForwarded()
    ensures WriteRow(DeletedOnlyDisk, true) ==
              RowOf("disk1", DeletedOnlyDisk.volumes, [VolumeInfo(1, 5, "2020-01-02", "2020-01-02")], None, None)
  {
    DiskOneName();
    DeletedOnlyParsed();
  }

  /** The row of the deleted file's record. */
  lemma DeletedRowDescribed()
    ensures var r := RowOf("disk1", DeletedOnlyDisk.volumes, [VolumeInfo(1, 5, "2020-01-02", "2020-01-02")], None, None);
            && r.Ok? && r.value.Described?
            && r.value.earliest == "2020-01-02" && r.value.latest == "2020-01-02"
            && r.value.dateStatement == "2020"
            && CountOf(r.value.extent) == Some(1)
  {
    FiveBytesNamed();
    assert FileSystems([]) == Ok([]);
    OneRecordRow("disk1", DeletedOnlyDisk.volumes, VolumeInfo(1, 5, "2020-01-02", "2020-01-02"), None, None);
    assert Take("2020-01-02", 4) == "2020";
  }

  /** With `--export_all` forwarded the deleted file is described, with
      its date; as written the disk is reported as unreadable. */
  lemma DeletedFileCountedOnlyWhenForwarded()
    ensures WriteRowAsWritten(DeletedOnlyDisk, true) == Ok(Unreadable("disk1"))
    ensures WriteRow(DeletedOnlyDisk, true).Ok?
    ensures var row := WriteRow(DeletedOnlyDisk, true).value;
            && row.Described?
            && row.earliest == "2020-01-02" && row.latest == "2020-01-02"
            && row.dateStatement == "2020"
            && CountOf(row.extent) == Some(1)
  {
    DeletedRowAsWritten();
    DeletedRowForwarded();
    DeletedRowDescribed();
  }
}
