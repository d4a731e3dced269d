/** The stand-alone script process_with_tsk_options.py: one SIP per disk
    image, carved with tsk_recover using the type, file-system and offset
    options the user supplies, and described in a one-row spreadsheet from
    the DFXML fiwalk wrote. Directory creation, copying, the permission,
    checksum and Brunnhilde commands and the restoring of modification
    times are outside the model. */
module TskOptions {
  import opened Outcomes
  import opened PyStr
  import opened Sizes
  import opened Carving
  import opened Dfxml
  import opened DfxmlStats
  import opened Statements

  /** The suffixes (letter case significant) of the files treated as disk
      images. */
  const ImageSuffixes: seq<string> := [".E01", ".000", ".001", ".raw", ".img", ".dd", ".iso"]

  predicate IsDiskImage(file: string) {
    EndsWithAny(file, ImageSuffixes)
  }

  /** An option and its value, present when the value is truthy. */
  function OptionPair(flag: string, value: Option<string>): (r: seq<string>)
    ensures |r| == 0 || |r| == 2
    ensures |r| == 2 <==> Truthy(value)
  {
    if Truthy(value) then [flag, value.value] else []
  }

  /** One `if` of the script: with a truthy value, the value and then the
      flag are inserted at position 2. */
  function AddOption(argv: seq<string>, flag: string, value: Option<string>): (r: seq<string>)
    requires |argv| >= 2
    ensures |r| >= |argv|
  {
    if Truthy(value) then Insert(Insert(argv, 2, flag), 3, value.value) else argv
  }

  /** The tsk_recover argument list as the script builds it: the default
      command, then each supplied option inserted at position 2, the file
      system type first and the sector offset last. */
  function TskOptionsArgv(exportAll: bool, diskimage: string, filesDir: string,
                          fsType: Option<string>, imgType: Option<string>, offset: Option<string>): (argv: seq<string>)
  {
    AddOption(AddOption(AddOption(TskArgv(exportAll, diskimage, filesDir), "-f", fsType), "-i", imgType), "-o", offset)
  }

  /** An added option lands right after the first two arguments. */
  lemma AddOptionLayout(head: seq<string>, rest: seq<string>, flag: string, value: Option<string>)
    requires |head| == 2
    ensures AddOption(head + rest, flag, value) == head + (OptionPair(flag, value) + rest)
  {
    if Truthy(value) {
      var xs := head + rest;
      assert xs[..2] == head && xs[2..] == rest;
    }
  }

  /** The options end up in the reverse order of their insertion: offset,
      image type, file system type, each followed by its value, between the
      allocation flag and the image. */
  lemma TskOptionsArgvLayout(exportAll: bool, diskimage: string, filesDir: string,
                             fsType: Option<string>, imgType: Option<string>, offset: Option<string>)
    ensures TskOptionsArgv(exportAll, diskimage, filesDir, fsType, imgType, offset)
            == TskArgv(exportAll, diskimage, filesDir)[..2]
               + (OptionPair("-o", offset) + (OptionPair("-i", imgType) + (OptionPair("-f", fsType)
               + [diskimage, filesDir])))
  {
    var base := TskArgv(exportAll, diskimage, filesDir);
    var head, tail := base[..2], [diskimage, filesDir];
    assert base == head + tail;
    AddOptionLayout(head, tail, "-f", fsType);
    var r1 := OptionPair("-f", fsType) + tail;
    var a1 := AddOption(base, "-f", fsType);
    assert a1 == head + r1;
    AddOptionLayout(head, r1, "-i", imgType);
    var r2 := OptionPair("-i", imgType) + r1;
    var a2 := AddOption(a1, "-i", imgType);
    assert a2 == head + r2;
    AddOptionLayout(head, r2, "-o", offset);
  }

  /** Without options the script runs the toolkit's tsk_recover command. */
  lemma NoOptionsIsToolkitArgv(exportAll: bool, diskimage: string, filesDir: string)
    ensures TskOptionsArgv(exportAll, diskimage, filesDir, None, None, None)
            == TskArgv(exportAll, diskimage, filesDir)
  {
  }

  /** The scope notes' opening phrases. */
  const FilesOnlyScope: string :=
    "File includes digital files carved from a disk image using tsk_recover. Most common file formats: "
  const BothScope: string :=
    "File includes both a disk image and digital files carved from the disk image using tsk_recover. Most common file formats: "

  /** The description row of a SIP. */
  datatype SipRow =
    | Described(identifier: string, dateStatement: string, earliest: string, latest: string,
                extent: string, scope: string)
    | Unreadable(identifier: string)

  /** `create_spreadsheet`: `doc` is the DFXML document (None when it is
      missing or not well formed), `csv` the Brunnhilde format report. A
      file object without a size, or a byte total beyond the unit names,
      raises inside the guarded block and gives the error row. */
  function DescribeSip(filename: string, doc: Option<seq<FileObject>>, exportAll: bool, filesOnly: bool,
                       csv: Option<seq<seq<string>>>): (r: SipRow)
    ensures r.identifier == filename
  {
    match doc
    case None => Unreadable(filename)
    case Some(objs) =>
      var counted := CountedObjects(objs, exportAll);
      match TotalBytes(counted)
      case Err(_) => Unreadable(filename)
      case Ok(bytes) =>
        match LegacyExtent(|counted|, bytes, HalfEven)
        case Err(_) => Unreadable(filename)
        case Ok(extent) =>
          var range := Range(counted, NotAvailable);
          var scope := if extent == "EMPTY" then ""
                       else (if filesOnly then FilesOnlyScope else BothScope) + FormatList(csv, ScriptNoFormats);
          Described(filename, YearStatement(range.0, range.1, " - "), range.0, range.1, extent, scope)
  }

  /** What a row states. It is written exactly when the document reads,
      every counted file has a size and the total has a unit name; its
      extent is "EMPTY" exactly when no file is counted and otherwise
      states the count; its dates are the range of the family with the
      earliest start ("N/A" when no file has a time); the scope note is
      empty exactly for an empty SIP. */
  lemma DescribeSipSpec(filename: string, doc: Option<seq<FileObject>>, exportAll: bool, filesOnly: bool,
                        csv: Option<seq<seq<string>>>)
    ensures var r := DescribeSip(filename, doc, exportAll, filesOnly, csv);
            && (r.Described? <==>
                  doc.Some? && TotalBytes(CountedObjects(doc.value, exportAll)).Ok?
                  && HumanReadableSize(TotalBytes(CountedObjects(doc.value, exportAll)).value, HalfEven).Ok?)
            && (r.Described? ==>
                  var counted := CountedObjects(doc.value, exportAll);
                  && (r.extent == "EMPTY" <==> |counted| == 0)
                  && (|counted| > 0 ==> CountOf(r.extent) == Some(|counted|))
                  && (r.earliest, r.latest) == Range(counted, NotAvailable)
                  && |r.earliest| > 0 && |r.latest| > 0
                  && (r.scope == "" <==> |counted| == 0))
  {
    var r := DescribeSip(filename, doc, exportAll, filesOnly, csv);
    if r.Described? {
      var counted := CountedObjects(doc.value, exportAll);
      var bytes := TotalBytes(counted).value;
      RangeFromChosenFamily(counted, NotAvailable);
      if |counted| > 0 {
        LegacyExtentCount(|counted|, bytes, HalfEven);
        assert r.extent != "EMPTY" by {
          EmptyHasNoCount();
        }
        assert |FilesOnlyScope| > 0 && |BothScope| > 0;
      }
    }
  }
}
