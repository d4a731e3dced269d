/** The per-document statistics: `_parse_dfxml` in diskimageanalyzer.py
    and the DFXML part of `create_spreadsheet` in
    process_with_tsk_options.py. Both count the counted file objects, add up
    their sizes, drop "None" from the three timestamp lists, and report the
    date range of one family: the one whose earliest text sorts first, the
    modified family winning ties and the changed family winning a tie with
    the created one. They differ in what stands in for a missing modified
    range. */
module DfxmlStats {
  import opened Outcomes
  import opened PyStr
  import opened StrOrder
  import opened Dfxml

  /** `min(xs)` and `max(xs)` of one family, or "" and "" when it is empty. */
  function Bounds(xs: seq<string>): (r: (string, string))
    ensures |xs| == 0 ==> r == ("", "")
    ensures |xs| > 0 ==> r.0 in xs && r.1 in xs
    ensures forall x :: x in xs ==> LexLe(r.0, x) && LexLe(x, r.1)
  {
    if |xs| == 0 then ("", "") else (Min(xs), Max(xs))
  }

  /** A non-empty string stays non-empty further up the order. */
  lemma NonEmptyAbove(a: string, b: string)
    requires |a| > 0 && LexLe(a, b)
    ensures |b| > 0
  {
    if |b| == 0 {
      EmptyLeast(a);
    }
  }

  /** The family choice: start from the modified family's start `m`, move
      to the changed family if its start `c` is strictly smaller, then to
      the created family if its start `cr` is strictly smaller than the
      start chosen so far. An empty start means the family is empty. */
  function ChooseFamily(m: string, c: string, cr: string): Family {
    var useChanged := |c| > 0 && LexLess(c, m);
    var toUse := if useChanged then c else m;
    if |cr| > 0 && LexLess(cr, toUse) then Created
    else if useChanged then Changed
    else Modified
  }

  /** The chosen family is the first, in the order modified, changed,
      created, whose start is no later than every other present start. */
  lemma ChooseFamilyFirstMinimum(m: string, c: string, cr: string)
    ensures ChooseFamily(m, c, cr) == Modified <==>
              (|c| == 0 || LexLe(m, c)) && (|cr| == 0 || LexLe(m, cr))
    ensures ChooseFamily(m, c, cr) == Changed <==>
              |c| > 0 && LexLess(c, m) && (|cr| == 0 || LexLe(c, cr))
    ensures ChooseFamily(m, c, cr) == Created <==>
              |cr| > 0 && LexLess(cr, m) && (|c| == 0 || LexLess(cr, c))
  {
    if |c| > 0 && LexLess(c, m) {
      LexAsymmetric(c, m);
      if |cr| > 0 && LexLess(cr, c) {
        LexTransitive(cr, c, m);
      }
      if |cr| > 0 && LexLess(cr, m) && !LexLess(cr, c) {
        LexTotal(cr, c);
      }
    } else {
      if |cr| > 0 && LexLess(cr, m) && |c| > 0 {
        LexLessLe(cr, m, c);
      }
    }
  }

  /** The reported earliest and latest dates: the chosen family's bounds
      cut to `YYYY-MM-DD`. `missing` stands in for both bounds of an empty
      modified family. */
  function DateRange(mb: (string, string), cb: (string, string), crb: (string, string),
                     missing: string): (r: (string, string))
  {
    var mbounds := if |mb.0| == 0 then (missing, missing) else mb;
    match ChooseFamily(mbounds.0, cb.0, crb.0)
    case Modified => (Take(mbounds.0, 10), Take(mbounds.1, 10))
    case Changed => (Take(cb.0, 10), Take(cb.1, 10))
    case Created => (Take(crb.0, 10), Take(crb.1, 10))
  }

  /** The bounds of one family of the counted objects. */
  function FamilyBounds(counted: seq<FileObject>, f: Family): (string, string) {
    Bounds(FamilyTexts(counted, f))
  }

  /** Which family the range of a document comes from. */
  function Chosen(counted: seq<FileObject>, missing: string): Family {
    var mb := FamilyBounds(counted, Modified);
    ChooseFamily(if |mb.0| == 0 then missing else mb.0,
                 FamilyBounds(counted, Changed).0, FamilyBounds(counted, Created).0)
  }

  /** The range of a document, over its counted objects. */
  function Range(counted: seq<FileObject>, missing: string): (string, string) {
    DateRange(FamilyBounds(counted, Modified), FamilyBounds(counted, Changed),
              FamilyBounds(counted, Created), missing)
  }

  /** What the range means. When the chosen family has a non-empty
      earliest text, the reported dates are the first ten characters of
      its earliest and its latest text, so every text of that family lies
      between them once cut to ten characters. Otherwise the family is the
      modified one and both ends are `missing`. Both ends are non-empty
      when `missing` is. */
  lemma RangeFromChosenFamily(counted: seq<FileObject>, missing: string)
    ensures var f, r := Chosen(counted, missing), Range(counted, missing);
            var xs := FamilyTexts(counted, f);
            var b := Bounds(xs);
            && (|b.0| > 0 ==>
                  && r == (Take(b.0, 10), Take(b.1, 10))
                  && forall x :: x in xs ==> LexLe(r.0, Take(x, 10)) && LexLe(Take(x, 10), r.1))
            && (|b.0| == 0 ==> f == Modified && r == (Take(missing, 10), Take(missing, 10)))
    ensures |missing| > 0 ==> |Range(counted, missing).0| > 0 && |Range(counted, missing).1| > 0
  {
    var f, r := Chosen(counted, missing), Range(counted, missing);
    var xs := FamilyTexts(counted, f);
    var b := Bounds(xs);
    var mb := FamilyBounds(counted, Modified);
    var cb := FamilyBounds(counted, Changed);
    var crb := FamilyBounds(counted, Created);
    var m := if |mb.0| == 0 then missing else mb.0;
    ChooseFamilyFirstMinimum(m, cb.0, crb.0);
    if |b.0| > 0 {
      assert r == (Take(b.0, 10), Take(b.1, 10));
      forall x | x in xs
        ensures LexLe(r.0, Take(x, 10)) && LexLe(Take(x, 10), r.1)
      {
        LexLeTake(b.0, x, 10);
        LexLeTake(x, b.1, 10);
      }
      NonEmptyAbove(b.0, b.1);
    }
  }

  /** One volume's record: counted files, their total size, and the range. */
  datatype VolumeInfo = VolumeInfo(files: nat, bytes: nat, earliest: string, latest: string)

  /** `_parse_dfxml` as evidently intended: a document without modified
      times reports the current year (the caller's clock) as its range
      unless another family starts earlier. Any exception inside the parse
      makes it return None; the only one left is a counted object without
      a size. */
  function ParseDfxml(objs: seq<FileObject>, exportAll: bool, year: nat): (r: Option<VolumeInfo>)
    ensures var counted := CountedObjects(objs, exportAll);
            && (r.Some? <==> TotalBytes(counted).Ok?)
            && (r.Some? ==>
                  && r.value.files == |counted|
                  && r.value.bytes == TotalBytes(counted).value
                  && (r.value.earliest, r.value.latest) == Range(counted, NatToString(year))
                  && |r.value.earliest| > 0 && |r.value.latest| > 0)
  {
    var counted := CountedObjects(objs, exportAll);
    match TotalBytes(counted)
    case Err(_) => None
    case Ok(bytes) =>
      var r := Range(counted, NatToString(year));
      RangeFromChosenFamily(counted, NatToString(year));
      Some(VolumeInfo(|counted|, bytes, r.0, r.1))
  }

  /** `_parse_dfxml` as written: an empty modified family makes the
      stand-in the integer year, and the next step that meets it (a
      comparison with a string, or the slice `[:10]`) raises TypeError,
      which the function turns into None. */
  function ParseDfxmlAsWritten(objs: seq<FileObject>, exportAll: bool, year: nat): (r: Option<VolumeInfo>)
    ensures r.Some? ==> r == ParseDfxml(objs, exportAll, year)
    ensures r.None? && ParseDfxml(objs, exportAll, year).Some? ==>
              |FamilyBounds(CountedObjects(objs, exportAll), Modified).0| == 0
  {
    var counted := CountedObjects(objs, exportAll);
    if |FamilyBounds(counted, Modified).0| == 0 then None
    else ParseDfxml(objs, exportAll, year)
  }

  /** The texts one family contributes for a single object. */
  lemma SingleFamilyTexts(o: FileObject, f: Family)
    ensures FamilyTexts([o], f) ==
              if StampOf(o, f).None? || StampOf(o, f).value == "None" then [] else [StampOf(o, f).value]
  {
    var raw := seq(1, i requires 0 <= i < 1 => StampText(StampOf([o][i], f)));
    assert raw == [StampText(StampOf(o, f))];
    assert raw[..0] == [];
  }

  /** A one-object document of a counted object. */
  lemma SingleCounted(o: FileObject, exportAll: bool)
    requires IsCounted(o, exportAll)
    ensures CountedObjects([o], exportAll) == [o]
  {
    assert [o][..0] == [];
  }

  const CreatedStamp: string := "2020-01-02T03:04:05Z"

  /** The example object: a regular, allocated 5-byte file with only a
      created time. */
  function CreatedOnly(): FileObject {
    FileObject("a.txt", Some("r"), Some(0), Some(5), None, None, Some(CreatedStamp))
  }

  lemma BoundsOfOne(t: string)
    ensures Bounds([t]) == (t, t)
  {
    assert [t][1..] == [];
  }

  /** "2020-…" sorts before "2026". */
  lemma EarlierYear(t: string)
    requires |t| >= 4 && t[..4] == "2020"
    ensures LexLess(t, "2026")
  {
    var y := "2026";
    assert t[3] == '0' && y[3] == '6';
    assert LexLess(t[3..], y[3..]);
    assert t[2..][1..] == t[3..] && y[2..][1..] == y[3..];
    assert LexLess(t[2..], y[2..]);
    assert t[1..][1..] == t[2..] && y[1..][1..] == y[2..];
    assert LexLess(t[1..], y[1..]);
  }

  lemma CreatedStampFacts()
    ensures LexLess(CreatedStamp, "2026")
    ensures Take(CreatedStamp, 10) == "2020-01-02"
  {
    var t := CreatedStamp;
    assert t[..4] == "2020";
    EarlierYear(t);
    assert Take(t, 10) == t[..10];
  }

  lemma CreatedOnlyBounds()
    ensures FamilyBounds([CreatedOnly()], Modified) == ("", "")
    ensures FamilyBounds([CreatedOnly()], Changed) == ("", "")
    ensures FamilyBounds([CreatedOnly()], Created) == (CreatedStamp, CreatedStamp)
  {
    var o := CreatedOnly();
    SingleFamilyTexts(o, Modified);
    SingleFamilyTexts(o, Changed);
    SingleFamilyTexts(o, Created);
    BoundsOfOne(CreatedStamp);
  }

  /** The range when only the created family has a timestamp, and it
      sorts before the stand-in. */
  lemma CreatedRangeOnly(t: string, missing: string)
    requires |missing| > 0 && |t| > 0 && LexLess(t, missing)
    ensures DateRange(("", ""), ("", ""), (t, t), missing) == (Take(t, 10), Take(t, 10))
  {
  }

  lemma CreatedOnlyRange()
    ensures Range([CreatedOnly()], "2026") == ("2020-01-02", "2020-01-02")
    ensures |FamilyBounds([CreatedOnly()], Modified).0| == 0
  {
    CreatedOnlyBounds();
    CreatedStampFacts();
    CreatedRangeOnly(CreatedStamp, "2026");
  }

  /** As written, a document whose files carry created times but no
      modified times reports nothing at all, so its files drop out of the
      disk's totals. As intended it reports its one file and its created
      date. */
  lemma NoModifiedTimesAsWritten()
    ensures ParseDfxmlAsWritten([CreatedOnly()], false, 2026) == None
    ensures ParseDfxml([CreatedOnly()], false, 2026) == Some(VolumeInfo(1, 5, "2020-01-02", "2020-01-02"))
  {
    SingleCounted(CreatedOnly(), false);
    CreatedOnlyRange();
    CreatedOnlyParses();
  }

  lemma CreatedOnlyParses()
    ensures ParseDfxml([CreatedOnly()], false, 2026) == Some(VolumeInfo(1, 5, "2020-01-02", "2020-01-02"))
  {
    CreatedOnlyRange();
    YearText();
    ParseOfSingle(CreatedOnly(), false, 2026, "2020-01-02", "2020-01-02");
  }

  /** A document of one counted, sized file. */
  lemma ParseOfSingle(o: FileObject, exportAll: bool, year: nat, e: string, l: string)
    requires IsCounted(o, exportAll) && o.filesize.Some?
    requires Range([o], NatToString(year)) == (e, l)
    ensures ParseDfxml([o], exportAll, year) == Some(VolumeInfo(1, o.filesize.value, e, l))
  {
    SingleCounted(o, exportAll);
    assert TotalBytes([o]) == Ok(o.filesize.value) by {
      assert [o][..0] == [];
    }
    ParseDfxmlValue([o], exportAll, year);
  }

  /** The parsed summary, field by field. */
  lemma ParseDfxmlValue(objs: seq<FileObject>, exportAll: bool, year: nat)
    requires TotalBytes(CountedObjects(objs, exportAll)).Ok?
    ensures var counted := CountedObjects(objs, exportAll);
            var range := Range(counted, NatToString(year));
            ParseDfxml(objs, exportAll, year) ==
              Some(VolumeInfo(|counted|, TotalBytes(counted).value, range.0, range.1))
  {
  }

  lemma YearText()
    ensures NatToString(2026) == "2026"
  {
    assert NatToString(2) == "2";
    assert NatToString(20) == "2" + [DigitChar(0)];
    assert NatToString(202) == NatToString(20) + [DigitChar(2)];
    assert NatToString(2026) == NatToString(202) + [DigitChar(6)];
  }

  /** The stand-in of process_with_tsk_options.py for a missing modified
      range. */
  const NotAvailable: string := "N/A"

  /** A text starting with a digit sorts before "N/A". */
  lemma DigitBeforeNotAvailable(s: string)
    requires |s| > 0 && IsDigit(s[0])
    ensures LexLess(s, NotAvailable)
  {
  }

  /** With no modified times, "N/A" loses to any changed or created range
      that starts with a digit, the created range winning when it starts
      no later than the changed one. */
  lemma NotAvailableLoses(counted: seq<FileObject>)
    requires |FamilyTexts(counted, Modified)| == 0
    ensures var c, cr := FamilyBounds(counted, Changed).0, FamilyBounds(counted, Created).0;
            && (|cr| > 0 && IsDigit(cr[0]) && (|c| == 0 || LexLess(cr, c)) ==>
                  Chosen(counted, NotAvailable) == Created)
            && (|c| > 0 && IsDigit(c[0]) && (|cr| == 0 || LexLe(c, cr)) ==>
                  Chosen(counted, NotAvailable) == Changed)
  {
    var c, cr := FamilyBounds(counted, Changed).0, FamilyBounds(counted, Created).0;
    ChooseFamilyFirstMinimum(NotAvailable, c, cr);
    if |cr| > 0 && IsDigit(cr[0]) {
      DigitBeforeNotAvailable(cr);
    }
    if |c| > 0 && IsDigit(c[0]) {
      DigitBeforeNotAvailable(c);
    }
  }
}
