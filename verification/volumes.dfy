/** The disktype-output parser of disk_image_toolkit/disk_image.py
    (`get_volumes_from_disktype` and `_format_volume_name`). Each stripped
    line mentioning "file system" starts a volume with the next id; the
    "Volume name", "Volume size" and "Disk size" lines that follow fill in
    the volume being built. The volume being built is pushed when the next
    volume starts only if it has a file system, and is always pushed at
    the end, so text without any "file system" line still yields one
    (empty) record. A "Volume name" line before any volume raises
    KeyError. */
module Volumes {
  import opened Outcomes
  import opened PyStr

  /** One volume dict. Each key may be absent, hence the options. */
  datatype Volume = Volume(
    id: Option<nat>,
    name: Option<string>,
    formattedName: Option<string>,
    fileSystem: Option<string>,
    outputDirectoryName: Option<string>,
    size: Option<string>)

  /** The empty dict `{}`. */
  const NoVolume: Volume := Volume(None, None, None, None, None, None)

  // ---- volume names ----------------------------------------------------

  /** The characters `_format_volume_name` keeps. */
  predicate NameChar(c: char) {
    IsAlnum(c) || IsSpace(c) || c == '-' || c == '_'
  }

  /** The list comprehension keeping the name characters, joined. */
  function KeepNameChars(s: string): (r: string)
    ensures |r| <= |s|
    ensures forall i :: 0 <= i < |r| ==> NameChar(r[i])
    decreases |s|
  {
    if |s| == 0 then ""
    else
      var rest := KeepNameChars(s[1..]);
      if NameChar(s[0]) then [s[0]] + rest else rest
  }

  /** The kept characters are exactly the name characters of `s`. */
  lemma {:induction false} KeepNameCharsMembers(s: string)
    ensures forall c :: c in KeepNameChars(s) <==> c in s && NameChar(c)
    decreases |s|
  {
    if |s| > 0 {
      KeepNameCharsMembers(s[1..]);
      assert forall c :: c in s <==> c == s[0] || c in s[1..];
    }
  }

  lemma {:induction false} KeepAllNameChars(s: string)
    requires forall i :: 0 <= i < |s| ==> NameChar(s[i])
    ensures KeepNameChars(s) == s
    decreases |s|
  {
    if |s| > 0 {
      KeepAllNameChars(s[1..]);
      assert s == [s[0]] + s[1..];
    }
  }

  /** `_format_volume_name`: keep the name characters, turn each space
      into `_`, then strip trailing slashes. */
  function FormatVolumeName(name: string): string {
    RStripChar(ReplaceAll(KeepNameChars(name), " ", "_"), '/')
  }

  /** `r` is `k` with each space replaced by `_`. */
  predicate Underscored(k: string, r: string) {
    |r| == |k| && forall i :: 0 <= i < |r| ==> r[i] == (if k[i] == ' ' then '_' else k[i])
  }

  lemma UnderscoredConcat(k1: string, r1: string, k2: string, r2: string)
    requires Underscored(k1, r1) && Underscored(k2, r2)
    ensures Underscored(k1 + k2, r1 + r2)
  {
  }

  /** The formatted name is the kept characters with each space replaced
      by `_`; it contains no space and no slash, so the trailing-slash
      strip never removes anything. */
  lemma FormatVolumeNameSpec(name: string)
    ensures Underscored(KeepNameChars(name), FormatVolumeName(name))
    ensures var r := FormatVolumeName(name);
            forall i :: 0 <= i < |r| ==> NameChar(r[i]) && r[i] != ' ' && r[i] != '/'
  {
    var k := KeepNameChars(name);
    ReplaceCharByChar(k, ' ', '_');
    var m := ReplaceAll(k, " ", "_");
    assert " " == [' '] && "_" == ['_'];
    assert '/' !in m by {
      forall i | 0 <= i < |m|
        ensures m[i] != '/'
      {
        assert NameChar(k[i]);
      }
    }
    RStripCharAbsent(m, '/');
  }

  /** Formatting a formatted name changes nothing. */
  lemma FormatVolumeNameIdempotent(name: string)
    ensures FormatVolumeName(FormatVolumeName(name)) == FormatVolumeName(name)
  {
    var r := FormatVolumeName(name);
    FormatVolumeNameSpec(name);
    KeepAllNameChars(r);
    FormatVolumeNameSpec(r);
    assert KeepNameChars(r) == r;
    var r2 := FormatVolumeName(r);
    assert |r2| == |r|;
    forall i | 0 <= i < |r|
      ensures r2[i] == r[i]
    {
    }
  }

  lemma {:induction false} KeepNameCharsConcat(a: string, b: string)
    ensures KeepNameChars(a + b) == KeepNameChars(a) + KeepNameChars(b)
    decreases |a|
  {
    if |a| > 0 {
      KeepNameCharsConcat(a[1..], b);
      assert (a + b)[1..] == a[1..] + b;
    } else {
      assert a + b == b;
    }
  }

  /** A character outside the name characters is dropped. */
  lemma KeepDropsOne(a: string, c: char)
    requires !NameChar(c)
    ensures KeepNameChars(a + [c]) == KeepNameChars(a)
  {
    KeepNameCharsConcat(a, [c]);
    assert KeepNameChars([c]) == "";
  }

  // ---- lines -------------------------------------------------------------

  /** What one disktype line means to the parser, decided on the stripped
      line in the order the code tests it. */
  datatype LineKind =
    | FsStart(fs: string)
    | NameLine(name: string)
    | SizeLine(size: string)
    | OtherLine

  /** The text before " file system" in a stripped line mentioning "file
      system"; never empty, since a stripped line does not start with a
      space. */
  function FsName(line: string): (fs: string)
    requires Contains(line, "file system")
    requires |line| > 0 ==> !IsSpace(line[0])
    ensures |fs| > 0
  {
    FsNameNonEmpty(line);
    Before(line, " file system")
  }

  lemma FsNameNonEmpty(line: string)
    requires Contains(line, "file system")
    requires |line| > 0 ==> !IsSpace(line[0])
    ensures |Before(line, " file system")| > 0
  {
    var fs := Before(line, " file system");
    if Contains(line, " file system") {
      assert OccursAt(line, " file system", |fs|);
      assert line[|fs|] == line[|fs|..|fs| + 12][0] == ' ';
    } else {
      assert fs == line;
      assert OccursAt(line, "file system", Find(line, "file system").value);
    }
  }

  /** What a line means, decided on the stripped line. */
  function Classify(raw: string): (k: LineKind)
    ensures k.FsStart? ==> |k.fs| > 0
  {
    ClassifyStripped(Strip(raw))
  }

  /** The tests of the loop body, in order, on a stripped line. */
  function ClassifyStripped(line: string): (k: LineKind)
    requires |line| > 0 ==> !IsSpace(line[0])
    ensures k.FsStart? ==> |k.fs| > 0
  {
    if Contains(line, "file system") then FsStart(FsName(line))
    else if Contains(line, "Volume name") then
      NameLine(ReplaceAll(ReplaceAll(Strip(line), "Volume name ", ""), "\"", ""))
    else if Contains(line, "Volume size") then SizeLine(ReplaceAll(Strip(line), "Volume size ", ""))
    else if Contains(line, "Disk size") then SizeLine(ReplaceAll(Strip(line), "Disk size ", ""))
    else OtherLine
  }

  function Kinds(lines: seq<string>): (ks: seq<LineKind>)
    ensures |ks| == |lines|
    ensures forall i :: 0 <= i < |lines| ==> ks[i] == Classify(lines[i])
  {
    seq(|lines|, i requires 0 <= i < |lines| => Classify(lines[i]))
  }

  /** The directory name a volume starts with. */
  function DirBase(id: nat, fs: string): string {
    "volume-" + NatToString(id) + "-" + Lower(fs)
  }

  // ---- the scan ----------------------------------------------------------

  /** The parser's state: the pushed volumes, the volume being built and
      the last id handed out. */
  datatype Scan = Scan(done: seq<Volume>, current: Volume, count: nat)

  const Start: Scan := Scan([], NoVolume, 0)

  /** A "file system" line: push the current volume if it has a file
      system, then start the next id. A volume that was not pushed keeps
      its other keys (only "size" can be there). */
  function StartVolume(st: Scan, fs: string): Scan {
    var pushed := Truthy(st.current.fileSystem);
    var base := if pushed then NoVolume else st.current;
    var id := st.count + 1;
    Scan(
      if pushed then st.done + [st.current] else st.done,
      base.(id := Some(id), name := Some(""), formattedName := Some(""),
            fileSystem := Some(fs), outputDirectoryName := Some(DirBase(id, fs))),
      id)
  }

  /** One classified line. */
  function Step(st: Scan, k: LineKind): Result<Scan> {
    match k
    case FsStart(fs) => Ok(StartVolume(st, fs))
    case NameLine(name) =>
      (match st.current.outputDirectoryName
       case None => Err(KeyError("output_directory_name"))
       case Some(dir) =>
         var formatted := FormatVolumeName(name);
         Ok(st.(current := st.current.(name := Some(name), formattedName := Some(formatted),
                                       outputDirectoryName := Some(dir + "-" + formatted)))))
    case SizeLine(size) => Ok(st.(current := st.current.(size := Some(size))))
    case OtherLine => Ok(st)
  }

  /** The state after the given lines, or the KeyError that stops the
      parse. */
  function ScanKinds(ks: seq<LineKind>): Result<Scan>
    decreases |ks|
  {
    if |ks| == 0 then Ok(Start)
    else
      var st :- ScanKinds(ks[..|ks| - 1]);
      Step(st, ks[|ks| - 1])
  }

  function VolumesOf(ks: seq<LineKind>): Result<seq<Volume>> {
    var st :- ScanKinds(ks);
    Ok(st.done + [st.current])
  }

  /** `get_volumes_from_disktype` on the lines of the disktype output. */
  function GetVolumes(lines: seq<string>): Result<seq<Volume>> {
    VolumesOf(Kinds(lines))
  }

  // ---- reference descriptions ------------------------------------------

  /** The file-system names of the volume-start lines, in order. */
  function FsNames(ks: seq<LineKind>): seq<string>
    decreases |ks|
  {
    if |ks| == 0 then []
    else
      var last := ks[|ks| - 1];
      FsNames(ks[..|ks| - 1]) + (if last.FsStart? then [last.fs] else [])
  }

  /** No volume-start line among the first `i` lines. */
  predicate NoFsBefore(ks: seq<LineKind>, i: nat)
    requires i <= |ks|
  {
    forall j :: 0 <= j < i ==> !ks[j].FsStart?
  }

  /** A "Volume name" line comes before any volume has started. */
  predicate OrphanNameLine(ks: seq<LineKind>) {
    exists i :: 0 <= i < |ks| && ks[i].NameLine? && NoFsBefore(ks, i)
  }

  /** A started volume: its id, file system `fs`, a name with its
      formatted form, and a directory name beginning with the volume's
      base name. */
  predicate Started(v: Volume, id: nat, fs: string) {
    && |fs| > 0
    && v.id == Some(id)
    && v.fileSystem == Some(fs)
    && v.name.Some?
    && v.formattedName == Some(FormatVolumeName(v.name.value))
    && v.outputDirectoryName.Some?
    && StartsWith(v.outputDirectoryName.value, DirBase(id, fs))
  }

  /** The lines of one volume: the file system its "file system" line
      names and the kinds of the lines after it, up to the next such
      line. */
  datatype Section = Section(fs: string, body: seq<LineKind>)

  /** The kinds before the first "file system" line, and one section per
      "file system" line, in order. */
  function Sections(ks: seq<LineKind>): (seq<LineKind>, seq<Section>)
    decreases |ks|
  {
    if |ks| == 0 then ([], [])
    else
      var (pre, secs) := Sections(ks[..|ks| - 1]);
      var k := ks[|ks| - 1];
      if k.FsStart? then (pre, secs + [Section(k.fs, [])])
      else if |secs| == 0 then (pre + [k], secs)
      else
        var last := secs[|secs| - 1];
        (pre, secs[..|secs| - 1] + [last.(body := last.body + [k])])
  }

  /** The name on the last "Volume name" line, or "" with none. */
  function LastName(ks: seq<LineKind>): string
    decreases |ks|
  {
    if |ks| == 0 then ""
    else if ks[|ks| - 1].NameLine? then ks[|ks| - 1].name
    else LastName(ks[..|ks| - 1])
  }

  /** The size on the last size line, or `otherwise` with none. */
  function LastSize(ks: seq<LineKind>, otherwise: Option<string>): Option<string>
    decreases |ks|
  {
    if |ks| == 0 then otherwise
    else if ks[|ks| - 1].SizeLine? then Some(ks[|ks| - 1].size)
    else LastSize(ks[..|ks| - 1], otherwise)
  }

  /** "-" and the formatted name, once per "Volume name" line, in order:
      what the name lines append to a volume's directory name. */
  function NameSuffixes(ks: seq<LineKind>): string
    decreases |ks|
  {
    if |ks| == 0 then ""
    else
      var k := ks[|ks| - 1];
      NameSuffixes(ks[..|ks| - 1]) + (if k.NameLine? then "-" + FormatVolumeName(k.name) else "")
  }

  /** The dict built for the section numbered `id`; `inherited` is the
      size it starts with. */
  function Described(id: nat, sec: Section, inherited: Option<string>): Volume {
    var name := LastName(sec.body);
    Volume(Some(id), Some(name), Some(FormatVolumeName(name)), Some(sec.fs),
           Some(DirBase(id, sec.fs) + NameSuffixes(sec.body)), LastSize(sec.body, inherited))
  }

  /** Only the first volume inherits a size: the one read before any
      "file system" line. */
  function Inherited(pre: seq<LineKind>, i: nat): Option<string> {
    if i == 0 then LastSize(pre, None) else None
  }

  /** The parse described section by section: KeyError when a name line
      precedes every volume; otherwise one dict per section, or, with no
      section, one dict holding at most the last size. */
  function Reference(ks: seq<LineKind>): Result<seq<Volume>> {
    if OrphanNameLine(ks) then Err(KeyError("output_directory_name"))
    else
      var (pre, secs) := Sections(ks);
      if |secs| == 0 then Ok([NoVolume.(size := LastSize(pre, None))])
      else Ok(seq(|secs|, i requires 0 <= i < |secs| => Described(i + 1, secs[i], Inherited(pre, i))))
  }

  /** What holds of the state after a successful scan: the pushed
      volumes and the current one are the sections' dicts. */
  predicate ScanMatches(st: Scan, pre: seq<LineKind>, secs: seq<Section>) {
    && st.count == |secs|
    && |st.done| == (if |secs| == 0 then 0 else |secs| - 1)
    && (forall i :: 0 <= i < |secs| ==> |secs[i].fs| > 0)
    && (forall i :: 0 <= i < |st.done| ==> st.done[i] == Described(i + 1, secs[i], Inherited(pre, i)))
    && st.current == (if |secs| == 0 then NoVolume.(size := LastSize(pre, None))
                      else Described(|secs|, secs[|secs| - 1], Inherited(pre, |secs| - 1)))
  }

  lemma FormatEmptyName()
    ensures FormatVolumeName("") == ""
  {
    assert KeepNameChars("") == "";
    assert ReplaceAll("", " ", "_") == "";
  }

  lemma StartsWithExtend(s: string, p: string, t: string)
    requires StartsWith(s, p)
    ensures StartsWith(s + t, p)
  {
    assert (s + t)[..|p|] == s[..|p|];
  }

  /** Appending one kind to a section's lines: what the last name, the
      last size and the name suffixes become. */
  lemma AppendKind(body: seq<LineKind>, k: LineKind, inherited: Option<string>)
    ensures LastName(body + [k]) == (if k.NameLine? then k.name else LastName(body))
    ensures LastSize(body + [k], inherited) == (if k.SizeLine? then Some(k.size) else LastSize(body, inherited))
    ensures NameSuffixes(body + [k]) ==
              NameSuffixes(body) + (if k.NameLine? then "-" + FormatVolumeName(k.name) else "")
  {
    assert (body + [k])[..|body|] == body;
  }

  /** A "file system" line pushes the built volume, if it has a file
      system, and starts the next section's dict: numbered one past the
      last, with an empty name and the base directory name. */
  lemma StartVolumeMatches(st: Scan, pre: seq<LineKind>, secs: seq<Section>, fs: string)
    requires ScanMatches(st, pre, secs) && |fs| > 0
    ensures ScanMatches(StartVolume(st, fs), pre, secs + [Section(fs, [])])
  {
    var st2 := StartVolume(st, fs);
    var secs2 := secs + [Section(fs, [])];
    FormatEmptyName();
    assert DirBase(|secs2|, fs) + NameSuffixes([]) == DirBase(|secs2|, fs);
    if |secs| > 0 {
      assert Truthy(st.current.fileSystem);
      forall i | 0 <= i < |st2.done|
        ensures st2.done[i] == Described(i + 1, secs2[i], Inherited(pre, i))
      {
        if i < |st.done| {
          assert st2.done[i] == st.done[i];
        } else {
          assert st2.done[i] == st.current;
        }
      }
    } else {
      assert st.current.fileSystem.None?;
    }
  }

  /** A line other than a "file system" line, inside a volume, adds to
      that volume's section. */
  lemma StepInSection(st: Scan, id: nat, sec: Section, inh: Option<string>, k: LineKind)
    requires st.current == Described(id, sec, inh) && !k.FsStart?
    ensures Step(st, k) == Ok(st.(current := Described(id, sec.(body := sec.body + [k]), inh)))
  {
    var cur := Described(id, sec, inh);
    var want := Described(id, sec.(body := sec.body + [k]), inh);
    AppendKind(sec.body, k, inh);
    var base := DirBase(id, sec.fs);
    if k.NameLine? {
      var formatted := FormatVolumeName(k.name);
      assert base + NameSuffixes(sec.body + [k]) == base + NameSuffixes(sec.body) + "-" + formatted;
      assert want == cur.(name := Some(k.name), formattedName := Some(formatted),
                          outputDirectoryName := Some(cur.outputDirectoryName.value + "-" + formatted));
    } else {
      var a := NameSuffixes(sec.body);
      assert a + "" == a;
      assert NameSuffixes(sec.body + [k]) == a;
      assert LastName(sec.body + [k]) == LastName(sec.body);
      if k.SizeLine? {
        assert want == cur.(size := Some(k.size));
      } else {
        assert want == cur;
      }
    }
  }

  /** Each line keeps the scan matching the sections of the lines so far. */
  lemma StepMatches(st: Scan, ks: seq<LineKind>, k: LineKind)
    requires ScanMatches(st, Sections(ks).0, Sections(ks).1) && Step(st, k).Ok?
    requires k.FsStart? ==> |k.fs| > 0
    ensures var r := Sections(ks + [k]); ScanMatches(Step(st, k).value, r.0, r.1)
  {
    var (pre, secs) := Sections(ks);
    assert (ks + [k])[..|ks|] == ks;
    if k.FsStart? {
      StartVolumeMatches(st, pre, secs, k.fs);
    } else if |secs| == 0 {
      AppendKind(pre, k, None);
    } else {
      var last := secs[|secs| - 1];
      var secs2 := secs[..|secs| - 1] + [last.(body := last.body + [k])];
      StepInSection(st, |secs|, last, Inherited(pre, |secs| - 1), k);
      assert forall i :: 0 <= i < |secs| - 1 ==> secs2[i] == secs[i];
    }
  }

  /** Every line's kind satisfies what `Classify` promises. */
  predicate WellClassified(ks: seq<LineKind>) {
    forall i :: 0 <= i < |ks| ==> (ks[i].FsStart? ==> |ks[i].fs| > 0)
  }

  lemma {:induction false} ScanKindsMatches(ks: seq<LineKind>)
    requires WellClassified(ks) && ScanKinds(ks).Ok?
    ensures ScanMatches(ScanKinds(ks).value, Sections(ks).0, Sections(ks).1)
    decreases |ks|
  {
    if |ks| > 0 {
      var init := ks[..|ks| - 1];
      ScanKindsMatches(init);
      assert init + [ks[|ks| - 1]] == ks;
      StepMatches(ScanKinds(init).value, init, ks[|ks| - 1]);
    }
  }

  /** The sections follow the "file system" lines one for one. */
  lemma {:induction false} SectionsFollowFsNames(ks: seq<LineKind>)
    ensures |Sections(ks).1| == |FsNames(ks)|
    ensures forall i :: 0 <= i < |FsNames(ks)| ==> Sections(ks).1[i].fs == FsNames(ks)[i]
    decreases |ks|
  {
    if |ks| > 0 {
      SectionsFollowFsNames(ks[..|ks| - 1]);
    }
  }

  /** No volume-start line among `ks` exactly when no file-system name is
      collected. */
  lemma {:induction false} NoFsNamesIff(ks: seq<LineKind>)
    ensures |FsNames(ks)| == 0 <==> NoFsBefore(ks, |ks|)
    decreases |ks|
  {
    if |ks| > 0 {
      var init := ks[..|ks| - 1];
      NoFsNamesIff(init);
      assert forall j :: 0 <= j < |init| ==> init[j] == ks[j];
    }
  }

  lemma OrphanStep(ks: seq<LineKind>)
    requires |ks| > 0
    ensures var init := ks[..|ks| - 1];
            OrphanNameLine(ks) <==>
              OrphanNameLine(init) || (ks[|ks| - 1].NameLine? && NoFsBefore(init, |init|))
  {
    var init := ks[..|ks| - 1];
    assert forall j :: 0 <= j < |init| ==> init[j] == ks[j];
    if OrphanNameLine(ks) {
      var i :| 0 <= i < |ks| && ks[i].NameLine? && NoFsBefore(ks, i);
      if i < |init| {
        assert NoFsBefore(init, i);
      }
    }
    if OrphanNameLine(init) {
      var i :| 0 <= i < |init| && init[i].NameLine? && NoFsBefore(init, i);
      assert NoFsBefore(ks, i);
    }
    if ks[|ks| - 1].NameLine? && NoFsBefore(init, |init|) {
      assert NoFsBefore(ks, |init|);
    }
  }

  /** The parse fails exactly when a "Volume name" line comes before the
      first volume, and then with KeyError on "output_directory_name". */
  lemma {:induction false} ScanKindsFails(ks: seq<LineKind>)
    requires WellClassified(ks)
    ensures ScanKinds(ks).Err? <==> OrphanNameLine(ks)
    ensures ScanKinds(ks).Err? ==> ScanKinds(ks).error == KeyError("output_directory_name")
    decreases |ks|
  {
    if |ks| > 0 {
      var init := ks[..|ks| - 1];
      ScanKindsFails(init);
      OrphanStep(ks);
      if ScanKinds(init).Ok? {
        ScanKindsMatches(init);
        SectionsFollowFsNames(init);
        NoFsNamesIff(init);
      }
    }
  }

  // ---- results -----------------------------------------------------------

  /** The dict of a section is a started volume. */
  lemma DescribedStarted(id: nat, sec: Section, inherited: Option<string>)
    requires |sec.fs| > 0
    ensures Started(Described(id, sec, inherited), id, sec.fs)
  {
    var base := DirBase(id, sec.fs);
    assert (base + NameSuffixes(sec.body))[..|base|] == base;
  }

  /** A matching scan's volumes are the sections' dicts. */
  lemma MatchedVolumes(st: Scan, pre: seq<LineKind>, secs: seq<Section>)
    requires ScanMatches(st, pre, secs) && |secs| > 0
    ensures st.done + [st.current] ==
              seq(|secs|, i requires 0 <= i < |secs| => Described(i + 1, secs[i], Inherited(pre, i)))
  {
    var vs := st.done + [st.current];
    forall i | 0 <= i < |secs|
      ensures vs[i] == Described(i + 1, secs[i], Inherited(pre, i))
    {
      if i < |st.done| {
        assert vs[i] == st.done[i];
      } else {
        assert vs[i] == st.current;
      }
    }
  }

  /** The parse agrees with the section-by-section description, failure
      included. */
  lemma VolumesMatchReference(ks: seq<LineKind>)
    requires WellClassified(ks)
    ensures VolumesOf(ks) == Reference(ks)
  {
    ScanKindsFails(ks);
    if ScanKinds(ks).Ok? {
      ScanKindsMatches(ks);
      var st := ScanKinds(ks).value;
      var r := Sections(ks);
      if |r.1| > 0 {
        MatchedVolumes(st, r.0, r.1);
      } else {
        assert st.done + [st.current] == [NoVolume.(size := LastSize(r.0, None))];
      }
    }
  }

  /** The volumes of a classified text are exactly the section-by-section
      description: the k-th volume has id k + 1, the k-th file system, the
      name of its last "Volume name" line (or ""), a directory name made of
      "volume-<id>-<fs lowered>" and "-<formatted name>" per name line, and
      the size of its last size line (the first volume also takes a size
      read before it). Hence one volume per volume-start line (at least
      one), each started, and the parse fails, with KeyError, exactly when
      a "Volume name" line comes before the first volume. */
  lemma VolumesOfSpec(ks: seq<LineKind>)
    requires WellClassified(ks)
    ensures VolumesOf(ks) == Reference(ks)
    ensures VolumesOf(ks).Ok? <==> !OrphanNameLine(ks)
    ensures VolumesOf(ks).Ok? ==>
              var vs := VolumesOf(ks).value;
              var names := FsNames(ks);
              && |vs| == (if |names| == 0 then 1 else |names|)
              && (forall k :: 0 <= k < |names| ==> Started(vs[k], k + 1, names[k]))
              && (|names| == 0 ==> vs[0] == NoVolume.(size := vs[0].size))
  {
    VolumesMatchReference(ks);
    SectionsFollowFsNames(ks);
    var r := Sections(ks);
    if !OrphanNameLine(ks) && |r.1| > 0 {
      var vs := VolumesOf(ks).value;
      ScanKindsMatches(ks);
      forall i | 0 <= i < |r.1|
        ensures Started(vs[i], i + 1, r.1[i].fs)
      {
        assert vs[i] == Described(i + 1, r.1[i], Inherited(r.0, i));
        DescribedStarted(i + 1, r.1[i], Inherited(r.0, i));
      }
    }
  }

  lemma KindsWellClassified(lines: seq<string>)
    ensures WellClassified(Kinds(lines))
  {
  }

  /** `get_volumes_from_disktype` on raw lines: as above, over the lines'
      kinds. */
  lemma GetVolumesSpec(lines: seq<string>)
    ensures GetVolumes(lines) == Reference(Kinds(lines))
    ensures GetVolumes(lines).Ok? <==> !OrphanNameLine(Kinds(lines))
    ensures GetVolumes(lines).Err? ==> GetVolumes(lines).error == KeyError("output_directory_name")
    ensures GetVolumes(lines).Ok? ==>
              var vs := GetVolumes(lines).value;
              var names := FsNames(Kinds(lines));
              && |vs| == (if |names| == 0 then 1 else |names|)
              && (forall k :: 0 <= k < |names| ==> Started(vs[k], k + 1, names[k]))
              && (|names| == 0 ==> vs[0] == NoVolume.(size := vs[0].size))
  {
    KindsWellClassified(lines);
    VolumesOfSpec(Kinds(lines));
  }

  /** The id's digits sit between "volume-" and the next '-'. */
  lemma DirBaseShape(id: nat, fs: string)
    ensures var d, n := DirBase(id, fs), NatToString(id);
            7 + |n| < |d| && d[7..7 + |n|] == n && d[7 + |n|] == '-'
  {
  }

  lemma SliceOfPrefix(x: string, d: string, i: nat, j: nat)
    requires StartsWith(x, d) && i <= j <= |d|
    ensures x[i..j] == d[i..j]
  {
    forall k | i <= k < j
      ensures x[k] == d[k]
    {
      assert x[..|d|][k] == x[k];
    }
  }

  /** Base names with different ids are never prefixes of one string. */
  lemma DirBasesDisagree(x: string, a: nat, fa: string, b: nat, fb: string)
    requires StartsWith(x, DirBase(a, fa)) && StartsWith(x, DirBase(b, fb))
    ensures a == b
  {
    var na, nb := NatToString(a), NatToString(b);
    DirBaseShape(a, fa);
    DirBaseShape(b, fb);
    SliceOfPrefix(x, DirBase(a, fa), 7, 8 + |na|);
    SliceOfPrefix(x, DirBase(b, fb), 7, 8 + |nb|);
    var w := x[7..];
    assert forall k :: 0 <= k < |na| ==> IsDigit(w[k]) by {
      assert forall k :: 0 <= k < |na| ==> w[k] == x[7..8 + |na|][k] == na[k];
    }
    assert forall k :: 0 <= k < |nb| ==> IsDigit(w[k]) by {
      assert forall k :: 0 <= k < |nb| ==> w[k] == x[7..8 + |nb|][k] == nb[k];
    }
    assert w[|na|] == '-' && w[|nb|] == '-';
    assert |na| == |nb|;
    assert na == x[7..7 + |na|] == nb;
    NatToStringInjective(a, b);
  }

  /** Every volume of a classified text gets its own output directory
      name. */
  lemma VolumeDirectoriesDistinct(ks: seq<LineKind>, i: nat, j: nat)
    requires WellClassified(ks) && VolumesOf(ks).Ok?
    requires i < j < |FsNames(ks)|
    ensures var vs := VolumesOf(ks).value;
            j < |vs| && vs[i].outputDirectoryName != vs[j].outputDirectoryName
  {
    VolumesOfSpec(ks);
    var vs := VolumesOf(ks).value;
    var names := FsNames(ks);
    assert Started(vs[i], i + 1, names[i]) && Started(vs[j], j + 1, names[j]);
    if vs[i].outputDirectoryName == vs[j].outputDirectoryName {
      DirBasesDisagree(vs[i].outputDirectoryName.value, i + 1, names[i], j + 1, names[j]);
    }
  }

  /** Every volume gets its own output directory name. */
  lemma OutputDirectoriesDistinct(lines: seq<string>, i: nat, j: nat)
    requires GetVolumes(lines).Ok?
    requires i < j < |FsNames(Kinds(lines))|
    ensures var vs := GetVolumes(lines).value;
            j < |vs| && vs[i].outputDirectoryName != vs[j].outputDirectoryName
  {
    KindsWellClassified(lines);
    VolumeDirectoriesDistinct(Kinds(lines), i, j);
  }

  /** Text with no lines at all gives `[{}]`. */
  lemma EmptyOutput()
    ensures GetVolumes([]) == Ok([NoVolume])
  {
    assert Kinds([]) == [];
    assert ScanKinds([]) == Ok(Start);
    assert Start.done + [Start.current] == [NoVolume];
  }

  // ---- classifying single lines ------------------------------------------

  /** Indentation does not change what a line means. */
  lemma ClassifyIndented(indent: string, line: string)
    requires forall i :: 0 <= i < |indent| ==> IsSpace(indent[i])
    requires |line| > 0 && !IsSpace(line[0]) && !IsSpace(line[|line| - 1])
    ensures Classify(indent + line) == ClassifyStripped(line)
  {
    StripIndented(indent, line);
  }

  /** "<fs> file system" starts a volume of file system `fs` when `fs` is
      one word. */
  lemma ClassifyFsLine(fs: string)
    requires |fs| > 0 && !IsSpace(fs[0]) && ' ' !in fs
    ensures ClassifyStripped(fs + " file system") == FsStart(fs)
  {
    var line := fs + " file system";
    assert line[|fs| + 1..|fs| + 12] == "file system";
    ContainsAt(line, "file system", |fs| + 1);
    assert line[|fs|..|fs| + 12] == " file system";
    ContainsAt(line, " file system", |fs|);
    var r := Before(line, " file system");
    assert line[|r|] == line[|r|..|r| + 12][0] == ' ';
    assert forall i :: 0 <= i < |fs| ==> line[i] == fs[i];
    assert |r| == |fs|;
    assert r == line[..|fs|] == fs;
  }

  lemma NameLineStripped(line: string)
    requires |line| > 0 && line[0] == 'V' && line[|line| - 1] == '"'
    ensures Strip(line) == line
  {
    StripIndented("", line);
    assert "" + line == line;
  }

  /** The markers a `Volume name "<name>"` line carries. */
  lemma NameLineMarkers(name: string)
    requires 'y' !in name
    ensures var line := "Volume name \"" + name + "\"";
            !Contains(line, "file system") && Contains(line, "Volume name") && Strip(line) == line
  {
    var line := "Volume name \"" + name + "\"";
    NameLineStripped(line);
    assert 'y' !in "Volume name \"" && 'y' !in "\"";
    MissingChar(line, "file system", 6);
    assert line[..11] == "Volume name";
    ContainsAt(line, "Volume name", 0);
  }

  /** Both replacements leave just the name. */
  lemma NameLineText(name: string)
    requires '"' !in name && 'V' !in name
    ensures ReplaceAll(ReplaceAll("Volume name \"" + name + "\"", "Volume name ", ""), "\"", "") == name
  {
    var quoted := "\"" + name + "\"";
    assert "Volume name \"" + name + "\"" == "Volume name " + quoted;
    ReplaceAllLeading("Volume name ", quoted, "");
    assert 'V' !in quoted;
    MissingChar(quoted, "Volume name ", 0);
    ReplaceAllAbsent(quoted, "Volume name ", "");
    assert "" + quoted == quoted;
    ReplaceAllLeading("\"", name + "\"", "");
    assert quoted == "\"" + (name + "\"");
    RemoveTrailingChar(name, '"');
    assert "\"" == ['"'] && "" == [];
  }

  /** `Volume name "<name>"` names the volume `name`, the quotes dropped. */
  lemma ClassifyNameLine(name: string)
    requires '"' !in name && 'V' !in name && 'y' !in name
    ensures ClassifyStripped("Volume name \"" + name + "\"") == NameLine(name)
  {
    NameLineMarkers(name);
    NameLineText(name);
  }

  /** The markers a `Volume size <size>` line carries. */
  lemma SizeLineMarkers(size: string)
    requires 'n' !in size && !Contains(size, "file system")
    ensures var line := "Volume size " + size;
            && !Contains(line, "file system") && !Contains(line, "Volume name")
            && Contains(line, "Volume size")
  {
    var line := "Volume size " + size;
    NotContainsConcat("Volume size ", size, "file system");
    assert 'n' !in "Volume size ";
    MissingChar(line, "Volume name", 7);
    assert line[..11] == "Volume size";
    ContainsAt(line, "Volume size", 0);
  }

  /** A `Volume size <size>` line is already stripped. */
  lemma SizeLineStripped(size: string)
    requires |size| > 0 && !IsSpace(size[|size| - 1])
    ensures Strip("Volume size " + size) == "Volume size " + size
  {
    StripIndented("", "Volume size " + size);
    assert "" + ("Volume size " + size) == "Volume size " + size;
  }

  /** `Volume size <size>` gives the volume the size `size`. */
  lemma ClassifySizeLine(size: string)
    requires |size| > 0 && !IsSpace(size[|size| - 1])
    requires 'n' !in size && 'V' !in size && !Contains(size, "file system")
    ensures ClassifyStripped("Volume size " + size) == SizeLine(size)
  {
    SizeLineMarkers(size);
    SizeLineStripped(size);
    ReplaceAllLeading("Volume size ", size, "");
    MissingChar(size, "Volume size ", 0);
    ReplaceAllAbsent(size, "Volume size ", "");
    assert "" + size == size;
  }

  /** A line none of the four markers can occur in means nothing. */
  lemma ClassifyOtherLine(line: string)
    requires |line| > 0 && !IsSpace(line[0])
    requires 'y' !in line && 'V' !in line && 'D' !in line
    ensures ClassifyStripped(line) == OtherLine
  {
    MissingChar(line, "file system", 6);
    MissingChar(line, "Volume name", 0);
    MissingChar(line, "Volume size", 0);
    MissingChar(line, "Disk size", 0);
  }

  // ---- worked examples ---------------------------------------------------

  /** Name characters other than a space: what formatting keeps as is. */
  predicate Plain(s: string) {
    forall i :: 0 <= i < |s| ==> NameChar(s[i]) && s[i] != ' '
  }

  lemma KeepJoined(a: string, sep: string, b: string)
    requires Plain(a) && Plain(b)
    ensures KeepNameChars(a + sep + b) == a + KeepNameChars(sep) + b
  {
    KeepNameCharsConcat(a + sep, b);
    KeepNameCharsConcat(a, sep);
    KeepAllNameChars(a);
    KeepAllNameChars(b);
  }

  lemma UnderscoreJoined(a: string, m: string, b: string)
    requires Plain(a) && Plain(b)
    ensures ReplaceAll(a + m + b, " ", "_") == a + ReplaceAll(m, " ", "_") + b
  {
    assert " " == [' '];
    ReplaceCharConcat(a + m, b, ' ', "_");
    ReplaceCharConcat(a, m, ' ', "_");
    MissingChar(a, " ", 0);
    ReplaceAllAbsent(a, " ", "_");
    MissingChar(b, " ", 0);
    ReplaceAllAbsent(b, " ", "_");
  }

  /** Formatting a name made of two plain words around a separator keeps
      the words and formats only the separator. */
  lemma FormatJoined(a: string, sep: string, b: string)
    requires Plain(a) && Plain(b)
    ensures FormatVolumeName(a + sep + b) == a + ReplaceAll(KeepNameChars(sep), " ", "_") + b
  {
    KeepJoined(a, sep, b);
    var mid := KeepNameChars(sep);
    UnderscoreJoined(a, mid, b);
    var m := ReplaceAll(mid, " ", "_");
    var r := a + m + b;
    assert r == ReplaceAll(KeepNameChars(a + sep + b), " ", "_");
    NoSlashJoined(a, mid, b);
    RStripCharAbsent(r, '/');
  }

  /** Name characters never include a slash. */
  lemma NoSlashIn(s: string)
    requires forall i :: 0 <= i < |s| ==> NameChar(s[i])
    ensures '/' !in s
  {
    forall i | 0 <= i < |s|
      ensures s[i] != '/'
    {
      assert NameChar(s[i]);
    }
  }

  lemma NoSlashJoined(a: string, mid: string, b: string)
    requires Plain(a) && Plain(b) && forall i :: 0 <= i < |mid| ==> NameChar(mid[i])
    ensures '/' !in a + ReplaceAll(mid, " ", "_") + b
  {
    var m := ReplaceAll(mid, " ", "_");
    ReplaceCharByChar(mid, ' ', '_');
    assert " " == [' '] && "_" == ['_'];
    assert forall i :: 0 <= i < |m| ==> NameChar(m[i]);
    NoSlashIn(a);
    NoSlashIn(m);
    NoSlashIn(b);
  }

  /** `_format_volume_name("ok_images + rome2")`: the plus goes, and
      both spaces around it become underscores. */
  lemma FormatRomeName()
    ensures FormatVolumeName("ok_images + rome2") == "ok_images__rome2"
  {
    var a, b := "ok_images", "rome2";
    assert Plain(a) && Plain(b);
    var name := a + " + " + b;
    assert name == "ok_images + rome2";
    FormatJoined(a, " + ", b);
    PlusSeparator();
    assert FormatVolumeName(name) == a + "__" + b == "ok_images__rome2";
  }

  /** " + " keeps its two spaces, which become underscores. */
  lemma PlusSeparator()
    ensures ReplaceAll(KeepNameChars(" + "), " ", "_") == "__"
  {
    assert " + " == " " + "+" + " ";
    KeepNameCharsConcat(" " + "+", " ");
    KeepNameCharsConcat(" ", "+");
    assert KeepNameChars(" + ") == "  ";
    ReplaceCharByChar("  ", ' ', '_');
  }

  /** `_format_volume_name("ISO9660/HFS")`: the slash goes. */
  lemma FormatDualName()
    ensures FormatVolumeName("ISO9660/HFS") == "ISO9660HFS"
  {
    var a, b := "ISO9660", "HFS";
    assert Plain(a) && Plain(b);
    var name := a + "/" + b;
    assert name == "ISO9660/HFS";
    FormatJoined(a, "/", b);
    assert KeepNameChars("/") == "";
    assert ReplaceAll("", " ", "_") == "";
    assert FormatVolumeName(name) == a + "" + b == "ISO9660HFS";
  }

  // ---- the toolkit's three disktype examples -----------------------------

  /** Size texts of the examples. Each is written as two literals: facts
      about the characters of one long literal are expensive to check. */
  const RomeSize := "95.74 MiB (100392960 bytes, " + "65360 blocks of 1536 bytes)"
  const DualSize := "880 KiB (901120 bytes, " + "440 blocks of 2 KiB)"
  const FloppySize := "1.390 MiB (1457664 bytes, " + "2847 clusters of 512 bytes)"

  /** The indentation disktype puts before a volume's detail lines. */
  const Indent := "  "

  /** Characters a size text lacks, so that its line is read as a size. */
  predicate SizeChars(s: string) {
    forall i :: 0 <= i < |s| ==> s[i] != 'm' && s[i] != 'n' && s[i] != 'V'
  }

  lemma SizeCharsConcat(a: string, b: string)
    requires SizeChars(a) && SizeChars(b)
    ensures SizeChars(a + b)
  {
    forall i | 0 <= i < |a + b|
      ensures (a + b)[i] != 'm' && (a + b)[i] != 'n' && (a + b)[i] != 'V'
    {
      if i < |a| {
        assert (a + b)[i] == a[i];
      } else {
        assert (a + b)[i] == b[i - |a|];
      }
    }
  }

  /** A "Volume size" line, indented, is read as that size. */
  lemma ClassifyIndentedSize(size: string)
    requires |size| > 0 && !IsSpace(size[|size| - 1]) && SizeChars(size)
    ensures Classify(SizeText(size)) == SizeLine(size)
  {
    assert 'm' !in size && 'n' !in size && 'V' !in size;
    MissingChar(size, "file system", 10);
    ClassifySizeLine(size);
    assert SizeText(size) == Indent + ("Volume size " + size);
    ClassifyIndented(Indent, "Volume size " + size);
  }

  /** An indented `Volume name "<name>"` line is read as that name. */
  lemma ClassifyIndentedName(name: string)
    requires '"' !in name && 'V' !in name && 'y' !in name
    ensures Classify(NameText(name)) == NameLine(name)
  {
    ClassifyNameLine(name);
    NameTextIndented(name);
    ClassifyIndented(Indent, "Volume name \"" + name + "\"");
  }

  /** A name line is the indent before a line with non-space ends. */
  lemma NameTextIndented(name: string)
    ensures var line := "Volume name \"" + name + "\"";
            && NameText(name) == Indent + line
            && (forall i :: 0 <= i < |Indent| ==> IsSpace(Indent[i]))
            && |line| > 0 && !IsSpace(line[0]) && !IsSpace(line[|line| - 1])
  {
    var line := "Volume name \"" + name + "\"";
    assert line[0] == 'V' && line[|line| - 1] == '"';
  }

  /** A "<fs> file system" line starts a volume of that file system. */
  lemma ClassifyPlainFs(fs: string)
    requires |fs| > 0 && !IsSpace(fs[0]) && ' ' !in fs
    ensures Classify(FsText(fs)) == FsStart(fs)
  {
    ClassifyFsLine(fs);
    ClassifyIndented("", FsText(fs));
    assert "" + FsText(fs) == FsText(fs);
  }

  lemma RomeSizeChars()
    ensures |RomeSize| > 0 && !IsSpace(RomeSize[|RomeSize| - 1]) && SizeChars(RomeSize)
  {
    var a, b := "95.74 MiB (100392960 bytes, ", "65360 blocks of 1536 bytes)";
    assert SizeChars(a) && SizeChars(b);
    SizeCharsConcat(a, b);
  }

  lemma DualSizeChars()
    ensures |DualSize| > 0 && !IsSpace(DualSize[|DualSize| - 1]) && SizeChars(DualSize)
  {
    var a, b := "880 KiB (901120 bytes, ", "440 blocks of 2 KiB)";
    assert SizeChars(a) && SizeChars(b);
    SizeCharsConcat(a, b);
  }

  lemma FloppySizeChars()
    ensures |FloppySize| > 0 && !IsSpace(FloppySize[|FloppySize| - 1]) && SizeChars(FloppySize)
  {
    var a, b := "1.390 MiB (1457664 bytes, ", "2847 clusters of 512 bytes)";
    assert SizeChars(a) && SizeChars(b);
    SizeCharsConcat(a, b);
  }

  /** The scan after one more line. */
  lemma ScanKindsSnoc(ks: seq<LineKind>, k: LineKind)
    ensures ScanKinds(ks + [k]) == (match ScanKinds(ks)
                                    case Ok(st) => Step(st, k)
                                    case Err(e) => Err(e))
  {
    assert (ks + [k])[..|ks|] == ks;
  }

  /** What the lines of a one-word file system, an optional name and a
      size are read as. */
  predicate FsWord(fs: string) {
    |fs| > 0 && !IsSpace(fs[0]) && ' ' !in fs
  }

  predicate QuotableName(name: string) {
    '"' !in name && 'V' !in name && 'y' !in name
  }

  predicate SizeWords(size: string) {
    |size| > 0 && !IsSpace(size[|size| - 1]) && SizeChars(size)
  }

  function FsText(fs: string): string {
    fs + " file system"
  }

  function NameText(name: string): string {
    Indent + "Volume name \"" + name + "\""
  }

  function SizeText(size: string): string {
    Indent + "Volume size " + size
  }

  /** The volume built from a "file system" line and one name line. */
  function NamedVolume(id: nat, fs: string, name: string, size: Option<string>): Volume {
    Volume(Some(id), Some(name), Some(FormatVolumeName(name)), Some(fs),
           Some(DirBase(id, fs) + "-" + FormatVolumeName(name)), size)
  }

  lemma NamedScan(fs: string, name: string, size: string)
    ensures ScanKinds([FsStart(fs), NameLine(name), SizeLine(size)]) ==
              Ok(Scan([], NamedVolume(1, fs, name, Some(size)), 1))
    ensures VolumesOf([FsStart(fs), NameLine(name), SizeLine(size)]) == Ok([NamedVolume(1, fs, name, Some(size))])
  {
    var k1, k2, k3 := FsStart(fs), NameLine(name), SizeLine(size);
    var v := Volume(Some(1), Some(""), Some(""), Some(fs), Some(DirBase(1, fs)), None);
    var w := NamedVolume(1, fs, name, None);
    ScanKindsSnoc([], k1);
    assert [] + [k1] == [k1];
    assert ScanKinds([k1]) == Ok(Scan([], v, 1));
    ScanKindsSnoc([k1], k2);
    assert [k1] + [k2] == [k1, k2];
    assert ScanKinds([k1, k2]) == Ok(Scan([], w, 1));
    ScanKindsSnoc([k1, k2], k3);
    assert [k1, k2] + [k3] == [k1, k2, k3];
    assert ScanKinds([k1, k2, k3]) == Ok(Scan([], w.(size := Some(size)), 1));
    assert [] + [w.(size := Some(size))] == [w.(size := Some(size))];
  }

  /** The kinds of a text with one more line. */
  lemma KindsSnoc(lines: seq<string>, line: string)
    ensures Kinds(lines + [line]) == Kinds(lines) + [Classify(line)]
  {
  }

  /** The kinds of a short text, line by line. */
  lemma Kinds2(a: string, b: string, k1: LineKind, k2: LineKind)
    requires Classify(a) == k1 && Classify(b) == k2
    ensures Kinds([a, b]) == [k1, k2]
  {
    KindsSnoc([], a);
    assert [] + [a] == [a];
    KindsSnoc([a], b);
    assert [a] + [b] == [a, b];
  }

  lemma Kinds3(a: string, b: string, c: string, k1: LineKind, k2: LineKind, k3: LineKind)
    requires Classify(a) == k1 && Classify(b) == k2 && Classify(c) == k3
    ensures Kinds([a, b, c]) == [k1, k2, k3]
  {
    Kinds2(a, b, k1, k2);
    KindsSnoc([a, b], c);
    assert [a, b] + [c] == [a, b, c];
  }

  lemma Kinds4(a: string, b: string, c: string, d: string,
               k1: LineKind, k2: LineKind, k3: LineKind, k4: LineKind)
    requires Classify(a) == k1 && Classify(b) == k2 && Classify(c) == k3 && Classify(d) == k4
    ensures Kinds([a, b, c, d]) == [k1, k2, k3, k4]
  {
    Kinds3(a, b, c, k1, k2, k3);
    KindsSnoc([a, b, c], d);
    assert [a, b, c] + [d] == [a, b, c, d];
  }

  lemma Kinds5(a: string, b: string, c: string, d: string, e: string,
               k1: LineKind, k2: LineKind, k3: LineKind, k4: LineKind, k5: LineKind)
    requires Classify(a) == k1 && Classify(b) == k2 && Classify(c) == k3
    requires Classify(d) == k4 && Classify(e) == k5
    ensures Kinds([a, b, c, d, e]) == [k1, k2, k3, k4, k5]
  {
    Kinds4(a, b, c, d, k1, k2, k3, k4);
    KindsSnoc([a, b, c, d], e);
    assert [a, b, c, d] + [e] == [a, b, c, d, e];
  }

  lemma NamedKinds(fs: string, name: string, size: string)
    requires FsWord(fs) && QuotableName(name) && SizeWords(size)
    ensures Kinds([FsText(fs), NameText(name), SizeText(size)]) == [FsStart(fs), NameLine(name), SizeLine(size)]
  {
    ClassifyPlainFs(fs);
    ClassifyIndentedName(name);
    ClassifyIndentedSize(size);
    Kinds3(FsText(fs), NameText(name), SizeText(size), FsStart(fs), NameLine(name), SizeLine(size));
  }

  /** A volume with a name line and then a size line. */
  lemma NamedVolumeShape(fs: string, name: string, size: string)
    requires FsWord(fs) && QuotableName(name) && SizeWords(size)
    ensures GetVolumes([FsText(fs), NameText(name), SizeText(size)]) == Ok([NamedVolume(1, fs, name, Some(size))])
  {
    NamedKinds(fs, name, size);
    NamedScan(fs, name, size);
  }

  lemma DualScan(fs1: string, fs2: string, name: string, size: string)
    requires |fs1| > 0
    ensures var k2 := NameLine(name);
            VolumesOf([FsStart(fs1), k2, SizeLine(size), FsStart(fs2), k2]) ==
              Ok([NamedVolume(1, fs1, name, Some(size)), NamedVolume(2, fs2, name, None)])
  {
    var k1, k2, k3, k4 := FsStart(fs1), NameLine(name), SizeLine(size), FsStart(fs2);
    var w1 := NamedVolume(1, fs1, name, Some(size));
    var v2 := Volume(Some(2), Some(""), Some(""), Some(fs2), Some(DirBase(2, fs2)), None);
    NamedScan(fs1, name, size);
    assert ScanKinds([k1, k2, k3]) == Ok(Scan([], w1, 1));
    ScanKindsSnoc([k1, k2, k3], k4);
    assert [k1, k2, k3] + [k4] == [k1, k2, k3, k4];
    assert ScanKinds([k1, k2, k3, k4]) == Ok(Scan([w1], v2, 2));
    ScanKindsSnoc([k1, k2, k3, k4], k2);
    assert [k1, k2, k3, k4] + [k2] == [k1, k2, k3, k4, k2];
    var w2 := NamedVolume(2, fs2, name, None);
    assert ScanKinds([k1, k2, k3, k4, k2]) == Ok(Scan([w1], w2, 2));
    assert [w1] + [w2] == [w1, w2];
  }

  lemma DualKinds(fs1: string, fs2: string, name: string, size: string)
    requires FsWord(fs1) && FsWord(fs2) && QuotableName(name) && SizeWords(size)
    ensures Kinds([FsText(fs1), NameText(name), SizeText(size), FsText(fs2), NameText(name)]) ==
              [FsStart(fs1), NameLine(name), SizeLine(size), FsStart(fs2), NameLine(name)]
  {
    ClassifyPlainFs(fs1);
    ClassifyPlainFs(fs2);
    ClassifyIndentedName(name);
    ClassifyIndentedSize(size);
    Kinds5(FsText(fs1), NameText(name), SizeText(size), FsText(fs2), NameText(name),
           FsStart(fs1), NameLine(name), SizeLine(size), FsStart(fs2), NameLine(name));
  }

  /** Two volumes sharing one name; only the first reports a size. */
  lemma DualVolumeShape(fs1: string, fs2: string, name: string, size: string)
    requires FsWord(fs1) && FsWord(fs2) && QuotableName(name) && SizeWords(size)
    ensures GetVolumes([FsText(fs1), NameText(name), SizeText(size), FsText(fs2), NameText(name)]) ==
              Ok([NamedVolume(1, fs1, name, Some(size)), NamedVolume(2, fs2, name, None)])
  {
    DualKinds(fs1, fs2, name, size);
    DualScan(fs1, fs2, name, size);
  }

  lemma UnnamedScan(fs: string, size: string)
    ensures VolumesOf([FsStart(fs), SizeLine(size)]) ==
              Ok([Volume(Some(1), Some(""), Some(""), Some(fs), Some(DirBase(1, fs)), Some(size))])
  {
    var k1, k2 := FsStart(fs), SizeLine(size);
    var v := Volume(Some(1), Some(""), Some(""), Some(fs), Some(DirBase(1, fs)), None);
    ScanKindsSnoc([], k1);
    assert [] + [k1] == [k1];
    assert ScanKinds([k1]) == Ok(Scan([], v, 1));
    ScanKindsSnoc([k1], k2);
    assert [k1] + [k2] == [k1, k2];
    assert ScanKinds([k1, k2]) == Ok(Scan([], v.(size := Some(size)), 1));
    assert [] + [v.(size := Some(size))] == [v.(size := Some(size))];
  }

  lemma UnnamedKinds(fs: string, size: string)
    requires FsWord(fs) && SizeWords(size)
    ensures Kinds([FsText(fs), SizeText(size)]) == [FsStart(fs), SizeLine(size)]
  {
    ClassifyPlainFs(fs);
    ClassifyIndentedSize(size);
    Kinds2(FsText(fs), SizeText(size), FsStart(fs), SizeLine(size));
  }

  /** A volume with only a size line. */
  lemma UnnamedVolumeShape(fs: string, size: string)
    requires FsWord(fs) && SizeWords(size)
    ensures GetVolumes([FsText(fs), SizeText(size)]) ==
              Ok([Volume(Some(1), Some(""), Some(""), Some(fs), Some(DirBase(1, fs)), Some(size))])
  {
    UnnamedKinds(fs, size);
    UnnamedScan(fs, size);
  }

  /** "volume-1-hfs" and the other base names of the examples. */
  lemma ExampleBases()
    ensures DirBase(1, "HFS") == "volume-1-hfs"
    ensures DirBase(2, "ISO9660") == "volume-2-iso9660"
    ensures DirBase(1, "FAT12") == "volume-1-fat12"
  {
    assert NatToString(1) == "1" && NatToString(2) == "2";
    assert Lower("HFS") == "hfs";
    assert Lower("ISO9660") == "iso9660";
    assert Lower("FAT12") == "fat12";
  }

  const RomeName := "ok_images + rome2"
  const DualName := "ISO9660/HFS"

  /** The directory name of the HFS image's volume. */
  lemma RomeDirectory(fs: string, name: string)
    requires fs == "HFS" && name == RomeName
    ensures FormatVolumeName(name) == "ok_images__rome2"
    ensures DirBase(1, fs) + "-" + FormatVolumeName(name) == "volume-1-hfs-" + "ok_images__rome2"
  {
    ExampleBases();
    FormatRomeName();
    assert "volume-1-hfs" + "-" == "volume-1-hfs-";
  }

  /** The HFS image: one volume named "ok_images + rome2". */
  lemma RomeExample(fs: string, name: string, size: string)
    requires fs == "HFS" && name == RomeName && size == RomeSize
    ensures GetVolumes([FsText(fs), NameText(name), SizeText(size)]) ==
              Ok([Volume(Some(1), Some("ok_images + rome2"), Some("ok_images__rome2"), Some("HFS"),
                         Some("volume-1-hfs-" + "ok_images__rome2"), Some(RomeSize))])
  {
    assert FsWord(fs);
    assert QuotableName(name);
    RomeSizeChars();
    NamedVolumeShape(fs, name, size);
    RomeDirectory(fs, name);
  }

  /** The directory names of the hybrid image's two volumes. */
  lemma DualDirectories(fs1: string, fs2: string, name: string)
    requires fs1 == "HFS" && fs2 == "ISO9660" && name == DualName
    ensures FormatVolumeName(name) == "ISO9660HFS"
    ensures DirBase(1, fs1) + "-" + FormatVolumeName(name) == "volume-1-hfs" + "-" + "ISO9660HFS"
    ensures DirBase(2, fs2) + "-" + FormatVolumeName(name) == "volume-2-iso9660" + "-" + "ISO9660HFS"
  {
    ExampleBases();
    FormatDualName();
  }

  /** The ISO 9660 / HFS hybrid: two volumes with one name; only the HFS
      one reports a size. */
  lemma DualExample(fs1: string, fs2: string, name: string, size: string)
    requires fs1 == "HFS" && fs2 == "ISO9660" && name == DualName && size == DualSize
    ensures GetVolumes([FsText(fs1), NameText(name), SizeText(size), FsText(fs2), NameText(name)]) ==
              Ok([Volume(Some(1), Some("ISO9660/HFS"), Some("ISO9660HFS"), Some("HFS"),
                         Some("volume-1-hfs" + "-" + "ISO9660HFS"), Some(DualSize)),
                  Volume(Some(2), Some("ISO9660/HFS"), Some("ISO9660HFS"), Some("ISO9660"),
                         Some("volume-2-iso9660" + "-" + "ISO9660HFS"), None)])
  {
    assert FsWord(fs1) && FsWord(fs2);
    assert QuotableName(name);
    DualSizeChars();
    DualVolumeShape(fs1, fs2, name, size);
    DualDirectories(fs1, fs2, name);
  }

  /** The FAT12 floppy: one unnamed volume with a size. */
  lemma FloppyExample(fs: string, size: string)
    requires fs == "FAT12" && size == FloppySize
    ensures GetVolumes([FsText(fs), SizeText(size)]) ==
              Ok([Volume(Some(1), Some(""), Some(""), Some("FAT12"), Some("volume-1-fat12"), Some(FloppySize))])
  {
    assert FsWord(fs);
    FloppySizeChars();
    UnnamedVolumeShape(fs, size);
    ExampleBases();
  }
}
