/** The file-object records a DFXML document yields, and the rules every
    script applies to them: which objects count as files, which timestamps
    are kept, and which moment a carved file's modification time is set to.
    Reading the XML is outside the model: a document is the sequence of its
    file objects, in document order. */
module Dfxml {
  import opened Outcomes
  import opened PyStr
  import opened Timestamps

  /** One `FileObject`. A timestamp is absent (Python None) or the text
      `str()` gives for it; `unalloc` and `filesize` are absent when the
      document leaves them out. */
  datatype FileObject = FileObject(
    filename: string,
    nameType: Option<string>,
    unalloc: Option<int>,
    filesize: Option<nat>,
    mtime: Option<string>,
    ctime: Option<string>,
    crtime: Option<string>)

  /** The three timestamp families: modified, metadata-changed, created. */
  datatype Family = Modified | Changed | Created

  function StampOf(o: FileObject, f: Family): Option<string> {
    match f
    case Modified => o.mtime
    case Changed => o.ctime
    case Created => o.crtime
  }

  /** `str(x)` of an optional timestamp. */
  function StampText(t: Option<string>): (r: string)
    ensures t.None? ==> r == "None"
    ensures t.Some? ==> r == t.value
  {
    match t
    case None => "None"
    case Some(s) => s
  }

  /** Neither a directory nor a link: `name_type` is empty or "r". */
  predicate IsRegular(o: FileObject) {
    !Truthy(o.nameType) || o.nameType.value == "r"
  }

  /** Counted by the statistics: regular, and allocated unless every file
      was exported (an `unalloc` of 0 is falsy and so counts as allocated). */
  predicate IsCounted(o: FileObject, exportAll: bool) {
    IsRegular(o) && (exportAll || o.unalloc != Some(1))
  }

  /** The counted objects, in document order. */
  function CountedObjects(objs: seq<FileObject>, exportAll: bool): (r: seq<FileObject>)
    ensures |r| <= |objs|
    ensures forall i :: 0 <= i < |r| ==> IsCounted(r[i], exportAll)
    decreases |objs|
  {
    if |objs| == 0 then []
    else
      var init := CountedObjects(objs[..|objs| - 1], exportAll);
      if IsCounted(objs[|objs| - 1], exportAll) then init + [objs[|objs| - 1]] else init
  }

  /** Exactly the counted objects survive. */
  lemma {:induction false} CountedMembers(objs: seq<FileObject>, exportAll: bool, o: FileObject)
    ensures o in CountedObjects(objs, exportAll) <==> o in objs && IsCounted(o, exportAll)
    decreases |objs|
  {
    if |objs| > 0 {
      CountedMembers(objs[..|objs| - 1], exportAll, o);
      assert objs == objs[..|objs| - 1] + [objs[|objs| - 1]];
    }
  }

  /** Filtering two stretches of a document filters the whole, in order. */
  lemma {:induction false} CountedConcat(a: seq<FileObject>, b: seq<FileObject>, exportAll: bool)
    ensures CountedObjects(a + b, exportAll) == CountedObjects(a, exportAll) + CountedObjects(b, exportAll)
    decreases |b|
  {
    if |b| == 0 {
      assert a + b == a;
    } else {
      CountedConcat(a, b[..|b| - 1], exportAll);
      assert (a + b)[..|a + b| - 1] == a + b[..|b| - 1];
    }
  }

  /** Exporting everything can only add files to the count, and adds none
      to a document without unallocated entries. */
  lemma {:induction false} ExportAllCountsMore(objs: seq<FileObject>)
    ensures |CountedObjects(objs, false)| <= |CountedObjects(objs, true)|
    ensures (forall i :: 0 <= i < |objs| ==> objs[i].unalloc != Some(1)) ==>
              CountedObjects(objs, false) == CountedObjects(objs, true)
    decreases |objs|
  {
    if |objs| > 0 {
      ExportAllCountsMore(objs[..|objs| - 1]);
    }
  }

  /** `bytes += obj.filesize` over the counted objects: a missing size makes
      the addition raise TypeError. */
  function TotalBytes(objs: seq<FileObject>): (r: Result<nat>)
    ensures r.Ok? <==> forall i :: 0 <= i < |objs| ==> objs[i].filesize.Some?
    ensures r.Err? ==> r.error == TypeError
    decreases |objs|
  {
    if |objs| == 0 then Ok(0)
    else
      var init :- TotalBytes(objs[..|objs| - 1]);
      match objs[|objs| - 1].filesize
      case None => Err(TypeError)
      case Some(n) => Ok(init + n)
  }

  /** The byte total of two stretches is the sum of their totals. */
  lemma {:induction false} TotalBytesConcat(a: seq<FileObject>, b: seq<FileObject>)
    requires TotalBytes(a).Ok? && TotalBytes(b).Ok?
    ensures TotalBytes(a + b) == Ok(TotalBytes(a).value + TotalBytes(b).value)
    decreases |b|
  {
    if |b| == 0 {
      assert a + b == a;
    } else {
      assert TotalBytes(b[..|b| - 1]).Ok?;
      TotalBytesConcat(a, b[..|b| - 1]);
      assert (a + b)[..|a + b| - 1] == a + b[..|b| - 1];
    }
  }

  /** `xs` with every "None" taken out, the rest in order. */
  function DropNone(xs: seq<string>): (r: seq<string>)
    ensures |r| <= |xs|
    ensures forall i :: 0 <= i < |r| ==> r[i] != "None"
    decreases |xs|
  {
    if |xs| == 0 then []
    else
      var init := DropNone(xs[..|xs| - 1]);
      if xs[|xs| - 1] == "None" then init else init + [xs[|xs| - 1]]
  }

  lemma {:induction false} DropNoneConcat(a: seq<string>, b: seq<string>)
    ensures DropNone(a + b) == DropNone(a) + DropNone(b)
    decreases |b|
  {
    if |b| == 0 {
      assert a + b == a;
    } else {
      DropNoneConcat(a, b[..|b| - 1]);
      assert (a + b)[..|a + b| - 1] == a + b[..|b| - 1];
    }
  }

  /** Exactly the texts other than "None" survive. */
  lemma {:induction false} DropNoneMembers(xs: seq<string>, x: string)
    ensures x in DropNone(xs) <==> x in xs && x != "None"
    decreases |xs|
  {
    if |xs| > 0 {
      DropNoneMembers(xs[..|xs| - 1], x);
      assert xs == xs[..|xs| - 1] + [xs[|xs| - 1]];
    }
  }

  lemma {:induction false} DropNoneAbsent(xs: seq<string>)
    requires "None" !in xs
    ensures DropNone(xs) == xs
    decreases |xs|
  {
    if |xs| > 0 {
      DropNoneAbsent(xs[..|xs| - 1]);
      assert xs == xs[..|xs| - 1] + [xs[|xs| - 1]];
    }
  }

  /** Index of the first occurrence, as `list.remove` finds it. */
  function FirstIndex(xs: seq<string>, x: string): (k: nat)
    requires x in xs
    ensures k < |xs| && xs[k] == x
    ensures forall j :: 0 <= j < k ==> xs[j] != x
  {
    if xs[0] == x then 0 else 1 + FirstIndex(xs[1..], x)
  }

  /** `while "None" in date_list: date_list.remove("None")`. */
  method RemoveNones(xs: seq<string>) returns (ys: seq<string>)
    ensures ys == DropNone(xs)
  {
    ys := xs;
    while "None" in ys
      invariant DropNone(ys) == DropNone(xs)
      decreases |ys|
    {
      var k := FirstIndex(ys, "None");
      assert ys == ys[..k] + [ys[k]] + ys[k + 1..];
      DropNoneConcat(ys[..k] + [ys[k]], ys[k + 1..]);
      DropNoneConcat(ys[..k], [ys[k]]);
      DropNoneConcat(ys[..k], ys[k + 1..]);
      assert DropNone([ys[k]]) == [] by {
        assert [ys[k]][..0] == [];
      }
      ys := ys[..k] + ys[k + 1..];
    }
    DropNoneAbsent(ys);
  }

  /** The texts of one family over the counted objects, in document order,
      with the absent ones (and any literal "None") removed. */
  function FamilyTexts(counted: seq<FileObject>, f: Family): (r: seq<string>)
    ensures forall i :: 0 <= i < |r| ==> r[i] != "None"
  {
    DropNone(seq(|counted|, i requires 0 <= i < |counted| => StampText(StampOf(counted[i], f))))
  }

  /** Every timestamp text a counted object carries for the family, other
      than "None", is kept, and nothing else is. */
  lemma FamilyTextsMembers(counted: seq<FileObject>, f: Family, x: string)
    ensures x in FamilyTexts(counted, f) <==>
              x != "None" && exists i :: 0 <= i < |counted| && StampOf(counted[i], f) == Some(x)
  {
    var raw := seq(|counted|, i requires 0 <= i < |counted| => StampText(StampOf(counted[i], f)));
    DropNoneMembers(raw, x);
    if x != "None" && x in raw {
      var i :| 0 <= i < |raw| && raw[i] == x;
      assert StampOf(counted[i], f) == Some(x);
    }
    if x != "None" && exists i :: 0 <= i < |counted| && StampOf(counted[i], f) == Some(x) {
      var i :| 0 <= i < |counted| && StampOf(counted[i], f) == Some(x);
      assert raw[i] == x;
    }
  }

  /** A timestamp the restore step accepts: present, non-empty and not the
      text "None". */
  predicate Usable(t: Option<string>) {
    t.Some? && |t.value| > 0 && t.value != "None"
  }

  /** What restoring one object's date does: nothing for a directory or
      link, set the carved file's times to `seconds`, or find that the
      chosen timestamp text does not parse. */
  datatype Restored = Skipped | SetTo(seconds: int) | Unparsed(text: string)

  /** The first 19 characters of a stamp, converted by `time_to_int`. */
  function FromText(s: string): (r: Restored)
    ensures r.SetTo? || r == Unparsed(s)
    ensures r.SetTo? <==> ParseIso(s).Some?
  {
    match TimeToInt(s)
    case Some(t) => SetTo(t)
    case None => Unparsed(s)
  }

  /** The date policy of `_restore_file_last_modified_dates`: the modified
      time when usable, else the created time when usable, else `now`
      (the caller's `time.time()`), each cut to 19 characters. */
  function RestoreDate(o: FileObject, now: int): (r: Restored)
    ensures r == Skipped <==> !IsRegular(o)
  {
    if !IsRegular(o) then Skipped
    else if Usable(o.mtime) then FromText(Take(o.mtime.value, 19))
    else if Usable(o.crtime) then FromText(Take(o.crtime.value, 19))
    else SetTo(now)
  }

  /** The same step with `time_to_int` as written, which raises NameError
      on a text it cannot parse. */
  function RestoreDateAsWritten(o: FileObject, now: int): (r: Result<Restored>)
    ensures r.Err? ==> r.error == NameError("logger")
  {
    if !IsRegular(o) then Ok(Skipped)
    else if Usable(o.mtime) then
      var t :- TimeToIntAsWritten(Take(o.mtime.value, 19));
      Ok(SetTo(t))
    else if Usable(o.crtime) then
      var t :- TimeToIntAsWritten(Take(o.crtime.value, 19));
      Ok(SetTo(t))
    else Ok(SetTo(now))
  }

  /** The written step raises exactly where the intended one meets an
      unparsable text, and agrees with it everywhere else. */
  lemma RestoreDateAgrees(o: FileObject, now: int)
    ensures RestoreDateAsWritten(o, now).Err? <==> RestoreDate(o, now).Unparsed?
    ensures RestoreDateAsWritten(o, now).Ok? ==> RestoreDateAsWritten(o, now).value == RestoreDate(o, now)
  {
  }

  /** A stamp written as an ISO date and time, with or without a fraction
      or zone after it. */
  lemma StampOfFormat(dt: DateTime, tail: string)
    requires Valid(dt)
    ensures Usable(Some(FormatIso(dt) + tail))
    ensures FromText(Take(FormatIso(dt) + tail, 19)) == SetTo(EpochSeconds(dt))
  {
    assert Take(FormatIso(dt) + tail, 19) == FormatIso(dt);
    TimeToIntOfFormat(dt);
    assert FormatIso(dt) + tail != "None";
  }

  /** A regular file with a readable modified time gets that moment,
      whatever its created time says. */
  lemma RestoreFromModified(o: FileObject, dt: DateTime, tail: string, now: int)
    requires IsRegular(o) && Valid(dt) && o.mtime == Some(FormatIso(dt) + tail)
    ensures RestoreDate(o, now) == SetTo(EpochSeconds(dt))
  {
    StampOfFormat(dt, tail);
  }

  /** Without a usable modified time the created time is used. */
  lemma RestoreFromCreated(o: FileObject, dt: DateTime, tail: string, now: int)
    requires IsRegular(o) && !Usable(o.mtime) && Valid(dt) && o.crtime == Some(FormatIso(dt) + tail)
    ensures RestoreDate(o, now) == SetTo(EpochSeconds(dt))
  {
    StampOfFormat(dt, tail);
  }

  /** Without either, the file gets the current time. */
  lemma RestoreFromNow(o: FileObject, now: int)
    requires IsRegular(o) && !Usable(o.mtime) && !Usable(o.crtime)
    ensures RestoreDate(o, now) == SetTo(now)
  {
  }
}
