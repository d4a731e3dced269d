/** The `DiskImage` class of disk_image_toolkit/disk_image.py, minus its
    side effects: EWF recognition and conversion to raw, the choice of
    carving strategy for a volume's file system, and the exact commands
    each strategy runs. A command is recorded as data (`Command`); the
    tools themselves, the filesystem and the package directory are
    outside the model and enter only as strings in those commands. */
module Carving {
  import opened Outcomes
  import opened PyStr
  import opened Paths
  import opened Volumes

  const UnhfsDefaultBin: string := "/usr/share/hfsexplorer/bin/unhfs"
  const UdfMount: string := "/mnt/diskid/"

  /** The file systems tsk_recover is trusted with, lower case. */
  const TskFileSystems: seq<string> :=
    ["ntfs", "fat", "ext", "iso9660", "hfs+", "ufs", "raw", "swap", "yaffs2"]

  /** The extensions (lower case) that mark an Expert Witness image. */
  const EwfExtensions: seq<string> := ["e00", "e01", "ewf", "ex0"]

  /** Where the package keeps its defaults (`THIS_DIR`) and the temporary
      directory `tempfile` hands out; both are chosen outside the code. */
  datatype Env = Env(packageDir: string, tempDir: string)

  /** The instance state the carving code reads and writes. */
  datatype DiskImage = DiskImage(
    path: string,
    filename: string,
    identifier: string,
    extension: string,
    raw: Option<string>,
    diskDfxml: Option<string>,
    unhfsBin: string)

  /** One effect of a carving run, in the order it happens. */
  datatype Command =
    | Run(argv: seq<string>)              // a subprocess given an argument list
    | Shell(line: string)                 // a `shell=True` subprocess
    | Rename(src: string, dst: string)
    | MakeDirs(path: string)
    | MakeDirsIfMissing(path: string)
    | RemoveTreeIfDir(path: string)
    | CopyTree(src: string, dst: string)
    | SetPermissions(path: string)
    | RestoreDates(dest: string, dfxml: string)
    | WalkToDfxml(target: string, dfxml: string)
    | RemoveIfEmpty(path: string)         // rmtree when listdir is empty; OSError ignored

  /** The constructor. `path` is the already-absolute path; the name parts
      come from its final component. */
  function NewDiskImage(path: string, unhfsBin: string): (img: DiskImage)
    ensures img.filename == Basename(path) && '/' !in img.filename
    ensures img.identifier + img.extension == img.filename
    ensures img.raw == None && img.diskDfxml == None
    ensures |path| > 0 ==> Wellformed(img)
  {
    var name := Basename(path);
    var parts := SplitExt(name);
    DiskImage(path, name, parts.0, parts.1, None, None, unhfsBin)
  }

  // ---- EWF ---------------------------------------------------------------

  /** `is_ewf`: the lower-cased extension ends with one of the EWF
      extensions. */
  predicate IsEwf(extension: string) {
    EndsWithAny(Lower(extension), EwfExtensions)
  }

  /** The EWF test ignores case. */
  lemma IsEwfIgnoresCase(extension: string)
    ensures IsEwf(Lower(extension)) == IsEwf(extension)
  {
    LowerIdempotent(extension);
  }

  /** The EWF test looks at the last three characters only. */
  lemma IsEwfByLastThree(extension: string)
    ensures IsEwf(extension) <==>
              |extension| >= 3 && Lower(extension[|extension| - 3..]) in EwfExtensions
  {
    var l := Lower(extension);
    if |extension| >= 3 {
      var tail := extension[|extension| - 3..];
      assert Lower(tail) == l[|l| - 3..];
      if IsEwf(extension) {
        var k :| 0 <= k < |EwfExtensions| && EndsWith(l, EwfExtensions[k]);
        assert Lower(tail) == EwfExtensions[k];
      }
      if Lower(tail) in EwfExtensions {
        var k :| 0 <= k < |EwfExtensions| && EwfExtensions[k] == Lower(tail);
        assert EndsWith(l, EwfExtensions[k]);
      }
    }
  }

  /** The argument list of the ewfexport conversion. */
  function EwfexportArgv(target: string, path: string): (argv: seq<string>)
    ensures |argv| == 11 && argv[0] == "ewfexport" && argv[2] == target && argv[10] == path
  {
    ["ewfexport", "-t", target, "-f", "raw", "-o", "0", "-S", "0", "-u", path]
  }

  /** `convert_to_raw(dest)`: an image that is not EWF is its own raw
      image and nothing runs; an EWF image is exported into the temporary
      directory and the raw file and its ".info" companion are moved to
      `dest`. */
  function ConvertToRaw(img: DiskImage, env: Env, dest: string): (r: (DiskImage, seq<Command>))
    ensures r.0 == img.(raw := r.0.raw) && r.0.raw.Some?
    ensures !IsEwf(img.extension) ==> r.0.raw == Some(img.path) && r.1 == []
    ensures IsEwf(img.extension) ==> r.0.raw == Some(dest) && |r.1| == 3
    ensures IsEwf(img.extension) ==>
              r.1[0] == Run(EwfexportArgv(PathJoin(env.tempDir, img.identifier), img.path))
              && r.1[1].Rename? && r.1[1].dst == dest
              && r.1[2].Rename? && r.1[2].dst == dest + ".info"
  {
    if !IsEwf(img.extension) then (img.(raw := Some(img.path)), [])
    else
      var target := PathJoin(env.tempDir, img.identifier);
      (img.(raw := Some(dest)),
       [Run(EwfexportArgv(target, img.path)),
        Rename(PathJoin(env.tempDir, img.identifier + ".raw"), dest),
        Rename(PathJoin(env.tempDir, img.identifier + ".raw.info"), dest + ".info")])
  }

  /** The files moved are the ones ewfexport writes for its `-t` target:
      the target with ".raw" and ".raw.info" appended. */
  lemma ConvertMovesExportedFiles(img: DiskImage, env: Env, dest: string)
    requires IsEwf(img.extension) && |img.identifier| > 0 && img.identifier[0] != '/'
    ensures var target := PathJoin(env.tempDir, img.identifier);
            var cmds := ConvertToRaw(img, env, dest).1;
            cmds[1].src == target + ".raw" && cmds[2].src == target + ".raw.info"
  {
    JoinAppend(env.tempDir, img.identifier, ".raw");
    JoinAppend(env.tempDir, img.identifier, ".raw.info");
  }

  /** The default destination of a conversion, `DEFAULT_RAW_IMAGE`. */
  function DefaultRawImage(env: Env): string {
    PathJoin(env.packageDir, "raw_disk_image.img")
  }

  /** What every instance satisfies: an absolute path is never empty, and
      a raw image, once set, is a path. */
  predicate Wellformed(img: DiskImage) {
    |img.path| > 0 && (img.raw.Some? ==> |img.raw.value| > 0)
  }

  /** `if not self.raw_disk_image: self.convert_to_raw()`. */
  function EnsureRaw(img: DiskImage, env: Env): (r: (DiskImage, seq<Command>))
    requires Wellformed(img)
    ensures r.0 == img.(raw := r.0.raw) && r.0.raw.Some? && Wellformed(r.0)
    ensures img.raw.Some? ==> r == (img, [])
    ensures img.raw.None? ==> r == ConvertToRaw(img, env, DefaultRawImage(env))
  {
    if Truthy(img.raw) then (img, [])
    else
      assert |DefaultRawImage(env)| > 0 by {
        assert EndsWith(DefaultRawImage(env), "raw_disk_image.img");
      }
      ConvertToRaw(img, env, DefaultRawImage(env))
  }

  /** Making sure of a raw image twice does nothing the second time. */
  lemma EnsureRawIdempotent(img: DiskImage, env: Env)
    requires Wellformed(img)
    ensures var r := EnsureRaw(img, env);
            EnsureRaw(r.0, env) == (r.0, [])
  {
  }

  // ---- strategy ----------------------------------------------------------

  /** The ways `carve_files` can extract a volume's files. */
  datatype Strategy = TskRecover | HfsExplorer | MountAndCopy | Unsupported

  /** The dispatch of `carve_files` on the lower-cased file system name. */
  function ChooseStrategy(fileSystem: string): Strategy {
    var fs := Lower(fileSystem);
    if Contains(fs, "fat") || fs in TskFileSystems then TskRecover
    else if fs == "hfs" then HfsExplorer
    else if fs == "udf" then MountAndCopy
    else Unsupported
  }

  /** The dispatch does not depend on letter case. */
  lemma ChooseStrategyIgnoresCase(fileSystem: string)
    ensures ChooseStrategy(Lower(fileSystem)) == ChooseStrategy(fileSystem)
  {
    LowerIdempotent(fileSystem);
  }

  /** Every name from the tsk list, and every name mentioning "fat" in
      any case, goes to tsk_recover; "hfs+" is such a name, so only plain
      HFS goes to HFS Explorer. */
  lemma TskNamesGoToTsk(fileSystem: string)
    requires Lower(fileSystem) in TskFileSystems || Contains(Lower(fileSystem), "fat")
    ensures ChooseStrategy(fileSystem) == TskRecover
  {
  }

  /** The argument list of `tsk_recover`. */
  function TskArgv(exportUnallocated: bool, raw: string, dest: string): (argv: seq<string>)
    ensures |argv| == 4 && argv[0] == "tsk_recover" && argv[2] == raw && argv[3] == dest
    ensures argv[1] == "-e" <==> exportUnallocated
    ensures argv[1] == "-a" <==> !exportUnallocated
  {
    ["tsk_recover", if exportUnallocated then "-e" else "-a", raw, dest]
  }

  /** Python's `list.insert(i, x)` for an index within the list. */
  function Insert<T>(xs: seq<T>, i: nat, x: T): (r: seq<T>)
    requires i <= |xs|
    ensures |r| == |xs| + 1 && r[i] == x
    ensures r[..i] == xs[..i] && r[i + 1..] == xs[i..]
  {
    xs[..i] + [x] + xs[i..]
  }

  /** The argument list of `unhfs`, with the AppleDouble resource-fork
      option inserted when asked for. */
  function UnhfsArgv(bin: string, resforks: bool, dest: string, raw: string): seq<string> {
    var cmd := ["bash", bin, "-v", "-o", dest, raw];
    if resforks then Insert(Insert(cmd, 3, "-resforks"), 4, "APPLEDOUBLE") else cmd
  }

  /** The resource-fork pair sits right after "-v" and removing it gives
      back the plain command; without it the command has no "-resforks". */
  lemma UnhfsArgvShape(bin: string, dest: string, raw: string)
    ensures var plain := UnhfsArgv(bin, false, dest, raw);
            var forks := UnhfsArgv(bin, true, dest, raw);
            && plain == ["bash", bin, "-v", "-o", dest, raw]
            && forks[3] == "-resforks" && forks[4] == "APPLEDOUBLE"
            && forks[..3] + forks[5..] == plain
            && forks == ["bash", bin, "-v", "-resforks", "APPLEDOUBLE", "-o", dest, raw]
  {
    var cmd := ["bash", bin, "-v", "-o", dest, raw];
    var once := Insert(cmd, 3, "-resforks");
    assert once == ["bash", bin, "-v", "-resforks", "-o", dest, raw];
    var twice := Insert(once, 4, "APPLEDOUBLE");
    assert twice == ["bash", bin, "-v", "-resforks", "APPLEDOUBLE", "-o", dest, raw];
    assert twice[..3] + twice[5..] == cmd;
  }

  lemma UnhfsResforksIff(bin: string, resforks: bool, dest: string, raw: string)
    requires bin != "-resforks" && dest != "-resforks" && raw != "-resforks"
    ensures "-resforks" in UnhfsArgv(bin, resforks, dest, raw) <==> resforks
  {
    UnhfsArgvShape(bin, dest, raw);
  }

  /** The argument list of `fiwalk`. An image never converted passes None,
      which the subprocess call rejects with TypeError. */
  function FiwalkArgv(dfxml: string, raw: Option<string>): (r: Result<seq<string>>)
    ensures r.Ok? <==> raw.Some?
    ensures r.Ok? ==> r.value == ["fiwalk", "-X", dfxml, raw.value]
  {
    match raw
    case None => Err(TypeError)
    case Some(path) => Ok(["fiwalk", "-X", dfxml, path])
  }

  // ---- carving one volume ------------------------------------------------

  /** `carve_files_with_tsk_recover`: convert if needed, write the disk's
      DFXML with fiwalk if none is recorded yet, run tsk_recover, fix the
      permissions and restore the dates from the disk's DFXML. */
  function TskPlan(img: DiskImage, env: Env, dest: string, exportUnallocated: bool, dfxml: string)
    : (r: (DiskImage, seq<Command>))
    requires Wellformed(img)
    ensures Wellformed(r.0) && r.0.raw.Some? && r.0.diskDfxml.Some?
  {
    var (img1, convert) := EnsureRaw(img, env);
    var raw := img1.raw.value;
    var (img2, walk) :=
      if Truthy(img1.diskDfxml) then (img1, [])
      else (img1.(diskDfxml := Some(dfxml)), [Run(["fiwalk", "-X", dfxml, raw])]);
    (img2,
     convert + walk
     + [Run(TskArgv(exportUnallocated, raw, dest)), SetPermissions(dest),
        RestoreDates(dest, img2.diskDfxml.value)])
  }

  /** `carve_files_with_hfs_explorer` with its default of writing the
      volume's DFXML from the carved directory. */
  function HfsPlan(img: DiskImage, env: Env, dest: string, resforks: bool, dfxml: string)
    : (r: (DiskImage, seq<Command>))
    requires Wellformed(img)
    ensures Wellformed(r.0) && r.0.raw.Some? && r.0.diskDfxml == img.diskDfxml
  {
    var (img1, convert) := EnsureRaw(img, env);
    (img1,
     convert
     + [Run(UnhfsArgv(img1.unhfsBin, resforks, dest, img1.raw.value)), SetPermissions(dest),
        WalkToDfxml(dest, dfxml)])
  }

  function MountLine(raw: string): string {
    "sudo mount -t udf -o loop '" + raw + "' " + UdfMount
  }

  const UmountLine: string := "sudo umount " + UdfMount

  /** `mount_disk_image_and_copy_files` with its UDF default: mount, copy
      the mounted tree over a fresh destination, unmount, fix the
      permissions and write the volume's DFXML. */
  function MountPlan(img: DiskImage, env: Env, dest: string, dfxml: string)
    : (r: (DiskImage, seq<Command>))
    requires Wellformed(img)
    ensures Wellformed(r.0) && r.0.raw.Some? && r.0.diskDfxml == img.diskDfxml
  {
    var (img1, convert) := EnsureRaw(img, env);
    (img1,
     convert
     + [Shell(MountLine(img1.raw.value)), RemoveTreeIfDir(dest), CopyTree(UdfMount, dest),
        Shell(UmountLine), SetPermissions(dest), WalkToDfxml(dest, dfxml)])
  }

  /** The steps of strategy `st`; an unsupported file system is only
      logged. */
  function StrategyPlan(
    st: Strategy, img: DiskImage, env: Env, dest: string,
    exportUnallocated: bool, resforks: bool, diskDfxml: string, volumeDfxml: string)
    : (r: (DiskImage, seq<Command>))
    requires Wellformed(img)
    ensures Wellformed(r.0)
    ensures r.0.path == img.path && r.0.identifier == img.identifier && r.0.unhfsBin == img.unhfsBin
    ensures st == Unsupported <==> r.1 == []
    ensures st == Unsupported ==> r.0 == img
  {
    match st
    case TskRecover => TskPlan(img, env, dest, exportUnallocated, diskDfxml)
    case HfsExplorer => HfsPlan(img, env, dest, resforks, volumeDfxml)
    case MountAndCopy => MountPlan(img, env, dest, volumeDfxml)
    case Unsupported => (img, [])
  }

  /** `carve_files`: make the destination, run the chosen strategy (or
      only log for an unknown file system), then remove the destination
      if nothing landed in it. The commands start exactly the tool the
      dispatch chose, once, and no other; the UDF mount is unmounted as
      many times as it is mounted. */
  function CarveFiles(
    img: DiskImage, env: Env, fileSystem: string, dest: string,
    exportUnallocated: bool, resforks: bool, diskDfxml: string, volumeDfxml: string)
    : (r: (DiskImage, seq<Command>))
    requires Wellformed(img)
    ensures Wellformed(r.0)
    ensures r.0.path == img.path && r.0.identifier == img.identifier && r.0.unhfsBin == img.unhfsBin
    ensures |r.1| >= 2 && r.1[0] == MakeDirsIfMissing(dest) && r.1[|r.1| - 1] == RemoveIfEmpty(dest)
    ensures ChooseStrategy(fileSystem) == Unsupported <==> r.1 == [MakeDirsIfMissing(dest), RemoveIfEmpty(dest)]
    ensures ChooseStrategy(fileSystem) == Unsupported ==> r.0 == img
    ensures forall s :: s != Unsupported ==> Count(r.1, s) == (if ChooseStrategy(fileSystem) == s then 1 else 0)
    ensures Unmounts(r.1) == Count(r.1, MountAndCopy)
  {
    var st := ChooseStrategy(fileSystem);
    var p := StrategyPlan(st, img, env, dest, exportUnallocated, resforks, diskDfxml, volumeDfxml);
    PlanCounts(st, img, env, dest, exportUnallocated, resforks, diskDfxml, volumeDfxml);
    FramedPlanCounts(st, p.1, dest);
    (p.0, [MakeDirsIfMissing(dest)] + p.1 + [RemoveIfEmpty(dest)])
  }

  // ---- which tools run ---------------------------------------------------

  /** The carving tool a command starts, if it starts one. */
  function ToolOf(c: Command): Strategy {
    match c
    case Run(argv) =>
      if |argv| > 0 && argv[0] == "tsk_recover" then TskRecover
      else if |argv| > 0 && argv[0] == "bash" then HfsExplorer
      else Unsupported
    case Shell(line) => if StartsWith(line, "sudo mount ") then MountAndCopy else Unsupported
    case _ => Unsupported
  }

  /** How many commands start tool `s`. */
  function Count(cmds: seq<Command>, s: Strategy): nat
    decreases |cmds|
  {
    if |cmds| == 0 then 0
    else Count(cmds[..|cmds| - 1], s) + (if ToolOf(cmds[|cmds| - 1]) == s then 1 else 0)
  }

  lemma {:induction false} CountConcat(a: seq<Command>, b: seq<Command>, s: Strategy)
    ensures Count(a + b, s) == Count(a, s) + Count(b, s)
    decreases |b|
  {
    if |b| == 0 {
      assert a + b == a;
    } else {
      CountConcat(a, b[..|b| - 1], s);
      assert (a + b)[..|a + b| - 1] == a + b[..|b| - 1];
    }
  }

  /** How many commands unmount the UDF mount point. */
  function Unmounts(cmds: seq<Command>): nat
    decreases |cmds|
  {
    if |cmds| == 0 then 0
    else Unmounts(cmds[..|cmds| - 1]) + (if cmds[|cmds| - 1] == Shell(UmountLine) then 1 else 0)
  }

  lemma {:induction false} UnmountsConcat(a: seq<Command>, b: seq<Command>)
    ensures Unmounts(a + b) == Unmounts(a) + Unmounts(b)
    decreases |b|
  {
    if |b| == 0 {
      assert a + b == a;
    } else {
      UnmountsConcat(a, b[..|b| - 1]);
      assert (a + b)[..|a + b| - 1] == a + b[..|b| - 1];
    }
  }

  /** A one-command list. */
  lemma CountOne(c: Command, s: Strategy)
    ensures Count([c], s) == (if ToolOf(c) == s then 1 else 0)
    ensures Unmounts([c]) == (if c == Shell(UmountLine) then 1 else 0)
  {
    assert [c][..0] == [];
  }

  /** Counting over a list of commands none of which starts a tool or
      unmounts. */
  lemma {:induction false} CountQuiet(cmds: seq<Command>, s: Strategy)
    requires s != Unsupported
    requires forall i :: 0 <= i < |cmds| ==> ToolOf(cmds[i]) == Unsupported && cmds[i] != Shell(UmountLine)
    ensures Count(cmds, s) == 0 && Unmounts(cmds) == 0
    decreases |cmds|
  {
    if |cmds| > 0 {
      CountQuiet(cmds[..|cmds| - 1], s);
    }
  }

  /** The commands that frame every plan start no tool. */
  lemma FrameQuiet(dest: string, s: Strategy)
    requires s != Unsupported
    ensures Count([MakeDirsIfMissing(dest)], s) == 0 && Unmounts([MakeDirsIfMissing(dest)]) == 0
    ensures Count([RemoveIfEmpty(dest)], s) == 0 && Unmounts([RemoveIfEmpty(dest)]) == 0
  {
    CountOne(MakeDirsIfMissing(dest), s);
    CountOne(RemoveIfEmpty(dest), s);
  }

  /** A conversion starts no carving tool. */
  lemma ConvertQuiet(img: DiskImage, env: Env, s: Strategy)
    requires Wellformed(img) && s != Unsupported
    ensures Count(EnsureRaw(img, env).1, s) == 0 && Unmounts(EnsureRaw(img, env).1) == 0
  {
    var cmds := EnsureRaw(img, env).1;
    if |cmds| == 0 {
    } else {
      assert |cmds| == 3;
      assert cmds[0].Run? && cmds[0].argv[0] == "ewfexport";
      assert cmds[1].Rename? && cmds[2].Rename?;
      Count3(cmds[0], cmds[1], cmds[2], s);
      assert cmds == [cmds[0], cmds[1], cmds[2]];
    }
  }

  lemma TskPlanCount(img: DiskImage, env: Env, dest: string, exportUnallocated: bool,
                     dfxml: string, s: Strategy)
    requires Wellformed(img) && s != Unsupported
    ensures var p := TskPlan(img, env, dest, exportUnallocated, dfxml).1;
            Count(p, s) == (if s == TskRecover then 1 else 0) && Unmounts(p) == 0
  {
    var p := TskPlan(img, env, dest, exportUnallocated, dfxml);
    var (img1, convert) := EnsureRaw(img, env);
    ConvertQuiet(img, env, s);
    var raw := img1.raw.value;
    var walk: seq<Command> :=
      if Truthy(img1.diskDfxml) then [] else [Run(["fiwalk", "-X", dfxml, raw])];
    var tail := [Run(TskArgv(exportUnallocated, raw, dest)), SetPermissions(dest),
                 RestoreDates(dest, p.0.diskDfxml.value)];
    assert p.1 == convert + walk + tail;
    if |walk| > 0 {
      FiwalkCount(dfxml, raw, s);
      assert walk == [Run(["fiwalk", "-X", dfxml, raw])];
    }
    TskTailCount(exportUnallocated, raw, dest, p.0.diskDfxml.value, s);
    CountThree(convert, walk, tail, s);
  }

  lemma FiwalkCount(dfxml: string, raw: string, s: Strategy)
    requires s != Unsupported
    ensures Count([Run(["fiwalk", "-X", dfxml, raw])], s) == 0
    ensures Unmounts([Run(["fiwalk", "-X", dfxml, raw])]) == 0
  {
    CountOne(Run(["fiwalk", "-X", dfxml, raw]), s);
  }

  lemma TskTailCount(exportUnallocated: bool, raw: string, dest: string, d: string, s: Strategy)
    requires s != Unsupported
    ensures var tail := [Run(TskArgv(exportUnallocated, raw, dest)), SetPermissions(dest), RestoreDates(dest, d)];
            Count(tail, s) == (if s == TskRecover then 1 else 0) && Unmounts(tail) == 0
  {
    Count3(Run(TskArgv(exportUnallocated, raw, dest)), SetPermissions(dest), RestoreDates(dest, d), s);
  }

  lemma HfsPlanCount(img: DiskImage, env: Env, dest: string, resforks: bool, dfxml: string,
                     s: Strategy)
    requires Wellformed(img) && s != Unsupported
    ensures var p := HfsPlan(img, env, dest, resforks, dfxml).1;
            Count(p, s) == (if s == HfsExplorer then 1 else 0) && Unmounts(p) == 0
  {
    var p := HfsPlan(img, env, dest, resforks, dfxml);
    var (img1, convert) := EnsureRaw(img, env);
    ConvertQuiet(img, env, s);
    var tail := [Run(UnhfsArgv(img1.unhfsBin, resforks, dest, img1.raw.value)),
                 SetPermissions(dest), WalkToDfxml(dest, dfxml)];
    assert p.1 == convert + tail;
    UnhfsArgvShape(img1.unhfsBin, dest, img1.raw.value);
    Count3(tail[0], tail[1], tail[2], s);
    assert tail == [tail[0], tail[1], tail[2]];
    CountConcat(convert, tail, s);
    UnmountsConcat(convert, tail);
  }

  lemma MountPlanCount(img: DiskImage, env: Env, dest: string, dfxml: string, s: Strategy)
    requires Wellformed(img) && s != Unsupported
    ensures var p := MountPlan(img, env, dest, dfxml).1;
            Count(p, s) == (if s == MountAndCopy then 1 else 0) && Unmounts(p) == 1
  {
    var p := MountPlan(img, env, dest, dfxml);
    var (img1, convert) := EnsureRaw(img, env);
    ConvertQuiet(img, env, s);
    var raw := img1.raw.value;
    var tail := [Shell(MountLine(raw)), RemoveTreeIfDir(dest), CopyTree(UdfMount, dest),
                 Shell(UmountLine), SetPermissions(dest), WalkToDfxml(dest, dfxml)];
    assert p.1 == convert + tail;
    assert Count(tail, s) == (if s == MountAndCopy then 1 else 0) && Unmounts(tail) == 1 by {
      MountStepsCount(raw, dest, dfxml, s);
    }
    CountConcat(convert, tail, s);
    UnmountsConcat(convert, tail);
  }

  lemma MountStepsCount(raw: string, dest: string, dfxml: string, s: Strategy)
    requires s != Unsupported
    ensures var tail := [Shell(MountLine(raw)), RemoveTreeIfDir(dest), CopyTree(UdfMount, dest),
                         Shell(UmountLine), SetPermissions(dest), WalkToDfxml(dest, dfxml)];
            Count(tail, s) == (if s == MountAndCopy then 1 else 0) && Unmounts(tail) == 1
  {
    assert StartsWith(MountLine(raw), "sudo mount ");
    assert MountLine(raw) != UmountLine by {
      assert MountLine(raw)[5] == 'm' && UmountLine[5] == 'u';
    }
    assert !StartsWith(UmountLine, "sudo mount ") by {
      assert UmountLine[5] == 'u';
    }
    Count6(Shell(MountLine(raw)), RemoveTreeIfDir(dest), CopyTree(UdfMount, dest),
           Shell(UmountLine), SetPermissions(dest), WalkToDfxml(dest, dfxml), s);
  }

  /** Each strategy's steps start its own tool once and no other. */
  lemma StrategyPlanCount(
    st: Strategy, img: DiskImage, env: Env, dest: string, exportUnallocated: bool,
    resforks: bool, diskDfxml: string, volumeDfxml: string, s: Strategy)
    requires Wellformed(img) && s != Unsupported
    ensures var p := StrategyPlan(st, img, env, dest, exportUnallocated, resforks,
                                  diskDfxml, volumeDfxml).1;
            && Count(p, s) == (if st == s then 1 else 0)
            && Unmounts(p) == (if st == MountAndCopy then 1 else 0)
  {
    match st
    case TskRecover => TskPlanCount(img, env, dest, exportUnallocated, diskDfxml, s);
    case HfsExplorer => HfsPlanCount(img, env, dest, resforks, volumeDfxml, s);
    case MountAndCopy => MountPlanCount(img, env, dest, volumeDfxml, s);
    case Unsupported =>
  }

  /** `StrategyPlanCount` for every tool at once. */
  lemma PlanCounts(
    st: Strategy, img: DiskImage, env: Env, dest: string, exportUnallocated: bool,
    resforks: bool, diskDfxml: string, volumeDfxml: string)
    requires Wellformed(img)
    ensures var p := StrategyPlan(st, img, env, dest, exportUnallocated, resforks,
                                  diskDfxml, volumeDfxml).1;
            && (forall s :: s != Unsupported ==> Count(p, s) == (if st == s then 1 else 0))
            && Unmounts(p) == (if st == MountAndCopy then 1 else 0)
  {
    forall s | s != Unsupported
      ensures Count(StrategyPlan(st, img, env, dest, exportUnallocated, resforks, diskDfxml, volumeDfxml).1, s)
              == (if st == s then 1 else 0)
    {
      StrategyPlanCount(st, img, env, dest, exportUnallocated, resforks, diskDfxml, volumeDfxml, s);
    }
    StrategyPlanCount(st, img, env, dest, exportUnallocated, resforks, diskDfxml, volumeDfxml, MountAndCopy);
  }

  /** Quiet first and last commands add nothing to the counts. */
  lemma FramedCount(body: seq<Command>, dest: string, s: Strategy)
    requires s != Unsupported
    ensures var cmds := [MakeDirsIfMissing(dest)] + body + [RemoveIfEmpty(dest)];
            Count(cmds, s) == Count(body, s) && Unmounts(cmds) == Unmounts(body)
  {
    FrameQuiet(dest, s);
    CountConcat([MakeDirsIfMissing(dest)], body, s);
    CountConcat([MakeDirsIfMissing(dest)] + body, [RemoveIfEmpty(dest)], s);
    UnmountsConcat([MakeDirsIfMissing(dest)], body);
    UnmountsConcat([MakeDirsIfMissing(dest)] + body, [RemoveIfEmpty(dest)]);
  }

  /** Framing a plan that starts tool `st` once keeps it so, and keeps
      every mount undone. */
  lemma FramedPlanCounts(st: Strategy, body: seq<Command>, dest: string)
    requires forall s :: s != Unsupported ==> Count(body, s) == (if st == s then 1 else 0)
    requires Unmounts(body) == (if st == MountAndCopy then 1 else 0)
    ensures var cmds := [MakeDirsIfMissing(dest)] + body + [RemoveIfEmpty(dest)];
            && (forall s :: s != Unsupported ==> Count(cmds, s) == (if st == s then 1 else 0))
            && Unmounts(cmds) == Count(cmds, MountAndCopy)
  {
    forall s | s != Unsupported
      ensures Count([MakeDirsIfMissing(dest)] + body + [RemoveIfEmpty(dest)], s) == (if st == s then 1 else 0)
    {
      FramedCount(body, dest, s);
    }
    FramedCount(body, dest, MountAndCopy);
  }

  function Tally(c: Command, s: Strategy): nat {
    if ToolOf(c) == s then 1 else 0
  }

  function UnmountTally(c: Command): nat {
    if c == Shell(UmountLine) then 1 else 0
  }

  lemma Count3(a: Command, b: Command, c: Command, s: Strategy)
    ensures Count([a, b, c], s) == Tally(a, s) + Tally(b, s) + Tally(c, s)
    ensures Unmounts([a, b, c]) == UnmountTally(a) + UnmountTally(b) + UnmountTally(c)
  {
    assert [a, b, c][..2] == [a, b];
    assert [a, b][..1] == [a];
    CountOne(a, s);
  }

  lemma Count6(a: Command, b: Command, c: Command, d: Command, e: Command, f: Command, s: Strategy)
    ensures Count([a, b, c, d, e, f], s)
            == Tally(a, s) + Tally(b, s) + Tally(c, s) + Tally(d, s) + Tally(e, s) + Tally(f, s)
    ensures Unmounts([a, b, c, d, e, f])
            == UnmountTally(a) + UnmountTally(b) + UnmountTally(c)
               + UnmountTally(d) + UnmountTally(e) + UnmountTally(f)
  {
    assert [a, b, c, d, e, f] == [a, b, c] + [d, e, f];
    Count3(a, b, c, s);
    Count3(d, e, f, s);
    CountConcat([a, b, c], [d, e, f], s);
    UnmountsConcat([a, b, c], [d, e, f]);
  }
  // ---- test tables -------------------------------------------------------

  /** The dispatch table of the toolkit's tests: FAT in any case, NTFS,
      ISO9660 and HFS+ go to tsk_recover. */
  lemma TskDispatchTable()
    ensures ChooseStrategy("fat") == TskRecover && ChooseStrategy("fat12") == TskRecover
    ensures ChooseStrategy("FAT") == TskRecover && ChooseStrategy("FAT32") == TskRecover
    ensures ChooseStrategy("NTFS") == TskRecover && ChooseStrategy("ISO9660") == TskRecover
    ensures ChooseStrategy("hfs+") == TskRecover
  {
    assert Lower("fat") == "fat" && Lower("FAT") == "fat";
    assert Lower("fat12") == "fat12" && Lower("FAT32") == "fat32";
    assert Lower("NTFS") == "ntfs" && Lower("ISO9660") == "iso9660" && Lower("hfs+") == "hfs+";
    ContainsAt("fat", "fat", 0);
    ContainsAt("fat12", "fat", 0);
    ContainsAt("fat32", "fat", 0);
  }

  /** HFS in either case goes to unhfs. */
  lemma HfsDispatchTable()
    ensures ChooseStrategy("HFS") == HfsExplorer && ChooseStrategy("hfs") == HfsExplorer
  {
    assert Lower("HFS") == "hfs" && Lower("hfs") == "hfs";
    MissingChar("hfs", "fat", 1);
  }

  /** UDF in either case is mounted and copied. */
  lemma UdfDispatchTable()
    ensures ChooseStrategy("udf") == MountAndCopy && ChooseStrategy("UDF") == MountAndCopy
  {
    assert Lower("UDF") == "udf" && Lower("udf") == "udf";
    MissingChar("udf", "fat", 1);
  }

  /** "not-real" and the empty name go nowhere. */
  lemma UnsupportedDispatchTable()
    ensures ChooseStrategy("not-real") == Unsupported && ChooseStrategy("") == Unsupported
  {
    assert Lower("not-real") == "not-real" && Lower("") == "";
    MissingChar("not-real", "fat", 0);
    MissingChar("", "fat", 0);
  }

  /** The EWF table of the toolkit's tests, on the extension with its
      dot. */
  lemma EwfTable()
    ensures IsEwf(".e00") && IsEwf(".E00") && IsEwf(".e01") && IsEwf(".E01")
    ensures IsEwf(".ewf") && IsEwf(".EWF") && IsEwf(".ex0") && IsEwf(".EX0")
  {
    assert Lower(".E00") == ".e00" && Lower(".e00") == ".e00";
    assert Lower(".E01") == ".e01" && Lower(".e01") == ".e01";
    assert Lower(".EWF") == ".ewf" && Lower(".ewf") == ".ewf";
    assert Lower(".EX0") == ".ex0" && Lower(".ex0") == ".ex0";
    assert EndsWith(".e00", EwfExtensions[0]) && EndsWith(".e01", EwfExtensions[1]);
    assert EndsWith(".ewf", EwfExtensions[2]) && EndsWith(".ex0", EwfExtensions[3]);
  }

  lemma NotEwfTable()
    ensures !IsEwf(".dd") && !IsEwf(".iso") && !IsEwf(".img") && !IsEwf(".DD")
  {
    IsEwfByLastThree(".dd");
    IsEwfByLastThree(".iso");
    IsEwfByLastThree(".img");
    IsEwfByLastThree(".DD");
    // every EWF extension starts with 'e'
    assert Lower(".dd"[0..])[0] == '.' && Lower(".DD"[0..])[0] == '.';
    assert Lower(".iso"[1..])[0] == 'i' && Lower(".img"[1..])[0] == 'i';
  }

  // ---- every volume ------------------------------------------------------

  /** The arguments `carve_files` receives for one volume. */
  datatype CarveRequest = CarveRequest(
    fileSystem: string,
    dest: string,
    exportUnallocated: bool,
    resforks: bool,
    diskDfxml: string,
    volumeDfxml: string)

  /** Where the whole disk's DFXML goes: the DFXML directory if one is
      given, else the package directory. */
  function DiskDfxmlPath(env: Env, dfxmlDir: Option<string>): string {
    if Truthy(dfxmlDir) then PathJoin(dfxmlDir.value, "dfxml.xml")
    else PathJoin(env.packageDir, "dfxml.xml")
  }

  /** The call for one volume dict. The dict's "output_directory_name" is
      read first, then the DFXML directory is joined (a None directory is
      a TypeError), then "file_system" is read. `resforks` is what
      reaches `carve_files`. */
  function VolumeRequest(v: Volume, dest: string, exportUnallocated: bool, resforks: bool,
                         diskDfxml: string, dfxmlDir: Option<string>): (r: Result<CarveRequest>)
    ensures r.Ok? <==> v.outputDirectoryName.Some? && dfxmlDir.Some? && v.fileSystem.Some?
    ensures r.Ok? ==>
              && r.value.fileSystem == v.fileSystem.value
              && r.value.dest == PathJoin(dest, v.outputDirectoryName.value)
              && r.value.resforks == resforks
              && r.value.diskDfxml == diskDfxml
    ensures v.outputDirectoryName.None? ==> r == Err(KeyError("output_directory_name"))
  {
    match v.outputDirectoryName
    case None => Err(KeyError("output_directory_name"))
    case Some(dirName) =>
      match dfxmlDir
      case None => Err(TypeError)
      case Some(dir) =>
        match v.fileSystem
        case None => Err(KeyError("file_system"))
        case Some(fs) =>
          Ok(CarveRequest(fs, PathJoin(dest, dirName), exportUnallocated, resforks, diskDfxml,
                          PathJoin(dir, "dfxml_" + dirName + ".xml")))
  }

  /** The calls for all volumes, in order; the first failing volume stops
      the loop. */
  function VolumeRequests(vs: seq<Volume>, dest: string, exportUnallocated: bool, resforks: bool,
                          diskDfxml: string, dfxmlDir: Option<string>): (r: Result<seq<CarveRequest>>)
    ensures r.Ok? ==> |r.value| == |vs|
    ensures r.Ok? ==> forall k :: 0 <= k < |vs| ==>
              VolumeRequest(vs[k], dest, exportUnallocated, resforks, diskDfxml, dfxmlDir)
                == Ok(r.value[k])
    decreases |vs|
  {
    if |vs| == 0 then Ok([])
    else
      var first :- VolumeRequest(vs[0], dest, exportUnallocated, resforks, diskDfxml, dfxmlDir);
      var rest :- VolumeRequests(vs[1..], dest, exportUnallocated, resforks, diskDfxml, dfxmlDir);
      Ok([first] + rest)
  }

  /** The requests succeed exactly when every volume's request does. */
  lemma {:induction false} VolumeRequestsOkIff(vs: seq<Volume>, dest: string, exportUnallocated: bool,
                                               resforks: bool, diskDfxml: string,
                                               dfxmlDir: Option<string>)
    ensures VolumeRequests(vs, dest, exportUnallocated, resforks, diskDfxml, dfxmlDir).Ok?
            <==> forall k :: 0 <= k < |vs| ==>
                   VolumeRequest(vs[k], dest, exportUnallocated, resforks, diskDfxml, dfxmlDir).Ok?
    decreases |vs|
  {
    if |vs| > 0 {
      VolumeRequestsOkIff(vs[1..], dest, exportUnallocated, resforks, diskDfxml, dfxmlDir);
      assert forall k :: 1 <= k < |vs| ==> vs[1..][k - 1] == vs[k];
    }
  }

  /** Carving each requested volume in turn; each output directory is
      created first. */
  function CarveVolumes(img: DiskImage, env: Env, reqs: seq<CarveRequest>)
    : (r: (DiskImage, seq<Command>))
    requires Wellformed(img)
    ensures Wellformed(r.0)
    decreases |reqs|
  {
    if |reqs| == 0 then (img, [])
    else
      var q := reqs[0];
      var one := CarveFiles(img, env, q.fileSystem, q.dest, q.exportUnallocated, q.resforks,
                            q.diskDfxml, q.volumeDfxml);
      var rest := CarveVolumes(one.0, env, reqs[1..]);
      (rest.0, [MakeDirs(q.dest)] + one.1 + rest.1)
  }

  /** How many requests pick strategy `s`. */
  function Picks(reqs: seq<CarveRequest>, s: Strategy): nat
    decreases |reqs|
  {
    if |reqs| == 0 then 0
    else (if ChooseStrategy(reqs[0].fileSystem) == s then 1 else 0) + Picks(reqs[1..], s)
  }

  lemma CountThree(a: seq<Command>, b: seq<Command>, c: seq<Command>, s: Strategy)
    ensures Count(a + b + c, s) == Count(a, s) + Count(b, s) + Count(c, s)
    ensures Unmounts(a + b + c) == Unmounts(a) + Unmounts(b) + Unmounts(c)
  {
    CountConcat(a, b, s);
    CountConcat(a + b, c, s);
    UnmountsConcat(a, b);
    UnmountsConcat(a + b, c);
  }

  /** Over all volumes, each tool runs once per volume whose file system
      picks it. */
  lemma {:induction false} CarveVolumesCount(img: DiskImage, env: Env, reqs: seq<CarveRequest>, s: Strategy)
    requires Wellformed(img) && s != Unsupported
    ensures Count(CarveVolumes(img, env, reqs).1, s) == Picks(reqs, s)
    decreases |reqs|
  {
    if |reqs| > 0 {
      var q := reqs[0];
      var one := CarveFiles(img, env, q.fileSystem, q.dest, q.exportUnallocated, q.resforks,
                            q.diskDfxml, q.volumeDfxml);
      var rest := CarveVolumes(one.0, env, reqs[1..]);
      CarveVolumesCount(one.0, env, reqs[1..], s);
      CountOne(MakeDirs(q.dest), s);
      CountThree([MakeDirs(q.dest)], one.1, rest.1, s);
    }
  }

  /** Over all volumes, every mount is unmounted. */
  lemma {:induction false} CarveVolumesUnmounts(img: DiskImage, env: Env, reqs: seq<CarveRequest>)
    requires Wellformed(img)
    ensures Unmounts(CarveVolumes(img, env, reqs).1) == Count(CarveVolumes(img, env, reqs).1, MountAndCopy)
    decreases |reqs|
  {
    if |reqs| > 0 {
      var q := reqs[0];
      var one := CarveFiles(img, env, q.fileSystem, q.dest, q.exportUnallocated, q.resforks,
                            q.diskDfxml, q.volumeDfxml);
      var rest := CarveVolumes(one.0, env, reqs[1..]);
      CarveVolumesUnmounts(one.0, env, reqs[1..]);
      CountOne(MakeDirs(q.dest), MountAndCopy);
      CountThree([MakeDirs(q.dest)], one.1, rest.1, MountAndCopy);
    }
  }

  /** What `carve_files_from_all_volumes` leaves behind: the updated
      image, the commands run, the volumes it returns and the calls it
      made to `carve_files`. */
  datatype AllVolumes = AllVolumes(
    img: DiskImage, commands: seq<Command>, volumes: seq<Volume>, calls: seq<CarveRequest>)

  /** The steps of `carve_files_from_all_volumes` before the volumes are
      read: disktype runs (on a raw image, converting first) when the image
      holds no output yet, and fiwalk writes the whole-disk DFXML. */
  datatype Prepared = Prepared(img: DiskImage, commands: seq<Command>, lines: seq<string>)

  /** `stored` holds the lines of the disktype output the image already
      has (none: disktype has not run) and `printed` the lines disktype
      prints when it is run here. Fiwalk needs a raw image, so an image
      whose stored output makes disktype unnecessary but which was never
      converted stops with TypeError. */
  function Prepare(img: DiskImage, env: Env, stored: seq<string>, printed: seq<string>,
                   dfxmlDir: Option<string>): (r: Result<Prepared>)
    requires Wellformed(img)
    ensures r.Ok? <==> |stored| == 0 || img.raw.Some?
    ensures r.Err? ==> r.error == TypeError
    ensures r.Ok? ==>
              && Wellformed(r.value.img)
              && r.value.img == img.(raw := r.value.img.raw, diskDfxml := Some(DiskDfxmlPath(env, dfxmlDir)))
              && r.value.lines == (if |stored| == 0 then printed else stored)
              && r.value.img.raw.Some?
              && |r.value.commands| > 0
              && r.value.commands[|r.value.commands| - 1]
                 == Run(["fiwalk", "-X", DiskDfxmlPath(env, dfxmlDir), r.value.img.raw.value])
  {
    var (img1, pre, lines) :=
      if |stored| == 0 then
        var c := EnsureRaw(img, env);
        (c.0, c.1 + [Run(["disktype", c.0.raw.value])], printed)
      else (img, [], stored);
    var diskDfxml := DiskDfxmlPath(env, dfxmlDir);
    var walk :- FiwalkArgv(diskDfxml, img1.raw);
    Ok(Prepared(img1.(diskDfxml := Some(diskDfxml)), pre + [Run(walk)], lines))
  }

  /** Preparing starts no carving tool and mounts nothing. */
  lemma PrepareQuiet(img: DiskImage, env: Env, stored: seq<string>, printed: seq<string>,
                     dfxmlDir: Option<string>, s: Strategy)
    requires Wellformed(img) && s != Unsupported
    requires Prepare(img, env, stored, printed, dfxmlDir).Ok?
    ensures var cmds := Prepare(img, env, stored, printed, dfxmlDir).value.commands;
            Count(cmds, s) == 0 && Unmounts(cmds) == 0
  {
    var p := Prepare(img, env, stored, printed, dfxmlDir).value;
    var walk := Run(["fiwalk", "-X", DiskDfxmlPath(env, dfxmlDir), p.img.raw.value]);
    CountOne(walk, s);
    if |stored| == 0 {
      var c := EnsureRaw(img, env);
      var disktype := Run(["disktype", c.0.raw.value]);
      ConvertQuiet(img, env, s);
      CountOne(disktype, s);
      assert p.commands == c.1 + [disktype] + [walk];
      CountConcat(c.1, [disktype], s);
      CountConcat(c.1 + [disktype], [walk], s);
      UnmountsConcat(c.1, [disktype]);
      UnmountsConcat(c.1 + [disktype], [walk]);
    } else {
      assert p.commands == [walk];
    }
  }

  /** `carve_files_from_all_volumes`. With `forward` false this is the
      code as written, whose calls to `carve_files` leave out
      `appledouble_resforks`; with `forward` true the flag is passed on.
      Empty disktype output ends the program with exit status 1. */
  function CarveAllVolumesWith(
    forward: bool, img: DiskImage, env: Env, stored: seq<string>, printed: seq<string>,
    dest: string, exportUnallocated: bool, resforks: bool, dfxmlDir: Option<string>)
    : (r: Result<AllVolumes>)
    requires Wellformed(img)
    ensures r.Ok? ==> Wellformed(r.value.img) && |r.value.calls| == |r.value.volumes|
    ensures r.Ok? ==> forall k :: 0 <= k < |r.value.calls| ==>
              && r.value.calls[k].resforks == (forward && resforks)
              && r.value.volumes[k].fileSystem.Some? && r.value.volumes[k].outputDirectoryName.Some?
              && r.value.calls[k].fileSystem == r.value.volumes[k].fileSystem.value
              && r.value.calls[k].dest == PathJoin(dest, r.value.volumes[k].outputDirectoryName.value)
    ensures r.Ok? ==>
              var p := Prepare(img, env, stored, printed, dfxmlDir);
              && p.Ok? && r.value.commands == p.value.commands + CarveVolumes(p.value.img, env, r.value.calls).1
              && GetVolumes(p.value.lines) == Ok(r.value.volumes)
  {
    var p :- Prepare(img, env, stored, printed, dfxmlDir);
    if |p.lines| == 0 then Err(SystemExit(1))
    else
      var diskDfxml := DiskDfxmlPath(env, dfxmlDir);
      var vs :- GetVolumes(p.lines);
      var calls :- VolumeRequests(vs, dest, exportUnallocated, forward && resforks, diskDfxml, dfxmlDir);
      var carved := CarveVolumes(p.img, env, calls);
      Ok(AllVolumes(carved.0, p.commands + carved.1, vs, calls))
  }

  /** The method as written. */
  function CarveAllVolumesAsWritten(
    img: DiskImage, env: Env, stored: seq<string>, printed: seq<string>,
    dest: string, exportUnallocated: bool, resforks: bool, dfxmlDir: Option<string>)
    : (r: Result<AllVolumes>)
    requires Wellformed(img)
    ensures r.Ok? ==> forall k :: 0 <= k < |r.value.calls| ==> !r.value.calls[k].resforks
  {
    CarveAllVolumesWith(false, img, env, stored, printed, dest, exportUnallocated, resforks, dfxmlDir)
  }

  /** As written, the resource-fork flag (default True) changes nothing:
      HFS volumes are never carved with AppleDouble resource forks. */
  lemma ResforksIgnoredAsWritten(
    img: DiskImage, env: Env, stored: seq<string>, printed: seq<string>,
    dest: string, exportUnallocated: bool, dfxmlDir: Option<string>)
    requires Wellformed(img)
    ensures CarveAllVolumesAsWritten(img, env, stored, printed, dest, exportUnallocated, true, dfxmlDir)
            == CarveAllVolumesAsWritten(img, env, stored, printed, dest, exportUnallocated, false, dfxmlDir)
  {
  }

  /** The method with the flag passed on to every `carve_files` call. */
  function CarveAllVolumes(
    img: DiskImage, env: Env, stored: seq<string>, printed: seq<string>,
    dest: string, exportUnallocated: bool, resforks: bool, dfxmlDir: Option<string>)
    : (r: Result<AllVolumes>)
    requires Wellformed(img)
    ensures r.Ok? ==> forall k :: 0 <= k < |r.value.calls| ==> r.value.calls[k].resforks == resforks
  {
    CarveAllVolumesWith(true, img, env, stored, printed, dest, exportUnallocated, resforks, dfxmlDir)
  }

  /** With the flag passed on, an HFS volume's unhfs command carries the
      resource-fork option exactly when it was asked for. */
  lemma HfsCallHonoursResforks(img: DiskImage, env: Env, q: CarveRequest)
    requires Wellformed(img) && ChooseStrategy(q.fileSystem) == HfsExplorer
    ensures var cmds := CarveFiles(img, env, q.fileSystem, q.dest, q.exportUnallocated, q.resforks,
                                   q.diskDfxml, q.volumeDfxml).1;
            var raw := EnsureRaw(img, env).0.raw.value;
            cmds[|cmds| - 4] == Run(UnhfsArgv(img.unhfsBin, q.resforks, q.dest, raw))
  {
  }

  /** The volumes returned are the ones read from the disktype text. */
  lemma CarveAllVolumesVolumes(
    img: DiskImage, env: Env, stored: seq<string>, printed: seq<string>,
    dest: string, exportUnallocated: bool, resforks: bool, dfxmlDir: Option<string>)
    requires Wellformed(img)
    ensures var r := CarveAllVolumes(img, env, stored, printed, dest, exportUnallocated, resforks, dfxmlDir);
            r.Ok? ==> r.value.volumes == GetVolumes(if |stored| == 0 then printed else stored).value
  {
    var r := CarveAllVolumes(img, env, stored, printed, dest, exportUnallocated, resforks, dfxmlDir);
    if r.Ok? {
      var p := Prepare(img, env, stored, printed, dfxmlDir).value;
      assert GetVolumes(p.lines) == Ok(r.value.volumes);
    }
  }

  /** One `carve_files` call per volume, in order, each with the volume's
      file system and a destination named after the volume. */
  lemma CarveAllVolumesCalls(
    img: DiskImage, env: Env, stored: seq<string>, printed: seq<string>,
    dest: string, exportUnallocated: bool, resforks: bool, dfxmlDir: Option<string>)
    requires Wellformed(img)
    ensures var r := CarveAllVolumes(img, env, stored, printed, dest, exportUnallocated, resforks, dfxmlDir);
            r.Ok? ==>
              forall k :: 0 <= k < |r.value.calls| ==>
                && r.value.volumes[k].fileSystem.Some? && r.value.volumes[k].outputDirectoryName.Some?
                && r.value.calls[k].fileSystem == r.value.volumes[k].fileSystem.value
                && r.value.calls[k].dest == PathJoin(dest, r.value.volumes[k].outputDirectoryName.value)
  {
  }

  /** Text without a "file system" line stops with KeyError, since its one
      volume has no output directory name (or, with a volume-name line,
      the scan itself fails on that key). */
  lemma NoFileSystemStops(
    img: DiskImage, env: Env, stored: seq<string>, printed: seq<string>,
    dest: string, exportUnallocated: bool, resforks: bool, dfxmlDir: Option<string>)
    requires Wellformed(img)
    ensures var lines := if |stored| == 0 then printed else stored;
            var r := CarveAllVolumes(img, env, stored, printed, dest, exportUnallocated, resforks, dfxmlDir);
            ((|stored| == 0 || img.raw.Some?) && |lines| > 0 && |FsNames(Kinds(lines))| == 0)
            ==> r == Err(KeyError("output_directory_name"))
  {
    var lines := if |stored| == 0 then printed else stored;
    if (|stored| == 0 || img.raw.Some?) && |lines| > 0 && |FsNames(Kinds(lines))| == 0 {
      GetVolumesSpec(lines);
      if GetVolumes(lines).Ok? {
        var vs := GetVolumes(lines).value;
        assert vs[0].outputDirectoryName.None?;
      }
    }
  }

  /** Disktype text that names at least one file system and has no
      volume-name line before the first of them is carved in full: one
      `carve_files` call per file system, in order. */
  lemma CarveAllVolumesSucceeds(
    img: DiskImage, env: Env, stored: seq<string>, printed: seq<string>,
    dest: string, exportUnallocated: bool, resforks: bool, dfxmlDir: Option<string>)
    requires Wellformed(img)
    requires |stored| == 0 || img.raw.Some?
    requires var lines := if |stored| == 0 then printed else stored;
             |lines| > 0 && |FsNames(Kinds(lines))| > 0 && !OrphanNameLine(Kinds(lines))
    requires dfxmlDir.Some?
    ensures var lines := if |stored| == 0 then printed else stored;
            var r := CarveAllVolumes(img, env, stored, printed, dest, exportUnallocated, resforks, dfxmlDir);
            && r.Ok?
            && |r.value.calls| == |FsNames(Kinds(lines))|
            && (forall k :: 0 <= k < |r.value.calls| ==> r.value.calls[k].fileSystem == FsNames(Kinds(lines))[k])
  {
    var lines := if |stored| == 0 then printed else stored;
    var names := FsNames(Kinds(lines));
    GetVolumesSpec(lines);
    var vs := GetVolumes(lines).value;
    var diskDfxml := DiskDfxmlPath(env, dfxmlDir);
    forall k | 0 <= k < |vs|
      ensures VolumeRequest(vs[k], dest, exportUnallocated, resforks, diskDfxml, dfxmlDir).Ok?
    {
      assert Started(vs[k], k + 1, names[k]);
    }
    VolumeRequestsOkIff(vs, dest, exportUnallocated, resforks, diskDfxml, dfxmlDir);
    var r := CarveAllVolumes(img, env, stored, printed, dest, exportUnallocated, resforks, dfxmlDir);
    assert r.Ok?;
    var calls := r.value.calls;
    CarveAllVolumesVolumes(img, env, stored, printed, dest, exportUnallocated, resforks, dfxmlDir);
    CarveAllVolumesCalls(img, env, stored, printed, dest, exportUnallocated, resforks, dfxmlDir);
    forall k | 0 <= k < |calls|
      ensures calls[k].fileSystem == names[k]
    {
      assert Started(vs[k], k + 1, names[k]);
    }
  }

  /** Over a whole run each tool starts once per volume whose file system
      picks it, and every mount is undone. */
  lemma CarveAllVolumesCount(
    img: DiskImage, env: Env, stored: seq<string>, printed: seq<string>,
    dest: string, exportUnallocated: bool, resforks: bool, dfxmlDir: Option<string>, s: Strategy)
    requires Wellformed(img) && s != Unsupported
    requires CarveAllVolumes(img, env, stored, printed, dest, exportUnallocated, resforks, dfxmlDir).Ok?
    ensures var r := CarveAllVolumes(img, env, stored, printed, dest, exportUnallocated, resforks, dfxmlDir).value;
            && Count(r.commands, s) == Picks(r.calls, s)
            && Unmounts(r.commands) == Count(r.commands, MountAndCopy)
  {
    var r := CarveAllVolumes(img, env, stored, printed, dest, exportUnallocated, resforks, dfxmlDir).value;
    var p := Prepare(img, env, stored, printed, dfxmlDir).value;
    var carved := CarveVolumes(p.img, env, r.calls).1;
    assert r.commands == p.commands + carved;
    PrepareQuiet(img, env, stored, printed, dfxmlDir, s);
    PrepareQuiet(img, env, stored, printed, dfxmlDir, MountAndCopy);
    CarveVolumesCount(p.img, env, r.calls, s);
    CarveVolumesUnmounts(p.img, env, r.calls);
    QuietPrefixCount(p.commands, carved, s);
  }

  /** Commands that start no tool and unmount nothing leave the counts of
      what follows them unchanged. */
  lemma QuietPrefixCount(pre: seq<Command>, rest: seq<Command>, s: Strategy)
    requires Count(pre, s) == 0 && Count(pre, MountAndCopy) == 0 && Unmounts(pre) == 0
    requires Unmounts(rest) == Count(rest, MountAndCopy)
    ensures Count(pre + rest, s) == Count(rest, s)
    ensures Unmounts(pre + rest) == Count(pre + rest, MountAndCopy)
  {
    CountConcat(pre, rest, s);
    CountConcat(pre, rest, MountAndCopy);
    UnmountsConcat(pre, rest);
  }
}
