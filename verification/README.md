# Disk Image Processor — a Dafny model of its core

The CCA Disk Image Processor turns a folder of disk images into archival
packages and description spreadsheets. This project models the decisions the
program takes. Every command the program runs is modelled as its argument list.

**Toolkit (`disk_image_toolkit`)**
- It reads the volumes from the output of `disktype`.
- It chooses a carving tool for each file system:
  - `tsk_recover` for the Sleuth Kit file systems;
  - `unhfs` for HFS;
  - mount and copy for UDF.
- It converts EWF images to raw images with `ewfexport`.
- It restores the modification dates of carved files from DFXML.

**Analyzer (`diskimageanalyzer.py`)**
- It sums the DFXML documents of each disk into one row: file count, byte total and date range.
- It writes that row together with the year statement, the extent statement, the file systems, the virus flag and the format list.

**Stand-alone scripts** (`diskimageprocessor.py`, Python 2.7, and `process_with_tsk_options.py`, Python 3)
- They pick disk images by suffix.
- They read the file system from `disktype`'s last "file system" line.
- They build `tsk_recover` commands, including the user's `-o`/`-i`/`-f` options.
- They describe each package with the same extent and date rules.

## Modules

| Module | What it holds |
|---|---|
| `Outcomes` | `Option`, `Result` and the Python exceptions that the code can raise (`KeyError`, `TypeError`, `IndexError`, `NameError`, `IOError`) |
| `PyStr` | Python string semantics: `strip`, `in`, `find`, `replace`, `lower`, `[:n]`, `join`, `str(int)` |
| `StrOrder` | Python's `<` on strings, and `min`/`max` over string lists |
| `Paths` | `os.path.basename`, `splitext` and `join` |
| `Sizes` | `human_readable_size`/`convert_size`, using exact integer arithmetic |
| `Timestamps` | proleptic Gregorian calendar, `strptime` on `%Y-%m-%dT%H:%M:%S`, and UTC epoch seconds |
| `Volumes` | `get_volumes_from_disktype` and `_format_volume_name` |
| `Dfxml` | DFXML file objects, which ones are counted, and the restore-date choice |
| `DfxmlStats` | `_parse_dfxml` and the date-range rule of the stand-alone script |
| `Carving` | `DiskImage`: `is_ewf`, `convert_to_raw`, the dispatch of `carve_files`, and the command lists |
| `Statements` | the year and extent statements and the format list shared by the spreadsheets |
| `Analysis` | `write_to_spreadsheet` of the analyzer |
| `TskOptions` | `process_with_tsk_options.py` |
| `Processor` | `diskimageprocessor.py` |

A subprocess, a rename or a directory creation is modelled as a `Command` value in an ordered list; nothing is performed.

**Inputs become parameters**
- The bytes `disktype` prints become a sequence of lines.
- A DFXML document becomes the sequence of its file objects.
- A CSV report becomes `Option<seq<seq<string>>>`, with `None` when it cannot be opened.
- The current time and the current year become plain parameters.

**Python 2 and Python 3 rounding differ**
- Python 3's `round` ties to even (`Sizes.HalfEven`). `util.py`, the analyzer and `process_with_tsk_options.py` use it.
- Python 2's `round` ties away from zero (`Sizes.HalfAwayFromZero`). `diskimageprocessor.py` uses it.

**Source defects and the `AsWritten` variants**

Where the source has a defect, the model keeps two definitions:
- one that follows the code as written (its name ends in `AsWritten`, or it takes a `corrected` flag);
- one with the evident intent.

The rest of the model uses the corrected one (see "## Findings").

**The stale `tool` variable**

In `diskimageprocessor.py`, a file-system line that names no known tool leaves `tool` as it was for the previous disk.
- Both readings keep this, because both branches of the code do it.
- `Processor.DescribeSipTool` states it.
- `Processor.DescribeSipWith` raises `NameError("tool")` for the first such disk.

## Model

| member | source | states |
|---|---|---|
| Sizes.RoundDiv | disk_image_toolkit/util.py:25 | `round(n/d)`: the result times `d` lies within half of `d` from `n`; a tie goes to the even quotient (Python 3) or away from zero (Python 2) |
| Sizes.UnitIndex | disk_image_toolkit/util.py:23 | the unit index is the largest `i` with `1024^i <= size` |
| Sizes.HumanReadableSize | disk_image_toolkit/util.py:18-28 | zero gives "0 bytes"; any other size succeeds exactly when it is below 1024^9, and otherwise raises IndexError on the unit table |
| Sizes.SizeTextReadsBack | disk_image_toolkit/util.py:18-28 | the text parses back into a count and a unit; the unit is the largest power of 1024 not above the size, and count times unit is within half a unit of the size |
| Sizes.SizeExamples | disk_image_toolkit/util.py:20-21 | 0 bytes gives "0 bytes"; 1048576 gives "1 MB" under both roundings |
| Sizes.RoundingModesDiffer | diskimageprocessor.py:44-54 | 2560 bytes is "2 KB" under Python 3 and "3 KB" under Python 2 |
| Timestamps.ParseIso | disk_image_toolkit/util.py:8 | `strptime` with `%Y-%m-%dT%H:%M:%S` succeeds only on a valid date and time in that layout, and reads the month and day fields back |
| Timestamps.TimeToInt | disk_image_toolkit/util.py:5-15 | `time_to_int` as intended: defined exactly for parsable texts; then the UTC epoch seconds of the parsed instant |
| Timestamps.TimeToIntAsWritten | disk_image_toolkit/util.py:5-15 | as written: the same seconds, and NameError("logger") exactly where the text does not parse |
| Timestamps.TimeToIntAgrees | disk_image_toolkit/util.py:7-15 | the written and intended conversions agree on every parsable text; the written one raises exactly where the intended one gives None |
| Timestamps.TimeToIntAsWrittenRaises | disk_image_toolkit/util.py:12-15 | the empty text raises NameError as written and gives None as intended |
| Timestamps.ParseFormat | disk_image_toolkit/util.py:8 | formatting any valid date and time and parsing the text back gives the same value |
| Timestamps.FormatParse | disk_image_toolkit/util.py:8 | a parsable text with a capital `T` is exactly the format of what it parses to |
| Timestamps.FormatOrder | disk_image_toolkit/util.py:8-11 | for formatted instants, string order is epoch order |
| Timestamps.TextOrderIsTimeOrder | disk_image_toolkit/util.py:5-11 | for parsable texts, Python's `<` on the texts agrees with `<` on their `time_to_int` values |
| Timestamps.TimeToIntOfFormat | disk_image_toolkit/util.py:5-11 | the text of a valid instant converts to that instant's epoch seconds |
| Timestamps.EpochStart | disk_image_toolkit/util.py:8-11 | 1970-01-01T00:00:00 UTC is second 0 |
| Timestamps.BillionSeconds | disk_image_toolkit/util.py:8-11 | "2001-09-09T01:46:40" is second 1000000000 |
| Timestamps.NoLeapDay2023 | disk_image_toolkit/util.py:8 | 29 February of a common year does not parse |
| Timestamps.DaysBeforeNextYear | disk_image_toolkit/util.py:11 | the day count before year `y+1` is the count before `y` plus the length of `y` |
| Volumes.FormatVolumeNameSpec | disk_image_toolkit/disk_image.py:211-220 | the formatted name keeps exactly the alphanumeric, space, `-` and `_` characters, in order, with spaces turned into `_`; it holds no space and no `/` |
| Volumes.KeepNameCharsMembers | disk_image_toolkit/disk_image.py:214-218 | a character survives the filter exactly when it is in the name and is a kept character |
| Volumes.KeepAllNameChars | disk_image_toolkit/disk_image.py:214-219 | a name made only of kept characters passes the filter unchanged |
| Volumes.FormatVolumeNameIdempotent | disk_image_toolkit/disk_image.py:211-220 | formatting a formatted name changes nothing |
| Volumes.FsNameNonEmpty | disk_image_toolkit/disk_image.py:179 | the file system read from a stripped "file system" line is never empty |
| Volumes.StartVolumeMatches | disk_image_toolkit/disk_image.py:167-183 | a "file system" line pushes the current dict only when it has a file system, and starts the next id; the state then matches the section-by-section description with one more, empty, section |
| Volumes.StepMatches | disk_image_toolkit/disk_image.py:164-205 | every line keeps the state equal to the section-by-section description: the pushed dicts and the current one are the described sections |
| Volumes.ScanKindsMatches | disk_image_toolkit/disk_image.py:164-207 | a successful scan ends in the state the section-by-section description gives for the whole text |
| Volumes.ScanKindsFails | disk_image_toolkit/disk_image.py:186-197 | the scan fails exactly when a "Volume name" line precedes every "file system" line, and the failure is KeyError("output_directory_name") |
| Volumes.VolumesMatchReference | disk_image_toolkit/disk_image.py:155-209 | the parse equals the section-by-section description: for the k-th "file system" line, id k, that file system, the name of the section's last "Volume name" line (or ""), its formatted name, "volume-<k>-<fs lowered>" followed by "-<formatted name>" per name line, and the section's last size (the first volume also takes a size read before it); no such line gives one dict holding at most that size; a name line before any volume gives KeyError |
| Volumes.VolumesOfSpec | disk_image_toolkit/disk_image.py:155-209 | on classified lines: the parse is the section-by-section description; success exactly without an orphan name line; one dict per "file system" line, numbered from 1 in order, each with its file system, a name, its formatted name and a directory name starting "volume-<id>-<fs lowered>" |
| Volumes.GetVolumesSpec | disk_image_toolkit/disk_image.py:155-209 | on disktype's lines: the same, over the kinds of the stripped lines, with KeyError("output_directory_name") as the only failure |
| Volumes.ClassifyFsLine | disk_image_toolkit/disk_image.py:165-180 | "<fs> file system", with a one-word `fs`, starts a volume of file system `fs` |
| Volumes.ClassifyNameLine | disk_image_toolkit/disk_image.py:186-189 | `Volume name "<name>"` names the volume `name`, quotes dropped, when `name` holds no quote, `V` or `y` |
| Volumes.ClassifySizeLine | disk_image_toolkit/disk_image.py:199-200 | `Volume size <size>` gives the size `size`, when it does not look like another marker line |
| Volumes.FormatRomeName | disk_image_toolkit/disk_image.py:211-220 | "ok_images + rome2" formats to "ok_images__rome2" |
| Volumes.FormatDualName | disk_image_toolkit/disk_image.py:211-220 | "ISO9660/HFS" formats to "ISO9660HFS" |
| Volumes.RomeExample | disk_image_toolkit/tests/test_disk_image.py:91-105 | the HFS image's lines give the one dict the test expects: id 1, name "ok_images + rome2", formatted "ok_images__rome2", HFS, "volume-1-hfs-ok_images__rome2", and its size |
| Volumes.DualExample | disk_image_toolkit/tests/test_disk_image.py:106-127 | the ISO 9660/HFS hybrid's lines give the two dicts the test expects, the second with no size |
| Volumes.FloppyExample | disk_image_toolkit/tests/test_disk_image.py:128-142 | the FAT12 image's lines give one unnamed dict with directory "volume-1-fat12" and its size |
| Volumes.OutputDirectoriesDistinct | disk_image_toolkit/disk_image.py:174-197 | two different volumes never get the same output directory name |
| Volumes.EmptyOutput | disk_image_toolkit/disk_image.py:160-209 | empty output gives one empty volume dict |
| Paths.SplitExt | disk_image_toolkit/disk_image.py:64 | `os.path.splitext`: root plus extension is the path; the extension is empty or a dot followed by no dot, and holds no `/` |
| Paths.SplitExtEmptyIff | disk_image_toolkit/disk_image.py:64 | the extension is empty exactly when the final component has no dot, or only dots before its last dot |
| Paths.PathJoin | disk_image_toolkit/disk_image.py:102 | `os.path.join(a, b)` ends with `b` |
| Carving.NewDiskImage | disk_image_toolkit/disk_image.py:61-68 | the file name is the path's base name; identifier plus extension is the file name; nothing is converted or walked yet |
| Carving.IsEwfByLastThree | disk_image_toolkit/disk_image.py:589-596 | an extension is EWF exactly when its last three characters, lower-cased, are one of e00, e01, ewf, ex0 |
| Carving.IsEwfIgnoresCase | disk_image_toolkit/disk_image.py:594 | the EWF test ignores letter case |
| Carving.EwfTable | disk_image_toolkit/disk_image.py:592 | `.e00`, `.e01`, `.ewf` and `.ex0` are EWF in either case |
| Carving.NotEwfTable | disk_image_toolkit/disk_image.py:592-596 | `.dd`, `.iso`, `.img` and `.DD` are not EWF |
| Carving.EwfexportArgv | disk_image_toolkit/disk_image.py:104-116 | the ewfexport command has 11 words; it writes to the given target and reads the image path |
| Carving.ConvertToRaw | disk_image_toolkit/disk_image.py:86-132 | a non-EWF image is its own raw image and runs nothing; an EWF image runs ewfexport into the temporary directory, then moves the `.raw` and `.raw.info` files to the destination, which becomes the raw image; nothing else about the image changes |
| Carving.ConvertMovesExportedFiles | disk_image_toolkit/disk_image.py:120-128 | the renamed files are the target name with `.raw` and `.raw.info` |
| Carving.EnsureRaw | disk_image_toolkit/disk_image.py:347-348 | with a raw image nothing happens; without one, the default conversion runs |
| Carving.EnsureRawIdempotent | disk_image_toolkit/disk_image.py:347-348 | ensuring a raw image twice runs the conversion at most once |
| Carving.ChooseStrategyIgnoresCase | disk_image_toolkit/disk_image.py:298-320 | the dispatch depends only on the lower-cased file system |
| Carving.TskNamesGoToTsk | disk_image_toolkit/disk_image.py:303-306 | any name containing "fat", and every Sleuth Kit name, goes to tsk_recover |
| Carving.TskDispatchTable | disk_image_toolkit/disk_image.py:42-52 | fat, FAT32, NTFS, ISO9660 and hfs+ go to tsk_recover |
| Carving.HfsDispatchTable | disk_image_toolkit/disk_image.py:307-310 | hfs in either case goes to HFS Explorer |
| Carving.UdfDispatchTable | disk_image_toolkit/disk_image.py:311-314 | udf in either case is mounted and copied |
| Carving.UnsupportedDispatchTable | disk_image_toolkit/disk_image.py:315-320 | unknown and empty names are not carved |
| Carving.TskArgv | disk_image_toolkit/disk_image.py:353-360 | tsk_recover takes `-e` exactly when unallocated files are exported, and `-a` otherwise, then the raw image and the destination |
| Carving.Insert | disk_image_toolkit/disk_image.py:451-452 | `list.insert`: the element lands at the index and the rest shifts right unchanged |
| Carving.UnhfsArgvShape | disk_image_toolkit/disk_image.py:442-452 | the unhfs command is `bash <bin> -v -o <dest> <raw>`; with resource forks, `-resforks APPLEDOUBLE` follows `-v`, and removing that pair gives the plain command back |
| Carving.UnhfsResforksIff | disk_image_toolkit/disk_image.py:450-452 | the command holds `-resforks` exactly when resource forks are asked for |
| Carving.FiwalkArgv | disk_image_toolkit/disk_image.py:378-381 | fiwalk writes the DFXML path of the raw image, and fails without one |
| Carving.TskPlan | disk_image_toolkit/disk_image.py:334-371 | the tsk_recover path leaves a raw image and a disk DFXML path behind |
| Carving.StrategyPlan | disk_image_toolkit/disk_image.py:303-320 | an unsupported file system runs nothing and changes nothing; every strategy keeps the image's identity |
| Carving.CarveFiles | disk_image_toolkit/disk_image.py:278-332 | every call creates the destination first and removes it if left empty last; an unsupported file system does only that; the commands run the chosen tool exactly once and no other tool, and unmount exactly when they mount |
| Carving.FramedPlanCounts | disk_image_toolkit/disk_image.py:298-320 | creating and removing the destination around a plan starts no tool and unmounts nothing |
| Carving.StrategyPlanCount | disk_image_toolkit/disk_image.py:303-314 | each strategy's plan runs its own tool once and the others never |
| Carving.MountPlanCount | disk_image_toolkit/disk_image.py:461-502 | the UDF path mounts once and unmounts once |
| Carving.VolumeRequest | disk_image_toolkit/disk_image.py:253-268 | the call for one volume dict succeeds exactly when the dict has a directory name and a file system and the DFXML directory is given; it carves into `dest/<directory name>`; a missing directory name is KeyError |
| Carving.VolumeRequestsOkIff | disk_image_toolkit/disk_image.py:253-268 | the loop succeeds exactly when every volume's call does |
| Carving.Prepare | disk_image_toolkit/disk_image.py:238-251 | the steps before the loop: fail with TypeError exactly when stored disktype output exists without a raw image; the disktype lines are the stored output if any, else the printed output; the last command is fiwalk on the raw image into the chosen DFXML path |
| Carving.PrepareQuiet | disk_image_toolkit/disk_image.py:238-251 | the preparation runs no carving tool |
| Carving.CarveVolumesCount | disk_image_toolkit/disk_image.py:253-268 | over all volumes, each tool runs exactly as often as volumes chose it |
| Carving.CarveAllVolumesAsWritten | disk_image_toolkit/disk_image.py:262-268 | as written: no volume's call asks for resource forks |
| Carving.ResforksIgnoredAsWritten | disk_image_toolkit/disk_image.py:222-268 | as written, the outcome does not depend on `appledouble_resforks` |
| Carving.CarveAllVolumes | disk_image_toolkit/disk_image.py:222-276 | with the flag forwarded, every call asks for resource forks exactly when the caller did |
| Carving.HfsCallHonoursResforks | disk_image_toolkit/disk_image.py:307-310 | an HFS call runs the unhfs command built with the call's own resource-fork flag |
| Carving.CarveAllVolumesVolumes | disk_image_toolkit/disk_image.py:251 | the returned volumes are those parsed from the disktype lines |
| Carving.NoFileSystemStops | disk_image_toolkit/disk_image.py:251-254 | output without a "file system" line yields one empty dict, and reading its directory name raises KeyError |
| Carving.CarveAllVolumesSucceeds | disk_image_toolkit/disk_image.py:222-276 | with a file-system line, no orphan name line and a DFXML directory, the run succeeds with one call per file-system line, in order, each for that line's file system |
| Carving.CarveAllVolumesCount | disk_image_toolkit/disk_image.py:222-276 | a whole run invokes each tool exactly as often as volumes chose it, and unmounts exactly as often as it mounts |
| Dfxml.CountedObjects | diskimageanalyzer.py:166-181 | the counted objects are regular (or untyped) files, and allocated ones unless everything is exported |
| Dfxml.CountedMembers | diskimageanalyzer.py:166-181 | an object is counted exactly when it is in the document and passes both skips |
| Dfxml.ExportAllCountsMore | diskimageanalyzer.py:175-179 | exporting everything never counts fewer files, and counts the same ones when no file is unallocated |
| Dfxml.TotalBytes | diskimageanalyzer.py:204 | the byte total exists exactly when every counted file has a size; otherwise it is TypeError |
| Dfxml.TotalBytesConcat | diskimageanalyzer.py:204 | the byte total of two runs of files is the sum of their totals |
| Dfxml.DropNoneMembers | diskimageanalyzer.py:206-209 | removing "None" keeps exactly the other texts |
| Dfxml.RemoveNones | diskimageanalyzer.py:207-209 | the `while "None" in list: remove` loop leaves the list with every "None" dropped and the rest in order |
| Dfxml.FamilyTextsMembers | diskimageanalyzer.py:183-209 | a timestamp family's texts are exactly the present, non-"None" stamps of the counted files |
| Dfxml.RestoreDate | disk_image_toolkit/disk_image.py:385-418 | restoring dates skips exactly the directories and links |
| Dfxml.RestoreDateAgrees | disk_image_toolkit/disk_image.py:399-412 | the restore step as written raises exactly where the intended one meets an unparsable stamp, and agrees with it everywhere else |
| Dfxml.RestoreFromModified | disk_image_toolkit/disk_image.py:407-409 | a file with a valid modified stamp gets that stamp's epoch seconds |
| Dfxml.RestoreFromCreated | disk_image_toolkit/disk_image.py:410-412 | without a usable modified stamp, a valid created stamp is used |
| Dfxml.RestoreFromNow | disk_image_toolkit/disk_image.py:397 | without either stamp, the file gets the current time |
| DfxmlStats.Bounds | diskimageanalyzer.py:220-228 | `min`/`max` of a family: both are members, and they bound every text; an empty family gives empty texts |
| DfxmlStats.ChooseFamilyFirstMinimum | diskimageanalyzer.py:230-248 | the chosen family is the first of modified, changed and created whose earliest stamp is no later than the others' |
| DfxmlStats.RangeFromChosenFamily | diskimageanalyzer.py:220-258 | the range is the chosen family's earliest and latest stamps cut to 10 characters, and every stamp of that family lies between them; with no stamp at all, both ends are the stand-in |
| DfxmlStats.ParseDfxml | diskimageanalyzer.py:157-267 | `_parse_dfxml` as intended: a result exactly when every counted file has a size; it holds the number of counted files, their byte total and the chosen family's range, the current year standing in for a missing modified range; both dates non-empty |
| DfxmlStats.ParseDfxmlAsWritten | diskimageanalyzer.py:235-265 | as written: whenever it returns a record, that is the intended record; it returns nothing where the intended parse succeeds only when no counted file has a modified stamp |
| DfxmlStats.NoModifiedTimesAsWritten | diskimageanalyzer.py:235-265 | one allocated 5-byte file with only a created stamp: nothing as written, 1 file, 5 bytes, "2020-01-02" as intended |
| DfxmlStats.NotAvailableLoses | process_with_tsk_options.py:167-180 | in the script, when modified stamps are missing, "N/A" sorts after any digit, so an available changed or created family wins |
| Statements.YearStatement | diskimageanalyzer.py:96-99 | the statement starts with the earliest year, and is that year alone exactly when both years agree |
| Statements.YearStatementReadsBack | process_with_tsk_options.py:194-197 | both four-character years can be read back from the statement |
| Statements.AnalyzerExtent | diskimageanalyzer.py:101-103 | the analyzer's extent exists exactly when the size text does, and ends with " digital files (<size>)" |
| Statements.LegacyExtent | process_with_tsk_options.py:135-142 | "EMPTY" for no files, "1 digital file (<size>)" for one, "<n> digital files (<size>)" otherwise; the size is computed first, so a size beyond the unit table raises even for "EMPTY" |
| Statements.AnalyzerExtentCount | diskimageanalyzer.py:101-103 | the number in front of the analyzer's extent is the file count |
| Statements.LegacyExtentCount | diskimageprocessor.py:86-92 | the number in front of a non-empty script extent is the file count |
| Statements.EmptyHasNoCount | process_with_tsk_options.py:139-140 | "EMPTY" carries no number |
| Statements.Formats | diskimageanalyzer.py:105-122 | at most five formats; an unreadable report gives the error message alone |
| Statements.FormatsOfFullReport | diskimageanalyzer.py:113-118 | a report whose data rows all have a column gives the first column of its first five data rows, in order |
| Statements.Identified | diskimageanalyzer.py:124 | empty format names become "Unidentified"; the rest stay |
| Analysis.Dedup | diskimageanalyzer.py:67-70 | `dict.fromkeys` deduplication: the same members, with no repeats |
| Analysis.DedupKeepsFirstSeenOrder | diskimageanalyzer.py:69 | the deduplicated names follow the order of their first appearance |
| Analysis.FileSystems | diskimageanalyzer.py:67 | every volume's file system, in order; KeyError("file_system") exactly when one lacks it |
| Analysis.TotalFilesZero | diskimageanalyzer.py:65-78 | the disk's file count is zero exactly when every parsed document counted no file |
| Analysis.FoldsAreMinMax | diskimageanalyzer.py:72-76 | the loop over the documents yields the least earliest date and the greatest latest date |
| Analysis.Cells | diskimageanalyzer.py:78-151 | a row is nine cells, led by the disk name |
| Analysis.DescribeDisk | diskimageanalyzer.py:96-151 | describing a disk with files gives a described row for that disk, or IndexError from the size text |
| Analysis.ParseDoc | diskimageanalyzer.py:53-62 | a kept document's record counts at least one file and has non-empty dates |
| Analysis.ParseDocSpec | diskimageanalyzer.py:53-62 | as written, a document is kept exactly when the parse as written returns a record; as intended, exactly when the intended parse (with `export_all`) returns one and the document counts a file; in both, a document that counts no file is skipped |
| Analysis.KeptEmpty | diskimageanalyzer.py:53-62 | no record is kept exactly when every document is skipped |
| Analysis.ParsedEmpty | diskimageanalyzer.py:53-62 | the records are empty exactly when every document is skipped |
| Analysis.RowOf | diskimageanalyzer.py:32-154 | the only failures are KeyError on the disk name, KeyError("file_system") and IndexError; the row names the disk; it is the error row exactly when the disk is known, every volume has a file system, and the records count no file |
| Analysis.WriteRowWith | diskimageanalyzer.py:32-154 | in either reading: the same failures; the row names the disk; it is the error row exactly when the disk is known, every volume has a file system, and no document is kept |
| Analysis.WriteRowAsWritten | diskimageanalyzer.py:53-62 | as written: the error row exactly when the disk is known, every volume has a file system, and the parse as written, run without `export_all`, returns nothing for every document |
| Analysis.ExportAllIgnoredAsWritten | diskimageanalyzer.py:32-55 | as written, the row does not depend on `export_all` |
| Analysis.WriteRow | diskimageanalyzer.py:32-154 | as intended: the error row exactly when every document either fails the intended parse with `export_all` or counts no file |
| Analysis.EmptyDocumentIgnored | diskimageanalyzer.py:53-62 | adding a document that counts no file leaves the row unchanged, as written and as intended |
| Analysis.UndatedDocumentIgnoredAsWritten | diskimageanalyzer.py:53-62 | as written, adding a document whose counted files carry no modified stamp leaves the row unchanged, even when they have other stamps |
| Analysis.DescribedRow | diskimageanalyzer.py:37-151 | a described row gives the volume count, the deduplicated file systems joined by ", ", the least earliest and greatest latest dates, the year statement, an extent whose number is the total file count, and whether the virus log's first line has "FOUND" |
| Analysis.OneRecordRow | diskimageanalyzer.py:72-103 | with one record, the row's dates are the record's, the statement is their year statement, and the extent's number is its file count |
| Analysis.DeletedFileCountedOnlyWhenForwarded | diskimageanalyzer.py:55-94 | a disk whose only document holds one deleted 5-byte file modified on 2020-01-02: the error row as written with `export_all`; with the flag forwarded, a described row with one file, dates "2020-01-02" to "2020-01-02" and statement "2020" |
| TskOptions.OptionPair | process_with_tsk_options.py:355-363 | an option contributes its flag and value exactly when the value is truthy |
| TskOptions.AddOptionLayout | process_with_tsk_options.py:355-363 | inserting a flag and its value at index 2 puts them right after the tool name and the carve flag |
| TskOptions.TskOptionsArgvLayout | process_with_tsk_options.py:350-363 | the command is tsk_recover and its carve flag, then `-o`, `-i` and `-f` with their values (the reverse of their insertion order), each only when given, then the image and the destination |
| TskOptions.NoOptionsIsToolkitArgv | process_with_tsk_options.py:350-353 | without options the command is the toolkit's tsk_recover command |
| TskOptions.DescribeSip | process_with_tsk_options.py:48-244 | the row always names the package's file |
| TskOptions.DescribeSipSpec | process_with_tsk_options.py:84-242 | the row is described exactly when the DFXML reads, every counted file has a size, and the size text exists (else the "Error" row); the extent is "EMPTY" exactly without counted files and otherwise states their number; the dates are the chosen family's range with "N/A" standing in; the note is empty exactly for "EMPTY" |
| Processor.ImagesAcceptedByTskOptions | diskimageprocessor.py:218 | every file the processor takes as an image is one `process_with_tsk_options.py` takes as well |
| Processor.ImagesAcceptedByAnalyzer | diskimageprocessor.py:218 | every file the processor takes as an image is one the analyzer takes as well |
| Processor.LoweredSuffixes | diskimageprocessor.py:218 | the processor's suffixes, lower-cased, are among the analyzer's |
| Processor.SplitImageSkipped | diskimageprocessor.py:218 | a `.001` split image is skipped by the processor but taken by the TSK-options script |
| Processor.ScriptEwfIsToolkitEwf | diskimageprocessor.py:241 | a file the script converts as `.E01` is EWF to the toolkit |
| Processor.LowerCaseEwfNotConverted | diskimageprocessor.py:241 | `.e01` is EWF to the toolkit, but the script does not convert it |
| Processor.LastFsIndex | diskimageprocessor.py:277-279 | the index of the last line mentioning "file system", and none when no line does |
| Processor.DiskFs | diskimageprocessor.py:276-282 | the intended file-system line is "" exactly when no line mentions a file system |
| Processor.DiskFsAsWritten | diskimageprocessor.py:276-283 | as written: NameError("disk_fs") exactly when no line matches and no earlier disk left a value |
| Processor.DiskFsAsWrittenDiffers | diskimageprocessor.py:276-283 | when an earlier disk left a matching line, the written reading equals the intended one exactly when this disk has a line of its own |
| Processor.LineStrategyAgrees | diskimageprocessor.py:286-381 | for any file system the toolkit can carve, the script's substring test picks the same tool |
| Processor.HfsPlusLineIsTsk | diskimageprocessor.py:286 | a line mentioning "hfs+" goes to tsk_recover |
| Processor.CarveArgvsMatchToolkit | diskimageprocessor.py:290-350 | the script's fiwalk, tsk_recover and unhfs commands are the toolkit's, with the default unhfs binary and resource forks kept |
| Processor.ImagePlan | diskimageprocessor.py:237-266 | an `.E01` file is converted with ewfexport into `<diskimage dir>/<id>` and then used as `<id>.img`, or is skipped when conversion fails; any other image is used under its own name without conversion |
| Processor.ProcessFileWith | diskimageprocessor.py:210-430 | the only failure is NameError on `disk_fs`, as written; a file is carved exactly when it is an image and has a raw image, after the conversion its plan states |
| Processor.ProcessFileSpec | diskimageprocessor.py:210-430 | a non-image is skipped; a failed conversion is reported as no raw image; the written reading fails exactly when no file-system line is found or carried; a carved disk uses the tool its file-system line names, and that line is carried to the next disk |
| Processor.EwfConvertedFirst | diskimageprocessor.py:241-251 | a converted `.E01` disk runs exactly one ewfexport, from the source path, before carving |
| Processor.ModifiedDates | diskimageprocessor.py:80-83 | one modified date per carved file, in order |
| Processor.DateRangeBounds | diskimageprocessor.py:95-97 | both ends are dates of the list cut to 10 characters, and every cut date lies between them |
| Processor.DateStatementAsWritten | diskimageprocessor.py:101-104 | as written: equal dates give their year alone |
| Processor.DateStatementDiffers | diskimageprocessor.py:101-104 | the written and intended statements differ exactly for two different dates in one year |
| Processor.SameYearTwice | diskimageprocessor.py:101-104 | "2019-01-01" to "2019-05-05" gives "2019 - 2019" as written and "2019" as intended |
| Processor.DescribeSipWith | diskimageprocessor.py:56-155 | the row names the package; a package without "disktype.txt" (an `.E01` whose conversion failed) gets no row, and IOError is raised unless the size text failed first |
| Processor.DescribeSips | diskimageprocessor.py:56-155 | the loop over the sorted SIPs gives one row per SIP, each naming its SIP, and succeeds only when every SIP has its "disktype.txt": the first failure ends the spreadsheet |
| Processor.DescribeSipSpec | diskimageprocessor.py:69-149 | intended reading: the extent is "EMPTY" exactly without files and otherwise states their number; the dates span the modified dates; the statement names one year exactly when both ends share it; the note is empty exactly for "EMPTY" |
| Processor.DescribeSipTool | diskimageprocessor.py:119-149 | a non-empty note names the tool of this disk's file-system line, or else the tool left by the previous disk |
| Processor.DescribeSipAsWrittenDates | diskimageprocessor.py:94-104 | as written, the dates span the modified dates, and the statement differs from the intended one exactly for different dates in one year |
| StrOrder.Min | diskimageanalyzer.py:221 | `min` of a non-empty list is a member and no member sorts before it |
| StrOrder.Max | diskimageanalyzer.py:222 | `max` of a non-empty list is a member and no member sorts after it |
| StrOrder.LexTransitive | diskimageanalyzer.py:73-75 | Python's string order is transitive |
| StrOrder.LexTotal | diskimageanalyzer.py:73-75 | any two strings are equal or ordered one way |
| PyStr.DecimalRoundTrip | diskimageanalyzer.py:101 | `str(n)` reads back as `n` |
| PyStr.Before | disk_image_toolkit/disk_image.py:179 | `s.split(sep)[0]`: the part of `s` before the first `sep`, or all of `s` when `sep` does not occur |

## Left out

- Running the commands: each subprocess, rename, copy, mount, chmod and `utime` is only a value in a list. Tool failures and their log lines are not modelled. Where a failure changes what happens next (a failed `ewfexport`), it is a boolean parameter (`converted`).
- `os.path.abspath`: paths are taken as already absolute.
- Directory walks (`os.walk`, `os.listdir`, `sorted`): their results are parameters, such as the DFXML documents of a disk, the carved files of a package and the disktype lines.
- Reading files (disktype output, DFXML through `iterparse`, the formats CSV, the virus log): each is a parameter. A CSV that fails part-way through is not distinguished from an unreadable one.
- `write_dfxml_from_path` and `set_file_permissions`: only the command that stands for them is modelled.
- `Sizes.HumanReadableSize`: computes the unit with exact integer powers. The source uses `math.log(size, 1024)` and float division, which can round differently near exact powers and beyond 2^53 bytes.
- `Timestamps.ParseIso`: accepts exactly two digits per field (four for the year). Python's `strptime` also accepts one-digit fields.
- `PyStr.Lower`: `str.lower` and `str.isalnum` are modelled on ASCII letters and digits only.
- `Processor.ModifiedDates`: the dates are given as text. `datetime.fromtimestamp` and the local time zone are left out.
- The `time_to_int` of process_with_tsk_options.py (lines 43-46, `time.mktime`) and that script's date-restoring loop after line 374 depend on the local time zone and the file system; both are left out.
- Logging, printing, argparse, the `-b` (bagit) and `-p` (bulk_extractor) variants of the commands, and the md5deep, bagit, Brunnhilde and chmod shell lines of diskimageprocessor.py.
- `Carving.ConvertToRaw`: the temporary directory's name is a parameter.
- `Dfxml.RestoreDate`: an unparsable stamp gives `Unparsed`. What `os.utime` then does with `None` is not modelled.
- `Processor.DescribeSipWith`: the stale `tool` of the previous disk is kept in both readings, because the source shows no intended value for it.
- `Volumes.RomeExample`, `Volumes.DualExample` and `Volumes.FloppyExample`: the disktype fixture files of the toolkit's tests are not part of this model. Each example is built from the "file system", `Volume name` and `Volume size` lines that the expected dicts imply, indented as disktype indents them. The fixtures' other lines (partition maps, "Disk size" lines) are not reproduced.
- `Volumes.ClassifyNameLine` and `Volumes.ClassifySizeLine`: stated only for names and sizes that cannot be mistaken for another marker line (no quote, `V` or `y` in a name; no `n` or `V` in a size, and no "file system"). The general parse is covered by `Volumes.VolumesMatchReference` over the classified lines.
- `TskOptions.DescribeSip`: every failure inside the `try` becomes the "Error" row. A DFXML file that is missing or malformed is the `None` document.

## Findings

| source | as written | input that shows it | evidently intended | confidence | as-written member | corrected member |
|---|---|---|---|---|---|---|
| disk_image_toolkit/disk_image.py:262-268 | `carve_files_from_all_volumes` never passes `appledouble_resforks` on, so `carve_files` always uses its default `False` | an HFS image carved with `appledouble_resforks=True` | forward the flag so HFS volumes keep resource forks | not executed | Carving.ResforksIgnoredAsWritten | Carving.CarveAllVolumes |
| diskimageanalyzer.py:235-238 | with no modified stamps, the earliest and latest dates become the integer year; comparing or slicing it raises TypeError, so `_parse_dfxml` returns None and the disk's files are dropped | one allocated 5-byte file with only a created stamp | use the year as text, so the created range is reported | not executed | DfxmlStats.NoModifiedTimesAsWritten | DfxmlStats.ParseDfxml |
| disk_image_toolkit/util.py:12-15 | `logger` is not defined in util.py, so an unparsable text raises NameError instead of returning None | `time_to_int("")` | log a warning and return None | not executed | Timestamps.TimeToIntAsWrittenRaises | Timestamps.TimeToInt |
| diskimageanalyzer.py:55 | `write_to_spreadsheet` takes `export_all` but calls `_parse_dfxml` without it, so deleted files are never counted | a disk whose only DFXML document holds one deleted 5-byte file modified on 2020-01-02, with `export_all` set | pass `export_all` through; a document that then counts no file is skipped, as the warning for it says | not executed | Analysis.DeletedFileCountedOnlyWhenForwarded | Analysis.WriteRow |
| diskimageprocessor.py:276-283 | `disk_fs` is only assigned on a matching line and is never reset, so a disk without a "file system" line reuses the previous disk's line, and the first such disk raises NameError | a first image whose disktype output has no "file system" line | reset `disk_fs` to "" for each disk | not executed | Processor.DiskFsAsWrittenDiffers | Processor.DiskFs |
| diskimageprocessor.py:101-104 | the whole dates are compared instead of their years | earliest "2019-01-01", latest "2019-05-05" give "2019 - 2019" | compare the years, as the other two scripts do | not executed | Processor.SameYearTwice | Processor.DescribeSipSpec |
