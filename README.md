# metadata-file-changer, modelled in Dafny

`sedac-meta/metadata-file-changer.py` is a one-pass batch script. It runs in a
working directory of FGDC metadata records (`FGDC_<stem><ext>`) and their
sidecar files (`<stem>.xml`, `<stem>.txt`, `<stem>.html`, `<stem>.gce`). For
each record it does the following:

- reads the `collection-huid` and `data-set-huid` label/value pairs;
- makes a collection directory `<date>_<chuid>`, falling back to
  `<date>_<HHMM>_<chuid>` whenever something of the plain name exists that
  this run did not make;
- makes a data set directory `<chuid dir>/<shuid>`;
- copies the sidecars into the data set directory under new names, logging a
  warning when one is missing;
- copies the full record into `fgdc-usrdef/` and into the data set directory;
- writes the record again without its `smusrdef` section.

At the end it zips each collection's `fgdc-usrdef` directory. Everything it
does is written to a log file.

The model has three layers:

- **Names and paths.** `paths.dfy` models `os.path.join`, `basename`,
  `splitext` and the parent directory. `naming.dfy` holds every name the
  script derives, the classification of a listing entry and the log lines.
  `xmlrecord.dfy` holds the parts of a parsed record the script uses.
- **The tree.** `filesystem.dfy` models the tree as a map from path to
  directory or file, with `mkdir`, `copy2`, a file write and `make_archive`.
  Each of these either returns the new tree or fails.
- **The run.** `organizer_spec.dfy` describes each step of the script as a
  function on an explicit state: the tree, the `chuidDirs` list, the log,
  `chuidDir`, and `shuid`/`shuidDir`. The properties of the run are proved
  about these functions. `organizer.dfy` is the script itself, written as a
  class `Batch` whose fields are the script's variables. Its loops and steps
  are proved to leave the object in exactly the state the matching function
  computes, and to raise the same fatal error.

A fatal error (`Fatal`) ends the run, as an uncaught Python exception does,
and whatever was written before it stays. A failed sidecar copy is the only
failure the script catches.

Behaviours of the script worth knowing (the model follows them):

- **Entries with an allowed extension but no `FGDC_` prefix.** These are
  passed over without a log line; they are not logged as skipped.
- **The stripped record's name.** It is `<shuid><ext of the record>`, not
  always `<shuid>.xml`. For a `.txt`, `.html` or `.gce` record it lands on
  the sidecar copied just before it (`Naming.StrippedMeetsSidecar`).
- **Reused identifiers.** `chuidDir` and `shuid` carry over from one record to
  the next. A record without a `data-set-huid` files its outputs under the
  previous record's data set directory. This is not an error; `Walk` states
  when the values carry over.
- **The stripped copy is not guaranteed.** When the full copies succeed but
  the record has no `smusrdef` child, the run stops, so the stripped copy is
  not written.
- **A data set named `fgdc-usrdef`.** Its data set directory is the
  collection's `fgdc-usrdef` directory, so the stripped record is written over
  the full copy made there (`Naming.UserDefCopyMeetsStripped`). The full copy
  beside the stripped record always survives (`Naming.SideCopyLonger`).
- **A time-qualified name that already exists.** A third run within the same
  minute finds `<date>_<HHMM>_<chuid>` taken, and the `mkdir` stops the run.
  Either way a run never takes over a directory that existed before it
  (`OrganizerSpec.Program`).

## Model

| member | source | states |
|---|---|---|
| Paths.Basename | sedac-meta/metadata-file-changer.py:114 | the result has no separator and is a suffix of the path; a path without a separator is its own basename |
| Paths.JoinedName | sedac-meta/metadata-file-changer.py:43-106 | `os.path.join(a, b)` (`Join`, used at lines 43, 59, 62, 85-87, 97-98 and 106) ends with `b`, keeps `a` in front unless `b` is absolute, and has `b` as its last component when `b` has no separator |
| Paths.ParentBeforeLastSeparator | sedac-meta/metadata-file-changer.py:67-106 | the directory in which `mkdir` (67, 73, 96), `copy2` (85-98) and `open` (106) create a path (`Parent`) is the part before its last separator, or the root; a path without a separator has an empty parent |
| Paths.SplitExt | sedac-meta/metadata-file-changer.py:46-47 | root and extension concatenate back to the name; the extension is empty or one dot followed by text with no dot and no separator |
| Paths.LastComponent | sedac-meta/metadata-file-changer.py:114 | after `a + "/" + b` with `b` separator-free, the basename is `b` and the parent is `a` (the root when `a` is empty) |
| Paths.SplitExtOfName | sedac-meta/metadata-file-changer.py:46-47 | a separator-free root with a non-dot character, followed by a dot-led extension, splits back into exactly that root and extension |
| Naming.LogNameShape | sedac-meta/metadata-file-changer.py:31-44 | the log file name `processing_output_<stamp>.txt` (`LogName`) splits into that root and `.txt` when the stamp has no separator, and never starts with `FGDC_` |
| Naming.Stem | sedac-meta/metadata-file-changer.py:77 | for a name starting with `FGDC_`, prefix plus stem gives the name back; the stem is always a suffix of the name |
| Naming.SidecarNameShape | sedac-meta/metadata-file-changer.py:84-87 | a sidecar copy's name (`SidecarName`) starts with the data set identifier and ends with the sidecar's extension; it equals `<shuid><ext>` exactly when the extension is not `.xml` |
| Naming.UserDefSideNameShape | sedac-meta/metadata-file-changer.py:98 | the full copy beside the stripped record (`UserDefSideName`) starts with the data set identifier, ends with the record's extension, and is twelve characters longer than `<shuid><ext>` |
| Naming.DatasetFileNameSplits | sedac-meta/metadata-file-changer.py:97-106 | for a separator-free identifier with a non-dot character and an allowed extension, `splitext` of `<shuid><ext>` (`DatasetFileName`) gives back the identifier and the extension |
| Naming.CollectionDirNamed | sedac-meta/metadata-file-changer.py:59-62 | both collection paths (`CollectionDir`, `TimedCollectionDir`) start with the working directory and have `<date>_<chuid>` and `<date>_<HHMM>_<chuid>` as their last components |
| Naming.CollectionChildren | sedac-meta/metadata-file-changer.py:72-92 | the data set directory (`DatasetDir`) and `fgdc-usrdef` (`UserDefDir`) are direct children of the collection directory, named `<shuid>` and `fgdc-usrdef` |
| Naming.SideCopyLonger | sedac-meta/metadata-file-changer.py:98-106 | the `_fgdc-usrdef` full copy's path is longer than the stripped record's path in the same directory, so the stripped write never lands on it |
| Naming.UserDefCopyMeetsStripped | sedac-meta/metadata-file-changer.py:92-106 | within one collection directory, the full copy in `fgdc-usrdef/` and the stripped record have the same path exactly when the data set identifier is `fgdc-usrdef` |
| Naming.Classify | sedac-meta/metadata-file-changer.py:44-51 | ignored iff directory, script or log name; skipped iff otherwise the extension is outside the four; not a record iff allowed extension but no `FGDC_` prefix; a record splits the name into root and allowed extension with the prefix |
| Naming.RecordNameClassified | sedac-meta/metadata-file-changer.py:46-51 | `FGDC_<stem><ext>` with an allowed extension is classified as a record, and its derived stem is `<stem>` again |
| Naming.XmlRecordOutputsDistinct | sedac-meta/metadata-file-changer.py:84-98 | the four sidecar copies get distinct names; for an `.xml` record none of them is named like the stripped record or the `_fgdc-usrdef` copy, and those two differ |
| Naming.StrippedMeetsSidecar | sedac-meta/metadata-file-changer.py:84-106 | the stripped record's name equals a sidecar's name iff the extensions match and are not `.xml` |
| Naming.TimedDiffers | sedac-meta/metadata-file-changer.py:59-62 | the time-qualified collection path never equals the plain one |
| Naming.TextTellsLine | sedac-meta/metadata-file-changer.py:52-118 | equal log texts have the same kind of line, and, except for `ZIPPING:` lines, the same name |
| Naming.ArchiveNamedAfterCollection | sedac-meta/metadata-file-changer.py:114-118 | the archive base (`ArchiveBase`) sits directly inside the collection directory and is named `<basename(cd)>_fgdc-usrdef` |
| Naming.Text | sedac-meta/metadata-file-changer.py:52-118 | every log line is non-empty; it starts with a blank exactly for the sidecar lines; `processing:` and `SKIPPING:` lines end with the entry's name, sidecar lines with the sidecar's name, and `ZIPPING:` lines with the archive's file name |
| Naming.ZipText | sedac-meta/metadata-file-changer.py:118 | the `ZIPPING:` line starts with `Z` and ends with `<basename(cd)>_fgdc-usrdef.zip` |
| FileSystem.Mkdir | sedac-meta/metadata-file-changer.py:67 | succeeds iff the path is new and its parent is a directory; then adds exactly that directory and changes nothing else |
| FileSystem.WriteFile | sedac-meta/metadata-file-changer.py:106-108 | succeeds iff the path is not a directory and its parent is; then that path holds the content and no other path changes |
| FileSystem.Copy | sedac-meta/metadata-file-changer.py:85-98 | succeeds iff the source is a regular file and the target (inside a destination directory, or the destination itself) can be written; then the target holds the source's content and no path changes between directory and file |
| FileSystem.MakeArchive | sedac-meta/metadata-file-changer.py:117 | succeeds iff the root is a directory and `<base>.zip` can be written; then `<base>.zip` is the archive of the root and nothing else changes |
| FileSystem.CopyTargetPlaced | sedac-meta/metadata-file-changer.py:85-98 | `copy2` (`CopyTarget`) writes to the destination itself when it is not a directory, and otherwise inside it under the source's own file name |
| FileSystem.WriteKeepsCopies | sedac-meta/metadata-file-changer.py:97-106 | writing a file at a non-directory path moves no copy target, and a destination longer than that path keeps a target different from it |
| XmlRecord.UserDefIndex | sedac-meta/metadata-file-changer.py:102 | none iff no root child is `smusrdef`; otherwise the index of the first one |
| XmlRecord.Strip | sedac-meta/metadata-file-changer.py:101-103 | fails iff there is no `smusrdef` child; otherwise exactly one child is gone, and the multiset of children loses exactly the removed one |
| XmlRecord.StripRoundTrip | sedac-meta/metadata-file-changer.py:101-103 | the kept children are the others in their original order, and re-inserting the removed section at its index gives back the original children |
| OrganizerSpec.ChooseCollectionDir | sedac-meta/metadata-file-changer.py:59-62 | the directory is the plain or the timed name, and the timed one exactly when the plain one exists and was not made in this run |
| OrganizerSpec.CollectionStep | sedac-meta/metadata-file-changer.py:59-68 | binds `chuidDir` to the chosen directory; if the run made it already, nothing else changes; otherwise `mkdir` succeeds iff the path is new with a directory parent, and then the directory is made and appended to `chuidDirs`; the step keeps `chuidDirs` duplicate-free |
| OrganizerSpec.CollectionReused | sedac-meta/metadata-file-changer.py:61-65 | a later `collection-huid` with the same value, in any later state of the same run (same date and minute), resolves to the same directory and makes nothing |
| OrganizerSpec.DatasetStep | sedac-meta/metadata-file-changer.py:70-73 | succeeds iff there is a value and a bound `chuidDir` and `mkdir` of `chuidDir/shuid` succeeds; an existing data set directory stops the run |
| OrganizerSpec.LabelStep | sedac-meta/metadata-file-changer.py:55-73 | a missing label stops the run; a `collection-huid` goes to the collection step, a `data-set-huid` to the data set step; any other label changes nothing |
| OrganizerSpec.Walk | sedac-meta/metadata-file-changer.py:54-73 | writes no log line; without a label of its kind a record leaves the previous `chuidDir` and data set in place; keeps the state invariant |
| OrganizerSpec.WalkStops | sedac-meta/metadata-file-changer.py:54-73 | once the walk has failed, the remaining elements change nothing |
| OrganizerSpec.SidecarPathsNamed | sedac-meta/metadata-file-changer.py:77-87 | a sidecar is read from the working directory as `<stem><ext>` (`SidecarSource`) and written into the data set directory under its renamed name (`SidecarDest`) |
| OrganizerSpec.SidecarLinesWarnOnFailure | sedac-meta/metadata-file-changer.py:79-89 | each sidecar gets a `processing:` line naming it, and a `WARN:` line naming it follows exactly when the copy failed (`SidecarLines`) |
| OrganizerSpec.SidecarStep | sedac-meta/metadata-file-changer.py:77-89 | logs the sidecar, then a warning exactly when the copy fails; the tree changes only by a successful copy |
| OrganizerSpec.Sidecars | sedac-meta/metadata-file-changer.py:76-89 | never stops the run, writes between one and two lines per extension, and leaves `chuidDirs`, `chuidDir` and the data set alone |
| OrganizerSpec.SidecarsTriedInOrder | sedac-meta/metadata-file-changer.py:76-79 | the `  processing:` lines the loop itself appends to the log name `<stem><ext>` once per extension, in the order of the extensions (`.xml`, `.txt`, `.html`, `.gce`) |
| OrganizerSpec.SidecarsLog | sedac-meta/metadata-file-changer.py:76-89 | when no copy lands on a source, the loop's log is, per extension in order, the `processing:` line followed by a `WARN:` line exactly for the sidecars that cannot be copied |
| OrganizerSpec.SidecarsCopied | sedac-meta/metadata-file-changer.py:76-87 | a sidecar that can be copied ends up at its renamed target with its content, provided no other copy of the loop lands on the same target and no copy lands on this sidecar's own source |
| OrganizerSpec.SidecarsFrame | sedac-meta/metadata-file-changer.py:76-89 | the loop turns no directory into a file and touches no path that none of its copies land on |
| OrganizerSpec.UserDefCopies | sedac-meta/metadata-file-changer.py:92-98 | stops without a collection; never fails on `mkdir` when `fgdc-usrdef` exists already; on success `fgdc-usrdef` is there; the log and the identifiers are unchanged |
| OrganizerSpec.UserDefCopiesPlaced | sedac-meta/metadata-file-changer.py:92-98 | on success `fgdc-usrdef` is a directory unless something of that name existed, and both `fgdc-usrdef/<shuid><ext>` and `<shuid>_fgdc-usrdef<ext>` hold the record's content |
| OrganizerSpec.StripStep | sedac-meta/metadata-file-changer.py:101-108 | a record without `smusrdef` stops the run with nothing written; on success `shuidDir/<shuid><ext>` holds the stripped children |
| OrganizerSpec.StripStepWrites | sedac-meta/metadata-file-changer.py:106-108 | a successful stripped write changes exactly the path `shuidDir/<shuid><ext>`, to the stripped children, and turns no path into or out of a directory |
| OrganizerSpec.RecordStep | sedac-meta/metadata-file-changer.py:52-108 | first logs `processing: <name>`; an unparsable record stops the run; a record that gets through has a data set, a collection, its `fgdc-usrdef` directory and its stripped copy, and has logged at least one line per sidecar extension |
| OrganizerSpec.DatasetRecord | sedac-meta/metadata-file-changer.py:76-108 | the sidecars, full copies and stripped copy keep the identifiers and log at least one line per extension; on success the two outputs exist |
| OrganizerSpec.RecordCopies | sedac-meta/metadata-file-changer.py:92-108 | the full copies and the stripped copy write no log line; on success `fgdc-usrdef` and the stripped copy exist |
| OrganizerSpec.RecordCopiesPlaced | sedac-meta/metadata-file-changer.py:92-108 | on success the record was a file; the stripped record holds the stripped children; the `_fgdc-usrdef` copy holds the record's full content; the copy in `fgdc-usrdef/` exists and holds the full content unless the stripped write landed on it |
| OrganizerSpec.RecordStepPlaced | sedac-meta/metadata-file-changer.py:52-108 | a record that gets through was parsed and had a `smusrdef`; its stripped record holds the stripped children, its `_fgdc-usrdef` copy is a file, and the copy in `fgdc-usrdef/` has the same content unless the stripped write landed on it |
| OrganizerSpec.EntryStep | sedac-meta/metadata-file-changer.py:43-51 | ignored entries change nothing; an entry with another extension adds exactly one `SKIPPING:` line; an allowed extension without `FGDC_` changes nothing; only records go further |
| OrganizerSpec.Listing | sedac-meta/metadata-file-changer.py:41-110 | the tree only grows, `chuidDirs` and the log are only appended to, and the state invariant is kept |
| OrganizerSpec.ListingStops | sedac-meta/metadata-file-changer.py:41-110 | after a fatal error the remaining entries change nothing |
| OrganizerSpec.ZipStep | sedac-meta/metadata-file-changer.py:114-118 | succeeds iff `fgdc-usrdef` is a directory and the archive can be written; then the archive of `fgdc-usrdef` is at `<cd>/<basename(cd)>_fgdc-usrdef.zip` and one `ZIPPING:` line is logged; a failure changes nothing |
| OrganizerSpec.ZipLinesAt | sedac-meta/metadata-file-changer.py:118 | one `ZIPPING:` line per directory, the i-th for the i-th directory |
| OrganizerSpec.Archives | sedac-meta/metadata-file-changer.py:113-118 | leaves `chuidDirs` alone and keeps the state invariant |
| OrganizerSpec.ArchivesLog | sedac-meta/metadata-file-changer.py:113-118 | a loop that gets through appends exactly the `ZIPPING:` lines of its directories, in list order |
| OrganizerSpec.ArchiveMade | sedac-meta/metadata-file-changer.py:113-117 | a loop that gets through leaves an archive file for every directory it was given |
| OrganizerSpec.ArchivesStop | sedac-meta/metadata-file-changer.py:113-117 | after a failed archive the remaining directories change nothing |
| OrganizerSpec.Finish | sedac-meta/metadata-file-changer.py:41-118 | the listing then the archive loop only add to the tree, `chuidDirs` and the log |
| OrganizerSpec.Program | sedac-meta/metadata-file-changer.py:35-118 | a whole run removes nothing, and the collection directories it lists are distinct directories that did not exist before the run |
| OrganizerSpec.ProgramArchivesAll | sedac-meta/metadata-file-changer.py:113-118 | a run that completes ends its log with one `ZIPPING:` line per collection directory it made, in order, and each has its archive |
| Organizer.Batch.constructor | sedac-meta/metadata-file-changer.py:35-38 | starts with the given tree, an empty list and log, and no identifiers bound |
| Organizer.Batch.Emit | sedac-meta/metadata-file-changer.py:52 | appends one line to the log and changes nothing else |
| Organizer.Batch.ResolveCollection | sedac-meta/metadata-file-changer.py:56-68 | leaves the object in the state `CollectionStep` computes, with the same error |
| Organizer.Batch.MakeDatasetDir | sedac-meta/metadata-file-changer.py:71-73 | leaves the object in the state `DatasetStep` computes, with the same error |
| Organizer.Batch.HandleLabel | sedac-meta/metadata-file-changer.py:55-73 | leaves the object in the state `LabelStep` computes, with the same error |
| Organizer.Batch.WalkLabels | sedac-meta/metadata-file-changer.py:54-73 | the loop leaves the object in the state `Walk` computes, stopping at the first error |
| Organizer.Batch.CopySidecars | sedac-meta/metadata-file-changer.py:76-89 | the loop leaves the object in the state `Sidecars` computes over the four extensions |
| Organizer.Batch.CopySidecar | sedac-meta/metadata-file-changer.py:77-89 | one pass leaves the object in the state `SidecarStep` computes |
| Organizer.Batch.CopyUserDefined | sedac-meta/metadata-file-changer.py:92-98 | leaves the object in the state `UserDefCopies` computes, with the same error |
| Organizer.Batch.WriteStripped | sedac-meta/metadata-file-changer.py:101-108 | leaves the object in the state `StripStep` computes, with the same error |
| Organizer.Batch.ProcessRecord | sedac-meta/metadata-file-changer.py:52-108 | leaves the object in the state `RecordStep` computes, with the same error |
| Organizer.Batch.ProcessEntry | sedac-meta/metadata-file-changer.py:43-110 | leaves the object in the state `EntryStep` computes, with the same error |
| Organizer.Batch.ProcessListing | sedac-meta/metadata-file-changer.py:41-110 | the loop leaves the object in the state `Listing` computes, stopping at the first error |
| Organizer.Batch.ZipCollections | sedac-meta/metadata-file-changer.py:113-118 | the loop leaves the object in the state `Archives` computes over `chuidDirs`, stopping at the first error |
| Organizer.Batch.ZipCollection | sedac-meta/metadata-file-changer.py:114-118 | leaves the object in the state `ZipStep` computes, with the same error |
| Organizer.Batch.Execute | sedac-meta/metadata-file-changer.py:41-118 | leaves the object in the state `Finish` computes, with the same error |
| Organizer.RunScript | sedac-meta/metadata-file-changer.py:35-119 | a fresh object run over a listing ends in the state `Program` computes, with the same error |

## Left out

- Directory listing: `os.listdir` is a parameter, a sequence of entries in
  whatever order it returns them. Each entry carries the document `ET.parse`
  produces for it, or none when it does not parse.
- The XML library: parsing, the `findall`/`find` queries and serialisation in
  ISO-8859-1 are not modelled. A record is its root children plus its
  `smusrtxt` label/value children in document order. A written stripped record
  is the list of kept children.
- File contents: a file that existed before the run is known only by its
  origin, and an archive only by the directory it zips. The zip format, the
  archive's contents at the time of zipping, `copy2`'s copying of metadata,
  and the log file's own presence in the tree are not modelled.
- Clock and invocation: `strftime` and `sys.argv[0]` are fixed inputs
  (`Config`). The script calls `strftime` again at every `collection-huid`
  (lines 59 and 62); the model holds the date and the `HHMM` fixed for the
  whole run. Two records read in different minutes could get different
  time-qualified directories; `OrganizerSpec.CollectionReused` does not cover
  that.
- Output: `print` and the opening and closing of the log file are not
  modelled. The log is the sequence of lines written, and `Text` gives each
  line as written.
- Paths are plain strings. There is no normalisation, and `..` and repeated
  separators are not treated specially.
- FileSystem.Copy: copying a file onto itself succeeds in the model, whereas
  `shutil` raises an uncaught error. Permission errors, a full disk and other
  operating-system failures are not modelled for any operation.
- FileSystem.MakeArchive: only the failures of Python 2.7's `make_archive`
  with a `root_dir` are modelled (no root directory, or an archive path that
  cannot be written).
- OrganizerSpec.SidecarsLog: proved only when no copy of the loop lands on one
  of its own sources. Otherwise a later sidecar's success depends on an earlier
  copy, and the log is still the one the loop computes but not the expected
  log judged on the tree before the loop.
- OrganizerSpec.SidecarsCopied: proved only when no other copy of the loop
  lands on the same target and no copy of the loop lands on this sidecar's own
  source.
- The parsed document is taken from the listing entry, so a record file
  overwritten earlier in the same run is not re-read.
