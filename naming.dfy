/** The names the script derives: which directory entries it looks at, the
    stem shared by a record and its sidecar files, and every file and
    directory name it creates. */
module Naming {
  import opened Paths

  /** The extensions the script handles, in the order it tries the sidecars. */
  const ValidExtensions: seq<string> := [".xml", ".txt", ".html", ".gce"]
  /** File-name prefix marking an FGDC record. */
  const RecordPrefix: string := "FGDC_"
  const CollectionLabel: string := "collection-huid"
  const DatasetLabel: string := "data-set-huid"
  /** Tag of the root child holding the user-defined section. */
  const UserDefTag: string := "smusrdef"
  /** Per-collection directory that keeps the full records. */
  const UserDefDirName: string := "fgdc-usrdef"

  /** Name of the log file, from the `%Y%m%d-%H%M%S` time stamp of the start. */
  function LogName(stamp: string): string {
    "processing_output_" + stamp + ".txt"
  }

  /** The log file has `.txt`, one of the handled extensions, but it never
      looks like an FGDC record. */
  lemma LogNameShape(stamp: string)
    ensures '/' !in stamp ==> SplitExt(LogName(stamp)) == ("processing_output_" + stamp, ".txt")
    ensures !StartsWith(LogName(stamp), RecordPrefix)
  {
    var root := "processing_output_" + stamp;
    assert root[0] == LogName(stamp)[0] == 'p';
    assert LogName(stamp)[..|RecordPrefix|][0] != RecordPrefix[0];
    if '/' !in stamp {
      assert '/' !in "processing_output_";
      NoSeparatorInJoined("processing_output_", stamp);
      assert ".txt"[0] == '.' && ".txt"[1..] == "txt";
      SplitExtOfName(root, ".txt");
    }
  }

  /** `fileName[5:]`: the record's name without its extension and with its
      first five characters dropped. */
  function Stem(fileName: string): (r: string)
    ensures StartsWith(fileName, RecordPrefix) ==> RecordPrefix + r == fileName
    ensures |r| <= |fileName| && r == fileName[|fileName| - |r|..]
  {
    if |fileName| <= 5 then "" else fileName[5..]
  }

  /** What the listing loop does with one entry. */
  datatype Disposition =
    | Ignored                                  // a directory, the script itself or its log
    | Skipped                                  // extension outside the allowed four: logged
    | NotRecord                                // allowed extension but no record prefix: silent
    | Record(fileName: string, ext: string)    // an FGDC record, split by `splitext`

  function Classify(isDir: bool, name: string, scriptName: string, logName: string): (r: Disposition)
    ensures r.Ignored? <==> isDir || name == scriptName || name == logName
    ensures r.Skipped? <==> !r.Ignored? && SplitExt(name).1 !in ValidExtensions
    ensures r.NotRecord? <==>
      !r.Ignored? && SplitExt(name).1 in ValidExtensions && !StartsWith(SplitExt(name).0, RecordPrefix)
    ensures r.Record? ==>
      r.fileName + r.ext == name && r.ext in ValidExtensions && StartsWith(r.fileName, RecordPrefix)
  {
    if isDir || name == scriptName || name == logName then Ignored
    else
      var (fileName, ext) := SplitExt(name);
      if ext in ValidExtensions then
        if StartsWith(fileName, RecordPrefix) then Record(fileName, ext) else NotRecord
      else Skipped
  }

  /** A file named `FGDC_<stem><ext>` with an allowed extension is a record,
      and the stem the script derives from it is `<stem>` again. */
  lemma RecordNameClassified(stem: string, ext: string, scriptName: string, logName: string)
    requires ext in ValidExtensions && '/' !in stem
    requires RecordPrefix + stem + ext != scriptName && RecordPrefix + stem + ext != logName
    ensures Classify(false, RecordPrefix + stem + ext, scriptName, logName) == Record(RecordPrefix + stem, ext)
    ensures Stem(RecordPrefix + stem) == stem
  {
    var root := RecordPrefix + stem;
    assert root[0] != '.';
    assert '/' !in root by {
      assert forall k :: 0 <= k < |root| ==> root[k] == if k < 5 then RecordPrefix[k] else stem[k - 5];
    }
    SplitExtOfName(root, ext);
    assert root[..|RecordPrefix|] == RecordPrefix;
  }

  /** Destination name of a sidecar: the `.xml` one becomes `<shuid>_iso.xml`,
      the others keep their extension after the data-set identifier. */
  function SidecarName(shuid: string, ext: string): string {
    if ext == ".xml" then shuid + "_iso" + ext else shuid + ext
  }

  /** A sidecar copy is named after the data set and keeps the sidecar's
      extension; it differs from `<shuid><ext>` exactly for `.xml`. */
  lemma SidecarNameShape(shuid: string, ext: string)
    ensures StartsWith(SidecarName(shuid, ext), shuid) && EndsWith(SidecarName(shuid, ext), ext)
    ensures SidecarName(shuid, ext) == DatasetFileName(shuid, ext) <==> ext != ".xml"
  {
    var r := SidecarName(shuid, ext);
    assert r[..|shuid|] == shuid;
  }

  /** Name of the full record copy inside the dataset directory. */
  function UserDefSideName(shuid: string, ext: string): string {
    shuid + "_fgdc-usrdef" + ext
  }

  /** The full copy beside the stripped record is named after the data set,
      keeps the record's extension and is twelve characters longer than the
      stripped record's name. */
  lemma UserDefSideNameShape(shuid: string, ext: string)
    ensures StartsWith(UserDefSideName(shuid, ext), shuid) && EndsWith(UserDefSideName(shuid, ext), ext)
    ensures |UserDefSideName(shuid, ext)| == |DatasetFileName(shuid, ext)| + 12
  {
    var r := UserDefSideName(shuid, ext);
    assert r[..|shuid|] == shuid;
  }

  /** Name of the full record copy in `fgdc-usrdef/`, and of the stripped record
      in the dataset directory. */
  function DatasetFileName(shuid: string, ext: string): string {
    shuid + ext
  }

  /** For an ordinary data set identifier, `splitext` of the stripped record's
      name gives back the identifier and the record's extension. */
  lemma DatasetFileNameSplits(shuid: string, ext: string)
    requires ext in ValidExtensions && '/' !in shuid
    requires exists k :: 0 <= k < |shuid| && shuid[k] != '.'
    ensures SplitExt(DatasetFileName(shuid, ext)) == (shuid, ext)
  {
    SplitExtOfName(shuid, ext);
  }

  /** For an `.xml` record the six files written into the dataset directory
      have six different names. */
  lemma XmlRecordOutputsDistinct(shuid: string)
    ensures forall e1, e2 :: e1 in ValidExtensions && e2 in ValidExtensions && e1 != e2 ==>
      SidecarName(shuid, e1) != SidecarName(shuid, e2)
    ensures forall e :: e in ValidExtensions ==>
      SidecarName(shuid, e) != DatasetFileName(shuid, ".xml") &&
      SidecarName(shuid, e) != UserDefSideName(shuid, ".xml")
    ensures DatasetFileName(shuid, ".xml") != UserDefSideName(shuid, ".xml")
  {
    var n := |shuid|;
    assert (shuid + ".txt")[n + 1] != (shuid + ".gce")[n + 1];
    assert (shuid + "_iso.xml")[n] != (shuid + ".txt")[n];
  }

  /** The stripped record lands on a sidecar's name exactly when the record
      has that sidecar's extension and it is not `.xml`: a `.txt`, `.html` or
      `.gce` record overwrites the copied sidecar of the same extension. */
  lemma StrippedMeetsSidecar(shuid: string, ext: string, e: string)
    requires ext in ValidExtensions && e in ValidExtensions
    ensures DatasetFileName(shuid, ext) == SidecarName(shuid, e) <==> ext == e && e != ".xml"
  {
    var n := |shuid|;
    if DatasetFileName(shuid, ext) == SidecarName(shuid, e) {
      if e != ".xml" {
        assert ext == (shuid + ext)[n..] == (shuid + e)[n..] == e;
      }
    }
  }

  /** `<date>_<chuid>` under the working directory. */
  function CollectionDir(cwd: string, date: string, chuid: string): string {
    Join(cwd, date + "_" + chuid)
  }

  /** `<date>_<HHMM>_<chuid>` under the working directory: the fallback when
      the plain name is taken by an earlier run. */
  function TimedCollectionDir(cwd: string, date: string, hhmm: string, chuid: string): string {
    Join(cwd, date + "_" + hhmm + "_" + chuid)
  }

  /** Both collection directories sit in the working directory and are
      named `<date>_<chuid>` and `<date>_<HHMM>_<chuid>`. */
  lemma CollectionDirNamed(cwd: string, date: string, hhmm: string, chuid: string)
    requires '/' !in date && '/' !in hhmm && '/' !in chuid
    ensures StartsWith(CollectionDir(cwd, date, chuid), cwd)
    ensures Basename(CollectionDir(cwd, date, chuid)) == date + "_" + chuid
    ensures StartsWith(TimedCollectionDir(cwd, date, hhmm, chuid), cwd)
    ensures Basename(TimedCollectionDir(cwd, date, hhmm, chuid)) == date + "_" + hhmm + "_" + chuid
  {
    var plain, timed := date + "_" + chuid, date + "_" + hhmm + "_" + chuid;
    assert plain[0] != '/' && timed[0] != '/' by {
      if date == "" { assert plain[0] == timed[0] == '_'; } else { assert plain[0] == timed[0] == date[0]; }
    }
    JoinedName(cwd, plain);
    JoinedName(cwd, timed);
  }

  /** The fallback name never coincides with the plain one. */
  lemma TimedDiffers(cwd: string, date: string, hhmm: string, chuid: string)
    ensures TimedCollectionDir(cwd, date, hhmm, chuid) != CollectionDir(cwd, date, chuid)
  {
    var plain, timed := date + "_" + chuid, date + "_" + hhmm + "_" + chuid;
    assert |timed| == |plain| + |hhmm| + 1;
    assert (|plain| > 0 && plain[0] == '/') <==> (|timed| > 0 && timed[0] == '/') by {
      if date == "" { assert plain[0] == timed[0] == '_'; } else { assert plain[0] == timed[0] == date[0]; }
    }
  }

  /** `chuidDir + os.sep + shuid` */
  function DatasetDir(chuidDir: string, shuid: string): string {
    chuidDir + "/" + shuid
  }

  /** `chuidDir + os.sep + 'fgdc-usrdef'` */
  function UserDefDir(chuidDir: string): string {
    chuidDir + "/" + UserDefDirName
  }

  /** A data set directory and `fgdc-usrdef` sit directly inside the
      collection directory, under their own names. */
  lemma CollectionChildren(chuidDir: string, shuid: string)
    requires '/' !in shuid
    ensures Basename(DatasetDir(chuidDir, shuid)) == shuid
    ensures Parent(DatasetDir(chuidDir, shuid)) == (if chuidDir == "" then "/" else chuidDir)
    ensures Basename(UserDefDir(chuidDir)) == UserDefDirName
    ensures Parent(UserDefDir(chuidDir)) == (if chuidDir == "" then "/" else chuidDir)
  {
    LastComponent(chuidDir, shuid);
    LastComponent(chuidDir, UserDefDirName);
  }

  /** `cd + os.sep + basename(cd) + "_fgdc-usrdef"`; the archiver adds `.zip`. */
  function ArchiveBase(cd: string): string {
    cd + "/" + Basename(cd) + "_fgdc-usrdef"
  }

  /** The archive of a collection directory sits inside it and is named after
      its last component, so the log line names `<basename(cd)>_fgdc-usrdef.zip`. */
  lemma ArchiveNamedAfterCollection(cd: string)
    ensures Parent(ArchiveBase(cd)) == (if cd == "" then "/" else cd)
    ensures Basename(ArchiveBase(cd)) == Basename(cd) + "_fgdc-usrdef"
  {
    var b := Basename(cd) + "_fgdc-usrdef";
    assert ArchiveBase(cd) == cd + "/" + b;
    assert '/' !in "_fgdc-usrdef";
    NoSeparatorInJoined(Basename(cd), "_fgdc-usrdef");
    LastComponent(cd, b);
  }

  /** The full copy beside the stripped record is always longer than the
      stripped record's path, so the stripped write never lands on it. */
  lemma SideCopyLonger(dir: string, shuid: string, ext: string)
    ensures |Join(dir, UserDefSideName(shuid, ext))| > |Join(dir, DatasetFileName(shuid, ext))|
  {
    var side, plain := UserDefSideName(shuid, ext), DatasetFileName(shuid, ext);
    if shuid != "" {
      assert side[0] == plain[0] == shuid[0];
    }
  }

  /** Within one collection directory, the full copy in `fgdc-usrdef/` and the
      stripped record share a path exactly when the data set identifier is
      `fgdc-usrdef`: then the data set directory is `fgdc-usrdef` itself and
      the stripped write replaces the full copy. */
  lemma UserDefCopyMeetsStripped(cd: string, shuid: string, ext: string)
    requires shuid != "" && '/' !in shuid
    ensures Join(UserDefDir(cd), DatasetFileName(shuid, ext)) == Join(DatasetDir(cd, shuid), DatasetFileName(shuid, ext))
        <==> shuid == UserDefDirName
  {
    var n := DatasetFileName(shuid, ext);
    assert n[0] == shuid[0] != '/';
    var a, b := UserDefDir(cd), DatasetDir(cd, shuid);
    assert a[|a| - 1] != '/' && b[|b| - 1] != '/' by {
      assert b[|b| - 1] == shuid[|shuid| - 1];
    }
    if Join(a, n) == Join(b, n) {
      assert |shuid| == |UserDefDirName|;
      assert b == Join(b, n)[..|b|] == Join(a, n)[..|a|] == a;
      assert shuid == b[|cd| + 1..] == a[|cd| + 1..] == UserDefDirName;
    }
  }

  /** One line of the log file, by what it reports. */
  datatype LogLine =
    | Processing(name: string)             // an FGDC record
    | ProcessingSidecar(fileName: string)  // one of its sidecar files
    | NotLocated(fileName: string)         // a sidecar copy that failed
    | Skipping(name: string)               // a name with another extension
    | Zipping(collection: string)          // the archive of a collection directory

  /** The line as the script writes it, without its newline. */
  function Text(l: LogLine): (r: string)
    ensures |r| > 0 && (r[0] == ' ' <==> l.ProcessingSidecar? || l.NotLocated?)
    ensures l.Processing? || l.Skipping? ==> EndsWith(r, l.name)
    ensures l.ProcessingSidecar? || l.NotLocated? ==> EndsWith(r, l.fileName)
    ensures l.Zipping? ==> EndsWith(r, Basename(l.collection) + "_fgdc-usrdef" + ".zip")
  {
    match l
    case Processing(name) => assert ("processing: " + name)[0] == 'p'; "processing: " + name
    case ProcessingSidecar(f) => "  processing: " + f
    case NotLocated(f) => "  WARN: Could not locate: " + f
    case Skipping(name) => assert ("SKIPPING: " + name)[0] == 'S'; "SKIPPING: " + name
    case Zipping(cd) => ZipText(cd)
  }

  /** The `ZIPPING:` line of a collection directory: it ends with the
      archive's file name, `<basename(cd)>_fgdc-usrdef.zip`. */
  function ZipText(cd: string): (r: string)
    ensures |r| > 0 && r[0] == 'Z'
    ensures EndsWith(r, Basename(cd) + "_fgdc-usrdef" + ".zip")
  {
    ArchiveNamedAfterCollection(cd);
    var head, tail := "ZIPPING: " + UserDefDir(cd) + " to: ", Basename(ArchiveBase(cd)) + ".zip";
    EndsWithAppended(head, tail);
    assert (head + tail)[0] == head[0] == 'Z';
    head + tail
  }

  /** The log can be read back: the text of a line tells its kind, and for
      every kind but `ZIPPING:` also the name it reports. */
  lemma TextTellsLine(a: LogLine, b: LogLine)
    requires Text(a) == Text(b)
    ensures a.Processing? == b.Processing? && a.ProcessingSidecar? == b.ProcessingSidecar?
    ensures a.NotLocated? == b.NotLocated? && a.Skipping? == b.Skipping? && a.Zipping? == b.Zipping?
    ensures !a.Zipping? ==> a == b
  {
    var s := Text(a);
    assert s[0] == Text(b)[0] && s[2] == Text(b)[2];
    match a
    case Processing(x) =>
      assert Text(b)[0] == 'p';
      var y := b.name;
      assert x == s[12..] && y == Text(b)[12..];
    case ProcessingSidecar(x) =>
      assert Text(b)[0] == ' ' && Text(b)[2] == 'p';
      var y := b.fileName;
      assert x == s[14..] && y == Text(b)[14..];
    case NotLocated(x) =>
      assert Text(b)[0] == ' ' && Text(b)[2] == 'W';
      var y := b.fileName;
      assert x == s[26..] && y == Text(b)[26..];
    case Skipping(x) =>
      assert Text(b)[0] == 'S';
      var y := b.name;
      assert x == s[10..] && y == Text(b)[10..];
    case Zipping(_) =>
      assert Text(b)[0] == 'Z';
  }
}
