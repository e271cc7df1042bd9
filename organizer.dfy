/** The script itself, step by step: one object holds the variables the
    script keeps across the listing loop (the tree it works on, the list of
    collection directories made, the log file's lines, `chuidDir` and
    `shuid`/`shuidDir`), and each method updates them as the script's
    statements do. Every method is proved to leave the object in the state
    the matching function of `OrganizerSpec` computes, and to report the same
    fatal error, if any. */
module Organizer {
  import opened Wrappers
  import opened Paths
  import opened Naming
  import opened XmlRecord
  import opened FileSystem
  import opened OrganizerSpec

  class Batch {
    const cfg: Config
    var fs: Fs
    var chuidDirs: seq<string>
    var log: seq<LogLine>
    var chuidDir: Option<string>
    var dataset: Option<Dataset>

    /** The variables as one value of the specification's state. */
    function Snapshot(): State
      reads this
    {
      State(fs, chuidDirs, log, chuidDir, dataset)
    }

    /** The script starts with an empty list and an empty log; `chuidDir`,
        `shuid` and `shuidDir` are not bound yet. */
    constructor (cfg: Config, fs: Fs)
      ensures this.cfg == cfg && Snapshot() == Initial(fs)
    {
      this.cfg := cfg;
      this.fs := fs;
      chuidDirs := [];
      log := [];
      chuidDir := None;
      dataset := None;
    }

    /** `scriptOut.write(line)` */
    method Emit(line: LogLine)
      modifies this
      ensures Snapshot() == old(Snapshot()).(log := old(log) + [line])
    {
      log := log + [line];
    }

    /** A `collection-huid` value: bind `chuidDir`, falling back to the timed
        name when the plain one exists from before the run, and make it
        unless this run already did. */
    method ResolveCollection(chuid: string) returns (err: Option<Fatal>)
      modifies this
      ensures Run(Snapshot(), err) == CollectionStep(cfg, old(Snapshot()), chuid)
    {
      var d := CollectionDir(cfg.cwd, cfg.date, chuid);
      if d in fs && d !in chuidDirs {
        d := TimedCollectionDir(cfg.cwd, cfg.date, cfg.hhmm, chuid);
      }
      chuidDir := Some(d);
      if d in chuidDirs {
        return None;
      }
      match Mkdir(fs, d)
      case None =>
        return Some(MkdirFailed(d));
      case Some(fs') =>
        fs := fs';
        chuidDirs := chuidDirs + [d];
        return None;
    }

    /** A `data-set-huid` value: bind `shuid` and `shuidDir`, then make the
        directory. */
    method MakeDatasetDir(value: Child) returns (err: Option<Fatal>)
      modifies this
      ensures Run(Snapshot(), err) == DatasetStep(cfg, old(Snapshot()), value)
    {
      match value
      case Absent =>
        return Some(MissingValue(DatasetLabel));
      case NoText =>
        return Some(if chuidDir.None? then NoCollection else MissingValue(DatasetLabel));
      case Text(shuid) =>
        if chuidDir.None? {
          return Some(NoCollection);
        }
        var dir := DatasetDir(chuidDir.value, shuid);
        dataset := Some(Dataset(shuid, dir));
        match Mkdir(fs, dir)
        case None =>
          return Some(MkdirFailed(dir));
        case Some(fs') =>
          fs := fs';
          return None;
    }

    /** One `smusrtxt` element. */
    method HandleLabel(t: UsrTxt) returns (err: Option<Fatal>)
      modifies this
      ensures Run(Snapshot(), err) == LabelStep(cfg, old(Snapshot()), t)
    {
      match t.smusrlbl
      case Absent =>
        return Some(MissingLabel);
      case NoText =>
        return None;
      case Text(lbl) =>
        if lbl == CollectionLabel {
          match t.smusrval
          case Text(chuid) =>
            err := ResolveCollection(chuid);
          case _ =>
            err := Some(MissingValue(CollectionLabel));
        } else if lbl == DatasetLabel {
          err := MakeDatasetDir(t.smusrval);
        } else {
          err := None;
        }
    }

    /** `for el in xmldoc.findall(".//smusrtxt")` */
    method WalkLabels(ts: seq<UsrTxt>) returns (err: Option<Fatal>)
      modifies this
      ensures Run(Snapshot(), err) == Walk(cfg, old(Snapshot()), ts)
    {
      ghost var s0 := Snapshot();
      for i := 0 to |ts|
        invariant Walk(cfg, s0, ts[..i]) == Run(Snapshot(), None)
      {
        ghost var before := Snapshot();
        err := HandleLabel(ts[i]);
        WalkNext(cfg, s0, ts, i, before, Run(Snapshot(), err));
        if err.Some? {
          return;
        }
      }
      assert ts[..|ts|] == ts;
      return None;
    }

    /** `for ext in validExtensions`: copy `<stem><ext>` into the data set
        directory under its new name; a failed copy is logged and skipped. */
    method CopySidecars(stem: string)
      requires dataset.Some?
      modifies this
      ensures Snapshot() == Sidecars(cfg, old(Snapshot()), stem, old(dataset.value), ValidExtensions)
    {
      ghost var s0 := Snapshot();
      var ds := dataset.value;
      var exts := ValidExtensions;
      for i := 0 to |exts|
        invariant Snapshot() == Sidecars(cfg, s0, stem, ds, exts[..i])
      {
        SidecarsSnoc(cfg, s0, stem, ds, exts, i);
        CopySidecar(stem, ds, exts[i]);
      }
      assert exts[..|exts|] == exts;
    }

    /** One pass of the sidecar loop: log the name, try the copy, and log a
        warning instead of stopping when it fails. */
    method CopySidecar(stem: string, ds: Dataset, ext: string)
      modifies this
      ensures Snapshot() == SidecarStep(cfg, old(Snapshot()), stem, ds, ext)
    {
      Emit(ProcessingSidecar(stem + ext));
      match Copy(fs, SidecarSource(cfg, stem, ext), SidecarDest(ds, ext))
      case Some(fs') =>
        fs := fs';
      case None =>
        Emit(NotLocated(stem + ext));
    }

    /** Make `chuidDir/fgdc-usrdef` unless it exists, then copy the record
        there as `<shuid><ext>` and into the data set directory as
        `<shuid>_fgdc-usrdef<ext>`. */
    method CopyUserDefined(name: string, ext: string) returns (err: Option<Fatal>)
      requires dataset.Some?
      modifies this
      ensures Run(Snapshot(), err) == UserDefCopies(cfg, old(Snapshot()), name, old(dataset.value), ext)
    {
      var ds := dataset.value;
      if chuidDir.None? {
        return Some(NoCollection);
      }
      var ud := UserDefDir(chuidDir.value);
      if ud !in fs {
        match Mkdir(fs, ud)
        case None =>
          return Some(MkdirFailed(ud));
        case Some(fs') =>
          fs := fs';
      }
      var src := Join(cfg.cwd, name);
      var dst1 := Join(ud, DatasetFileName(ds.shuid, ext));
      match Copy(fs, src, dst1)
      case None =>
        return Some(CopyFailed(src, dst1));
      case Some(fs') =>
        fs := fs';
      var dst2 := Join(ds.dir, UserDefSideName(ds.shuid, ext));
      match Copy(fs, src, dst2)
      case None =>
        return Some(CopyFailed(src, dst2));
      case Some(fs') =>
        fs := fs';
      return None;
    }

    /** Remove the root's `smusrdef` child and write the rest to
        `shuidDir/<shuid><ext>`. */
    method WriteStripped(ext: string, doc: Record) returns (err: Option<Fatal>)
      requires dataset.Some?
      modifies this
      ensures Run(Snapshot(), err) == StripStep(cfg, old(Snapshot()), old(dataset.value), ext, doc)
    {
      var ds := dataset.value;
      match Strip(doc.children)
      case None =>
        return Some(NoUserDefSection);
      case Some(kept) =>
        var p := Join(ds.dir, DatasetFileName(ds.shuid, ext));
        match WriteFile(fs, p, StrippedXml(kept))
        case None =>
          return Some(WriteFailed(p));
        case Some(fs') =>
          fs := fs';
          return None;
    }

    /** An FGDC record named `<fileName><ext>`. */
    method ProcessRecord(entry: Entry, fileName: string, ext: string) returns (err: Option<Fatal>)
      modifies this
      ensures Run(Snapshot(), err) == RecordStep(cfg, old(Snapshot()), entry, fileName, ext)
    {
      Emit(Processing(entry.name));
      if entry.doc.None? {
        return Some(ParseError(entry.name));
      }
      var doc := entry.doc.value;
      err := WalkLabels(doc.usrTxts);
      if err.Some? {
        return;
      }
      var stem := Stem(fileName);
      if dataset.None? {
        Emit(ProcessingSidecar(stem + ValidExtensions[0]));
        return Some(NoDataset);
      }
      CopySidecars(stem);
      err := CopyUserDefined(entry.name, ext);
      if err.Some? {
        return;
      }
      err := WriteStripped(ext, doc);
    }

    /** One name of the listing. */
    method ProcessEntry(entry: Entry) returns (err: Option<Fatal>)
      modifies this
      ensures Run(Snapshot(), err) == EntryStep(cfg, old(Snapshot()), entry)
    {
      match Classify(IsDir(fs, Join(cfg.cwd, entry.name)), entry.name, cfg.scriptName, LogName(cfg.stamp))
      case Ignored =>
        return None;
      case Skipped =>
        Emit(Skipping(entry.name));
        return None;
      case NotRecord =>
        return None;
      case Record(fileName, ext) =>
        err := ProcessRecord(entry, fileName, ext);
    }

    /** `for name in os.listdir(basepath)` */
    method ProcessListing(entries: seq<Entry>) returns (err: Option<Fatal>)
      modifies this
      ensures Run(Snapshot(), err) == Listing(cfg, old(Snapshot()), entries)
    {
      ghost var s0 := Snapshot();
      for i := 0 to |entries|
        invariant Listing(cfg, s0, entries[..i]) == Run(Snapshot(), None)
      {
        ghost var before := Snapshot();
        err := ProcessEntry(entries[i]);
        ListingNext(cfg, s0, entries, i, before, Run(Snapshot(), err));
        if err.Some? {
          return;
        }
      }
      assert entries[..|entries|] == entries;
      return None;
    }

    /** `for cd in chuidDirs`: zip each `fgdc-usrdef` directory next to it. */
    method ZipCollections() returns (err: Option<Fatal>)
      modifies this
      ensures Run(Snapshot(), err) == Archives(cfg, old(Snapshot()), old(chuidDirs))
    {
      ghost var s0 := Snapshot();
      var dirs := chuidDirs;
      for i := 0 to |dirs|
        invariant Archives(cfg, s0, dirs[..i]) == Run(Snapshot(), None)
      {
        ghost var before := Snapshot();
        err := ZipCollection(dirs[i]);
        ArchivesNext(cfg, s0, dirs, i, before, Run(Snapshot(), err));
        if err.Some? {
          return;
        }
      }
      assert dirs[..|dirs|] == dirs;
      return None;
    }

    /** Zip `cd/fgdc-usrdef` to `cd/<basename(cd)>_fgdc-usrdef.zip` and log it. */
    method ZipCollection(cd: string) returns (err: Option<Fatal>)
      modifies this
      ensures Run(Snapshot(), err) == ZipStep(cfg, old(Snapshot()), cd)
    {
      match MakeArchive(fs, ArchiveBase(cd), UserDefDir(cd))
      case None =>
        return Some(ArchiveFailed(cd));
      case Some(fs') =>
        fs := fs';
      Emit(Zipping(cd));
      return None;
    }

    /** The listing loop, then the archive loop. */
    method Execute(entries: seq<Entry>) returns (err: Option<Fatal>)
      modifies this
      ensures Run(Snapshot(), err) == Finish(cfg, old(Snapshot()), entries)
    {
      err := ProcessListing(entries);
      if err.Some? {
        return;
      }
      err := ZipCollections();
    }
  }

  /** The whole script over a tree and a listing of its working directory. */
  method RunScript(cfg: Config, fs: Fs, entries: seq<Entry>) returns (b: Batch, err: Option<Fatal>)
    ensures fresh(b) && b.cfg == cfg
    ensures Run(b.Snapshot(), err) == Program(cfg, fs, entries)
  {
    b := new Batch(cfg, fs);
    err := b.Execute(entries);
  }
}
