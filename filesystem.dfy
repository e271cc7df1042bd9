/** The working directory tree as the script sees it: a map from path to
    directory or file. The four operations are the ones the script calls:
    `os.mkdir`, `shutil.copy2`, `open(p, 'w')` with a write, and
    `shutil.make_archive`. Each either yields the new tree or fails. */
module FileSystem {
  import opened Wrappers
  import opened Paths
  import opened XmlRecord

  /** What a file holds: a file that was there before the run (named by
      where it was), a stripped record, or a zip of a directory. */
  datatype Blob = Given(origin: string) | StrippedXml(children: seq<Element>) | ZipOf(root: string)

  datatype Node = Dir | File(blob: Blob)

  type Fs = map<string, Node>

  predicate IsDir(fs: Fs, p: string) { p in fs && fs[p].Dir? }

  predicate IsFile(fs: Fs, p: string) { p in fs && fs[p].File? }

  /** `fs'` keeps every path of `fs`, and no directory becomes a file nor a
      file a directory. Nothing the script does removes anything. */
  predicate Extends(fs: Fs, fs': Fs) {
    forall p :: p in fs ==> p in fs' && fs'[p].Dir? == fs[p].Dir?
  }

  /** Where a new file can be opened for writing: the path is not a
      directory, and its parent is one. */
  predicate CanCreateFile(fs: Fs, p: string) {
    !IsDir(fs, p) && IsDir(fs, Parent(p))
  }

  /** `os.mkdir(p)`: fails when `p` exists or its parent is not a directory. */
  function Mkdir(fs: Fs, p: string): (r: Option<Fs>)
    ensures r.Some? <==> p !in fs && IsDir(fs, Parent(p))
    ensures r.Some? ==> Extends(fs, r.value) && IsDir(r.value, p)
    ensures r.Some? ==> r.value.Keys == fs.Keys + {p} && forall q :: q in fs ==> r.value[q] == fs[q]
  {
    if p !in fs && IsDir(fs, Parent(p)) then Some(fs[p := Dir]) else None
  }

  /** `open(p, 'w')` followed by a write of `blob`. */
  function WriteFile(fs: Fs, p: string, blob: Blob): (r: Option<Fs>)
    ensures r.Some? <==> CanCreateFile(fs, p)
    ensures r.Some? ==> Extends(fs, r.value) && r.value.Keys == fs.Keys + {p}
    ensures r.Some? ==> r.value[p] == File(blob)
    ensures r.Some? ==> forall q :: q in fs && q != p ==> r.value[q] == fs[q]
  {
    if CanCreateFile(fs, p) then Some(fs[p := File(blob)]) else None
  }

  /** Where `shutil.copy2(src, dst)` writes: into `dst` when that is a
      directory, under the source's basename; otherwise `dst` itself. */
  function CopyTarget(fs: Fs, src: string, dst: string): string {
    if IsDir(fs, dst) then Join(dst, Basename(src)) else dst
  }

  /** A copy lands on `dst` itself, or inside the directory `dst` under the
      source's own file name. */
  lemma CopyTargetPlaced(fs: Fs, src: string, dst: string)
    ensures !IsDir(fs, dst) ==> CopyTarget(fs, src, dst) == dst
    ensures IsDir(fs, dst) ==> StartsWith(CopyTarget(fs, src, dst), dst)
    ensures IsDir(fs, dst) ==> Basename(CopyTarget(fs, src, dst)) == Basename(src)
  {
    JoinedName(dst, Basename(src));
  }

  /** `shutil.copy2(src, dst)`: fails when the source is not a regular file
      or the target cannot be opened for writing. */
  function Copy(fs: Fs, src: string, dst: string): (r: Option<Fs>)
    ensures r.Some? <==> IsFile(fs, src) && CanCreateFile(fs, CopyTarget(fs, src, dst))
    ensures r.Some? ==> Extends(fs, r.value)
    ensures r.Some? ==> r.value == fs[CopyTarget(fs, src, dst) := fs[src]]
    ensures r.Some? ==> forall p :: IsDir(r.value, p) <==> IsDir(fs, p)
  {
    if IsFile(fs, src) then WriteFile(fs, CopyTarget(fs, src, dst), fs[src].blob) else None
  }

  /** `shutil.make_archive(base, 'zip', root_dir=rootDir)`: fails when the
      root is not a directory; otherwise writes `base.zip`. */
  function MakeArchive(fs: Fs, base: string, rootDir: string): (r: Option<Fs>)
    ensures r.Some? <==> IsDir(fs, rootDir) && CanCreateFile(fs, base + ".zip")
    ensures r.Some? ==> Extends(fs, r.value) && base + ".zip" in r.value && r.value[base + ".zip"] == File(ZipOf(rootDir))
    ensures r.Some? ==> forall q :: q in fs && q != base + ".zip" ==> q in r.value && r.value[q] == fs[q]
  {
    if IsDir(fs, rootDir) then WriteFile(fs, base + ".zip", ZipOf(rootDir)) else None
  }

  /** Writing a file at `p` moves no copy target, and leaves the file at a
      copy target in place unless it is `p`; a target whose destination is
      longer than `p` is never `p`. */
  lemma WriteKeepsCopies(fs: Fs, p: string, blob: Blob, src: string, dst1: string, dst2: string)
    requires !IsDir(fs, p) && |dst2| > |p|
    ensures var fs' := fs[p := File(blob)];
      && CopyTarget(fs', src, dst1) == CopyTarget(fs, src, dst1)
      && CopyTarget(fs', src, dst2) == CopyTarget(fs, src, dst2) != p
  {
    var fs' := fs[p := File(blob)];
    assert IsDir(fs', dst1) == IsDir(fs, dst1);
    assert IsDir(fs', dst2) == IsDir(fs, dst2);
  }
}
