/** POSIX path handling as the script uses it through `os.path`: `join`,
    `basename`, `splitext`, and the parent directory that `mkdir` and file
    creation need. Paths are plain strings; nothing is normalised. */
module Paths {
  import opened Wrappers

  predicate StartsWith(s: string, prefix: string) {
    |prefix| <= |s| && s[..|prefix|] == prefix
  }

  predicate EndsWith(s: string, suffix: string) {
    |suffix| <= |s| && s[|s| - |suffix|..] == suffix
  }

  lemma EndsWithAppended(s: string, suffix: string)
    ensures EndsWith(s + suffix, suffix)
  {
    assert (s + suffix)[|s|..] == suffix;
  }

  /** Text joined from two separator-free pieces is separator-free. */
  lemma NoSeparatorInJoined(a: string, b: string)
    requires '/' !in a && '/' !in b
    ensures '/' !in a + b
  {
    assert forall k :: 0 <= k < |a + b| ==> (a + b)[k] in a || (a + b)[k] in b;
  }

  /** Index of the last occurrence of `c` in `s` (Python's `str.rfind`). */
  function LastIndexOf(s: string, c: char): (r: Option<nat>)
    ensures r.None? <==> c !in s
    ensures r.Some? ==> r.value < |s| && s[r.value] == c && c !in s[r.value + 1..]
  {
    if s == [] then None
    else if s[|s| - 1] == c then Some(|s| - 1)
    else
      var r := LastIndexOf(s[..|s| - 1], c);
      assert s == s[..|s| - 1] + [s[|s| - 1]];
      if r.Some? then
        assert s[r.value + 1..] == s[..|s| - 1][r.value + 1..] + [s[|s| - 1]];
        r
      else r
  }

  /** The three facts that LastIndexOf promises determine its result. */
  lemma LastIndexOfIs(s: string, c: char, i: nat)
    requires i < |s| && s[i] == c && c !in s[i + 1..]
    ensures LastIndexOf(s, c) == Some(i)
  {
  }

  /** `os.path.join(a, b)`: an absolute `b` replaces `a`; otherwise a single
      separator is inserted unless `a` is empty or already ends with one. */
  function Join(a: string, b: string): string {
    if |b| > 0 && b[0] == '/' then b
    else if a == "" || a[|a| - 1] == '/' then a + b
    else a + "/" + b
  }

  /** `os.path.basename(p)`: everything after the last separator. */
  function Basename(p: string): (r: string)
    ensures '/' !in r
    ensures |r| <= |p| && p[|p| - |r|..] == r
    ensures '/' !in p ==> r == p
  {
    match LastIndexOf(p, '/')
    case None => p
    case Some(i) => p[i + 1..]
  }

  /** The directory in which `p` would be created: everything before the last
      separator, the root when that separator is the first character. */
  function Parent(p: string): string {
    match LastIndexOf(p, '/')
    case None => ""
    case Some(i) => if i == 0 then "/" else p[..i]
  }

  /** The text after an appended separator is the last component, and the
      text before it the parent. */
  lemma LastComponent(a: string, b: string)
    requires '/' !in b
    ensures Basename(a + "/" + b) == b
    ensures Parent(a + "/" + b) == if a == "" then "/" else a
  {
    var p := a + "/" + b;
    assert p[|a| + 1..] == b;
    LastIndexOfIs(p, '/', |a|);
    if a != "" { assert p[..|a|] == a; }
  }

  /** `join(a, b)` ends with `b`, keeps `a` in front unless `b` is absolute,
      and, for a separator-free `b`, has `b` as its last component. */
  lemma JoinedName(a: string, b: string)
    ensures EndsWith(Join(a, b), b)
    ensures !(|b| > 0 && b[0] == '/') ==> StartsWith(Join(a, b), a)
    ensures '/' !in b ==> Basename(Join(a, b)) == b
  {
    var r := Join(a, b);
    if !(|b| > 0 && b[0] == '/') && a != "" {
      if a[|a| - 1] == '/' {
        assert r[|a|..] == b && r[..|a|] == a;
        if '/' !in b {
          LastIndexOfIs(r, '/', |a| - 1);
        }
      } else {
        assert r[..|a|] == a;
        if '/' !in b {
          LastComponent(a, b);
        }
      }
    }
  }

  /** The parent of a path with a separator is the part before its last
      separator, or the root; a path without one has an empty parent. */
  lemma ParentBeforeLastSeparator(p: string)
    ensures '/' !in p ==> Parent(p) == ""
    ensures '/' in p ==> |Parent(p)| > 0 && StartsWith(p, Parent(p))
    ensures '/' in p && Parent(p) != "/" ==>
      |Parent(p)| < |p| && p[|Parent(p)|] == '/' && '/' !in p[|Parent(p)| + 1..]
  {
  }

  /** `os.path.splitext(p)`: the extension starts at the last dot of the last
      path component, provided something other than a dot precedes it in that
      component (so ".profile" has no extension). */
  function SplitExt(p: string): (r: (string, string))
    ensures r.0 + r.1 == p
    ensures r.1 == [] || (r.1[0] == '.' && '.' !in r.1[1..] && '/' !in r.1)
  {
    match LastIndexOf(p, '.')
    case None => (p, "")
    case Some(dot) =>
      var start := match LastIndexOf(p, '/') case None => 0 case Some(sep) => sep + 1;
      if start <= dot && exists k :: start <= k < dot && p[k] != '.' then
        assert p[dot..][1..] == p[dot + 1..];
        (p[..dot], p[dot..])
      else (p, "")
  }

  /** A name made of a separator-free root that has a character other than a
      dot, and an extension made of a dot and dot-free text, splits back into
      exactly that root and extension. */
  lemma SplitExtOfName(root: string, ext: string)
    requires '/' !in root && '/' !in ext
    requires exists k :: 0 <= k < |root| && root[k] != '.'
    requires |ext| > 0 && ext[0] == '.' && '.' !in ext[1..]
    ensures SplitExt(root + ext) == (root, ext)
  {
    var p := root + ext;
    assert p[|root| + 1..] == ext[1..];
    LastIndexOfIs(p, '.', |root|);
    var k :| 0 <= k < |root| && root[k] != '.';
    assert p[k] != '.';
    assert p[..|root|] == root;
  }
}
