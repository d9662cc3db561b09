/** POSIX `os.path.join`, `os.path.basename` and `os.path.dirname` over strings. */
module Paths {

  /** `os.path.join(a, b)`: an absolute `b` replaces `a`; otherwise one `/` separates them. */
  function PathJoin(a: string, b: string): string {
    if b != [] && b[0] == '/' then b
    else if a == [] || a[|a| - 1] == '/' then a + b
    else a + "/" + b
  }

  /** The index just after the last `/` of `p`, or 0 when `p` has none. */
  function LastSlashEnd(p: string): (k: nat)
    ensures k <= |p|
    ensures k > 0 ==> p[k - 1] == '/'
    ensures forall i :: k <= i < |p| ==> p[i] != '/'
  {
    if p == [] then 0
    else if p[|p| - 1] == '/' then |p|
    else LastSlashEnd(p[..|p| - 1])
  }

  /** `os.path.basename(p)`: everything after the last `/`. */
  function Basename(p: string): string {
    p[LastSlashEnd(p)..]
  }

  predicate AllSlashes(s: string) {
    forall i :: 0 <= i < |s| ==> s[i] == '/'
  }

  /** `s.rstrip("/")`. */
  function RStripSlashes(s: string): (r: string)
    ensures |r| <= |s| && r == s[..|r|]
    ensures r == [] || r[|r| - 1] != '/'
  {
    if s != [] && s[|s| - 1] == '/' then RStripSlashes(s[..|s| - 1]) else s
  }

  /** `os.path.dirname(p)`: everything up to the last `/`, trailing slashes removed unless it is all slashes. */
  function Dirname(p: string): string {
    var head := p[..LastSlashEnd(p)];
    if head != [] && !AllSlashes(head) then RStripSlashes(head) else head
  }

  lemma {:induction false} LastSlashEndNoSlashTail(a: string, b: string)
    requires forall i :: 0 <= i < |b| ==> b[i] != '/'
    ensures LastSlashEnd(a + b) == LastSlashEnd(a)
    decreases |b|
  {
    if b == [] {
      assert a + b == a;
    } else {
      var s := a + b;
      assert s[..|s| - 1] == a + b[..|b| - 1];
      LastSlashEndNoSlashTail(a, b[..|b| - 1]);
    }
  }

  /** A plain file name (non-empty, no `/`). */
  predicate Plain(f: string) {
    f != [] && forall i :: 0 <= i < |f| ==> f[i] != '/'
  }

  /** `os.path.basename(os.path.join(dir, f)) == f` for a plain `f`. */
  lemma BasenameOfJoin(dir: string, f: string)
    requires Plain(f)
    ensures Basename(PathJoin(dir, f)) == f
  {
    var pre := if dir == [] || dir[|dir| - 1] == '/' then dir else dir + "/";
    assert PathJoin(dir, f) == pre + f;
    LastSlashEndNoSlashTail(pre, f);
    assert LastSlashEnd(pre) == |pre|;
  }

  /** `os.path.dirname(os.path.join(dir, f)) == dir` for a plain `f` and a `dir` without a trailing `/`. */
  lemma DirnameOfJoin(dir: string, f: string)
    requires dir != [] && dir[|dir| - 1] != '/'
    requires Plain(f)
    ensures Dirname(PathJoin(dir, f)) == dir
  {
    var p := dir + "/" + f;
    assert PathJoin(dir, f) == p;
    LastSlashEndNoSlashTail(dir + "/", f);
    assert LastSlashEnd(p) == |dir| + 1;
    var head := p[..|dir| + 1];
    assert head == dir + "/";
    assert head[|dir| - 1] != '/';
    assert head[..|dir|] == dir;
    assert RStripSlashes(head) == RStripSlashes(dir);
  }

  /**
   * The parent directory's name of `dir/name/file` is `name`:
   * `os.path.basename(os.path.dirname(os.path.join(dir, name, file))) == name`.
   */
  lemma DirBaseOfJoin(dir: string, name: string, file: string)
    requires Plain(name) && Plain(file)
    ensures Basename(Dirname(PathJoin(PathJoin(dir, name), file))) == name
  {
    var x := PathJoin(dir, name);
    assert x != [] && x[|x| - 1] == name[|name| - 1];
    DirnameOfJoin(x, file);
    BasenameOfJoin(dir, name);
  }

  /** Two file names with the same first character give the same path in `dir` only if they are equal. */
  lemma PathJoinInjective(dir: string, f: string, g: string)
    requires f != [] && g != [] && f[0] == g[0]
    requires PathJoin(dir, f) == PathJoin(dir, g)
    ensures f == g
  {
    if f[0] != '/' {
      var pre := if dir == [] || dir[|dir| - 1] == '/' then dir else dir + "/";
      assert PathJoin(dir, f) == pre + f && PathJoin(dir, g) == pre + g;
      assert f == (pre + f)[|pre|..];
      assert g == (pre + g)[|pre|..];
    }
  }

  /** Different file names with the same first character give different paths in `dir`. */
  lemma PathJoinDistinct(dir: string, f: string, g: string)
    requires f != [] && g != [] && f[0] == g[0] && f != g
    ensures PathJoin(dir, f) != PathJoin(dir, g)
  {
    if PathJoin(dir, f) == PathJoin(dir, g) {
      PathJoinInjective(dir, f, g);
    }
  }
}
