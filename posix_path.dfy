/** The parts of Python's posixpath (os.path on POSIX systems) that the editor uses to
    build file names: basename, dirname, splitext and join. */
module PosixPath {
  import opened Common

  /** str.rfind(c): the last index of `c`, or -1. */
  function RFind(s: string, c: char): (i: int)
    ensures -1 <= i < |s|
    ensures i >= 0 ==> s[i] == c
    ensures forall j :: i < j < |s| ==> s[j] != c
    decreases |s|
  {
    if s == [] then -1
    else if s[|s| - 1] == c then |s| - 1
    else RFind(s[..|s| - 1], c)
  }

  /** os.path.basename: what follows the last '/'. */
  function Basename(p: string): (r: string)
    ensures '/' !in r
    ensures |r| <= |p| && r == p[|p| - |r|..]
  {
    p[RFind(p, '/') + 1..]
  }

  function RStripSlashes(s: string): (r: string)
    ensures |r| <= |s| && r == s[..|r|]
    decreases |s|
  {
    if s != [] && s[|s| - 1] == '/' then RStripSlashes(s[..|s| - 1]) else s
  }

  predicate AllSlashes(s: string) { forall i :: 0 <= i < |s| ==> s[i] == '/' }

  /** os.path.dirname: everything up to the last '/', trailing slashes removed unless the
      head is made of slashes only. */
  function Dirname(p: string): (r: string)
    ensures |r| <= |p| && r == p[..|r|]
  {
    var head := p[..RFind(p, '/') + 1];
    if head != [] && !AllSlashes(head) then RStripSlashes(head) else head
  }

  /** os.path.splitext: the extension starts at the last '.' of the base name, provided
      that some character before it in the base name is not a '.'. */
  function Splitext(p: string): (r: (string, string))
    ensures r.0 + r.1 == p
    ensures r.1 == [] || (r.1[0] == '.' && '/' !in r.1 && '.' !in r.1[1..])
  {
    var sep := RFind(p, '/');
    var dot := RFind(p, '.');
    if dot > sep && exists i :: sep + 1 <= i < dot && p[i] != '.' then
      assert p[..dot] + p[dot..] == p;
      (p[..dot], p[dot..])
    else (p, [])
  }

  /** os.path.join(a, b) for two components. */
  function Join(a: string, b: string): (r: string)
    ensures b != [] && b[0] == '/' ==> r == b
  {
    if b != [] && b[0] == '/' then b
    else if a == [] || a[|a| - 1] == '/' then a + b
    else a + ['/'] + b
  }

  /** The last piece of `p.split("/")` is the base name. */
  lemma {:induction false} BasenameIsLastPiece(p: string)
    ensures var parts := Split(p, '/'); parts[|parts| - 1] == Basename(p)
  {
    var k := RFind(p, '/');
    var tail := p[k + 1..];
    assert tail == Basename(p);
    assert '/' !in tail;
    SplitWithoutSeparator(tail, '/');
    if k >= 0 {
      var head := p[..k];
      assert p == head + ['/'] + tail;
      SplitAround(head, tail, '/');
      var parts := Split(head, '/') + Split(tail, '/');
      assert parts[|parts| - 1] == tail;
    } else {
      assert tail == p;
    }
  }
}
