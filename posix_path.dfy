/**
 * The parts of Python's `posixpath` used by the core: `join` of two
 * components, `basename` and `dirname`.
 */
module PosixPath {
  import opened Text

  /** `p.rfind('/') + 1`: the index just past the last slash, 0 when there is none. */
  function Cut(p: string): (i: nat)
    ensures i <= |p|
    ensures '/' !in p[i..]
    ensures i > 0 ==> p[i - 1] == '/'
  {
    if p == [] then 0
    else if p[|p| - 1] == '/' then |p|
    else
      var j := Cut(p[..|p| - 1]);
      assert p[j..] == p[..|p| - 1][j..] + [p[|p| - 1]];
      j
  }

  /** `os.path.join(a, b)`: an absolute `b` replaces `a`. */
  function JoinPath(a: string, b: string): (r: string)
    ensures StartsWith(b, "/") ==> r == b
    ensures !StartsWith(b, "/") ==> EndsWith(r, b) && StartsWith(r, a)
  {
    if StartsWith(b, "/") then b
    else if a == "" || EndsWith(a, "/") then a + b
    else a + "/" + b
  }

  /** `os.path.basename(p)`: what follows the last slash. */
  function Basename(p: string): string {
    p[Cut(p)..]
  }

  predicate AllSlashes(s: string) {
    forall i :: 0 <= i < |s| ==> s[i] == '/'
  }

  /** `s.rstrip('/')`. */
  function StripSlashes(s: string): (r: string)
    ensures |r| <= |s| && r == s[..|r|]
    ensures r == [] || r[|r| - 1] != '/'
    ensures AllSlashes(s[|r|..])
  {
    if s == [] || s[|s| - 1] != '/' then s
    else
      var r := StripSlashes(s[..|s| - 1]);
      assert s[|r|..] == s[..|s| - 1][|r|..] + ['/'];
      r
  }

  /** `os.path.dirname(p)`: up to the last slash, trailing slashes removed unless all slashes. */
  function Dirname(p: string): string {
    var head := p[..Cut(p)];
    if head != "" && !AllSlashes(head) then StripSlashes(head) else head
  }

  /**
   * For a path that ends in one or more slashes after a component `e`, the
   * basename is empty and the basename of the dirname is the basename of `e`.
   */
  lemma {:induction false} TrailingSlashes(e: string, t: string)
    requires e != [] && e[|e| - 1] != '/'
    requires t != [] && AllSlashes(t)
    ensures Basename(e + t) == ""
    ensures Basename(Dirname(e + t)) == Basename(e)
  {
    var p := e + t;
    assert p[|p| - 1] == '/';
    assert Cut(p) == |p|;
    assert p[..Cut(p)] == p;
    assert !AllSlashes(p) by { assert p[|e| - 1] != '/'; }
    StripAppended(e, t);
  }

  /** Stripping trailing slashes removes exactly the appended run of slashes. */
  lemma {:induction false} StripAppended(e: string, t: string)
    requires e == [] || e[|e| - 1] != '/'
    requires AllSlashes(t)
    ensures StripSlashes(e + t) == e
  {
    if t == [] {
      assert e + t == e;
    } else {
      var p := e + t;
      assert p[..|p| - 1] == e + t[..|t| - 1];
      StripAppended(e, t[..|t| - 1]);
    }
  }
}
