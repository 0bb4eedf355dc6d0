/**
 * The two `posixpath` helpers the pipeline calls on names: `join` of two components and
 * `splitext`. Paths are POSIX paths: the separator is `/` and a backslash is an ordinary
 * character.
 */
module Paths {
  import opened Strings

  /** `posixpath.join(a, b)`: an absolute `b` replaces `a`; otherwise exactly one `/` separates them. */
  function PathJoin(a: string, b: string): string
  {
    if b != [] && b[0] == '/' then b
    else if a == [] || a[|a| - 1] == '/' then a + b
    else a + "/" + b
  }

  /**
   * The joined path ends in `b`; an absolute `b` is the whole result; otherwise `a` comes
   * first and the two are separated by exactly one `/` of the join or of `a`'s own end.
   */
  lemma PathJoinShape(a: string, b: string)
    ensures EndsWith(PathJoin(a, b), b)
    ensures StartsWith(b, "/") ==> PathJoin(a, b) == b
    ensures !StartsWith(b, "/") && (a == "" || EndsWith(a, "/")) ==> PathJoin(a, b) == a + b
    ensures !StartsWith(b, "/") && a != "" && !EndsWith(a, "/") ==> PathJoin(a, b) == a + "/" + b
  {
    var r := PathJoin(a, b);
    assert r[|r| - |b|..] == b;
    if b != [] {
      assert StartsWith(b, "/") <==> b[0] == '/' by {
        assert b[..1] == [b[0]];
      }
    }
    if a != [] {
      assert EndsWith(a, "/") <==> a[|a| - 1] == '/' by {
        assert a[|a| - 1..] == [a[|a| - 1]];
      }
    }
  }

  predicate AllDots(s: string)
  {
    forall i :: 0 <= i < |s| ==> s[i] == '.'
  }

  /** `posixpath.basename(p)`: the text after the last `/`. */
  function BaseName(p: string): string
  {
    LastSegment(p, '/')
  }

  /**
   * Where `posixpath.splitext(p)` starts the extension: at the last dot of the last path
   * component, provided that component has something other than dots before that dot (so
   * `.bashrc` and `..` have no extension); `|p|` when there is no extension.
   */
  function ExtStart(p: string): (n: nat)
    ensures n <= |p|
  {
    var sepIndex := LastIndexOf(p, '/');
    var dotIndex := LastIndexOf(p, '.');
    if dotIndex > sepIndex && !AllDots(p[sepIndex + 1..dotIndex]) then dotIndex else |p|
  }

  /** `posixpath.splitext(p)`: the root and the extension. */
  function SplitExt(p: string): (r: (string, string))
  {
    (p[..ExtStart(p)], p[ExtStart(p)..])
  }

  /** An extension: a dot followed by characters that are neither dots nor slashes. */
  predicate IsExtension(e: string)
  {
    |e| >= 1 && e[0] == '.' && forall i :: 1 <= i < |e| ==> e[i] != '.' && e[i] != '/'
  }

  /** `p` ends in `e`, and the file name in front of `e` is not made of dots alone. */
  ghost predicate HasExtension(p: string, e: string)
  {
    EndsWith(p, e) && !AllDots(BaseName(p[..|p| - |e|]))
  }

  /** The three facts of `LastIndexOf`'s contract single out its result. */
  lemma LastIndexOfUnique(s: string, c: char, i: int)
    requires -1 <= i < |s|
    requires i >= 0 ==> s[i] == c
    requires forall k :: i < k < |s| ==> s[k] != c
    ensures LastIndexOf(s, c) == i
  {
  }

  /** The last dot of a path that ends in an extension is the extension's dot. */
  lemma LastDotOfExtension(p: string, e: string)
    requires IsExtension(e) && EndsWith(p, e)
    ensures LastIndexOf(p, '.') == |p| - |e|
  {
    var n := |p| - |e|;
    assert p[n..] == e;
    assert p[n] == '.';
    assert forall k :: n < k < |p| ==> p[k] == e[k - n];
    LastIndexOfUnique(p, '.', n);
  }

  /** A character absent from `p[n..]` is found last in `p` where it is found last in `p[..n]`. */
  lemma LastIndexOfPrefix(p: string, n: nat, c: char)
    requires n <= |p| && forall k :: n <= k < |p| ==> p[k] != c
    ensures LastIndexOf(p, c) == LastIndexOf(p[..n], c)
  {
    var j := LastIndexOf(p[..n], c);
    forall k | j < k < |p| ensures p[k] != c {
      if k < n {
        assert p[k] == p[..n][k];
      }
    }
    LastIndexOfUnique(p, c, j);
  }

  /** The extension `splitext` reports is an extension in the sense of `IsExtension`. */
  lemma SplitExtShape(p: string)
    ensures SplitExt(p).0 + SplitExt(p).1 == p
    ensures SplitExt(p).1 == "" || IsExtension(SplitExt(p).1)
  {
    var n := ExtStart(p);
    assert p[..n] + p[n..] == p;
    if n < |p| {
      ExtStartFound(p);
      LastIndexesBound(p, n);
      ExtensionTail(p, n);
    }
  }

  /** Past the last dot, which follows the last `/`, there is neither a dot nor a `/`. */
  lemma LastIndexesBound(p: string, n: nat)
    requires n == LastIndexOf(p, '.') && LastIndexOf(p, '/') < n
    ensures forall k :: n < k < |p| ==> p[k] != '.' && p[k] != '/'
  {
  }

  /** A dot followed by neither dots nor `/` up to the end of `p` starts an extension. */
  lemma ExtensionTail(p: string, n: nat)
    requires n < |p| && p[n] == '.'
    requires forall k :: n < k < |p| ==> p[k] != '.' && p[k] != '/'
    ensures IsExtension(p[n..])
  {
    var e := p[n..];
    forall i | 1 <= i < |e| ensures e[i] != '.' && e[i] != '/' {
      assert e[i] == p[n + i];
    }
  }

  /** The last `/` of a path that ends in an extension lies in front of the extension. */
  lemma LastSlashOfExtension(p: string, e: string)
    requires IsExtension(e) && EndsWith(p, e)
    ensures LastIndexOf(p, '/') == LastIndexOf(p[..|p| - |e|], '/')
  {
    var n := |p| - |e|;
    assert p[n..] == e;
    forall k | n <= k < |p| ensures p[k] != '/' {
      assert p[k] == e[k - n];
    }
    LastIndexOfPrefix(p, n, '/');
  }

  /** The extension starts at the last dot when the last `/` is before it and not only dots lie between. */
  lemma ExtStartAt(p: string, n: nat, j: int)
    requires n <= |p| && LastIndexOf(p, '.') == n && LastIndexOf(p, '/') == j < n
    requires !AllDots(p[j + 1..n])
    ensures ExtStart(p) == n
  {
  }

  /** The base name of a prefix of `p` is a slice of `p`. */
  lemma BaseNameOfPrefix(p: string, n: nat)
    requires n <= |p|
    ensures LastIndexOf(p[..n], '/') < n
    ensures BaseName(p[..n]) == p[LastIndexOf(p[..n], '/') + 1..n]
  {
  }

  /** Where the last dot and the last `/` of a name with extension `e` are. */
  lemma ExtensionSeparators(p: string, e: string) returns (j: int)
    requires IsExtension(e) && HasExtension(p, e)
    ensures LastIndexOf(p, '.') == |p| - |e|
    ensures LastIndexOf(p, '/') == j < |p| - |e|
    ensures !AllDots(p[j + 1..|p| - |e|])
  {
    var n := |p| - |e|;
    j := LastIndexOf(p[..n], '/');
    LastDotOfExtension(p, e);
    LastSlashOfExtension(p, e);
    BaseNameOfPrefix(p, n);
  }

  /** `splitext` finds every extension that `HasExtension` describes. */
  lemma SplitExtFinds(p: string, e: string)
    requires IsExtension(e) && HasExtension(p, e)
    ensures SplitExt(p).1 == e
  {
    var n := |p| - |e|;
    var j := ExtensionSeparators(p, e);
    ExtStartAt(p, n, j);
    assert p[n..] == e;
  }

  /** When `splitext` finds an extension, it starts at the last dot, after the last `/`. */
  lemma ExtStartFound(p: string)
    requires ExtStart(p) < |p|
    ensures ExtStart(p) == LastIndexOf(p, '.') && LastIndexOf(p, '/') < ExtStart(p)
    ensures !AllDots(p[LastIndexOf(p, '/') + 1..ExtStart(p)])
  {
  }

  /** Whatever `splitext` reports as the extension satisfies `HasExtension`. */
  lemma SplitExtSound(p: string)
    requires SplitExt(p).1 != ""
    ensures HasExtension(p, SplitExt(p).1)
  {
    var n := ExtStart(p);
    ExtStartFound(p);
    var j := LastIndexOf(p, '/');
    assert forall k :: n <= k < |p| ==> p[k] != '/';
    LastIndexOfPrefix(p, n, '/');
    var e := SplitExt(p).1;
    assert e == p[n..] && |p| - |e| == n;
    assert EndsWith(p, e);
    assert BaseName(p[..n]) == p[..n][j + 1..] == p[j + 1..n];
  }

  /** When `p` has the extension `e`, `splitext` gives the rest of `p` as the root. */
  lemma RootOfExtension(p: string, e: string)
    requires IsExtension(e) && HasExtension(p, e)
    ensures SplitExt(p) == (p[..|p| - |e|], e)
  {
    SplitExtFinds(p, e);
    SplitExtShape(p);
    assert p == SplitExt(p).0 + e;
    assert p[..|p| - |e|] == SplitExt(p).0;
  }

  /**
   * `splitext` computes the extension that `HasExtension` describes: for every extension `e`,
   * `splitext(p)[1] == e` exactly when `p` ends in `e` behind a name that is not all dots.
   */
  lemma SplitExtCharacterization(p: string, e: string)
    requires IsExtension(e)
    ensures SplitExt(p).1 == e <==> HasExtension(p, e)
  {
    if HasExtension(p, e) {
      SplitExtFinds(p, e);
    }
    if SplitExt(p).1 == e {
      SplitExtSound(p);
    }
  }
}
