/**
 * Structure discovery (`RepoAnalyzer`, src/core/repo_analyzer.py): which files are admitted,
 * which directories are pruned, how directory paths become keys, and the directory-to-files
 * structure built by a top-down walk of the working copy.
 *
 * The working copy is an in-memory tree of `Dir` values. Each `Dir` lists its files and its
 * sub-directories in the order the file system enumerates them, which is the order `os.walk`
 * reports them in.
 */
module Analyzer {
  import opened Wrappers
  import opened Strings
  import opened Paths
  import opened Seqs
  import opened Config

  // ---------------------------------------------------------------------------------------
  // File and directory filters

  /** `splitext` of a name reports an allowed extension exactly when the name ends in one. */
  lemma AllowedExtensionOf(p: string)
    ensures SplitExt(p).1 in AllowedFileExtensions
        <==> exists e :: e in AllowedFileExtensions && HasExtension(p, e)
  {
    AllowedExtensionsWellFormed();
    var ext := SplitExt(p).1;
    if ext in AllowedFileExtensions {
      SplitExtSound(p);
    }
    forall e | e in AllowedFileExtensions && HasExtension(p, e) ensures ext == e {
      SplitExtCharacterization(p, e);
    }
  }

  /** `_is_file_allowed`: the lower-cased name has an allowed extension and is not an ignored name. */
  function IsFileAllowed(filename: string): bool
  {
    var lower := Lower(filename);
    SplitExt(lower).1 in AllowedFileExtensions && lower !in IgnoredFiles
  }

  /**
   * A file is admitted iff its lower-cased name ends in an allowed extension (behind a name
   * that is not made of dots alone) and the lower-cased name is not an ignored file name.
   */
  lemma AdmissionCharacterization(filename: string)
    ensures IsFileAllowed(filename)
        <==> Lower(filename) !in IgnoredFiles && exists e :: e in AllowedFileExtensions && HasExtension(Lower(filename), e)
  {
    AllowedExtensionOf(Lower(filename));
  }

  /** Admission does not depend on letter case. */
  lemma AdmissionIgnoresCase(filename: string)
    ensures IsFileAllowed(filename) == IsFileAllowed(Lower(filename))
  {
    LowerIsLower(filename);
  }

  /** An extension behind a stem without `/` and not made of dots alone is an extension of the whole name. */
  lemma StemHasExtension(stem: string, e: string)
    requires '/' !in stem && !AllDots(stem)
    ensures HasExtension(stem + e, e)
  {
    var p := stem + e;
    assert p[|stem|..] == e;
    assert p[..|p| - |e|] == stem;
    LastIndexOfUnique(stem, '/', -1);
  }

  /** `splitext` finds an extension that follows a stem without `/` and not made of dots alone. */
  lemma ExtensionAfterStem(stem: string, e: string)
    requires IsExtension(e)
    requires '/' !in stem && !AllDots(stem)
    ensures SplitExt(stem + e).1 == e
  {
    StemHasExtension(stem, e);
    SplitExtCharacterization(stem + e, e);
  }

  /** Lower-casing a stem keeps it free of `/` and keeps a character other than a dot. */
  lemma LowerKeepsStem(stem: string)
    requires '/' !in stem && !AllDots(stem)
    ensures '/' !in Lower(stem) && !AllDots(Lower(stem))
  {
    var i :| 0 <= i < |stem| && stem[i] != '.';
    assert Lower(stem)[i] != '.';
    forall k | 0 <= k < |stem| ensures Lower(stem)[k] != '/' {
      assert stem[k] in stem;
    }
  }

  /** A plain stem followed by a lower-case extension keeps that extension once lower-cased. */
  lemma ExtensionOfName(stem: string, e: string)
    requires IsExtension(e) && IsLower(e)
    requires '/' !in stem && !AllDots(stem)
    ensures SplitExt(Lower(stem + e)).1 == e
  {
    LowerFixesLower(e);
    assert Lower(stem + e) == Lower(stem) + e;
    LowerKeepsStem(stem);
    ExtensionAfterStem(Lower(stem), e);
  }

  /**
   * Every name made of a plain stem (no `/`, not only dots) and an allowed extension, in any
   * letter case, is admitted unless its lower-cased form is an ignored file name.
   */
  lemma AdmittedName(stem: string, e: string)
    requires e in AllowedFileExtensions
    requires '/' !in stem && !AllDots(stem)
    ensures IsFileAllowed(stem + e) <==> Lower(stem + e) !in IgnoredFiles
  {
    AllowedExtensionsWellFormed();
    assert WellFormedExtension(e);
    ExtensionOfName(stem, e);
  }

  /** A name on the ignored list is refused in any letter case, whatever its extension. */
  lemma IgnoredNameRefused(filename: string)
    requires Lower(filename) in IgnoredFiles
    ensures !IsFileAllowed(filename)
  {
  }

  /** Documentation files (`.md`, `.rst`, in any letter case) are never admitted by this filter. */
  lemma DocumentationRefused(filename: string)
    requires SplitExt(Lower(filename)).1 in DocFileExtensions
    ensures !IsFileAllowed(filename)
  {
    DocExtensionsNotAllowed();
  }

  /** A dot followed by characters that are neither dots nor slashes, like `.py` or `.bashrc`. */
  predicate HiddenName(name: string)
  {
    |name| >= 1 && name[0] == '.' && forall i :: 1 <= i < |name| ==> name[i] != '.' && name[i] != '/'
  }

  /** `splitext` gives a hidden name no extension: the dot has nothing but dots in front of it. */
  lemma HiddenNameHasNoExtension(name: string)
    requires HiddenName(name)
    ensures SplitExt(name).1 == ""
  {
    LastIndexOfUnique(name, '/', -1);
    LastIndexOfUnique(name, '.', 0);
    assert AllDots(name[0..0]);
  }

  /** Lower-casing keeps a name hidden. */
  lemma LowerKeepsHiddenName(name: string)
    requires HiddenName(name)
    ensures HiddenName(Lower(name))
  {
  }

  /** A name that is only an extension, like `.py`, has no extension and is refused. */
  lemma DotFileRefused(name: string)
    requires HiddenName(name)
    ensures !IsFileAllowed(name)
  {
    LowerKeepsHiddenName(name);
    HiddenNameHasNoExtension(Lower(name));
    AllowedExtensionsWellFormed();
  }

  /** The ignored names are matched literally: `app.min.js` is admitted although `*.min.js` is listed. */
  lemma MinifiedBundleAdmitted(name: string)
    requires name == "app.min.js"
    ensures IsFileAllowed(name)
  {
    var stem := "app.min";
    MinifiedBundleStem(name, stem);
    JsAllowed();
    AdmittedName(stem, ".js");
    MinifiedBundleLower(name);
    MinifiedBundleNotListed();
  }

  lemma MinifiedBundleStem(name: string, stem: string)
    requires name == "app.min.js" && stem == "app.min"
    ensures name == stem + ".js" && '/' !in stem && !AllDots(stem)
  {
    assert stem[0] != '.';
  }

  lemma MinifiedBundleLower(name: string)
    requires name == "app.min.js"
    ensures Lower(name) == name
  {
    assert IsLower(name);
    LowerFixesLower(name);
  }

  /** A lower-case name on the ignored list is refused. */
  lemma ListedNameRefused(name: string)
    requires IsLower(name) && name in IgnoredFiles
    ensures !IsFileAllowed(name)
  {
    LowerFixesLower(name);
  }

  /** Manifests and package markers are refused although their extensions are allowed. */
  lemma ManifestRefused(name: string)
    requires name in ["package.json", "tsconfig.json", "__init__.py"]
    ensures !IsFileAllowed(name)
  {
    ManifestsListed();
    ManifestNamesLower(name);
    ListedNameRefused(name);
  }

  lemma ManifestNamesLower(name: string)
    requires name in ["package.json", "tsconfig.json", "__init__.py"]
    ensures IsLower(name)
  {
  }

  /** `_filter_allowed_files`: the admitted names, in their original order. */
  function FilterAllowedFiles(filenames: seq<string>): (allowed: seq<string>)
    ensures forall f :: f in allowed ==> f in filenames && IsFileAllowed(f)
    ensures IsSubsequence(allowed, filenames)
  {
    Filter(IsFileAllowed, filenames)
  }

  /** Every admitted name is kept as many times as it is listed. */
  lemma FilterAllowedFilesKeepsAdmitted(filenames: seq<string>, f: string)
    requires IsFileAllowed(f)
    ensures multiset(FilterAllowedFiles(filenames))[f] == multiset(filenames)[f]
  {
    FilterCount(IsFileAllowed, filenames, f);
  }

  /** Filtering an already filtered list changes nothing. */
  lemma FilterAllowedFilesIdempotent(filenames: seq<string>)
    ensures FilterAllowedFiles(FilterAllowedFiles(filenames)) == FilterAllowedFiles(filenames)
  {
    FilterIdempotent(IsFileAllowed, filenames);
  }

  /** `_should_ignore_dir`: exact, case-sensitive membership in the ignored directory names. */
  predicate ShouldIgnoreDir(dirname: string)
  {
    dirname in IgnoredDirectories
  }

  /** Directory matching is exact and case-sensitive. */
  lemma DirectoryIgnoreExamples()
    ensures ShouldIgnoreDir(".git") && ShouldIgnoreDir("node_modules") && ShouldIgnoreDir("build")
    ensures !ShouldIgnoreDir(".GIT") && !ShouldIgnoreDir("Build") && !ShouldIgnoreDir("src")
  {
  }

  // ---------------------------------------------------------------------------------------
  // Directory keys

  /**
   * `os.path.relpath(dirpath, base_dir)` for the directory reached from the root through the
   * names `comps`: `.` for the root itself, the names joined by `/` otherwise.
   */
  function RelPath(comps: seq<string>): string
  {
    if comps == [] then "." else Join(comps, '/')
  }

  /** `_get_relative_path`: `/` for the root, otherwise `/` followed by the relative path with `\` turned into `/`. */
  function GetRelativePath(relPath: string): (key: string)
    ensures |key| >= 1 && key[0] == '/' && '\\' !in key
    ensures relPath == "." ==> key == "/"
    ensures relPath != "." ==> key[1..] == Replace(relPath, '\\', '/')
  {
    if relPath == "." then "/" else "/" + Replace(relPath, '\\', '/')
  }

  /** The structure key of the directory reached through `comps`. */
  function Key(comps: seq<string>): string
  {
    GetRelativePath(RelPath(comps))
  }

  /** A directory name as a POSIX file system lists it: not empty, not `.`, without `/` and without `\`. */
  predicate PlainName(name: string)
  {
    name != "" && name != "." && '/' !in name && '\\' !in name
  }

  /** Joining plain names gives a string whose last `/` precedes the last name. */
  lemma JoinLastSlash(comps: seq<string>)
    requires |comps| >= 2
    requires forall i :: 0 <= i < |comps| ==> PlainName(comps[i])
    ensures var head := Join(comps[..|comps| - 1], '/');
            LastIndexOf(Join(comps, '/'), '/') == |head|
  {
    var head := Join(comps[..|comps| - 1], '/');
    var last := comps[|comps| - 1];
    var s := Join(comps, '/');
    assert s == head + ['/'] + last;
    assert s[|head|] == '/';
    forall k | |head| < k < |s| ensures s[k] != '/' {
      assert s[k] == last[k - |head| - 1];
    }
    LastIndexOfUnique(s, '/', |head|);
  }

  /** A join of plain names has no `\`, is empty only for no names, and has a `/` once there are two. */
  lemma {:induction false} JoinShape(comps: seq<string>)
    requires forall i :: 0 <= i < |comps| ==> PlainName(comps[i])
    ensures '\\' !in Join(comps, '/')
    ensures (Join(comps, '/') == "") <==> comps == []
    ensures |comps| == 1 ==> Join(comps, '/') == comps[0]
    ensures |comps| >= 2 ==> '/' in Join(comps, '/')
  {
    if |comps| >= 2 {
      var head := comps[..|comps| - 1];
      JoinShape(head);
      var s := Join(comps, '/');
      assert s == Join(head, '/') + ['/'] + comps[|comps| - 1];
      assert s[|Join(head, '/')|] == '/';
    }
  }

  /** Joining plain names by `/` is injective. */
  lemma {:induction false} JoinInjective(c1: seq<string>, c2: seq<string>)
    requires forall i :: 0 <= i < |c1| ==> PlainName(c1[i])
    requires forall i :: 0 <= i < |c2| ==> PlainName(c2[i])
    requires Join(c1, '/') == Join(c2, '/')
    ensures c1 == c2
  {
    JoinShape(c1);
    JoinShape(c2);
    if |c1| >= 2 && |c2| >= 2 {
      var s := Join(c1, '/');
      JoinLastSlash(c1);
      JoinLastSlash(c2);
      var h1 := c1[..|c1| - 1];
      var h2 := c2[..|c2| - 1];
      assert s == Join(h1, '/') + ['/'] + c1[|c1| - 1];
      assert s == Join(h2, '/') + ['/'] + c2[|c2| - 1];
      assert Join(h1, '/') == s[..|Join(h1, '/')|] == Join(h2, '/');
      assert c1[|c1| - 1] == s[|Join(h1, '/')| + 1..] == c2[|c2| - 1];
      JoinInjective(h1, h2);
      assert c1 == h1 + [c1[|c1| - 1]] && c2 == h2 + [c2[|c2| - 1]];
    }
  }

  /** Replacing a character that does not occur changes nothing. */
  lemma ReplaceAbsent(s: string, a: char, b: char)
    requires a !in s
    ensures Replace(s, a, b) == s
  {
  }

  /**
   * Distinct directories whose names are plain get distinct keys: the key determines the path
   * of names from the root.
   */
  lemma KeyInjective(c1: seq<string>, c2: seq<string>)
    requires forall i :: 0 <= i < |c1| ==> PlainName(c1[i])
    requires forall i :: 0 <= i < |c2| ==> PlainName(c2[i])
    requires Key(c1) == Key(c2)
    ensures c1 == c2
  {
    JoinShape(c1);
    JoinShape(c2);
    if c1 != [] {
      ReplaceAbsent(Join(c1, '/'), '\\', '/');
      if |c1| == 1 {
        assert Join(c1, '/') != ".";
      }
      assert |Key(c1)| >= 2;
    }
    if c2 != [] {
      ReplaceAbsent(Join(c2, '/'), '\\', '/');
      if |c2| == 1 {
        assert Join(c2, '/') != ".";
      }
      assert |Key(c2)| >= 2;
    }
    if c1 != [] && c2 != [] {
      assert Key(c1)[1..] == Join(c1, '/');
      assert Key(c2)[1..] == Join(c2, '/');
      JoinInjective(c1, c2);
    }
  }

  /**
   * On a POSIX file system a backslash is an ordinary character in a name, so a directory
   * named `a\b` and the directory `b` inside `a` are given the same key.
   */
  lemma BackslashNamesCollide()
    ensures Key(["a\\b"]) == Key(["a", "b"]) == "/a/b"
  {
    assert Join(["a", "b"], '/') == "a/b";
    assert Replace("a/b", '\\', '/') == "a/b";
    assert Replace("a\\b", '\\', '/') == "a/b";
  }

  // ---------------------------------------------------------------------------------------
  // The working copy and the walk

  /** A directory of the working copy: its name, its files and its sub-directories, in listing order. */
  datatype Dir = Dir(name: string, files: seq<string>, subdirs: seq<Dir>)

  /** One step of the walk: the names leading from the root to a directory, and that directory's files. */
  datatype Frame = Frame(rel: seq<string>, files: seq<string>)

  /** The walk descends into a sub-directory whose name is not ignored. */
  predicate Descend(d: Dir)
  {
    !ShouldIgnoreDir(d.name)
  }

  /** `[d for d in dirnames if not self._should_ignore_dir(d)]`. */
  function Prune(dirnames: seq<Dir>): (kept: seq<Dir>)
    ensures forall d :: d in kept ==> d in dirnames && !ShouldIgnoreDir(d.name)
    ensures IsSubsequence(kept, dirnames)
  {
    Filter(Descend, dirnames)
  }

  /**
   * The frames a top-down `os.walk` from `d` yields when every frame's sub-directory list is
   * pruned before the walk descends: `d` itself, then each kept sub-directory's walk in order.
   */
  function Walk(d: Dir, rel: seq<string>): seq<Frame>
    decreases d, 1, 0
  {
    [Frame(rel, d.files)] + WalkEach(d, Prune(d.subdirs), rel)
  }

  function WalkEach(parent: Dir, ds: seq<Dir>, rel: seq<string>): seq<Frame>
    requires forall x :: x in ds ==> x in parent.subdirs
    decreases parent, 0, |ds|
  {
    if ds == [] then []
    else
      assert ds[0] in parent.subdirs;
      Walk(ds[0], rel + [ds[0].name]) + WalkEach(parent, ds[1..], rel)
  }

  /** `d` leads through the sub-directory names `path` to a directory that lists `files`. */
  ghost predicate Reaches(d: Dir, path: seq<string>, files: seq<string>)
    decreases d
  {
    if path == [] then files == d.files
    else exists c :: c in d.subdirs && c.name == path[0] && Reaches(c, path[1..], files)
  }

  /** No name on the path is an ignored directory name. */
  predicate NoIgnored(path: seq<string>)
  {
    forall i :: 0 <= i < |path| ==> !ShouldIgnoreDir(path[i])
  }

  /**
   * Every frame of the walk is a directory reached from `d` through names none of which is
   * ignored: the walk never enters an ignored directory or anything beneath it.
   */
  lemma {:induction false} WalkSound(d: Dir, rel: seq<string>)
    ensures forall fr :: fr in Walk(d, rel) ==>
      |rel| <= |fr.rel| && fr.rel[..|rel|] == rel
      && NoIgnored(fr.rel[|rel|..]) && Reaches(d, fr.rel[|rel|..], fr.files)
    decreases d, 1, 0
  {
    WalkEachSound(d, Prune(d.subdirs), rel);
    forall fr | fr in Walk(d, rel)
      ensures |rel| <= |fr.rel| && fr.rel[..|rel|] == rel
      ensures NoIgnored(fr.rel[|rel|..]) && Reaches(d, fr.rel[|rel|..], fr.files)
    {
      if fr == Frame(rel, d.files) {
        assert fr.rel[|rel|..] == [];
      } else {
        assert fr in WalkEach(d, Prune(d.subdirs), rel);
      }
    }
  }

  lemma {:induction false} WalkEachSound(parent: Dir, ds: seq<Dir>, rel: seq<string>)
    requires forall x :: x in ds ==> x in parent.subdirs && !ShouldIgnoreDir(x.name)
    ensures forall fr :: fr in WalkEach(parent, ds, rel) ==>
      |rel| <= |fr.rel| && fr.rel[..|rel|] == rel
      && NoIgnored(fr.rel[|rel|..]) && Reaches(parent, fr.rel[|rel|..], fr.files)
    decreases parent, 0, |ds|
  {
    if ds != [] {
      var c := ds[0];
      var rel' := rel + [c.name];
      WalkSound(c, rel');
      WalkEachSound(parent, ds[1..], rel);
      forall fr | fr in Walk(c, rel')
        ensures |rel| <= |fr.rel| && fr.rel[..|rel|] == rel
        ensures NoIgnored(fr.rel[|rel|..]) && Reaches(parent, fr.rel[|rel|..], fr.files)
      {
        var path := fr.rel[|rel'|..];
        assert fr.rel == rel' + path by {
          assert fr.rel == fr.rel[..|rel'|] + fr.rel[|rel'|..];
        }
        assert fr.rel[..|rel|] == rel;
        assert fr.rel[|rel|..] == [c.name] + path;
        assert ([c.name] + path)[1..] == path;
      }
    }
  }

  /** Every element that survives a filter is in the filtered sequence. */
  lemma FilterKeeps<T>(keep: T -> bool, s: seq<T>, x: T)
    requires x in s && keep(x)
    ensures x in Filter(keep, s)
  {
    FilterCount(keep, s, x);
    assert multiset(s)[x] > 0;
  }

  /** The walk of a kept sub-directory is part of its parent's walk. */
  lemma {:induction false} WalkEachIncludes(parent: Dir, ds: seq<Dir>, rel: seq<string>, c: Dir, fr: Frame)
    requires forall x :: x in ds ==> x in parent.subdirs
    requires c in ds && fr in Walk(c, rel + [c.name])
    ensures fr in WalkEach(parent, ds, rel)
    decreases |ds|
  {
    if ds[0] != c {
      WalkEachIncludes(parent, ds[1..], rel, c, fr);
    }
  }

  /**
   * Every directory reached from `d` through names none of which is ignored is a frame of the
   * walk: pruning removes nothing else.
   */
  lemma {:induction false} WalkComplete(d: Dir, rel: seq<string>, path: seq<string>, files: seq<string>)
    requires NoIgnored(path) && Reaches(d, path, files)
    ensures Frame(rel + path, files) in Walk(d, rel)
    decreases d
  {
    if path == [] {
      assert rel + path == rel;
    } else {
      var c :| c in d.subdirs && c.name == path[0] && Reaches(c, path[1..], files);
      FilterKeeps(Descend, d.subdirs, c);
      NoIgnoredTail(path);
      WalkComplete(c, rel + [c.name], path[1..], files);
      ExtendPath(rel, path);
      WalkEachIncludes(d, Prune(d.subdirs), rel, c, Frame(rel + path, files));
    }
  }

  /** The names after the first of an unignored path are unignored too. */
  lemma NoIgnoredTail(path: seq<string>)
    requires path != [] && NoIgnored(path)
    ensures NoIgnored(path[1..])
  {
    forall i | 0 <= i < |path[1..]| ensures !ShouldIgnoreDir(path[1..][i]) {
      assert path[1..][i] == path[i + 1];
    }
  }

  lemma ExtendPath(rel: seq<string>, path: seq<string>)
    requires path != []
    ensures rel + [path[0]] + path[1..] == rel + path
  {
    assert path == [path[0]] + path[1..];
  }

  // ---------------------------------------------------------------------------------------
  // The structure: an insertion-ordered dictionary from keys to admitted files

  type Structure = seq<(string, seq<string>)>

  function Keys(s: Structure): seq<string>
  {
    seq(|s|, i requires 0 <= i < |s| => s[i].0)
  }

  /** `s.get(k)`. */
  function Lookup(s: Structure, k: string): Option<seq<string>>
  {
    if s == [] then None
    else if s[0].0 == k then Some(s[0].1)
    else Lookup(s[1..], k)
  }

  /**
   * `s[k] = v` on a Python dict: a known key keeps its place and takes the new value, a new
   * key goes at the end; nothing else changes.
   */
  function Put(s: Structure, k: string, v: seq<string>): (r: Structure)
    ensures Lookup(r, k) == Some(v)
    ensures forall k' :: k' != k ==> Lookup(r, k') == Lookup(s, k')
  {
    if s == [] then [(k, v)]
    else if s[0].0 == k then [(k, v)] + s[1..]
    else [s[0]] + Put(s[1..], k, v)
  }

  /** `Put` keeps the order of the keys, and appends a key it has not seen. */
  lemma {:induction false} PutKeys(s: Structure, k: string, v: seq<string>)
    ensures Keys(Put(s, k, v)) == if k in Keys(s) then Keys(s) else Keys(s) + [k]
  {
    if s != [] {
      assert s == [s[0]] + s[1..];
      KeysCons(s[0], s[1..]);
      if s[0].0 == k {
        KeysCons((k, v), s[1..]);
      } else {
        PutKeys(s[1..], k, v);
        KeysCons(s[0], Put(s[1..], k, v));
        assert (k in Keys(s)) == (k in Keys(s[1..]));
        assert [s[0].0] + (Keys(s[1..]) + [k]) == [s[0].0] + Keys(s[1..]) + [k];
      }
    }
  }

  /** The keys of an entry followed by a structure. */
  lemma KeysCons(x: (string, seq<string>), t: Structure)
    ensures Keys([x] + t) == [x.0] + Keys(t)
  {
    assert forall i :: 1 <= i <= |t| ==> ([x] + t)[i] == t[i - 1];
  }

  /** What `_process_directory` hands back for a directory: its key and admitted files, or nothing. */
  function DirectoryEntry(rel: seq<string>, filenames: seq<string>): Option<(string, seq<string>)>
  {
    var allowed := FilterAllowedFiles(filenames);
    if allowed != [] then Some((Key(rel), allowed)) else None
  }

  /** One iteration of `_build_structure`'s loop: record the directory if it has admitted files. */
  function Record(s: Structure, fr: Frame): Structure
  {
    var entry := DirectoryEntry(fr.rel, fr.files);
    if entry.Some? && entry.value.0 != "" && entry.value.1 != [] then Put(s, entry.value.0, entry.value.1) else s
  }

  /** The structure after recording the frames in order. */
  function Emit(frames: seq<Frame>): Structure
  {
    if frames == [] then [] else Record(Emit(frames[..|frames| - 1]), frames[|frames| - 1])
  }

  /** What `_build_structure(base_dir)` returns for the working copy `root`. */
  function StructureOf(root: Dir): Structure
  {
    Emit(Walk(root, []))
  }

  /** A key that starts with `/` and has no `\`, mapped to a non-empty list of admitted files. */
  predicate ValidEntry(e: (string, seq<string>))
  {
    |e.0| >= 1 && e.0[0] == '/' && '\\' !in e.0 && e.1 != [] && forall f :: f in e.1 ==> IsFileAllowed(f)
  }

  predicate DistinctKeys(s: Structure)
  {
    forall i, j :: 0 <= i < j < |s| ==> s[i].0 != s[j].0
  }

  /** Every entry is valid and no key occurs twice. */
  predicate WellFormedStructure(s: Structure)
  {
    (forall i :: 0 <= i < |s| ==> ValidEntry(s[i])) && DistinctKeys(s)
  }

  /** Each entry of `Put(s, k, v)` is `(k, v)` or an entry of `s`. */
  lemma {:induction false} PutEntries(s: Structure, k: string, v: seq<string>)
    ensures forall i :: 0 <= i < |Put(s, k, v)| ==> Put(s, k, v)[i] == (k, v) || Put(s, k, v)[i] in s
  {
    if s != [] && s[0].0 != k {
      PutEntries(s[1..], k, v);
    }
  }

  /** `Put` never duplicates a key. */
  lemma {:induction false} PutDistinct(s: Structure, k: string, v: seq<string>)
    requires DistinctKeys(s)
    ensures DistinctKeys(Put(s, k, v))
  {
    if s != [] && s[0].0 != k {
      var tail := Put(s[1..], k, v);
      PutDistinct(s[1..], k, v);
      PutEntries(s[1..], k, v);
      assert forall i :: 0 <= i < |tail| ==> tail[i].0 != s[0].0 by {
        forall i | 0 <= i < |tail| ensures tail[i].0 != s[0].0 {
          if tail[i] != (k, v) {
            var j :| 0 <= j < |s[1..]| && s[1..][j] == tail[i];
            assert s[j + 1] == tail[i];
          }
        }
      }
      var r := Put(s, k, v);
      assert r == [s[0]] + tail;
      forall i, j | 0 <= i < j < |r| ensures r[i].0 != r[j].0 {
        if i > 0 {
          assert r[i] == tail[i - 1] && r[j] == tail[j - 1];
        }
      }
    }
  }

  lemma PutWellFormed(s: Structure, k: string, v: seq<string>)
    requires WellFormedStructure(s) && ValidEntry((k, v))
    ensures WellFormedStructure(Put(s, k, v))
  {
    PutEntries(s, k, v);
    PutDistinct(s, k, v);
  }

  /** The built structure is well formed, whatever the working copy. */
  lemma {:induction false} EmitWellFormed(frames: seq<Frame>)
    ensures WellFormedStructure(Emit(frames))
  {
    if frames != [] {
      var s := Emit(frames[..|frames| - 1]);
      EmitWellFormed(frames[..|frames| - 1]);
      var fr := frames[|frames| - 1];
      var entry := DirectoryEntry(fr.rel, fr.files);
      if entry.Some? {
        PutWellFormed(s, entry.value.0, entry.value.1);
      }
    }
  }

  /** The entry a frame contributes when it has admitted files. */
  function FrameEntry(fr: Frame): (string, seq<string>)
  {
    (Key(fr.rel), FilterAllowedFiles(fr.files))
  }

  /** Each entry of the structure comes from a frame: its key is the frame's key, its files the frame's admitted files. */
  lemma {:induction false} EmitEntriesFromFrames(frames: seq<Frame>)
    ensures forall i :: 0 <= i < |Emit(frames)| ==> exists fr :: fr in frames && Emit(frames)[i] == FrameEntry(fr)
  {
    if frames != [] {
      var init := frames[..|frames| - 1];
      var fr := frames[|frames| - 1];
      var s := Emit(init);
      EmitEntriesFromFrames(init);
      var r := Emit(frames);
      assert r == Record(s, fr);
      var entry := DirectoryEntry(fr.rel, fr.files);
      if entry.Some? {
        assert entry.value == FrameEntry(fr);
        PutEntries(s, entry.value.0, entry.value.1);
      }
      forall i | 0 <= i < |r| ensures exists fr' :: fr' in frames && r[i] == FrameEntry(fr') {
        if entry.Some? && r[i] == entry.value {
          assert fr in frames;
        } else {
          assert r[i] in s;
          var j :| 0 <= j < |s| && s[j] == r[i];
          var fr' :| fr' in init && s[j] == FrameEntry(fr');
          assert fr' in frames;
        }
      }
    } else {
      assert Emit(frames) == [];
    }
  }

  /** Every frame with admitted files has its key in the structure. */
  lemma {:induction false} EmitKeysComplete(frames: seq<Frame>, fr: Frame)
    requires fr in frames && FilterAllowedFiles(fr.files) != []
    ensures Key(fr.rel) in Keys(Emit(frames))
  {
    var init := frames[..|frames| - 1];
    var last := frames[|frames| - 1];
    var s := Emit(init);
    if fr != last {
      assert fr in init;
      EmitKeysComplete(init, fr);
    }
    assert Emit(frames) == Record(s, last);
    var entry := DirectoryEntry(last.rel, last.files);
    if entry.Some? {
      PutKeys(s, entry.value.0, entry.value.1);
    }
  }

  /** `e` is the entry of a directory reached from `root` through names none of which is ignored. */
  ghost predicate FromUnignoredDir(root: Dir, e: (string, seq<string>))
  {
    exists path, files :: NoIgnored(path) && Reaches(root, path, files) && e == (Key(path), FilterAllowedFiles(files))
  }

  lemma StructureEntrySound(root: Dir, i: int)
    requires 0 <= i < |StructureOf(root)|
    ensures FromUnignoredDir(root, StructureOf(root)[i])
  {
    var frames := Walk(root, []);
    EmitEntriesFromFrames(frames);
    assert StructureOf(root)[i] == Emit(frames)[i];
    var fr :| fr in frames && StructureOf(root)[i] == FrameEntry(fr);
    WalkSound(root, []);
    assert fr.rel[0..] == fr.rel;
    assert NoIgnored(fr.rel) && Reaches(root, fr.rel, fr.files);
  }

  /**
   * No file under an ignored directory appears: every entry of the structure is the key of a
   * directory reached from the root through names none of which is ignored, mapped to that
   * directory's admitted files (a non-empty list, in listing order); keys are distinct.
   */
  lemma StructureSound(root: Dir)
    ensures WellFormedStructure(StructureOf(root))
    ensures forall i :: 0 <= i < |StructureOf(root)| ==> FromUnignoredDir(root, StructureOf(root)[i])
  {
    EmitWellFormed(Walk(root, []));
    forall i | 0 <= i < |StructureOf(root)| ensures FromUnignoredDir(root, StructureOf(root)[i]) {
      StructureEntrySound(root, i);
    }
  }

  /** Every directory reached through names none of which is ignored, and holding an admitted file, has a key. */
  lemma StructureComplete(root: Dir, path: seq<string>, files: seq<string>)
    requires NoIgnored(path) && Reaches(root, path, files) && FilterAllowedFiles(files) != []
    ensures Key(path) in Keys(StructureOf(root))
  {
    WalkComplete(root, [], path, files);
    assert [] + path == path;
    EmitKeysComplete(Walk(root, []), Frame(path, files));
  }

  // ---------------------------------------------------------------------------------------
  // The imperative walk

  /**
   * The triple `os.walk` yields for one directory. `dirnames` is the list object the walk
   * reads back after the caller has had it, so changing it in place prunes the walk.
   */
  class WalkFrame {
    const rel: seq<string>
    var dirnames: seq<Dir>
    const filenames: seq<string>

    constructor (rel: seq<string>, dirnames: seq<Dir>, filenames: seq<string>)
      ensures this.rel == rel && this.dirnames == dirnames && this.filenames == filenames
    {
      this.rel := rel;
      this.dirnames := dirnames;
      this.filenames := filenames;
    }
  }

  /** `_process_directory`: prunes the frame's sub-directory list in place and returns the directory's entry, if any. */
  method ProcessDirectory(frame: WalkFrame) returns (entry: Option<(string, seq<string>)>)
    modifies frame
    ensures frame.dirnames == Prune(old(frame.dirnames))
    ensures entry == DirectoryEntry(frame.rel, frame.filenames)
  {
    frame.dirnames := Prune(frame.dirnames);
    var allowed := FilterAllowedFiles(frame.filenames);
    if allowed != [] {
      var relativePath := GetRelativePath(RelPath(frame.rel));
      return Some((relativePath, allowed));
    }
    return None;
  }

  lemma Reassociate<T>(a: seq<T>, x: T, b: seq<T>, c: seq<T>)
    ensures (a + [x]) + (b + c) == a + ([x] + b + c)
  {
  }

  /** The frames still to come from a walk stack whose top is its last element. */
  function Pending(stack: seq<(Dir, seq<string>)>): seq<Frame>
  {
    if stack == [] then []
    else Walk(stack[|stack| - 1].0, stack[|stack| - 1].1) + Pending(stack[..|stack| - 1])
  }

  /**
   * `stack.extend(reversed(kept))` in `os.walk`: the kept sub-directories go on the stack last
   * first, so that the first of them is visited next.
   */
  method PushChildren(stack: seq<(Dir, seq<string>)>, dir: Dir, kept: seq<Dir>, rel: seq<string>)
    returns (pushed: seq<(Dir, seq<string>)>)
    requires forall x :: x in kept ==> x in dir.subdirs
    ensures Pending(pushed) == WalkEach(dir, kept, rel) + Pending(stack)
  {
    pushed := stack;
    var k := |kept|;
    while k > 0
      invariant 0 <= k <= |kept|
      invariant Pending(pushed) == WalkEach(dir, kept[k..], rel) + Pending(stack)
    {
      k := k - 1;
      PushStep(stack, pushed, dir, kept, k, rel);
      pushed := pushed + [(kept[k], rel + [kept[k].name])];
    }
    assert kept[0..] == kept;
  }

  /** Pushing one more kept sub-directory puts its walk in front of the pending frames. */
  lemma PushStep(stack: seq<(Dir, seq<string>)>, pushed: seq<(Dir, seq<string>)>, dir: Dir,
                 kept: seq<Dir>, k: nat, rel: seq<string>)
    requires k < |kept| && forall x :: x in kept ==> x in dir.subdirs
    requires Pending(pushed) == WalkEach(dir, kept[k + 1..], rel) + Pending(stack)
    ensures Pending(pushed + [(kept[k], rel + [kept[k].name])]) == WalkEach(dir, kept[k..], rel) + Pending(stack)
  {
    var first := Walk(kept[k], rel + [kept[k].name]);
    PendingPush(pushed, (kept[k], rel + [kept[k].name]));
    WalkEachStep(dir, kept, k, rel);
    AppendAssociates(first, WalkEach(dir, kept[k + 1..], rel), Pending(stack));
  }

  /** The pushed entry is the top of the stack, so its walk comes first. */
  lemma PendingPush(pushed: seq<(Dir, seq<string>)>, top: (Dir, seq<string>))
    ensures Pending(pushed + [top]) == Walk(top.0, top.1) + Pending(pushed)
  {
    assert (pushed + [top])[..|pushed|] == pushed;
  }

  /** `WalkEach` over `kept[k..]` walks `kept[k]` first. */
  lemma WalkEachStep(dir: Dir, kept: seq<Dir>, k: nat, rel: seq<string>)
    requires k < |kept| && forall x :: x in kept ==> x in dir.subdirs
    ensures WalkEach(dir, kept[k..], rel) == Walk(kept[k], rel + [kept[k].name]) + WalkEach(dir, kept[k + 1..], rel)
  {
    assert kept[k..][1..] == kept[k + 1..];
  }

  lemma AppendAssociates<T>(a: seq<T>, b: seq<T>, c: seq<T>)
    ensures a + (b + c) == (a + b) + c
  {
  }

  /**
   * `_build_structure`: drives `os.walk` (a stack of directories still to visit, children
   * pushed in reverse so that they are visited in listing order), lets `ProcessDirectory`
   * prune each frame, and records every directory that has admitted files.
   */
  method BuildStructure(root: Dir) returns (structure: Structure)
    ensures structure == StructureOf(root)
  {
    structure := [];
    var stack: seq<(Dir, seq<string>)> := [(root, [])];
    ghost var visited: seq<Frame> := [];
    assert Pending(stack) == Walk(root, []) + Pending([]);
    while stack != []
      invariant visited + Pending(stack) == Walk(root, [])
      invariant structure == Emit(visited)
      decreases |Pending(stack)|
    {
      var top := stack[|stack| - 1];
      var rest := stack[..|stack| - 1];
      var dir, rel := top.0, top.1;
      ghost var here := Frame(rel, dir.files);
      ghost var below := WalkEach(dir, Prune(dir.subdirs), rel);
      assert Pending(stack) == [here] + below + Pending(rest);
      var frame := new WalkFrame(rel, dir.subdirs, dir.files);
      var entry := ProcessDirectory(frame);
      if entry.Some? && entry.value.0 != "" && entry.value.1 != [] {
        structure := Put(structure, entry.value.0, entry.value.1);
      }
      assert (visited + [here])[..|visited|] == visited;
      Reassociate(visited, here, below, Pending(rest));
      visited := visited + [here];
      stack := PushChildren(rest, dir, frame.dirnames, rel);
    }
    assert visited + [] == visited;
  }

  // ---------------------------------------------------------------------------------------
  // analyze_and_export

  datatype AnalyzeError = MissingRepoPath | MissingRepoName

  /**
   * `os.path.join(STRUCTURE_DIR, f"{repo_name.lower()}.json")`: the lower-cased name with
   * `.json`, placed under the structure directory as `posixpath.join` does it (an absolute
   * file name replaces the directory; otherwise a `/` is inserted unless the directory is
   * empty or already ends in one).
   */
  function OutputPath(structureDir: string, repoName: string): (path: string)
    ensures EndsWith(path, Lower(repoName) + ".json")
    ensures var file := Lower(repoName) + ".json";
            && (StartsWith(file, "/") ==> path == file)
            && (!StartsWith(file, "/") && (structureDir == "" || EndsWith(structureDir, "/")) ==> path == structureDir + file)
            && (!StartsWith(file, "/") && structureDir != "" && !EndsWith(structureDir, "/") ==> path == structureDir + "/" + file)
  {
    PathJoinShape(structureDir, Lower(repoName) + ".json");
    PathJoin(structureDir, Lower(repoName) + ".json")
  }

  /**
   * `analyze_and_export`: refuses a missing path or name (`ValueError`) before any walk; otherwise
   * builds the structure of the working copy `root`, hands it to the save step and returns the
   * output path whether or not the save succeeded (a failed save is only logged).
   * `saveSucceeds` is the outcome of writing the JSON file; `written` is what was written.
   */
  method AnalyzeAndExport(clonedRepoPath: Option<string>, repoName: Option<string>, root: Dir,
                          structureDir: string, saveSucceeds: bool)
    returns (result: Result<string, AnalyzeError>, written: Option<Structure>)
    ensures !Truthy(clonedRepoPath) ==> result == Err(MissingRepoPath) && written == None
    ensures Truthy(clonedRepoPath) && !Truthy(repoName) ==> result == Err(MissingRepoName) && written == None
    ensures Truthy(clonedRepoPath) && Truthy(repoName) ==>
      result == Ok(OutputPath(structureDir, repoName.value))
      && written == (if saveSucceeds then Some(StructureOf(root)) else None)
  {
    if !Truthy(clonedRepoPath) {
      return Err(MissingRepoPath), None;
    }
    if !Truthy(repoName) {
      return Err(MissingRepoName), None;
    }
    var structure := BuildStructure(root);
    var outputPath := OutputPath(structureDir, repoName.value);
    written := if saveSucceeds then Some(structure) else None;
    result := Ok(outputPath);
  }
}
