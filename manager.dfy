/**
 * The repository manager's URL handling (`src/core/repo_manager.py`): which hosting platform
 * a host name belongs to, how a token and a user name are written into the URL's authority,
 * which name a repository URL gives its local clone, which strings count as repository URLs,
 * and what `get_repo` settles before it runs any git command.
 *
 * `urllib.parse.urlparse` is a parameter of the model (`parse`); `urlunparse` is written out
 * for URLs with an authority, and the two regular expressions of the source are written out
 * as recognisers.
 */
module Manager {
  import opened Wrappers
  import opened Strings
  import opened Paths

  // ---------------------------------------------------------------------------------------
  // Platforms
  // ---------------------------------------------------------------------------------------

  datatype Platform = GitHub | GitLab | Bitbucket | Azure | Gitea

  /** The text whose presence in the host name identifies each platform. */
  function Marker(p: Platform): string
  {
    match p
    case GitHub => "github.com"
    case GitLab => "gitlab.com"
    case Bitbucket => "bitbucket.org"
    case Azure => "dev.azure.com"
    case Gitea => "gitea"
  }

  /** The position of each platform in the order the markers are tried. */
  function Rank(p: Platform): nat
  {
    match p
    case GitHub => 0
    case GitLab => 1
    case Bitbucket => 2
    case Azure => 3
    case Gitea => 4
  }

  /** `_identify_platform`: substring tests in a fixed order; `None` for an unknown host. */
  function IdentifyPlatform(hostname: string): Option<Platform>
  {
    if Contains(hostname, "github.com") then Some(GitHub)
    else if Contains(hostname, "gitlab.com") then Some(GitLab)
    else if Contains(hostname, "bitbucket.org") then Some(Bitbucket)
    else if Contains(hostname, "dev.azure.com") then Some(Azure)
    else if Contains(hostname, "gitea") then Some(Gitea)
    else None
  }

  /**
   * The platform reported for a host is the first one, in the order of `Rank`, whose marker
   * the host contains: a host naming two platforms gets the earlier one.
   */
  lemma IdentifyPlatformFirstMatch(hostname: string, p: Platform)
    ensures IdentifyPlatform(hostname) == Some(p) <==>
      Contains(hostname, Marker(p)) &&
      forall q: Platform :: Rank(q) < Rank(p) ==> !Contains(hostname, Marker(q))
  {
    if Contains(hostname, Marker(p)) && forall q: Platform :: Rank(q) < Rank(p) ==> !Contains(hostname, Marker(q)) {
      assert Rank(GitHub) < Rank(p) ==> !Contains(hostname, Marker(GitHub));
      assert Rank(GitLab) < Rank(p) ==> !Contains(hostname, Marker(GitLab));
      assert Rank(Bitbucket) < Rank(p) ==> !Contains(hostname, Marker(Bitbucket));
      assert Rank(Azure) < Rank(p) ==> !Contains(hostname, Marker(Azure));
    }
    if IdentifyPlatform(hostname) == Some(p) {
      forall q: Platform | Rank(q) < Rank(p)
        ensures !Contains(hostname, Marker(q))
      {
        match q
        case GitHub =>
        case GitLab =>
        case Bitbucket =>
        case Azure =>
        case Gitea =>
      }
    }
  }

  /** No platform is reported exactly when the host contains none of the markers. */
  lemma IdentifyPlatformNone(hostname: string)
    ensures IdentifyPlatform(hostname) == None <==> forall q: Platform :: !Contains(hostname, Marker(q))
  {
    if forall q: Platform :: !Contains(hostname, Marker(q)) {
      assert !Contains(hostname, Marker(GitHub)) && !Contains(hostname, Marker(GitLab));
      assert !Contains(hostname, Marker(Bitbucket)) && !Contains(hostname, Marker(Azure));
      assert !Contains(hostname, Marker(Gitea));
    }
    if IdentifyPlatform(hostname) == None {
      forall q: Platform
        ensures !Contains(hostname, Marker(q))
      {
        match q
        case GitHub =>
        case GitLab =>
        case Bitbucket =>
        case Azure =>
        case Gitea =>
      }
    }
  }

  // ---------------------------------------------------------------------------------------
  // Authenticated URLs
  // ---------------------------------------------------------------------------------------

  /** The six components `urlparse` returns. */
  datatype ParsedUrl = ParsedUrl(scheme: string, netloc: string, path: string, params: string,
                                 query: string, fragment: string)

  /** The `ValueError` raised for a platform that needs a user name beside the token. */
  datatype AuthError = UsernameRequired(platform: Platform)

  /** The text `urlunparse` writes in front of the path: the scheme and the authority. */
  function UnparsedPrefix(u: ParsedUrl): string
  {
    (if u.scheme != "" then u.scheme + ":" else "") + "//" + u.netloc
  }

  /** The path as `urlunparse` writes it: the parameters join it after `;`, and it starts with `/`. */
  function RootedPath(u: ParsedUrl): string
  {
    var path := if u.params != "" then u.path + ";" + u.params else u.path;
    if path != "" && path[0] != '/' then "/" + path else path
  }

  /**
   * `urlunparse` for a URL with an authority: scheme and authority, the rooted path, and the
   * query and the fragment, each written only when it is not empty.
   */
  function Unparse(u: ParsedUrl): string
    requires u.netloc != ""
  {
    UnparsedPrefix(u) + RootedPath(u) + (if u.query != "" then "?" + u.query else "")
      + (if u.fragment != "" then "#" + u.fragment else "")
  }

  lemma PrefixOfConcat(a: string, b: string)
    ensures StartsWith(a + b, a)
  {
    assert (a + b)[..|a|] == a;
  }

  lemma PrefixOfExtension(s: string, prefix: string, more: string)
    requires StartsWith(s, prefix)
    ensures StartsWith(s + more, prefix)
  {
    assert (s + more)[..|prefix|] == s[..|prefix|];
  }

  /** `urlunparse` writes the scheme and the authority first and unchanged. */
  lemma UnparseStartsWithAuthority(u: ParsedUrl)
    requires u.netloc != ""
    ensures StartsWith(Unparse(u), UnparsedPrefix(u))
  {
    var withPath := UnparsedPrefix(u) + RootedPath(u);
    PrefixOfConcat(UnparsedPrefix(u), RootedPath(u));
    var withQuery := withPath + (if u.query != "" then "?" + u.query else "");
    PrefixOfExtension(withPath, UnparsedPrefix(u), if u.query != "" then "?" + u.query else "");
    PrefixOfExtension(withQuery, UnparsedPrefix(u), if u.fragment != "" then "#" + u.fragment else "");
  }

  /**
   * The authority `_build_authentication_url` writes once a token is given: the user name
   * and the token for Bitbucket and Azure, which raise without a user name; the token with
   * the user name in front when one is given for GitHub, GitLab and Gitea; the token alone
   * for every other host. Nothing but the authority changes.
   */
  function AuthenticatedUrl(parsed: ParsedUrl, token: string, username: Option<string>)
    : (r: Result<ParsedUrl, AuthError>)
    requires token != ""
    ensures r.Err? <==> IdentifyPlatform(parsed.netloc) in {Some(Bitbucket), Some(Azure)} && !Truthy(username)
    ensures r.Ok? ==> r.value == parsed.(netloc := r.value.netloc)
    ensures r.Ok? ==> EndsWith(r.value.netloc, token + "@" + parsed.netloc)
  {
    var hostname := parsed.netloc;
    var platform := IdentifyPlatform(hostname);
    if platform == Some(Bitbucket) || platform == Some(Azure) then
      if !Truthy(username) then Err(UsernameRequired(platform.value))
      else Ok(parsed.(netloc := username.value + ":" + token + "@" + hostname))
    else if platform.Some? then
      Ok(parsed.(netloc := (if Truthy(username) then username.value + ":" else "") + token + "@" + hostname))
    else
      Ok(parsed.(netloc := token + "@" + hostname))
  }

  /**
   * `_build_authentication_url`: the URL unchanged when no token (or an empty one) is given,
   * otherwise the URL re-assembled around the authenticated authority.
   */
  function BuildAuthenticationUrl(urlRepo: string, parse: string -> ParsedUrl,
                                  token: Option<string>, username: Option<string>)
    : (r: Result<string, AuthError>)
    ensures !Truthy(token) ==> r == Ok(urlRepo)
    ensures Truthy(token) ==> r.Err? == AuthenticatedUrl(parse(urlRepo), token.value, username).Err?
  {
    if !Truthy(token) then Ok(urlRepo)
    else
      match AuthenticatedUrl(parse(urlRepo), token.value, username)
      case Err(e) => Err(e)
      case Ok(u) => Ok(Unparse(u))
  }

  /** The host part of an authority: the text after its last `@` (`rpartition('@')`). */
  function HostOf(netloc: string): string
  {
    LastSegment(netloc, '@')
  }

  /** The user information of an authority: the text before its last `@`, if it has one. */
  function UserInfoOf(netloc: string): Option<string>
  {
    var at := LastIndexOf(netloc, '@');
    if at < 0 then None else Some(netloc[..at])
  }

  /** What `urlparse(...).username` reads from user information: the text before the first `:`. */
  function UserOf(userInfo: string): string
  {
    FirstSegment(userInfo, ':')
  }

  /** What `urlparse(...).password` reads from user information: the text after the first `:`. */
  function PasswordOf(userInfo: string): Option<string>
  {
    var user := FirstSegment(userInfo, ':');
    if |user| == |userInfo| then None else Some(userInfo[|user| + 1..])
  }

  /** An authority made of user information, `@` and a host without `@` splits back into the two. */
  lemma SplitAuthority(userInfo: string, host: string)
    requires '@' !in host
    ensures HostOf(userInfo + "@" + host) == host
    ensures UserInfoOf(userInfo + "@" + host) == Some(userInfo)
  {
    var netloc := userInfo + "@" + host;
    LastIndexOfUnique(netloc, '@', |userInfo|);
    assert netloc[|userInfo| + 1..] == host;
    assert netloc[..|userInfo|] == userInfo;
  }

  /** User information `user:password` splits back into the two when the user has no `:`. */
  lemma SplitUserInfo(user: string, password: string)
    requires ':' !in user
    ensures UserOf(user + ":" + password) == user
    ensures PasswordOf(user + ":" + password) == Some(password)
  {
    var info := user + ":" + password;
    var found := FirstSegment(info, ':');
    assert forall i :: 0 <= i < |user| ==> info[i] == user[i] && info[i] != ':';
    assert forall i :: 0 <= i < |found| ==> found[i] == info[i];
    assert info[|user|] == ':';
    assert |found| == |user|;
    assert info[|user| + 1..] == password;
  }

  /** User information without a `:` is a user name with no password. */
  lemma UserInfoWithoutPassword(user: string)
    requires ':' !in user
    ensures UserOf(user) == user && PasswordOf(user) == None
  {
    var found := FirstSegment(user, ':');
    assert |found| == |user|;
  }

  /**
   * Reading the authenticated URL back gives the original host, and the credentials a Git
   * server sees: the user name and the token as password where a user name was written, or
   * the token as user name where it was written alone.
   */
  lemma AuthenticatedUrlRoundTrip(parsed: ParsedUrl, token: string, username: Option<string>)
    requires token != "" && '@' !in parsed.netloc
    requires AuthenticatedUrl(parsed, token, username).Ok?
    ensures var netloc := AuthenticatedUrl(parsed, token, username).value.netloc;
      HostOf(netloc) == parsed.netloc &&
      UserInfoOf(netloc).Some? &&
      (Truthy(username) && IdentifyPlatform(parsed.netloc).Some? && ':' !in username.value ==>
        UserOf(UserInfoOf(netloc).value) == username.value &&
        PasswordOf(UserInfoOf(netloc).value) == Some(token)) &&
      ((!Truthy(username) || IdentifyPlatform(parsed.netloc).None?) && ':' !in token ==>
        UserOf(UserInfoOf(netloc).value) == token &&
        PasswordOf(UserInfoOf(netloc).value) == None)
  {
    var platform := IdentifyPlatform(parsed.netloc);
    var userInfo :=
      if Truthy(username) && platform.Some? then username.value + ":" + token else token;
    if platform.Some? && !Truthy(username) {
      assert "" + token == token;
    }
    assert AuthenticatedUrl(parsed, token, username).value.netloc == userInfo + "@" + parsed.netloc;
    SplitAuthority(userInfo, parsed.netloc);
    if Truthy(username) && platform.Some? && ':' !in username.value {
      SplitUserInfo(username.value, token);
    }
    if (!Truthy(username) || platform.None?) && ':' !in token {
      UserInfoWithoutPassword(token);
    }
  }

  /** The authenticated URL starts with the scheme and the new authority: user information, `@`, the old authority. */
  lemma AuthenticationUrlShape(urlRepo: string, parse: string -> ParsedUrl, token: Option<string>,
                               username: Option<string>)
    requires Truthy(token)
    requires BuildAuthenticationUrl(urlRepo, parse, token, username).Ok?
    ensures var parsed := parse(urlRepo);
      var u := AuthenticatedUrl(parsed, token.value, username).value;
      StartsWith(BuildAuthenticationUrl(urlRepo, parse, token, username).value, UnparsedPrefix(u)) &&
      EndsWith(UnparsedPrefix(u), token.value + "@" + parsed.netloc) &&
      u.scheme == parsed.scheme && u.path == parsed.path && u.query == parsed.query
  {
    var u := AuthenticatedUrl(parse(urlRepo), token.value, username).value;
    UnparseStartsWithAuthority(u);
    assert UnparsedPrefix(u) == (if u.scheme != "" then u.scheme + ":" else "") + "//" + u.netloc;
    assert UnparsedPrefix(u)[|UnparsedPrefix(u)| - |u.netloc|..] == u.netloc;
  }

  /**
   * A GitHub HTTPS URL whose path starts with `/` and that has no parameters, query or
   * fragment comes back with the token alone in front of the host when no user name is given.
   */
  lemma GitHubTokenUrl(urlRepo: string, parse: string -> ParsedUrl, host: string, path: string,
                       token: string)
    requires parse(urlRepo) == ParsedUrl("https", host, path, "", "", "")
    requires Contains(host, "github.com") && token != ""
    requires path == "" || path[0] == '/'
    ensures BuildAuthenticationUrl(urlRepo, parse, Some(token), None)
      == Ok("https://" + token + "@" + host + path)
  {
    var u := AuthenticatedUrl(parse(urlRepo), token, None).value;
    assert IdentifyPlatform(host) == Some(GitHub);
    assert "" + token == token;
    assert u.netloc == token + "@" + host;
    assert UnparsedPrefix(u) == "https://" + token + "@" + host;
    assert RootedPath(u) == path;
    assert Unparse(u) == UnparsedPrefix(u) + path + "" + "";
    assert UnparsedPrefix(u) + path + "" + "" == UnparsedPrefix(u) + path;
  }

  // ---------------------------------------------------------------------------------------
  // Repository names
  // ---------------------------------------------------------------------------------------

  /** `s` without one line break at its end. */
  function DropFinalLineBreak(s: string): string
  {
    if s != "" && s[|s| - 1] == '\n' then s[..|s| - 1] else s
  }

  /**
   * Where `(?:\?.*)?$` matches all of `r`: nothing or a `?` and a query without line breaks,
   * followed at most by a line break that ends the string (Python's `$` matches before one).
   */
  predicate QueryTail(r: string)
  {
    var q := DropFinalLineBreak(r);
    q == "" || (q[0] == '?' && '\n' !in q[1..])
  }

  /** Where `(?:\.git)?(?:\?.*)?$` matches all of `r`. */
  predicate SuffixTail(r: string)
  {
    QueryTail(r) || (StartsWith(r, ".git") && QueryTail(r[4..]))
  }

  /**
   * The lazy group `(.+?)` followed by the optional suffix: the least end `e >= n` such that
   * `t[..e]` has no line break (`.` does not match one) and the rest of `t` is a suffix tail.
   */
  function LazyGroupEnd(t: string, n: nat): (e: Option<nat>)
    requires 1 <= n <= |t| + 1 && '\n' !in t[..n - 1]
    decreases |t| + 1 - n
    ensures e.Some? ==> n <= e.value <= |t| && '\n' !in t[..e.value] && SuffixTail(t[e.value..])
    ensures e.Some? ==> forall m :: n <= m < e.value ==> !SuffixTail(t[m..])
    ensures e.None? ==> forall m :: n <= m <= |t| && '\n' !in t[..m] ==> !SuffixTail(t[m..])
  {
    if n > |t| then None
    else if t[n - 1] == '\n' then
      assert forall m :: n <= m <= |t| ==> t[..m][n - 1] == '\n';
      None
    else
      assert t[..n] == t[..n - 1] + [t[n - 1]];
      if SuffixTail(t[n..]) then Some(n) else LazyGroupEnd(t, n + 1)
  }

  /** The length of `git@` or `ssh://git@` when `url` starts with one of them, 0 otherwise. */
  function SshPrefixLength(url: string): nat
  {
    if StartsWith(url, "git@") then 4 else if StartsWith(url, "ssh://git@") then 10 else 0
  }

  /** The index of the first `:` or `/` of `s` from `i` on, or `|s|`. */
  function SeparatorIndex(s: string, i: nat): (k: nat)
    requires i <= |s|
    decreases |s| - i
    ensures i <= k <= |s|
    ensures forall j :: i <= j < k ==> s[j] != ':' && s[j] != '/'
    ensures k < |s| ==> s[k] == ':' || s[k] == '/'
  {
    if i == |s| || s[i] == ':' || s[i] == '/' then i else SeparatorIndex(s, i + 1)
  }

  /**
   * What follows the prefix in `([^:/]+)[:/](.+?)(?:\.git)?(?:\?.*)?$`: the host can only
   * end at the first `:` or `/`, so the one choice left to the matcher is the lazy group's end.
   */
  function SshPathAfterPrefix(rest: string): Option<string>
  {
    var k := SeparatorIndex(rest, 0);
    if k == 0 || k == |rest| then None
    else
      var t := rest[k + 1..];
      match LazyGroupEnd(t, 1)
      case None => None
      case Some(e) => Some(t[..e])
  }

  /**
   * Group 2 of `re.match(r"(?:git@|ssh://git@)([^:/]+)[:/](.+?)(?:\.git)?(?:\?.*)?$", url)`,
   * or `None` when the expression does not match.
   */
  function SshRepoPath(url: string): Option<string>
  {
    var p := SshPrefixLength(url);
    if p == 0 then None else SshPathAfterPrefix(url[p..])
  }

  /** The HTTPS branch of `_extract_repo_name`: drop `.git` and the query, then take the last segment. */
  function HttpsRepoName(path: string): (name: string)
    ensures '/' !in name
  {
    var withoutGit := if EndsWith(path, ".git") then path[..|path| - 4] else path;
    LastSegment(Strip(FirstSegment(withoutGit, '?'), '/'), '/')
  }

  /**
   * `_extract_repo_name` as written: for an SSH URL it takes `splitext` of the matched path,
   * which drops a dotted suffix of the name itself because the expression has already
   * consumed `.git`.
   */
  function ExtractRepoNameAsWritten(url: string, parse: string -> ParsedUrl): (name: string)
    ensures '/' !in name
  {
    var stripped := RStrip(url, '/');
    match SshRepoPath(stripped)
    case Some(path) => LastSegment(SplitExt(path).0, '/')
    case None => HttpsRepoName(parse(stripped).path)
  }

  /**
   * `_extract_repo_name` as intended: the last segment of the path the SSH expression
   * matched (which it has already freed of `.git`), or the HTTPS branch. The name is one
   * path segment, so the clone lands directly inside the repositories folder.
   */
  function ExtractRepoName(url: string, parse: string -> ParsedUrl): (name: string)
    ensures '/' !in name
  {
    var stripped := RStrip(url, '/');
    match SshRepoPath(stripped)
    case Some(path) => LastSegment(path, '/')
    case None => HttpsRepoName(parse(stripped).path)
  }

  /** No end of the lazy group before the `.git` of `path + ".git"` leaves a suffix tail. */
  lemma NoEarlierSuffixTail(path: string, m: nat)
    requires '?' !in path && m < |path|
    ensures !SuffixTail((path + ".git")[m..])
  {
    var t := path + ".git";
    var r := t[m..];
    assert r[|r| - 1] == 't';
    assert DropFinalLineBreak(r) == r;
    assert r[0] == path[m];
    assert r[4..] == t[m + 4..];
    var q := r[4..];
    assert q[|q| - 1] == 't';
    assert DropFinalLineBreak(q) == q;
    assert q[0] == t[m + 4];
    assert forall i :: 0 <= i < |path| ==> t[i] == path[i];
    assert forall i :: |path| <= i < |t| ==> t[i] == ".git"[i - |path|];
  }

  /** In `path + ".git"` the lazy group ends right before `.git`. */
  lemma LazyGroupOfGitPath(path: string)
    requires path != "" && '?' !in path && '\n' !in path
    ensures LazyGroupEnd(path + ".git", 1) == Some(|path|)
  {
    var t := path + ".git";
    assert t[|path|..] == ".git";
    assert t[|path|..][4..] == "";
    assert t[..|path|] == path;
    forall m | 1 <= m < |path|
      ensures !SuffixTail(t[m..])
    {
      NoEarlierSuffixTail(path, m);
    }
    LazyGroupEndIs(t, 1, |path|);
  }

  /** The lazy group ends at the first place that leaves a suffix tail. */
  lemma {:induction false} LazyGroupEndIs(t: string, n: nat, e: nat)
    requires 1 <= n <= e <= |t| && '\n' !in t[..e] && SuffixTail(t[e..])
    requires forall m :: n <= m < e ==> !SuffixTail(t[m..])
    ensures '\n' !in t[..n - 1]
    ensures LazyGroupEnd(t, n) == Some(e)
    decreases e - n
  {
    assert forall i :: 0 <= i < n ==> t[..n][i] == t[..e][i];
    assert t[n - 1] == t[..e][n - 1];
    if n < e {
      assert !SuffixTail(t[n..]);
      LazyGroupEndIs(t, n + 1, e);
    }
  }

  /** The first `:` or `/` of `host + tail` is the first character of `tail` when the host has neither. */
  lemma SeparatorAfterHost(host: string, tail: string)
    requires ':' !in host && '/' !in host
    requires tail != "" && (tail[0] == ':' || tail[0] == '/')
    ensures SeparatorIndex(host + tail, 0) == |host|
  {
    var s := host + tail;
    assert forall j :: 0 <= j < |host| ==> s[j] == host[j];
    assert s[|host|] == tail[0];
  }

  /** For `git@<host>:<path>.git` the SSH expression matches with group 2 equal to `path`. */
  lemma SshRepoPathOfPath(host: string, path: string)
    requires host != "" && ':' !in host && '/' !in host
    requires path != "" && '?' !in path && '\n' !in path
    ensures SshRepoPath("git@" + host + ":" + path + ".git") == Some(path)
  {
    var url := "git@" + host + ":" + path + ".git";
    var tail := ":" + path + ".git";
    assert url[..4] == "git@";
    assert url[4..] == host + tail;
    SeparatorAfterHost(host, tail);
    assert (host + tail)[|host| + 1..] == path + ".git";
    LazyGroupOfGitPath(path);
    assert (path + ".git")[..|path|] == path;
  }

  /** `rstrip('/')` leaves a URL ending in `.git` alone. */
  lemma RStripKeepsGitUrl(url: string)
    requires EndsWith(url, ".git")
    ensures RStrip(url, '/') == url
  {
    assert url[|url| - 1] == 't';
  }

  /** The last segment of `owner/name` is `name` when `name` has no `/`. */
  lemma LastSegmentAfterOwner(owner: string, name: string)
    requires '/' !in name
    ensures LastSegment(owner + "/" + name, '/') == name
  {
    var p := owner + "/" + name;
    assert forall k :: |owner| < k < |p| ==> p[k] == name[k - |owner| - 1];
    LastIndexOfUnique(p, '/', |owner|);
    assert p[|owner| + 1..] == name;
  }

  /** `splitext` of `owner/<repo>` splits off `ext` when `repo` is a real file name `stem` before `ext`. */
  lemma SplitExtOfOwnerPath(owner: string, repo: string, stem: string, ext: string)
    requires repo == stem + ext && '/' !in stem && !AllDots(stem) && IsExtension(ext)
    ensures SplitExt(owner + "/" + repo).0 == owner + "/" + stem
  {
    var path := owner + "/" + repo;
    var root := owner + "/" + stem;
    assert path == root + ext;
    assert path[..|path| - |ext|] == root;
    assert path[|path| - |ext|..] == ext;
    LastSegmentAfterOwner(owner, stem);
    assert HasExtension(path, ext);
    RootOfExtension(path, ext);
  }

  /** `git@<host>:<owner>/<name>.git` is `git@<host>:<path>.git` for the path `<owner>/<name>`. */
  lemma SshUrlOfPath(host: string, owner: string, name: string)
    ensures "git@" + host + ":" + owner + "/" + name + ".git" == "git@" + host + ":" + (owner + "/" + name) + ".git"
  {
  }

  /** For `url == git@<host>:<path>.git` both names come from `path`. */
  lemma NamesOfSshPath(parse: string -> ParsedUrl, url: string, host: string, path: string)
    requires url == "git@" + host + ":" + path + ".git"
    requires host != "" && ':' !in host && '/' !in host
    requires path != "" && '?' !in path && '\n' !in path
    ensures ExtractRepoNameAsWritten(url, parse) == LastSegment(SplitExt(path).0, '/')
    ensures ExtractRepoName(url, parse) == LastSegment(path, '/')
  {
    assert url[|url| - 4..] == ".git";
    RStripKeepsGitUrl(url);
    SshRepoPathOfPath(host, path);
  }

  /**
   * For `git@<host>:<owner>/<repo>.git` where `repo` is a name `stem` followed by a real
   * extension `ext` (such as `socket` and `.io`), the name as written is `stem` while the
   * intended name is `repo`.
   */
  lemma SshNameAsWrittenDropsSuffix(parse: string -> ParsedUrl, host: string, owner: string,
                                    repo: string, stem: string, ext: string)
    requires host != "" && ':' !in host && '/' !in host
    requires repo == stem + ext && '/' !in stem && !AllDots(stem) && IsExtension(ext)
    requires '?' !in owner + "/" + repo && '\n' !in owner + "/" + repo
    ensures var url := "git@" + host + ":" + owner + "/" + repo + ".git";
      ExtractRepoNameAsWritten(url, parse) == stem &&
      ExtractRepoName(url, parse) == repo
  {
    var url := "git@" + host + ":" + owner + "/" + repo + ".git";
    var path := owner + "/" + repo;
    SshUrlOfPath(host, owner, repo);
    NamesOfSshPath(parse, url, host, path);
    SplitExtOfOwnerPath(owner, repo, stem, ext);
    assert SplitExt(path).0 == owner + "/" + stem;
    LastSegmentAfterOwner(owner, stem);
    LastSegmentAfterOwner(owner, repo);
  }

  /** Appending text without `c` does not move the last `c`. */
  lemma LastIndexOfAppend(s: string, t: string, c: char)
    requires c !in t
    ensures LastIndexOf(s + t, c) == LastIndexOf(s, c)
  {
    var p := s + t;
    var i := LastIndexOf(s, c);
    assert forall k :: |s| <= k < |p| ==> p[k] == t[k - |s|];
    assert forall k :: i < k < |s| ==> p[k] == s[k];
    LastIndexOfUnique(p, c, i);
  }

  /** Text without `c` appended to `s` extends the last segment of `s`. */
  lemma LastSegmentAppend(s: string, t: string, c: char)
    requires c !in t
    ensures LastSegment(s + t, c) == LastSegment(s, c) + t
  {
    LastIndexOfAppend(s, t, c);
    var i := LastIndexOf(s, c);
    assert (s + t)[i + 1..] == s[i + 1..] + t;
  }

  /** Dropping the extension changes the last segment exactly when there is an extension to drop. */
  lemma LastSegmentOfRoot(p: string)
    ensures LastSegment(SplitExt(p).0, '/') == LastSegment(p, '/') <==> SplitExt(p).1 == ""
  {
    SplitExtShape(p);
    var root, ext := SplitExt(p).0, SplitExt(p).1;
    if ext != "" {
      assert '/' !in ext by {
        forall j | 0 <= j < |ext| ensures ext[j] != '/' {
          if j == 0 {
            assert ext[0] == '.';
          }
        }
      }
      LastSegmentAppend(root, ext, '/');
      assert root + ext == p;
    }
  }

  /**
   * The corrected name and the name as written agree exactly when the SSH expression does
   * not match, or when `splitext` finds no extension in the path it matched (for instance
   * `org/.github`, whose only dot is a leading one).
   */
  lemma NamesAgreeExactly(url: string, parse: string -> ParsedUrl)
    ensures var matched := SshRepoPath(RStrip(url, '/'));
            ExtractRepoName(url, parse) == ExtractRepoNameAsWritten(url, parse)
            <==> matched.None? || SplitExt(matched.value).1 == ""
  {
    var matched := SshRepoPath(RStrip(url, '/'));
    if matched.Some? {
      LastSegmentOfRoot(matched.value);
    }
  }

  /** The URL that shows the discrepancy: `git@github.com:socketio/socket.io.git`. */
  lemma SocketIoSshName(parse: string -> ParsedUrl, url: string)
    requires url == "git@github.com:socketio/socket.io.git"
    ensures ExtractRepoNameAsWritten(url, parse) == "socket"
    ensures ExtractRepoName(url, parse) == "socket.io"
  {
    SocketIoUrl(url);
    SocketIoName();
    SocketIoPath();
    SshNameAsWrittenDropsSuffix(parse, "github.com", "socketio", "socket.io", "socket", ".io");
  }

  lemma SocketIoUrl(url: string)
    requires url == "git@github.com:socketio/socket.io.git"
    ensures url == "git@" + "github.com" + ":" + "socketio" + "/" + "socket.io" + ".git"
  {
  }

  lemma SocketIoName()
    ensures "socket.io" == "socket" + ".io" && !AllDots("socket") && IsExtension(".io")
  {
    assert "socket"[0] != '.';
  }

  lemma SocketIoPath()
    ensures '?' !in "socketio" + "/" + "socket.io" && '\n' !in "socketio" + "/" + "socket.io"
  {
    var path := "socketio" + "/" + "socket.io";
    assert path == "socketio/socket.io";
    assert forall i :: 0 <= i < |path| ==> path[i] != '?' && path[i] != '\n';
  }

  /** `split(c)[0]` of a string without `c` is the whole string. */
  lemma FirstSegmentWithout(s: string, c: char)
    requires c !in s
    ensures FirstSegment(s, c) == s
  {
    var r := FirstSegment(s, c);
    assert forall i :: 0 <= i < |s| ==> s[i] != c;
    assert r == s[..|r|];
  }

  /** `strip('/')` of `/<owner>/<repo>` is `<owner>/<repo>` when neither end of the pair is a `/`. */
  lemma StripRootedPair(owner: string, repo: string)
    requires owner != "" && owner[0] != '/' && repo != "" && '/' !in repo
    ensures Strip("/" + owner + "/" + repo, '/') == owner + "/" + repo
  {
    var inner := "/" + owner + "/" + repo;
    assert inner[0] == '/' && inner[1] == owner[0];
    var left := LStrip(inner, '/');
    assert left == inner[1..] == owner + "/" + repo;
    assert left[|left| - 1] == repo[|repo| - 1];
    assert TrailingCount(left, '/') == 0;
  }

  /** The HTTPS branch turns `/<owner>/<repo>.git` into `repo`. */
  lemma HttpsRepoNameOfPath(owner: string, repo: string)
    requires owner != "" && owner[0] != '/' && '?' !in owner
    requires repo != "" && '/' !in repo && '?' !in repo
    ensures HttpsRepoName("/" + owner + "/" + repo + ".git") == repo
  {
    var path := "/" + owner + "/" + repo + ".git";
    var inner := "/" + owner + "/" + repo;
    assert path[|path| - 4..] == ".git";
    assert path[..|path| - 4] == inner;
    assert '?' !in inner;
    FirstSegmentWithout(inner, '?');
    StripRootedPair(owner, repo);
    LastSegmentAfterOwner(owner, repo);
  }

  /**
   * The intended name does not depend on the form of the URL: the SSH form
   * `git@<host>:<owner>/<repo>.git` and an HTTPS form whose parsed path is
   * `/<owner>/<repo>.git` give the same name, `repo`.
   */
  lemma SshAndHttpsNamesAgree(parse: string -> ParsedUrl, httpsUrl: string, host: string,
                              owner: string, repo: string)
    requires host != "" && ':' !in host && '/' !in host
    requires owner != "" && owner[0] != '/' && '?' !in owner && '\n' !in owner
    requires repo != "" && '/' !in repo && '?' !in repo && '\n' !in repo
    requires EndsWith(httpsUrl, ".git") && SshPrefixLength(httpsUrl) == 0
    requires parse(httpsUrl).path == "/" + owner + "/" + repo + ".git"
    ensures ExtractRepoName("git@" + host + ":" + owner + "/" + repo + ".git", parse) == repo
    ensures ExtractRepoName(httpsUrl, parse) == repo
  {
    var url := "git@" + host + ":" + owner + "/" + repo + ".git";
    SshUrlOfPath(host, owner, repo);
    NamesOfSshPath(parse, url, host, owner + "/" + repo);
    LastSegmentAfterOwner(owner, repo);
    RStripKeepsGitUrl(httpsUrl);
    HttpsRepoNameOfPath(owner, repo);
  }

  // ---------------------------------------------------------------------------------------
  // URL validation
  // ---------------------------------------------------------------------------------------

  /** `\w` on ASCII: letters, digits and `_`. */
  predicate IsWordChar(c: char)
  {
    'a' <= c <= 'z' || 'A' <= c <= 'Z' || '0' <= c <= '9' || c == '_'
  }

  /** `[\w.-]`, the characters of the host in the SSH pattern. */
  predicate SshHostChar(c: char)
  {
    IsWordChar(c) || c == '.' || c == '-'
  }

  /** `[\w./-]`, the characters of the path in the SSH pattern. */
  predicate SshPathChar(c: char)
  {
    SshHostChar(c) || c == '/'
  }

  /** The index of the first character of `s` from `i` on that is not a host character, or `|s|`. */
  function HostRunEnd(s: string, i: nat): (k: nat)
    requires i <= |s|
    decreases |s| - i
    ensures i <= k <= |s|
    ensures forall j :: i <= j < k ==> SshHostChar(s[j])
    ensures k < |s| ==> !SshHostChar(s[k])
  {
    if i == |s| || !SshHostChar(s[i]) then i else HostRunEnd(s, i + 1)
  }

  /**
   * What follows the prefix in `[\w.-]+[:/][\w./-]+(\.git)?$`: the host is the run of host
   * characters, a `:` or `/` follows it, and the rest is path characters, up to a line break
   * that ends the string. (`.git` is made of path characters, so its group adds nothing.)
   */
  predicate SshPatternAfterPrefix(rest: string)
  {
    var k := HostRunEnd(rest, 0);
    1 <= k < |rest| && (rest[k] == ':' || rest[k] == '/') &&
    var body := DropFinalLineBreak(rest[k + 1..]);
    body != "" && forall i :: 0 <= i < |body| ==> SshPathChar(body[i])
  }

  /** `re.match(r"^(git@|ssh://git@)[\w.-]+[:/][\w./-]+(\.git)?$", url)`. */
  predicate MatchesSshUrlPattern(url: string)
  {
    var p := SshPrefixLength(url);
    p > 0 && SshPatternAfterPrefix(url[p..])
  }

  /** `_is_valid_url`: a non-empty HTTP(S) URL with a host and a path, or an SSH URL. */
  predicate IsValidUrl(url: string, parse: string -> ParsedUrl)
  {
    url != "" &&
    ((parse(url).scheme in ["http", "https"] && parse(url).netloc != "" && parse(url).path != "")
     || MatchesSshUrlPattern(url))
  }

  /** Every `git@<host>:<path>` with a host and a path of the allowed characters is valid. */
  lemma SshUrlIsValid(parse: string -> ParsedUrl, host: string, path: string)
    requires host != "" && forall i :: 0 <= i < |host| ==> SshHostChar(host[i])
    requires path != "" && forall i :: 0 <= i < |path| ==> SshPathChar(path[i])
    ensures IsValidUrl("git@" + host + ":" + path, parse)
  {
    var url := "git@" + host + ":" + path;
    assert url[..4] == "git@";
    var rest := host + ":" + path;
    assert url[4..] == rest;
    assert forall j :: 0 <= j < |host| ==> rest[j] == host[j];
    assert rest[|host|] == ':';
    assert HostRunEnd(rest, 0) == |host|;
    assert rest[|host| + 1..] == path;
    assert path[|path| - 1] != '\n';
  }

  /**
   * The empty string is refused; every non-empty HTTP(S) URL with a host and a path is
   * accepted; any other accepted URL starts with `git@` or `ssh://git@` followed by at least
   * a host character, a separator and a path character.
   */
  lemma ValidUrlForms(url: string, parse: string -> ParsedUrl)
    ensures !IsValidUrl("", parse)
    ensures url != "" && parse(url).scheme in ["http", "https"] && parse(url).netloc != "" && parse(url).path != ""
            ==> IsValidUrl(url, parse)
    ensures IsValidUrl(url, parse) && parse(url).scheme !in ["http", "https"]
            ==> (StartsWith(url, "git@") && |url| >= 7) || (StartsWith(url, "ssh://git@") && |url| >= 13)
  {
    if IsValidUrl(url, parse) && parse(url).scheme !in ["http", "https"] {
      var p := SshPrefixLength(url);
      var rest := url[p..];
      var k := HostRunEnd(rest, 0);
      assert |DropFinalLineBreak(rest[k + 1..])| <= |rest| - k - 1;
    }
  }

  /** Where the host run ends at a `:` or `/`, that is the first `:` or `/`. */
  lemma SeparatorAtHostRunEnd(rest: string)
    requires HostRunEnd(rest, 0) < |rest|
    requires rest[HostRunEnd(rest, 0)] == ':' || rest[HostRunEnd(rest, 0)] == '/'
    ensures SeparatorIndex(rest, 0) == HostRunEnd(rest, 0)
  {
    var k := HostRunEnd(rest, 0);
    assert forall j :: 0 <= j < k ==> rest[j] != ':' && rest[j] != '/';
  }

  /** A non-empty run of path characters leaves the lazy group a place to end. */
  lemma LazyGroupInPathChars(t: string)
    requires t != "" && forall i :: 0 <= i < |t| ==> SshPathChar(t[i])
    ensures LazyGroupEnd(t, 1).Some?
  {
    assert forall i :: 0 <= i < |t| ==> t[i] != '\n';
    assert t[..|t|] == t;
    assert t[|t|..] == "";
    assert SuffixTail(t[|t|..]);
  }

  /**
   * A URL the SSH validation pattern accepts, and that does not end in `/` or a line break,
   * is one the name extraction reads as an SSH URL too: the two expressions agree.
   */
  lemma ValidSshUrlHasSshPath(url: string)
    requires MatchesSshUrlPattern(url)
    requires url[|url| - 1] != '/' && url[|url| - 1] != '\n'
    ensures RStrip(url, '/') == url
    ensures SshRepoPath(url).Some?
  {
    assert TrailingCount(url, '/') == 0;
    var rest := url[SshPrefixLength(url)..];
    assert rest[|rest| - 1] == url[|url| - 1];
    SshPathOfPattern(rest);
  }

  /** After the prefix, what the validation pattern accepts the name expression matches. */
  lemma SshPathOfPattern(rest: string)
    requires SshPatternAfterPrefix(rest) && rest[|rest| - 1] != '\n'
    ensures SshPathAfterPrefix(rest).Some?
  {
    var t := PatternBody(rest);
    SeparatorAtHostRunEnd(rest);
    LazyGroupInPathChars(t);
  }

  /** The text the validation pattern accepts after the host's separator. */
  lemma PatternBody(rest: string) returns (t: string)
    requires SshPatternAfterPrefix(rest) && rest[|rest| - 1] != '\n'
    ensures 1 <= HostRunEnd(rest, 0) < |rest|
    ensures rest[HostRunEnd(rest, 0)] == ':' || rest[HostRunEnd(rest, 0)] == '/'
    ensures t == rest[HostRunEnd(rest, 0) + 1..]
    ensures t != "" && forall i :: 0 <= i < |t| ==> SshPathChar(t[i])
  {
    var k := HostRunEnd(rest, 0);
    t := rest[k + 1..];
    assert t[|t| - 1] == rest[|rest| - 1];
    assert DropFinalLineBreak(t) == t;
  }

  // ---------------------------------------------------------------------------------------
  // get_repo
  // ---------------------------------------------------------------------------------------

  datatype RepoError = InvalidUrl | CredentialsIncomplete(platform: Platform)

  /**
   * What `get_repo` settles before it runs any git command: an invalid URL is refused at
   * once; otherwise the URL to clone from and the name of the clone's directory under the
   * repositories folder, or the `ValueError` of a platform that needs a user name. The name
   * is the corrected one: it differs from the source's exactly when `splitext` finds an
   * extension in the path the SSH expression matched.
   */
  function GetRepo(urlRepo: string, parse: string -> ParsedUrl, token: Option<string>,
                   username: Option<string>)
    : (r: Result<(string, string), RepoError>)
    ensures !IsValidUrl(urlRepo, parse) ==> r == Err(InvalidUrl)
    ensures IsValidUrl(urlRepo, parse) && !Truthy(token) ==> r == Ok((urlRepo, ExtractRepoName(urlRepo, parse)))
    ensures r.Ok? ==> '/' !in r.value.1
    ensures r.Err? && r != Err(InvalidUrl) ==> Truthy(token) && !Truthy(username)
    ensures r.Ok? ==> (r.value.1 == ExtractRepoNameAsWritten(urlRepo, parse)
                       <==> SshRepoPath(RStrip(urlRepo, '/')).None? || SplitExt(SshRepoPath(RStrip(urlRepo, '/')).value).1 == "")
  {
    NamesAgreeExactly(urlRepo, parse);
    if !IsValidUrl(urlRepo, parse) then Err(InvalidUrl)
    else
      match BuildAuthenticationUrl(urlRepo, parse, token, username)
      case Err(UsernameRequired(p)) => Err(CredentialsIncomplete(p))
      case Ok(url) => Ok((url, ExtractRepoName(urlRepo, parse)))
  }

  /**
   * A valid HTTPS URL of the bare host (`https://github.com/`, whose parsed path is `/`)
   * gets the empty name, so its clone would be the repositories folder itself.
   */
  lemma BareHostHasEmptyName(parse: string -> ParsedUrl, host: string)
    requires host != "" && '/' !in host
    requires parse("https://" + host + "/") == ParsedUrl("https", host, "/", "", "", "")
    requires parse("https://" + host) == ParsedUrl("https", host, "", "", "", "")
    ensures IsValidUrl("https://" + host + "/", parse)
    ensures GetRepo("https://" + host + "/", parse, None, None) == Ok(("https://" + host + "/", ""))
  {
    var url := "https://" + host + "/";
    BareHostValid(parse, host, url);
    BareHostName(parse, host, url);
  }

  /** `https://host/` passes validation. */
  lemma BareHostValid(parse: string -> ParsedUrl, host: string, url: string)
    requires host != "" && url == "https://" + host + "/"
    requires parse(url) == ParsedUrl("https", host, "/", "", "", "")
    ensures IsValidUrl(url, parse)
  {
  }

  /** `https://host/` is stripped to `https://host`, whose parsed path is empty. */
  lemma BareHostName(parse: string -> ParsedUrl, host: string, url: string)
    requires host != "" && '/' !in host && url == "https://" + host + "/"
    requires parse("https://" + host) == ParsedUrl("https", host, "", "", "", "")
    ensures ExtractRepoName(url, parse) == ""
  {
    assert TrailingCount(url, '/') == 1 by {
      assert url[|url| - 2] == host[|host| - 1];
    }
    assert RStrip(url, '/') == "https://" + host;
    assert SshPrefixLength("https://" + host) == 0 by {
      assert ("https://" + host)[0] == 'h';
    }
  }
}
