/**
 * Project detection (`src/project.rs`): which project id a command works
 * under, and how a git remote URL becomes an `owner/repo` id. The
 * environment variable, the git lookups and the working directory are
 * inputs here.
 */
module Project {
  import opened Wrappers
  import Text

  /** The last component of a path, as `Path::file_name` yields it: never empty. */
  type FileName = s: string | s != [] witness "."

  /** `str::strip_prefix`. */
  function StripPrefix(s: string, prefix: string): (r: Option<string>)
    ensures r.Some? <==> Text.StartsWith(s, prefix)
    ensures r.Some? ==> s == prefix + r.value
  {
    if Text.StartsWith(s, prefix) then Some(s[|prefix|..]) else None
  }

  /** The URL with surrounding whitespace and every trailing `.git` removed. */
  function Normalize(url: string): (u: string)
    ensures !Text.EndsWith(u, ".git")
  {
    Text.TrimEndMatches(Text.Trim(url), ".git")
  }

  /** `parse_git_remote`: the `owner/repo` part of a remote URL, or the normalised URL. */
  function ParseGitRemote(url: string): string
  {
    ParseNormalized(Normalize(url))
  }

  /** What `parse_git_remote` does once the URL is normalised. */
  function ParseNormalized(u: string): string
  {
    var ssh := StripPrefix(u, "git@");
    if ssh.Some? && ':' in ssh.value then
      ssh.value[Text.CharIndex(ssh.value, ':') + 1..]
    else
      var afterScheme := Text.SplitSecond(u, "://");
      if afterScheme.Some? && |Text.SplitChar(afterScheme.value, '/')| >= 3 then
        var parts := Text.SplitChar(afterScheme.value, '/');
        parts[|parts| - 2] + "/" + parts[|parts| - 1]
      else u
  }

  /**
   * `detect_project`: a non-blank explicit id, else a non-blank
   * `VIPUNE_PROJECT`, else the parsed remote when it is not empty, else the
   * git root's name, else the working directory's name, else "unknown".
   * `remote` is the trimmed, non-empty output of `git remote get-url origin`.
   */
  function DetectProject(explicit: Option<string>, envProject: Option<string>, remote: Option<string>,
                         gitRootName: Option<FileName>, cwdName: Option<FileName>): (r: string)
    ensures r != []
  {
    if explicit.Some? && Text.Trim(explicit.value) != [] then Text.Trim(explicit.value)
    else if envProject.Some? && Text.Trim(envProject.value) != [] then Text.Trim(envProject.value)
    else if remote.Some? && ParseGitRemote(remote.value) != [] then ParseGitRemote(remote.value)
    else if gitRootName.Some? then gitRootName.value
    else if cwdName.Some? then cwdName.value
    else "unknown"
  }

  /** A non-blank explicit id wins, trimmed, whatever the environment and git say. */
  lemma {:induction false} ExplicitWins(explicit: string, envProject: Option<string>, remote: Option<string>,
                     gitRootName: Option<FileName>, cwdName: Option<FileName>)
    requires Text.Trim(explicit) != []
    ensures DetectProject(Some(explicit), envProject, remote, gitRootName, cwdName) == Text.Trim(explicit)
    ensures DetectProject(Some(explicit), envProject, remote, gitRootName, cwdName)
            == DetectProject(Some(explicit), None, None, None, None)
  {
  }

  /** A blank explicit id counts as none at all. */
  lemma {:induction false} BlankExplicitFallsThrough(explicit: string, envProject: Option<string>, remote: Option<string>,
                                  gitRootName: Option<FileName>, cwdName: Option<FileName>)
    requires Text.AllWhitespace(explicit)
    ensures DetectProject(Some(explicit), envProject, remote, gitRootName, cwdName)
            == DetectProject(None, envProject, remote, gitRootName, cwdName)
  {
    Text.TrimEmptyIffBlank(explicit);
  }

  /** Without explicit id or variable, a remote that parses to something wins over the directories. */
  lemma {:induction false} RemoteBeatsDirectories(remote: string, gitRootName: Option<FileName>, cwdName: Option<FileName>)
    requires ParseGitRemote(remote) != []
    ensures DetectProject(None, None, Some(remote), gitRootName, cwdName) == ParseGitRemote(remote)
  {
  }

  /** Text after the end of `a + [c]`, when `c` does not occur in `a`, is split after `a`. */
  lemma {:induction false} SplitCharAfter(a: string, c: char, b: string)
    requires c !in a
    ensures Text.SplitChar(a + [c] + b, c) == [a] + Text.SplitChar(b, c)
  {
    var s := a + [c] + b;
    assert s[..|a|] == a && s[|a|] == c;
    assert s[|a| + 1..] == b;
  }

  /** `scheme://host/owner/repo` yields `owner/repo`. */
  lemma {:induction false} HttpsRemote(scheme: string, host: string, owner: string, repo: string)
    requires ':' !in scheme && '@' !in scheme && scheme != [] && !Text.IsWhitespace(scheme[0])
    requires ':' !in host && ':' !in owner && ':' !in repo
    requires '/' !in host && '/' !in owner && '/' !in repo
    requires repo != [] && !Text.IsWhitespace(repo[|repo| - 1]) && !Text.EndsWith(repo, ".git")
    ensures ParseGitRemote(scheme + "://" + host + "/" + owner + "/" + repo) == owner + "/" + repo
  {
    var rest := host + "/" + owner + "/" + repo;
    var url := scheme + "://" + rest;
    assert url == scheme + "://" + host + "/" + owner + "/" + repo;
    HttpsNormalized(scheme, rest, repo);
    HttpsParsed(scheme, host, owner, repo);
  }

  lemma {:induction false} HttpsParsed(scheme: string, host: string, owner: string, repo: string)
    requires ':' !in scheme && '@' !in scheme
    requires ':' !in host && ':' !in owner && ':' !in repo
    requires '/' !in host && '/' !in owner && '/' !in repo
    ensures ParseNormalized(scheme + "://" + (host + "/" + owner + "/" + repo)) == owner + "/" + repo
  {
    var rest := host + "/" + owner + "/" + repo;
    NoUserPrefix(scheme, rest);
    SchemeSplit(scheme, rest);
    PathPieces(host, owner, repo);
  }

  lemma {:induction false} HttpsNormalized(scheme: string, rest: string, repo: string)
    requires scheme != [] && !Text.IsWhitespace(scheme[0])
    requires repo != [] && !Text.IsWhitespace(repo[|repo| - 1]) && !Text.EndsWith(repo, ".git")
    requires |rest| > |repo| && rest[|rest| - |repo| - 1..] == "/" + repo
    ensures Normalize(scheme + "://" + rest) == scheme + "://" + rest
  {
    var url := scheme + "://" + rest;
    assert url[|url| - 1] == repo[|repo| - 1];
    assert url[0] == scheme[0];
    TrimmedUrl(url);
    var prefix := url[..|url| - |repo|];
    assert url == prefix + repo;
    assert prefix[|prefix| - 1] == '/';
    NoGitEnding(prefix, repo);
  }

  lemma {:induction false} NoUserPrefix(scheme: string, rest: string)
    requires '@' !in scheme && ':' !in scheme
    ensures !Text.StartsWith(scheme + "://" + rest, "git@")
  {
    var url := scheme + "://" + rest;
    if |scheme| >= 4 {
      assert url[3] == scheme[3];
    } else {
      assert url[|scheme|] == ':';
    }
  }

  lemma {:induction false} PathPieces(host: string, owner: string, repo: string)
    requires '/' !in host && '/' !in owner && '/' !in repo
    ensures Text.SplitChar(host + "/" + owner + "/" + repo, '/') == [host, owner, repo]
  {
    assert host + "/" + owner + "/" + repo == host + ['/'] + (owner + ['/'] + repo);
    SplitCharAfter(host, '/', owner + ['/'] + repo);
    SplitCharAfter(owner, '/', repo);
    SplitCharNone(repo, '/');
  }

  lemma {:induction false} SplitCharNone(s: string, c: char)
    requires c !in s
    ensures Text.SplitChar(s, c) == [s]
  {
  }

  /** A string with no whitespace at either end is its own trim. */
  lemma {:induction false} TrimmedUrl(url: string)
    requires url != [] && !Text.IsWhitespace(url[0]) && !Text.IsWhitespace(url[|url| - 1])
    ensures Text.Trim(url) == url
  {
  }

  /** A tail that does not end in `.git`, after a `/` or `:`, leaves the whole without that ending. */
  lemma {:induction false} NoGitEnding(prefix: string, tail: string)
    requires !Text.EndsWith(tail, ".git") && |tail| >= 1
    requires |prefix| >= 1 && (prefix[|prefix| - 1] == '/' || prefix[|prefix| - 1] == ':')
    ensures !Text.EndsWith(prefix + tail, ".git")
  {
    var s := prefix + tail;
    if |tail| >= 4 {
      assert s[|s| - 4..] == tail[|tail| - 4..];
    } else if |s| >= 4 {
      assert s[|s| - 4..][3 - |tail|] == prefix[|prefix| - 1];
    }
  }

  /** With no `:` after the scheme, the first `://` is the one after the scheme and no second follows. */
  lemma {:induction false} SchemeSplit(scheme: string, rest: string)
    requires ':' !in scheme && ':' !in rest
    ensures Text.SplitSecond(scheme + "://" + rest, "://") == Some(rest)
  {
    var s := scheme + "://" + rest;
    assert s[|scheme|..|scheme| + 3] == "://";
    assert s[..|scheme|] == scheme;
    Text.FirstMatch(s, "://", |scheme|);
    assert s[|scheme| + 3..] == rest;
    Text.NoFirstChar(rest, "://");
  }

  /** `git@host:path` yields `path`, the part after the first `:`. */
  lemma {:induction false} SshRemote(host: string, path: string)
    requires ':' !in host
    requires path != [] && !Text.IsWhitespace(path[|path| - 1]) && !Text.EndsWith(path, ".git")
    ensures ParseGitRemote("git@" + host + ":" + path) == path
  {
    var rest := host + ":" + path;
    var url := "git@" + rest;
    assert url == "git@" + host + ":" + path;
    SshNormalized(rest, path);
    SshParsed(host, path);
  }

  lemma {:induction false} SshParsed(host: string, path: string)
    requires ':' !in host
    ensures ParseNormalized("git@" + (host + ":" + path)) == path
  {
    var rest := host + ":" + path;
    var url := "git@" + rest;
    assert url[4..] == rest;
    ColonIndex(host, path);
  }

  lemma {:induction false} SshNormalized(rest: string, path: string)
    requires path != [] && !Text.IsWhitespace(path[|path| - 1]) && !Text.EndsWith(path, ".git")
    requires |rest| > |path| && rest[|rest| - |path| - 1..] == ":" + path
    ensures Normalize("git@" + rest) == "git@" + rest
  {
    var url := "git@" + rest;
    assert url[0] == 'g';
    Text.VisibleAsciiNotWhitespace('g');
    assert url[|url| - 1] == path[|path| - 1];
    TrimmedUrl(url);
    var prefix := url[..|url| - |path|];
    assert url == prefix + path;
    assert prefix[|prefix| - 1] == ':';
    NoGitEnding(prefix, path);
  }

  lemma {:induction false} ColonIndex(host: string, path: string)
    requires ':' !in host
    ensures Text.CharIndex(host + ":" + path, ':') == |host|
    ensures (host + ":" + path)[|host| + 1..] == path
  {
    var s := host + ":" + path;
    var i := Text.CharIndex(s, ':');
    assert s[..|host|] == host;
    assert s[|host|] == ':';
  }

  /** Trailing `.git` makes no difference to what a trimmed URL parses to. */
  lemma {:induction false} GitSuffixIgnored(url: string)
    requires url != [] && !Text.IsWhitespace(url[0]) && !Text.IsWhitespace(url[|url| - 1])
    ensures ParseGitRemote(url + ".git") == ParseGitRemote(url)
  {
    var s := url + ".git";
    assert s[0] == url[0] && s[|s| - 1] == 't';
    Text.VisibleAsciiNotWhitespace('t');
    TrimmedUrl(s);
    TrimmedUrl(url);
    assert Text.EndsWith(s, ".git") && s[..|s| - 4] == url;
  }

  /** A URL that is neither of the `git@` form nor has a scheme is returned normalised. */
  lemma {:induction false} FallbackKeepsUrl(url: string)
    requires !Text.StartsWith(Normalize(url), "git@")
    requires !Text.Contains(Normalize(url), "://")
    ensures ParseGitRemote(url) == Normalize(url)
  {
    FallbackNormalized(Normalize(url));
  }

  lemma {:induction false} FallbackNormalized(u: string)
    requires !Text.StartsWith(u, "git@") && !Text.Contains(u, "://")
    ensures ParseNormalized(u) == u
  {
    assert StripPrefix(u, "git@").None?;
    assert Text.SplitSecond(u, "://").None?;
  }

  /**
   * A URL with a second `://` is cut at that separator before its path is
   * split, so a `.git` in front of it survives: the id that comes back can
   * end in `.git`, although every trailing `.git` of the URL was stripped.
   */
  lemma {:induction false} SecondSchemeKeepsGit(scheme: string, host: string, owner: string, repo: string, tail: string)
    requires ':' !in scheme && '@' !in scheme && scheme != [] && !Text.IsWhitespace(scheme[0])
    requires ':' !in host && ':' !in owner && ':' !in repo
    requires '/' !in host && '/' !in owner && '/' !in repo
    requires tail != [] && !Text.IsWhitespace(tail[|tail| - 1]) && !Text.EndsWith(tail, ".git")
    ensures ParseGitRemote(scheme + "://" + host + "/" + owner + "/" + repo + ".git://" + tail)
            == owner + "/" + repo + ".git"
    ensures Text.EndsWith(owner + "/" + repo + ".git", ".git")
  {
    var mid := host + "/" + owner + "/" + (repo + ".git");
    var rest := mid + "://" + tail;
    assert scheme + "://" + rest == scheme + "://" + host + "/" + owner + "/" + repo + ".git://" + tail;
    assert rest[|rest| - |tail| - 1..] == "/" + tail;
    HttpsNormalized(scheme, rest, tail);
    SecondSchemeParsed(scheme, host, owner, repo + ".git", tail);
    var r := owner + "/" + repo + ".git";
    assert r[|r| - 4..] == ".git";
  }

  lemma {:induction false} SecondSchemeParsed(scheme: string, host: string, owner: string, repo: string, tail: string)
    requires ':' !in scheme && '@' !in scheme
    requires ':' !in host && ':' !in owner && ':' !in repo
    requires '/' !in host && '/' !in owner && '/' !in repo
    ensures ParseNormalized(scheme + "://" + (host + "/" + owner + "/" + repo + "://" + tail)) == owner + "/" + repo
  {
    var mid := host + "/" + owner + "/" + repo;
    NoUserPrefix(scheme, mid + "://" + tail);
    SecondSeparator(scheme, mid, tail);
    PathPieces(host, owner, repo);
  }

  /** `split("://").nth(1)` stops at the second separator. */
  lemma {:induction false} SecondSeparator(scheme: string, mid: string, tail: string)
    requires ':' !in scheme && ':' !in mid
    ensures Text.SplitSecond(scheme + "://" + (mid + "://" + tail), "://") == Some(mid)
  {
    var rest := mid + "://" + tail;
    var s := scheme + "://" + rest;
    assert s[|scheme|..|scheme| + 3] == "://";
    assert s[..|scheme|] == scheme;
    Text.FirstMatch(s, "://", |scheme|);
    assert s[|scheme| + 3..] == rest;
    assert rest[|mid|..|mid| + 3] == "://";
    assert rest[..|mid|] == mid;
    Text.FirstMatch(rest, "://", |mid|);
  }
}
