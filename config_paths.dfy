/**
 * Tilde expansion for configured paths (`src/config/paths.rs`). Paths are
 * strings with `/` as the separator; the home directory, which the code asks
 * the platform for, is an input that may be absent.
 */
module ConfigPaths {
  import opened Wrappers
  import Text

  /** `Path::starts_with("~")`: the first component is `~`. */
  predicate StartsWithTilde(p: string)
  {
    p == "~" || Text.StartsWith(p, "~/")
  }

  function DropLeadingSeparators(s: string): (r: string)
    ensures |r| <= |s| && r == s[|s| - |r|..]
    ensures r == [] || r[0] != '/'
  {
    if s != [] && s[0] == '/' then DropLeadingSeparators(s[1..]) else s
  }

  /** `Path::strip_prefix("~")` of a path that starts with that component: the components after it. */
  function TildeRest(p: string): (r: string)
    requires StartsWithTilde(p)
    ensures r == [] || r[0] != '/'
    ensures Text.EndsWith(p, r)
  {
    DropLeadingSeparators(p[1..])
  }

  /**
   * `PathBuf::join`: an absolute `rel` replaces `base`; otherwise `rel` is
   * appended, after a separator unless `base` is empty or already ends in one.
   */
  function Join(base: string, rel: string): (r: string)
    ensures Text.EndsWith(r, rel)
    ensures (rel == [] || rel[0] != '/') ==> Text.StartsWith(r, base)
    ensures base != [] ==> r != []
  {
    if rel != [] && rel[0] == '/' then rel
    else if base == [] || base[|base| - 1] == '/' then base + rel
    else base + "/" + rel
  }

  /** `expand_tilde_path`: a path under `~` re-rooted at the home directory, when there is one. */
  function ExpandTildePath(p: string, homeDir: Option<string>): (r: string)
    ensures !StartsWithTilde(p) || homeDir.None? ==> r == p
    ensures StartsWithTilde(p) && homeDir.Some? ==>
              Text.StartsWith(r, homeDir.value) && Text.EndsWith(r, TildeRest(p))
  {
    if StartsWithTilde(p) && homeDir.Some? then Join(homeDir.value, TildeRest(p)) else p
  }

  /** `expand_tilde`: the same rewrite, applied to the caller's path variable. */
  method ExpandTilde(path: string, homeDir: Option<string>) returns (expanded: string)
    ensures expanded == ExpandTildePath(path, homeDir)
  {
    expanded := path;
    if StartsWithTilde(path) {
      if homeDir.Some? {
        var rest := path[1..];
        while rest != [] && rest[0] == '/'
          invariant DropLeadingSeparators(rest) == DropLeadingSeparators(path[1..])
          decreases |rest|
        {
          rest := rest[1..];
        }
        expanded := Join(homeDir.value, rest);
      }
    }
  }

  /**
   * With an absolute home directory, `~/rest` becomes the home directory
   * joined with `rest`, and the result no longer starts with `~`.
   */
  lemma {:induction false} ExpandUnderHome(home: string, rest: string)
    requires home != [] && home[0] == '/'
    requires rest == [] || rest[0] != '/'
    ensures ExpandTildePath("~/" + rest, Some(home)) == Join(home, rest)
    ensures !StartsWithTilde(ExpandTildePath("~/" + rest, Some(home)))
  {
    TildeRestOf(rest);
    var r := Join(home, rest);
    assert r[0] == home[0];
    AbsoluteNotTilde(r);
  }

  /** `~/rest` is under `~`, and what follows the `~` component is `rest`. */
  lemma {:induction false} TildeRestOf(rest: string)
    requires rest == [] || rest[0] != '/'
    ensures StartsWithTilde("~/" + rest) && TildeRest("~/" + rest) == rest
  {
    var p := "~/" + rest;
    assert p[..2] == "~/";
    var q := p[1..];
    assert q == "/" + rest && q[0] == '/';
    assert q[1..] == rest;
    assert DropLeadingSeparators(q) == DropLeadingSeparators(rest);
    assert DropLeadingSeparators(rest) == rest;
  }

  /** An absolute path does not start with `~`. */
  lemma {:induction false} AbsoluteNotTilde(p: string)
    requires p != [] && p[0] == '/'
    ensures !StartsWithTilde(p)
  {
    if |p| >= 2 {
      assert p[..2][0] == '/';
    }
  }

  /** Expanding twice changes nothing more, when the home directory is absolute. */
  lemma {:induction false} ExpandIdempotent(p: string, home: string)
    requires home != [] && home[0] == '/'
    ensures ExpandTildePath(ExpandTildePath(p, Some(home)), Some(home)) == ExpandTildePath(p, Some(home))
  {
    if StartsWithTilde(p) {
      var r := ExpandTildePath(p, Some(home));
      assert r[0] == '/';
    }
  }
}
