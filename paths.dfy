// The POSIX path helpers of Python's os.path that readNCall and the charts
// use to derive names: basename, join and splitext.

module Paths {
  import opened Wrappers
  import opened Strings

  /** The last index of `c` in `s`, if any. */
  function LastIndexOf(s: string, c: char): (r: Option<nat>)
    ensures r.Some? ==> r.value < |s| && s[r.value] == c && c !in s[r.value + 1..]
    ensures r.None? ==> c !in s
    decreases |s|
  {
    if |s| == 0 then None
    else if s[|s| - 1] == c then Some(|s| - 1)
    else
      var r := LastIndexOf(s[..|s| - 1], c);
      assert s == s[..|s| - 1] + [s[|s| - 1]];
      if r.Some? then
        assert s[r.value + 1..] == s[..|s| - 1][r.value + 1..] + [s[|s| - 1]];
        r
      else r
  }

  /** The last `c` of `a + [c] + b`, when `b` has none, is the one between them. */
  lemma {:induction false} LastIndexOfSplit(a: string, c: char, b: string)
    requires c !in b
    ensures LastIndexOf(a + [c] + b, c) == Some(|a|)
    decreases |b|
  {
    if |b| > 0 {
      var s := a + [c] + b;
      assert s[..|s| - 1] == a + [c] + b[..|b| - 1];
      LastIndexOfSplit(a, c, b[..|b| - 1]);
    }
  }

  /** A suffix without `c` does not move the last `c`. */
  lemma {:induction false} LastIndexOfPrefix(a: string, c: char, b: string)
    requires c !in b
    ensures LastIndexOf(a + b, c) == LastIndexOf(a, c)
    decreases |b|
  {
    if |b| > 0 {
      assert (a + b)[..|a + b| - 1] == a + b[..|b| - 1];
      LastIndexOfPrefix(a, c, b[..|b| - 1]);
    } else {
      assert a + b == a;
    }
  }

  /** `os.path.basename(p)`: everything after the last `/`. */
  function Basename(p: string): (r: string)
    ensures '/' !in r && EndsWith(p, r)
    ensures |r| == |p| || p[|p| - |r| - 1] == '/'
  {
    match LastIndexOf(p, '/')
    case None => p
    case Some(i) => p[i + 1..]
  }

  /** `os.path.join(a, b)` for a `b` that is a name relative to `a`. */
  function JoinPath(a: string, b: string): string
  {
    if StartsWith(b, "/") then b
    else if a == "" || EndsWith(a, "/") then a + b
    else a + "/" + b
  }

  /** `os.path.join(root, "visualization", name)`, where every artifact lives. */
  function VisualizationPath(root: string, name: string): string
  {
    JoinPath(JoinPath(root, "visualization"), name)
  }

  predicate AllDots(s: string)
  {
    forall i :: 0 <= i < |s| ==> s[i] == '.'
  }

  /** Start of the file name within the path. */
  function NameStart(p: string): (k: nat)
    ensures k <= |p|
  {
    match LastIndexOf(p, '/')
    case None => 0
    case Some(i) => i + 1
  }

  /** `os.path.splitext(p)`: the extension runs from the last `.` of the file
      name to the end, unless that dot is preceded only by dots (a hidden
      file such as `.vcom` has no extension). */
  function Splitext(p: string): (r: (string, string))
    ensures r.0 + r.1 == p
    ensures r.1 == "" || r.1[0] == '.'
  {
    var start := NameStart(p);
    match LastIndexOf(p, '.')
    case Some(d) =>
      if d >= start && !AllDots(p[start..d]) then
        assert p[..d] + p[d..] == p;
        (p[..d], p[d..])
      else (p, "")
    case None => (p, "")
  }

  /** The extension `"." + w` (no `.` or `/` in `w`) that ends `p` is what
      splitext reports, unless the file name before it is made of dots only. */
  lemma SplitextOfSuffix(p: string, w: string)
    requires '.' !in w && '/' !in w
    requires EndsWith(p, "." + w)
    ensures var d := |p| - |w| - 1;
            NameStart(p) <= d &&
            Splitext(p).1 == (if AllDots(p[NameStart(p)..d]) then "" else "." + w)
  {
    var d := |p| - |w| - 1;
    var a := p[..d];
    assert p == a + ['.'] + w by {
      assert p[d..] == "." + w;
      assert p == p[..d] + p[d..];
    }
    LastIndexOfSplit(a, '.', w);
    assert '/' !in ['.'] + w;
    assert p == a + (['.'] + w);
    LastIndexOfPrefix(a, '/', ['.'] + w);
  }

  /** `os.path.basename(p).split('.')[0]`: the file name up to its first dot. */
  function BaseName(p: string): (r: string)
    ensures '.' !in r && '/' !in r
    ensures StartsWith(Basename(p), r) && (|r| == |Basename(p)| || Basename(p)[|r|] == '.')
  {
    var b := Basename(p);
    var r := Split(b, '.')[0];
    SplitHead(b, '.');
    r
  }

  /** Dropping an extension does not change the part before the first dot. */
  lemma SplitHeadBeforeExtension(q: string, e: string)
    requires e == "" || e[0] == '.'
    ensures Split(q + e, '.')[0] == Split(q, '.')[0]
  {
    var b := q + e;
    SplitHead(q, '.');
    SplitHead(b, '.');
    match IndexOf(q, '.')
    case Some(k) =>
      assert b[..k] == q[..k] && b[k] == '.';
      var j := IndexOf(b, '.').value;
      assert j == k;
    case None =>
      if e != "" {
        assert b[|q|] == '.' && b[..|q|] == q;
        var j := IndexOf(b, '.').value;
        assert j == |q|;
      } else {
        assert b == q;
      }
  }

  /** Cutting the extension off first does not change the part before the
      first dot: `splitext(basename(p))[0].split('.')[0]` is the base name. */
  lemma SplitextBaseName(p: string)
    ensures Split(Splitext(Basename(p)).0, '.')[0] == BaseName(p)
  {
    var (q, e) := Splitext(Basename(p));
    SplitHeadBeforeExtension(q, e);
  }

  predicate IsUserComponent(c: string)
  {
    c != "" && !StartsWith(c, ".")
  }

  /** The user name readNCall finds in `mln_User`: the last component of the
      path split at `/` if it is neither empty nor hidden, else the one
      before it. Looking at a second component that does not exist raises,
      and when neither qualifies the name is never bound, which raises too. */
  function Username(mlnUser: string): (r: Result<string>)
    ensures r.Ok? ==> IsUserComponent(r.value) && r.value in Split(mlnUser, '/')
    ensures r.Ok? ==> '/' !in r.value
    ensures var c := Split(mlnUser, '/');
            && (IsUserComponent(c[|c| - 1]) ==> r == Ok(c[|c| - 1]))
            && (r.Ok? <==> IsUserComponent(c[|c| - 1]) || (|c| >= 2 && IsUserComponent(c[|c| - 2])))
            && (r.Ok? ==> r.value == c[|c| - 1] || r.value == c[|c| - 2])
  {
    var c := Split(mlnUser, '/');
    var n := |c|;
    if IsUserComponent(c[n - 1]) then Ok(c[n - 1])
    else if n < 2 then Err
    else if IsUserComponent(c[n - 2]) then Ok(c[n - 2])
    else Err
  }

  /** The user's own directory names the user, written with or without a
      trailing `/`, and so does a hidden directory inside it:
      `/home/{user}`, `/home/{user}/` and `/home/{user}/.cache` all give
      `{user}`. */
  lemma UsernameOfUserDir(parent: string, user: string, hidden: string)
    requires IsUserComponent(user) && '/' !in user
    requires '/' !in hidden && !IsUserComponent(hidden)
    ensures Username(parent + "/" + user) == Ok(user)
    ensures Username(parent + "/" + user + "/" + hidden) == Ok(user)
  {
    assert parent + "/" + user == parent + ['/'] + user;
    SplitLast(parent, '/', user);
    assert parent + "/" + user + "/" + hidden == parent + ['/'] + user + ['/'] + hidden;
    SplitLastTwo(parent, '/', user, hidden);
  }

  /** A directory whose last two components are empty or hidden names no
      user: readNCall returns False for it. */
  lemma NoUserInHiddenDirs(parent: string, a: string, b: string)
    requires '/' !in a && !IsUserComponent(a)
    requires '/' !in b && !IsUserComponent(b)
    ensures Username(parent + "/" + a + "/" + b).Err?
  {
    assert parent + "/" + a + "/" + b == parent + ['/'] + a + ['/'] + b;
    SplitLastTwo(parent, '/', a, b);
  }

  /** The cluster name readNCall derives: the base name with `{user}_`
      removed twice over. */
  function FinalClusterName(base: string, user: string): string
  {
    var tag := user + "_";
    ReplaceAll(ReplaceAll(base, tag, ""), tag, "")
  }

  /** A base name `{user}_{rest}` yields `rest` as cluster name. */
  lemma FinalClusterNameStripsUser(user: string, rest: string)
    requires !Contains(rest, user + "_")
    ensures FinalClusterName(user + "_" + rest, user) == rest
  {
    var tag := user + "_";
    ReplaceAllAtStart(tag, rest, "");
    assert "" + rest == rest;
  }

  /** A base name without `{user}_` is the cluster name itself. */
  lemma FinalClusterNameUnchanged(base: string, user: string)
    requires !Contains(base, user + "_")
    ensures FinalClusterName(base, user) == base
  {
  }
}
