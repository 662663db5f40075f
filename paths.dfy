/**
 * Path strings as bgstools/io/io.py inspects them: prefix classification of
 * remote URLs and LAN paths, the `path_exists` dispatch, and the two
 * `os.path` helpers the directory functions rely on (POSIX `join` and `splitext`).
 */
module Paths {

  /** `s.startswith(prefix)` */
  predicate StartsWith(s: string, prefix: string) {
    prefix <= s
  }

  /** `s.endswith(suffix)`; every string ends with "". */
  predicate EndsWith(s: string, suffix: string) {
    |suffix| <= |s| && s[|s| - |suffix|..] == suffix
  }

  /** `is_remote_url`: an http or https URL (case-sensitive). */
  predicate IsRemoteUrl(path: string)
    ensures IsRemoteUrl(path) ==> |path| >= 7 && path[..4] == "http" && !IsLanPath(path)
  {
    StartsWith(path, "http://") || StartsWith(path, "https://")
  }

  /** `is_lan_path`: a UNC path, whose first two characters are backslashes. */
  predicate IsLanPath(path: string)
    ensures IsLanPath(path) <==> |path| >= 2 && path[0] == '\\' && path[1] == '\\'
  {
    StartsWith(path, "\\\\")
  }

  /** Remote URLs are exactly the strings made by putting a scheme prefix in front of something. */
  lemma RemoteUrlShape(path: string, rest: string)
    ensures IsRemoteUrl("http://" + rest) && IsRemoteUrl("https://" + rest)
    ensures !IsRemoteUrl("HTTP://" + rest) && !IsRemoteUrl("Https://" + rest)
    ensures IsRemoteUrl(path) <==>
              (|path| >= 7 && path == "http://" + path[7..]) || (|path| >= 8 && path == "https://" + path[8..])
  {
    assert ("http://" + rest)[..7] == "http://";
    assert ("https://" + rest)[..8] == "https://";
    assert ("HTTP://" + rest)[0] == 'H';
    assert ("Https://" + rest)[0] == 'H';
    if |path| >= 7 && path == "http://" + path[7..] {
      assert path[..7] == "http://";
    }
    if |path| >= 8 && path == "https://" + path[8..] {
      assert path[..8] == "https://";
    }
  }

  /** The branch of `path_exists` that a path takes. */
  datatype PathKind = RemoteUrl | LanPath | LocalPath

  /** Remote takes precedence over LAN and LAN over local; the three classes partition all strings. */
  function Classify(path: string): (k: PathKind)
    ensures k == RemoteUrl <==> IsRemoteUrl(path)
    ensures k == LanPath <==> IsLanPath(path)
    ensures k == LocalPath <==> !IsRemoteUrl(path) && !IsLanPath(path)
  {
    if IsRemoteUrl(path) then
      assert path[0] == 'h';
      RemoteUrl
    else if IsLanPath(path) then LanPath
    else LocalPath
  }

  /**
   * `path_exists`: a remote URL is probed with an HTTP HEAD request
   * (`remoteReachable`, standing for `check_remote_path_exists`); LAN and
   * local paths are both probed with `os.path.exists` (`existsOnDisk`).
   */
  function PathExists(path: string, remoteReachable: string -> bool, existsOnDisk: string -> bool): (r: bool)
    ensures IsRemoteUrl(path) ==> r == remoteReachable(path)
    ensures !IsRemoteUrl(path) ==> r == existsOnDisk(path)
  {
    match Classify(path)
    case RemoteUrl => remoteReachable(path)
    case LanPath => existsOnDisk(path)
    case LocalPath => existsOnDisk(path)
  }

  /** `posixpath.join(a, b)`: an absolute `b` replaces `a`; otherwise a single '/' separates them. */
  function Join(a: string, b: string): (r: string)
    ensures StartsWith(b, "/") ==> r == b
    ensures !StartsWith(b, "/") ==> StartsWith(r, a) && EndsWith(r, b)
    ensures !StartsWith(b, "/") ==> |r| <= |a| + 1 + |b|
  {
    if StartsWith(b, "/") then b
    else if a == "" || EndsWith(a, "/") then a + b
    else a + "/" + b
  }

  /** The position of the last `c` in `s`, or -1 when there is none (`str.rfind`). */
  function LastIndexOf(s: string, c: char): (i: int)
    ensures -1 <= i < |s|
    ensures i >= 0 ==> s[i] == c
    ensures forall q :: i < q < |s| ==> s[q] != c
  {
    if s == [] then -1
    else if s[|s| - 1] == c then |s| - 1
    else LastIndexOf(s[..|s| - 1], c)
  }

  /** Every character of `s` is a dot. */
  predicate AllDots(s: string) {
    forall k :: 0 <= k < |s| ==> s[k] == '.'
  }

  /** Position `k` of `root` holds a non-dot and no separator follows it in `root`. */
  ghost predicate NonDotInLastComponent(root: string, k: int) {
    0 <= k < |root| && root[k] != '.' && forall q :: k <= q < |root| ==> root[q] != '/'
  }

  /**
   * `(root, ext)` is a proper extension split of `p`: `ext` starts with the last
   * dot of the last path component, and the component has a non-dot before it
   * (so ".bashrc" and "..." have no extension).
   */
  ghost predicate ExtensionSplit(p: string, root: string, ext: string) {
    && root + ext == p
    && |ext| > 0 && ext[0] == '.'
    && (forall q :: 0 < q < |ext| ==> ext[q] != '.' && ext[q] != '/')
    && exists k :: NonDotInLastComponent(root, k)
  }

  /** No split of `p` is a proper extension split. */
  ghost predicate HasNoExtension(p: string) {
    forall i :: 0 <= i <= |p| ==> !ExtensionSplit(p, p[..i], p[i..])
  }

  /**
   * `posixpath.splitext(p)`: split at the last '.' when it lies in the last
   * component and a non-dot precedes it there; otherwise the extension is "".
   */
  function SplitExt(p: string): (r: (string, string))
    ensures r.0 + r.1 == p
    ensures r.1 != "" ==> ExtensionSplit(p, r.0, r.1)
    ensures r.1 == "" ==> HasNoExtension(p)
  {
    var sep := LastIndexOf(p, '/');
    var dot := LastIndexOf(p, '.');
    if dot > sep && !AllDots(p[sep + 1..dot]) then
      SplitAtDot(p, sep, dot);
      (p[..dot], p[dot..])
    else
      NoSplit(p, sep, dot);
      (p, "")
  }

  lemma SplitAtDot(p: string, sep: int, dot: int)
    requires sep == LastIndexOf(p, '/') && dot == LastIndexOf(p, '.')
    requires dot > sep && !AllDots(p[sep + 1..dot])
    ensures ExtensionSplit(p, p[..dot], p[dot..])
  {
    var m := NonDotWitness(p[sep + 1..dot]);
    var k := sep + 1 + m;
    assert p[k] != '.' by { assert p[sep + 1..dot][m] == p[k]; }
    NonDotAt(p, sep, dot, k);
    ExtensionAfterDot(p, sep, dot);
    assert p[..dot] + p[dot..] == p;
  }

  /** A position of `s` that does not hold a dot. */
  lemma NonDotWitness(s: string) returns (m: nat)
    requires !AllDots(s)
    ensures m < |s| && s[m] != '.'
  {
    m :| m < |s| && s[m] != '.';
  }

  /** A non-dot after the last separator lies in the last component of any prefix that holds it. */
  lemma NonDotAt(p: string, sep: int, dot: int, k: int)
    requires -1 <= sep < k < dot <= |p| && p[k] != '.'
    requires forall q :: sep < q < |p| ==> p[q] != '/'
    ensures NonDotInLastComponent(p[..dot], k)
  {
    assert p[..dot][k] == p[k];
    forall q | k <= q < dot
      ensures p[..dot][q] != '/'
    {
      assert p[..dot][q] == p[q];
    }
  }

  /** From the last dot on, past the last separator, the suffix is a well-formed extension. */
  lemma ExtensionAfterDot(p: string, sep: int, dot: int)
    requires -1 <= sep < dot < |p| && p[dot] == '.'
    requires forall q :: dot < q < |p| ==> p[q] != '.'
    requires forall q :: sep < q < |p| ==> p[q] != '/'
    ensures |p[dot..]| > 0 && p[dot..][0] == '.'
    ensures forall q :: 0 < q < |p[dot..]| ==> p[dot..][q] != '.' && p[dot..][q] != '/'
  {
    forall q | 0 < q < |p[dot..]|
      ensures p[dot..][q] != '.' && p[dot..][q] != '/'
    {
      assert p[dot..][q] == p[dot + q];
    }
  }

  lemma NoSplit(p: string, sep: int, dot: int)
    requires sep == LastIndexOf(p, '/') && dot == LastIndexOf(p, '.')
    requires !(dot > sep && !AllDots(p[sep + 1..dot]))
    ensures HasNoExtension(p)
  {
    forall i | 0 <= i <= |p|
      ensures !ExtensionSplit(p, p[..i], p[i..])
    {
      if ExtensionSplit(p, p[..i], p[i..]) {
        NoSplitAt(p, sep, dot, i);
      }
    }
  }

  /** The characters of an extension `p[i..]` after its dot are, in `p`, neither dots nor separators. */
  lemma ExtensionTail(p: string, i: int)
    requires 0 <= i <= |p|
    requires forall q :: 0 < q < |p[i..]| ==> p[i..][q] != '.' && p[i..][q] != '/'
    ensures forall q :: i < q < |p| ==> p[q] != '.' && p[q] != '/'
  {
    forall q | i < q < |p|
      ensures p[q] != '.' && p[q] != '/'
    {
      assert p[i..][q - i] == p[q];
    }
  }

  /** No separator follows position `k` of the root `p[..i]`, nor position `i` onwards, so none follows `k` in `p`. */
  lemma NoSeparatorAfter(p: string, i: int, k: int)
    requires 0 <= i <= |p| && NonDotInLastComponent(p[..i], k)
    requires forall q :: i <= q < |p| ==> p[q] != '/'
    ensures forall q :: k <= q < |p| ==> p[q] != '/'
  {
    forall q | k <= q < i
      ensures p[q] != '/'
    {
      assert p[..i][q] == p[q];
    }
  }

  lemma NoSplitAt(p: string, sep: int, dot: int, i: int)
    requires sep == LastIndexOf(p, '/') && dot == LastIndexOf(p, '.')
    requires 0 <= i <= |p| && ExtensionSplit(p, p[..i], p[i..])
    ensures dot > sep && !AllDots(p[sep + 1..dot])
  {
    ExtensionTail(p, i);
    assert i < |p| && p[i] == '.' by { assert p[i..][0] == p[i]; }
    assert dot == i;
    var k :| NonDotInLastComponent(p[..i], k);
    NoSeparatorAfter(p, i, k);
    assert sep < k;
    assert p[k] != '.' by { assert p[..i][k] == p[k]; }
    assert p[sep + 1..dot][k - sep - 1] == p[k];
  }

  /** The split found by `SplitExt` is the only proper one. */
  lemma {:induction false} SplitExtUnique(p: string, root: string, ext: string)
    requires ExtensionSplit(p, root, ext)
    ensures SplitExt(p) == (root, ext)
  {
    var i := |root|;
    assert root == p[..i] && ext == p[i..];
    var r := SplitExt(p);
    var j := |r.0|;
    assert r.0 == p[..j] && r.1 == p[j..];
    assert r.1 != "";
    ExtensionTail(p, i);
    ExtensionTail(p, j);
    assert p[i] == '.' by { assert ext[0] == p[i]; }
    assert p[j] == '.' by { assert r.1[0] == p[j]; }
  }
}
