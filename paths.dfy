/** Local file paths sent by the browser: the `file://` test and the rewriting of
    a path across Linux/macOS, native Windows and Windows-with-WSL conventions.
    The file system is represented only by its existence test `onDisk`. */
module Paths {
  import opened Records

  /** `is_local_path`: the url names a local file. */
  function IsLocalPath(path: string): (r: bool)
    ensures r <==> |path| >= 7 && path[..7] == "file://"
  {
    "file://" <= path
  }

  predicate IsAsciiLetter(c: char)
  {
    'A' <= c <= 'Z' || 'a' <= c <= 'z'
  }

  /** `str.lower` on one ASCII letter. */
  function LowerAscii(c: char): (r: char)
    ensures 'A' <= c <= 'Z' ==> r as int == c as int + 32
    ensures !('A' <= c <= 'Z') ==> r == c
  {
    if 'A' <= c <= 'Z' then (c as int + 32) as char else c
  }

  /** The path matches `^[A-Za-z]:/`. */
  predicate IsDrivePath(p: string)
  {
    |p| >= 3 && IsAsciiLetter(p[0]) && p[1] == ':' && p[2] == '/'
  }

  /** The WSL mount of a drive path: `X:/rest` becomes `/mnt/x/rest`. */
  function MountPath(p: string): (r: string)
    requires IsDrivePath(p)
    ensures |r| == |p| + 4 && r[..5] == "/mnt/" && r[6] == '/'
    ensures 'a' <= r[5] <= 'z' && r[5] == LowerAscii(p[0])
    ensures r[7..] == p[3..]
  {
    "/mnt/" + [LowerAscii(p[0])] + "/" + p[3..]
  }

  /** Two drive paths mount to the same place exactly when their drive letters agree
      up to case and the rest of the paths agree. */
  lemma MountPathInjective(p: string, q: string)
    requires IsDrivePath(p) && IsDrivePath(q)
    ensures MountPath(p) == MountPath(q) <==>
      LowerAscii(p[0]) == LowerAscii(q[0]) && p[3..] == q[3..]
  {
    var mp, mq := MountPath(p), MountPath(q);
    if mp == mq {
      assert mp[5] == mq[5];
      assert mp[7..] == mq[7..];
    }
  }

  /** Drop one leading `/`, as in `/C:/...` from a `file:///C:/...` url. */
  function StripLeadingSlash(p: string): (r: string)
    ensures |p| > 0 && p[0] == '/' ==> r == p[1..]
    ensures (|p| == 0 || p[0] != '/') ==> r == p
  {
    if "/" <= p then p[1..] else p
  }

  /** `replace('/', '\\')`: every forward slash becomes a backslash. */
  function Backslashed(p: string): (r: string)
    ensures |r| == |p|
    ensures forall i :: 0 <= i < |p| ==> r[i] == (if p[i] == '/' then '\\' else p[i])
    ensures '/' !in r
  {
    if p == [] then []
    else Backslashed(p[..|p| - 1]) + [if p[|p| - 1] == '/' then '\\' else p[|p| - 1]]
  }

  /** The paths the sanitizer tries, in order. */
  function Candidates(p: string): seq<string>
  {
    var w := StripLeadingSlash(p);
    [p, w] + (if IsDrivePath(w) then [MountPath(w)] else []) + [Backslashed(w)]
  }

  /** The first path of `cs` that exists, if any. */
  function FirstExisting(cs: seq<string>, onDisk: string -> bool): (r: Option<string>)
    ensures r.None? <==> forall k :: 0 <= k < |cs| ==> !onDisk(cs[k])
    ensures r.Some? ==> exists k :: (0 <= k < |cs| && cs[k] == r.value && onDisk(cs[k]) &&
                                     forall j :: 0 <= j < k ==> !onDisk(cs[j]))
  {
    if cs == [] then None
    else if onDisk(cs[0]) then Some(cs[0])
    else
      var rest := FirstExisting(cs[1..], onDisk);
      assert rest.Some? ==> exists k :: (0 <= k < |cs[1..]| && cs[1..][k] == rest.value &&
                                         onDisk(cs[1..][k]) && forall j :: 0 <= j < k ==> !onDisk(cs[1..][j]));
      rest
  }

  /** `sanitize_chrome_file_path`: a path that exists is kept; otherwise the
      rewrites are tried in order and the first that exists is returned; when none
      exists the input comes back unchanged. */
  function SanitizeChromeFilePath(filePath: string, onDisk: string -> bool): (r: string)
    ensures onDisk(filePath) ==> r == filePath
    ensures r == filePath || onDisk(r)
  {
    if onDisk(filePath) then filePath
    else
      var winPath := StripLeadingSlash(filePath);
      if onDisk(winPath) then winPath
      else if IsDrivePath(winPath) && onDisk(MountPath(winPath)) then MountPath(winPath)
      else
        var nativePath := Backslashed(winPath);
        if onDisk(nativePath) then nativePath
        else filePath
  }

  /** The sanitizer returns the first existing path among the input, the input
      without its leading slash, the WSL mount (for a drive path) and the
      backslashed form; the input itself when none exists. */
  lemma SanitizeIsFirstExisting(filePath: string, onDisk: string -> bool)
    ensures SanitizeChromeFilePath(filePath, onDisk) ==
      (match FirstExisting(Candidates(filePath), onDisk)
       case Some(c) => c
       case None => filePath)
  {
    var winPath := StripLeadingSlash(filePath);
    var cs := Candidates(filePath);
    if !onDisk(filePath) && !onDisk(winPath) {
      assert FirstExisting(cs, onDisk) == FirstExisting(cs[1..][1..], onDisk);
      if IsDrivePath(winPath) {
        assert cs[1..][1..] == [MountPath(winPath), Backslashed(winPath)];
        if !onDisk(MountPath(winPath)) {
          assert FirstExisting(cs[1..][1..], onDisk) == FirstExisting([Backslashed(winPath)], onDisk);
        }
      } else {
        assert cs[1..][1..] == [Backslashed(winPath)];
      }
    }
  }

  /** A path already valid on this system is returned unchanged. */
  lemma SanitizeExistingPath(p: string, onDisk: string -> bool)
    requires onDisk(p)
    ensures SanitizeChromeFilePath(p, onDisk) == p
  {
  }

  /** A drive path behind one slash, when neither it nor its unslashed form exists
      but its WSL mount does, is sanitized to the mount. */
  lemma SanitizeToMount(filePath: string, onDisk: string -> bool)
    requires |filePath| >= 1 && filePath[0] == '/' && IsDrivePath(filePath[1..])
    requires !onDisk(filePath) && !onDisk(filePath[1..]) && onDisk(MountPath(filePath[1..]))
    ensures SanitizeChromeFilePath(filePath, onDisk) == MountPath(filePath[1..])
  {
  }

  /** `/C:/Users/x/f.pdf`, when only its WSL mount exists, becomes `/mnt/c/Users/x/f.pdf`. */
  lemma SanitizeWslExample()
    ensures SanitizeChromeFilePath("/C:/Users/x/f.pdf", q => q == "/mnt/c/Users/x/f.pdf")
            == "/mnt/c/Users/x/f.pdf"
  {
    var input, mount := "/C:/Users/x/f.pdf", "/mnt/c/Users/x/f.pdf";
    var w := input[1..];
    assert |input| == 17 && |w| == 16 && |mount| == 20;
    assert IsDrivePath(w);
    assert w[3..] == mount[7..];
    assert MountPath(w) == mount;
    SanitizeToMount(input, q => q == mount);
  }
}
