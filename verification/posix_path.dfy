/** The four `os.path` functions the downloader, the converter and the scraper
    rely on, with POSIX separators (`posixpath`): `join` with one extra
    component, `split`, `basename` and `splitext`. */
module PosixPath {
  import opened Text

  /** `s.rfind(c)`: the last index of `c` in `s`, or -1. */
  function LastIndexOf(s: string, c: char): (i: int)
    ensures -1 <= i < |s|
    ensures i >= 0 ==> s[i] == c
    ensures forall j :: i < j < |s| ==> s[j] != c
  {
    if s == [] then -1
    else if s[|s| - 1] == c then |s| - 1
    else LastIndexOf(s[..|s| - 1], c)
  }

  /** `os.path.join(a, b)`: an absolute `b` replaces `a`; otherwise a single
      separator is inserted unless `a` is empty or already ends with one. */
  function Join(a: string, b: string): (r: string)
    ensures StartsWith(b, "/") ==> r == b
    ensures !StartsWith(b, "/") ==> EndsWith(r, b)
  {
    if StartsWith(b, "/") then b
    else if a == [] || EndsWith(a, "/") then a + b
    else a + "/" + b
  }

  /** `os.path.basename(p)`: everything after the last separator. */
  function Basename(p: string): (r: string)
    ensures '/' !in r
    ensures EndsWith(p, r)
    ensures |r| < |p| ==> p[|p| - |r| - 1] == '/'
  {
    p[LastIndexOf(p, '/') + 1..]
  }

  /** The base name is the last part of the path that holds no separator
      and follows one (or starts the path). */
  lemma BasenameIsLastPart(p: string, file: string)
    requires '/' !in file && EndsWith(p, file)
    requires |file| < |p| ==> p[|p| - |file| - 1] == '/'
    ensures Basename(p) == file
  {
    var k := |p| - |file| - 1;
    forall j | k < j < |p|
      ensures p[j] != '/'
    {
      assert p[j] == p[k + 1..][j - k - 1];
      assert file[j - k - 1] in file;
    }
    assert LastIndexOf(p, '/') == k;
    assert p[k + 1..] == file;
  }

  /** The base name of `dir/file`, and of a plain `file`, is `file`. */
  lemma BasenameAfterSlash(dir: string, file: string)
    requires '/' !in file
    ensures Basename(file) == file
    ensures Basename(dir + "/" + file) == file
  {
    BasenameIsLastPart(file, file);
    var p := dir + "/" + file;
    assert p[|p| - |file|..] == file;
    assert p[|dir|] == '/';
    BasenameIsLastPart(p, file);
  }

  predicate AllSlashes(s: string) {
    forall i :: 0 <= i < |s| ==> s[i] == '/'
  }

  /** `s.rstrip('/')`. */
  function TrimSlashes(s: string): (r: string)
    ensures |r| <= |s| && r == s[..|r|]
    ensures forall k :: |r| <= k < |s| ==> s[k] == '/'
    ensures r == [] || r[|r| - 1] != '/'
  {
    if s == [] || s[|s| - 1] != '/' then s else TrimSlashes(s[..|s| - 1])
  }

  /** `os.path.split(p)`: the head (without its trailing separators, unless
      it is made of separators only) and the tail after the last separator. */
  function Split(p: string): (string, string) {
    var i := LastIndexOf(p, '/') + 1;
    var head := p[..i];
    if head != [] && !AllSlashes(head) then (TrimSlashes(head), p[i..]) else (head, p[i..])
  }

  /** `os.path.splitext(p)`: the extension starts at the last dot after the
      last separator, provided the file name has a character other than a dot
      before it (so `.bashrc` has no extension). */
  function SplitExt(p: string): (parts: (string, string))
    ensures parts.0 + parts.1 == p
    ensures parts.1 == [] || (parts.1[0] == '.' && '.' !in parts.1[1..] && '/' !in parts.1)
  {
    var sep := LastIndexOf(p, '/');
    var dot := LastIndexOf(p, '.');
    if dot > sep && exists k :: sep + 1 <= k < dot && p[k] != '.' then
      assert p == p[..dot] + p[dot..];
      (p[..dot], p[dot..])
    else
      (p, [])
  }

  predicate NoDoubleSlash(p: string) {
    forall i :: 0 <= i < |p| - 1 ==> !(p[i] == '/' && p[i + 1] == '/')
  }

  /** Splitting a path and joining the parts again gives the path back, as
      long as it has no doubled separator (which `split` would drop). */
  lemma SplitThenJoin(p: string)
    requires NoDoubleSlash(p)
    ensures Join(Split(p).0, Split(p).1) == p
  {
    var i := LastIndexOf(p, '/') + 1;
    var head, tail := p[..i], p[i..];
    TailOfSplit(p);
    if head != [] && !AllSlashes(head) {
      var k :| 0 <= k < i && head[k] != '/';
      assert head[i - 1] == p[i - 1];
      assert k < i - 1;
      var h := p[..i - 1];
      assert h[|h| - 1] == p[i - 2];
      assert h + "/" == head;
      assert p == h + "/" + tail;
      SplitAtLastSlash(h, tail);
      JoinOfParts(h, tail);
    } else {
      assert Split(p) == (head, tail);
      assert head == [] || EndsWith(head, "/") by {
        if head != [] {
          assert head[i - 1] == p[i - 1];
        }
      }
      assert Join(head, tail) == head + tail;
    }
  }

  /** The tail holds no separator, and the path is the head followed by it. */
  lemma TailOfSplit(p: string)
    ensures var i := LastIndexOf(p, '/') + 1;
      && p == p[..i] + p[i..]
      && '/' !in p[i..] && !StartsWith(p[i..], "/")
  {
    var i := LastIndexOf(p, '/') + 1;
    var tail := p[i..];
    forall k | 0 <= k < |tail|
      ensures tail[k] != '/'
    {
      assert tail[k] == p[i + k];
    }
    assert !StartsWith(tail, "/") by {
      if |tail| > 0 {
        assert tail[0] != '/';
      }
    }
  }

  /** `h/tail` with a single separator is split at it. */
  lemma SplitAtLastSlash(h: string, tail: string)
    requires h != [] && h[|h| - 1] != '/' && '/' !in tail
    ensures Split(h + "/" + tail) == (h, tail)
  {
    var p := h + "/" + tail;
    var head := h + "/";
    assert p[|h|] == '/';
    forall j | |h| < j < |p|
      ensures p[j] != '/'
    {
      assert p[j] == tail[j - |h| - 1];
    }
    assert LastIndexOf(p, '/') == |h|;
    assert p[..|h| + 1] == head && p[|h| + 1..] == tail;
    assert head[|h| - 1] != '/';
    TrimOneSlash(head);
    assert head[..|head| - 1] == h;
  }

  /** Joining a head that does not end in a separator inserts one. */
  lemma JoinOfParts(h: string, tail: string)
    requires h != [] && h[|h| - 1] != '/' && !StartsWith(tail, "/")
    ensures Join(h, tail) == h + "/" + tail
  {
    assert !EndsWith(h, "/") by {
      assert h[|h| - 1..] == [h[|h| - 1]];
    }
  }

  lemma TrimOneSlash(head: string)
    requires |head| >= 2 && head[|head| - 1] == '/' && head[|head| - 2] != '/'
    ensures TrimSlashes(head) == head[..|head| - 1]
  {
    var h := head[..|head| - 1];
    assert h[|h| - 1] != '/';
    assert TrimSlashes(h) == h;
  }

}
