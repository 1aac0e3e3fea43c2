/** `resolve_and_validate_path`: joins a request's relative path onto the
    base download directory, normalises it, and refuses it with a 403 unless
    the result lies component-wise under the base. Paths are lists of
    components; normalisation is lexical (symbolic links are not followed). */
module PathGuard {
  import opened Wrappers
  import opened Text
  import opened PosixPath

  /** An `HTTPException`: a status code and its detail text. */
  datatype HttpError = HttpError(status: nat, detail: string)

  const TraversalDenied: HttpError := HttpError(403, "Access denied: Invalid path traversal attempt.")

  /** A component of a normalised absolute path. */
  predicate IsName(c: string) {
    c != "" && c != "." && c != ".." && '/' !in c
  }

  predicate AllNames(cs: seq<string>) {
    forall i :: 0 <= i < |cs| ==> IsName(cs[i])
  }

  predicate NoSlashIn(parts: seq<string>) {
    forall i :: 0 <= i < |parts| ==> '/' !in parts[i]
  }

  // ---------------------------------------------------------------------
  // Splitting on separators
  // ---------------------------------------------------------------------

  /** `s.split('/')`: the texts between separators, empty ones included. */
  function Segments(s: string): (parts: seq<string>)
    ensures |parts| >= 1 && NoSlashIn(parts)
    decreases |s|
  {
    var i := LastIndexOf(s, '/');
    if i < 0 then [s] else Segments(s[..i]) + [s[i + 1..]]
  }

  /** `'/'.join(parts)`. */
  function JoinSegments(parts: seq<string>): (s: string)
  {
    if |parts| == 0 then ""
    else if |parts| == 1 then parts[0]
    else JoinSegments(parts[..|parts| - 1]) + "/" + parts[|parts| - 1]
  }

  /** Joining the segments of a text gives the text back. */
  lemma {:induction false} JoinOfSegments(s: string)
    ensures JoinSegments(Segments(s)) == s
    decreases |s|
  {
    var i := LastIndexOf(s, '/');
    if i >= 0 {
      var init := Segments(s[..i]);
      var parts := init + [s[i + 1..]];
      assert parts[..|parts| - 1] == init;
      JoinOfSegments(s[..i]);
      assert s == s[..i] + "/" + s[i + 1..];
    }
  }

  /** The last separator of `front + "/" + last` is the one put in. */
  lemma SegmentsOfSlashed(front: string, last: string)
    requires '/' !in last
    ensures Segments(front + "/" + last) == Segments(front) + [last]
  {
    var s := front + "/" + last;
    assert s[|front|] == '/';
    forall j | |front| < j < |s|
      ensures s[j] != '/'
    {
      assert s[j] == last[j - |front| - 1];
      assert last[j - |front| - 1] in last;
    }
    assert LastIndexOf(s, '/') == |front|;
    assert s[..|front|] == front;
    assert s[|front| + 1..] == last;
  }

  /** Splitting joined segments gives them back, when none holds a separator. */
  lemma {:induction false} SegmentsOfJoin(parts: seq<string>)
    requires |parts| >= 1 && NoSlashIn(parts)
    ensures Segments(JoinSegments(parts)) == parts
  {
    var last := parts[|parts| - 1];
    assert '/' !in last;
    if |parts| == 1 {
      assert LastIndexOf(last, '/') == -1;
    } else {
      var init := parts[..|parts| - 1];
      SegmentsOfSlashed(JoinSegments(init), last);
      SegmentsOfJoin(init);
      assert init + [last] == parts;
    }
  }

  /** The joined text starts with the first segment. */
  lemma {:induction false} JoinStartsWithFirst(parts: seq<string>)
    requires |parts| >= 1
    ensures StartsWith(JoinSegments(parts), parts[0])
  {
    if |parts| > 1 {
      var init := parts[..|parts| - 1];
      JoinStartsWithFirst(init);
      assert init[0] == parts[0];
      var front := JoinSegments(init);
      assert (front + "/" + parts[|parts| - 1])[..|parts[0]|] == front[..|parts[0]|];
    }
  }

  /** Putting a component in front of joined segments. */
  lemma {:induction false} JoinCons(a: string, parts: seq<string>)
    requires |parts| >= 1
    ensures JoinSegments([a] + parts) == a + "/" + JoinSegments(parts)
  {
    if |parts| > 1 {
      var init := parts[..|parts| - 1];
      assert ([a] + parts)[..|parts|] == [a] + init;
      JoinCons(a, init);
    }
  }

  // ---------------------------------------------------------------------
  // Lexical normalisation
  // ---------------------------------------------------------------------

  /** One component of the path being resolved: empty and `.` components
      change nothing, `..` goes up (staying at the root), a name goes down. */
  function Step(stack: seq<string>, part: string): (r: seq<string>)
    ensures part == ".." ==> r == if stack == [] then [] else stack[..|stack| - 1]
    ensures IsName(part) ==> r == stack + [part]
    ensures part == "" || part == "." ==> r == stack
  {
    if part == "" || part == "." then stack
    else if part == ".." then (if stack == [] then [] else stack[..|stack| - 1])
    else stack + [part]
  }

  function Resolve(stack: seq<string>, parts: seq<string>): (r: seq<string>)
    ensures AllNames(stack) && NoSlashIn(parts) ==> AllNames(r)
    decreases |parts|
  {
    if parts == [] then stack else Resolve(Step(stack, parts[0]), parts[1..])
  }

  /** `(BASE / rel).resolve()`: an absolute `rel` replaces the base. */
  function ResolvePath(base: seq<string>, rel: string): seq<string> {
    Resolve(if StartsWith(rel, "/") then [] else base, Segments(rel))
  }

  /** `resolve_and_validate_path`: the resolved path when the base is a prefix
      of it (`relative_to`), and a 403 otherwise. */
  function ResolveAndValidate(base: seq<string>, rel: string): (r: Result<seq<string>, HttpError>)
    requires AllNames(base)
    ensures r.Success? <==> base <= ResolvePath(base, rel)
    ensures r.Success? ==> r.value == ResolvePath(base, rel) && base <= r.value && AllNames(r.value)
    ensures r.Failure? ==> r.error == TraversalDenied
  {
    var resolved := ResolvePath(base, rel);
    if base <= resolved then Success(resolved) else Failure(TraversalDenied)
  }

  /** `str(path)` for an absolute path. */
  function PathText(cs: seq<string>): (s: string)
    ensures StartsWith(s, "/")
  {
    "/" + JoinSegments(cs)
  }

  // ---------------------------------------------------------------------
  // Properties
  // ---------------------------------------------------------------------

  /** `k` components `..`. */
  function Ups(k: nat): (parts: seq<string>)
    ensures |parts| == k && forall i :: 0 <= i < k ==> parts[i] == ".."
  {
    if k == 0 then [] else [".."] + Ups(k - 1)
  }

  /** Names only go down. */
  lemma {:induction false} ResolveNames(stack: seq<string>, names: seq<string>)
    requires AllNames(names)
    ensures Resolve(stack, names) == stack + names
    decreases |names|
  {
    if names != [] {
      assert IsName(names[0]);
      ResolveNames(stack + [names[0]], names[1..]);
      assert stack + [names[0]] + names[1..] == stack + names;
    }
  }

  /** Without `..`, resolution never leaves the starting point. */
  lemma {:induction false} ResolveDescends(stack: seq<string>, parts: seq<string>)
    requires NoSlashIn(parts)
    requires forall i :: 0 <= i < |parts| ==> parts[i] != ".."
    ensures stack <= Resolve(stack, parts)
    decreases |parts|
  {
    if parts != [] {
      var next := Step(stack, parts[0]);
      assert stack <= next;
      ResolveDescends(next, parts[1..]);
    }
  }

  /** Where `k` levels up from `stack` is, stopping at the root. */
  function Climbed(stack: seq<string>, k: nat): (r: seq<string>)
    ensures k <= |stack| ==> r == stack[..|stack| - k]
    ensures k > |stack| ==> r == []
  {
    if k <= |stack| then stack[..|stack| - k] else []
  }

  /** `k` times `..` goes up `k` levels, stopping at the root. */
  lemma {:induction false} ResolveClimbs(stack: seq<string>, k: nat, names: seq<string>)
    requires AllNames(names)
    ensures Resolve(stack, Ups(k) + names) == Climbed(stack, k) + names
    decreases k
  {
    if k == 0 {
      NoClimb(stack, names);
    } else {
      assert Ups(k) + names == [".."] + (Ups(k - 1) + names);
      ResolveFirst(stack, "..", Ups(k - 1) + names);
      ResolveClimbs(Step(stack, ".."), k - 1, names);
      ClimbOnce(stack, k);
    }
  }

  lemma NoClimb(stack: seq<string>, names: seq<string>)
    requires AllNames(names)
    ensures Resolve(stack, Ups(0) + names) == Climbed(stack, 0) + names
  {
    assert Ups(0) + names == names;
    assert Climbed(stack, 0) == stack;
    ResolveNames(stack, names);
  }

  lemma ResolveFirst(stack: seq<string>, part: string, rest: seq<string>)
    ensures Resolve(stack, [part] + rest) == Resolve(Step(stack, part), rest)
  {
    assert ([part] + rest)[1..] == rest;
  }

  lemma ClimbOnce(stack: seq<string>, k: nat)
    requires k >= 1
    ensures Climbed(Step(stack, ".."), k - 1) == Climbed(stack, k)
  {
  }

  /** The empty path resolves to the base and is accepted. */
  lemma EmptyPathIsBase(base: seq<string>)
    requires AllNames(base)
    ensures ResolveAndValidate(base, "") == Success(base)
  {
    assert Segments("") == [""];
    assert [""][1..] == [];
    assert ResolvePath(base, "") == Resolve(base, [""]) == Resolve(base, []);
  }

  /** A relative path with no `..` component is accepted, and lies under the
      base. */
  lemma DescendingAccepted(base: seq<string>, rel: string)
    requires AllNames(base)
    requires !StartsWith(rel, "/")
    requires forall i :: 0 <= i < |Segments(rel)| ==> Segments(rel)[i] != ".."
    ensures ResolveAndValidate(base, rel).Success?
  {
    ResolveDescends(base, Segments(rel));
  }

  /** A sequence has `base` as a prefix after climbing `k` levels from it
      exactly when the names that follow retrace the levels climbed. */
  lemma PrefixAfterClimb(base: seq<string>, k: nat, names: seq<string>)
    requires k <= |base|
    ensures base <= base[..|base| - k] + names <==> base[|base| - k..] <= names
  {
    var n := |base| - k;
    var r := base[..n] + names;
    if base <= r {
      assert base[n..] == r[n..|base|];
      assert r[n..] == names;
    }
    if base[n..] <= names {
      assert base == base[..n] + base[n..];
    }
  }

  /** Joined segments that start with a non-empty component without a
      separator make a relative path. */
  lemma JoinedIsRelative(parts: seq<string>)
    requires |parts| >= 1 && parts[0] != "" && '/' !in parts[0]
    ensures !StartsWith(JoinSegments(parts), "/")
  {
    JoinStartsWithFirst(parts);
    var rel := JoinSegments(parts);
    assert rel[0] == parts[0][0];
    assert parts[0][0] in parts[0];
  }

  /** The path written as `k` times `..` followed by names resolves to the
      names under the directory `k` levels up. */
  lemma ClimbResolved(base: seq<string>, k: nat, names: seq<string>)
    requires AllNames(names)
    requires k + |names| >= 1
    ensures ResolvePath(base, JoinSegments(Ups(k) + names)) == Climbed(base, k) + names
  {
    var parts := Ups(k) + names;
    assert NoSlashIn(parts) by {
      forall i | 0 <= i < |parts|
        ensures '/' !in parts[i]
      {
        if i >= k {
          assert parts[i] == names[i - k];
        }
      }
    }
    assert parts[0] == ".." || parts[0] == names[0];
    SegmentsOfJoin(parts);
    JoinedIsRelative(parts);
    ResolveClimbs(base, k, names);
  }

  /** A relative path of `k` times `..` followed by names is accepted exactly
      when it climbs no higher than the base and the names go back down
      through the levels it climbed. */
  lemma ClimbAccepted(base: seq<string>, k: nat, names: seq<string>)
    requires AllNames(base) && AllNames(names)
    requires k + |names| >= 1
    ensures var r := ResolveAndValidate(base, JoinSegments(Ups(k) + names));
      && (k <= |base| ==> (r.Success? <==> base[|base| - k..] <= names))
      && (k > |base| ==> (r.Success? <==> base <= names))
  {
    ClimbResolved(base, k, names);
    if k <= |base| {
      PrefixAfterClimb(base, k, names);
    }
  }

  /** Climbing above the base directory is refused. */
  lemma ParentRejected(base: seq<string>)
    requires AllNames(base) && base != []
    ensures ResolveAndValidate(base, "..") == Failure(TraversalDenied)
  {
    assert JoinSegments(Ups(1) + []) == "..";
    ClimbAccepted(base, 1, []);
  }

  /** An absolute path made of names is accepted exactly when the base is a
      prefix of it. */
  lemma AbsoluteAccepted(base: seq<string>, names: seq<string>)
    requires AllNames(base) && AllNames(names)
    ensures ResolveAndValidate(base, PathText(names)).Success? <==> base <= names
  {
    var rel := PathText(names);
    assert StartsWith(rel, "/");
    if names == [] {
      assert rel == "" + "/" + "";
      SegmentsOfSlashed("", "");
      assert Segments(rel) == ["", ""];
      assert ResolvePath(base, rel) == Resolve([], ["", ""]) == Resolve([], [""]) == [];
    } else {
      JoinCons("", names);
      assert NoSlashIn([""] + names) by {
        forall i | 0 <= i < |[""] + names|
          ensures '/' !in ([""] + names)[i]
        {
          if i > 0 {
            assert ([""] + names)[i] == names[i - 1];
          }
        }
      }
      assert JoinSegments([""] + names) == rel;
      SegmentsOfJoin([""] + names);
      assert ([""] + names)[1..] == names;
      ResolveNames([], names);
    }
  }

  /** Containment is per component: a sibling whose name merely starts with the
      base's last component is refused. */
  lemma SiblingRejected()
    ensures ResolveAndValidate(["base"], "/base2") == Failure(TraversalDenied)
  {
    var base, names := ["base"], ["base2"];
    assert AllNames(base) && AllNames(names);
    assert PathText(names) == "/base2";
    AbsoluteAccepted(base, names);
    assert !(base <= names) by {
      assert base[0] != names[0];
    }
  }
}
