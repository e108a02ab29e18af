/** Path validation of the release mapper (migrations/release/validation.ts:18-45), on POSIX paths
    as lists of segments. */
module LegacyPaths {
  import opened Common

  datatype PathError = PathEmpty | PathControlCharacter | PathAbsolute | PathTraversal | PathCharacters
  datatype PathResult = Normalized(path: string) | Invalid(error: PathError)

  // ------------------------------------------------------------- segment lists

  /** s.split('/') */
  function Split(s: string): (parts: seq<string>)
    ensures parts != []
    ensures forall p <- parts :: '/' !in p
    decreases |s|
  {
    if s == "" then [""]
    else if s[0] == '/' then [""] + Split(s[1..])
    else
      var rest := Split(s[1..]);
      [[s[0]] + rest[0]] + rest[1..]
  }

  /** parts.join('/') */
  function Join(parts: seq<string>): string {
    if parts == [] then "" else if |parts| == 1 then parts[0] else parts[0] + "/" + Join(parts[1..])
  }

  lemma {:induction false} JoinStep(part: string, rest: seq<string>)
    requires rest != []
    ensures Join([part] + rest) == part + "/" + Join(rest)
  {
    assert ([part] + rest)[1..] == rest;
  }

  lemma {:induction false} SplitPrefix(part: string, rest: string)
    requires '/' !in part
    ensures Split(part + "/" + rest) == [part] + Split(rest)
    ensures Split(part) == [part]
  {
    if part == "" {
      assert (part + "/" + rest)[1..] == rest;
    } else {
      SplitPrefix(part[1..], rest);
      assert (part + "/" + rest)[1..] == part[1..] + "/" + rest;
      assert [part[0]] + part[1..] == part;
    }
  }

  lemma {:induction false} SplitJoin(parts: seq<string>)
    requires parts != [] && forall p <- parts :: '/' !in p
    ensures Split(Join(parts)) == parts
  {
    if |parts| == 1 {
      SplitPrefix(parts[0], "");
    } else {
      SplitJoin(parts[1..]);
      SplitPrefix(parts[0], Join(parts[1..]));
      assert parts == [parts[0]] + parts[1..];
    }
  }

  // ------------------------------------------------------ normalizeRelativePath

  predicate IsControl(c: char) {
    c < ' ' || c == '\U{007f}'
  }

  predicate PathChar(c: char) {
    IsLetter(c) || '0' <= c <= '9' || c == '.' || c == '_' || c == '-'
  }

  /** RELATIVE_PATH_RE: non-empty runs of path characters separated by single slashes. */
  predicate MatchesRelativePath(s: string) {
    forall p <- Split(s) :: p != "" && forall c <- p :: PathChar(c)
  }

  function Slashed(s: string): (r: string)
    ensures |r| == |s|
    ensures forall i | 0 <= i < |s| :: r[i] == if s[i] == '\\' then '/' else s[i]
  {
    seq(|s|, i requires 0 <= i < |s| => if s[i] == '\\' then '/' else s[i])
  }

  /** path.win32.isAbsolute */
  predicate Win32Absolute(s: string) {
    s != "" && (s[0] == '/' || s[0] == '\\' || (|s| > 2 && IsLetter(s[0]) && s[1] == ':' && (s[2] == '/' || s[2] == '\\')))
  }

  predicate DriveLetter(s: string) {
    |s| >= 2 && IsLetter(s[0]) && s[1] == ':'
  }

  predicate Kept(part: string) {
    part != "" && part != "."
  }

  function NormalizeRelativePath(value: string): PathResult {
    if value == "" then Invalid(PathEmpty)
    else if exists c <- value :: IsControl(c) then Invalid(PathControlCharacter)
    else
      var slashed := Slashed(value);
      if slashed[0] == '/' || Win32Absolute(value) || DriveLetter(value) then Invalid(PathAbsolute)
      else
        var parts := Split(slashed);
        if ".." in parts then Invalid(PathTraversal)
        else
          var normalized := Join(Filter(parts, Kept));
          if normalized == "" then Invalid(PathEmpty)
          else if !MatchesRelativePath(normalized) then Invalid(PathCharacters)
          else Normalized(normalized)
  }

  /** What a normalised path is, said without the algorithm. */
  predicate Clean(path: string) {
    forall p <- Split(path) :: p != "" && p != "." && p != ".." && forall c <- p :: PathChar(c)
  }

  /** The slash-separated parts say everything about the characters of a string. */
  lemma {:induction false} CharsOfParts(s: string)
    ensures forall c <- s :: c == '/' || exists p <- Split(s) :: c in p
    ensures s != "" && s[0] == '/' ==> Split(s)[0] == ""
    ensures Join(Split(s)) == s
    decreases |s|
  {
    if s != "" {
      CharsOfParts(s[1..]);
      assert s == [s[0]] + s[1..];
      var rest := Split(s[1..]);
      var parts := Split(s);
      forall c <- s ensures c == '/' || exists p <- parts :: c in p {
        if c in s[1..] && c != '/' {
          var i :| 0 <= i < |rest| && c in rest[i];
          if s[0] == '/' {
            assert parts[i + 1] == rest[i];
          } else {
            assert c in parts[i];
          }
        } else if c != '/' {
          assert c in parts[0];
        }
      }
      if s[0] == '/' {
        assert parts[1..] == rest;
        assert Join(parts) == "" + "/" + Join(rest);
      } else if |rest| > 1 {
        assert parts[1..] == rest[1..];
        assert Join(parts) == [s[0]] + (rest[0] + "/" + Join(rest[1..]));
      }
    }
  }

  lemma {:induction false} CleanChars(path: string)
    requires Clean(path)
    ensures path != "" && path[0] != '/'
    ensures forall c <- path :: c == '/' || PathChar(c)
  {
    CharsOfParts(path);
    assert Split(path)[0] in Split(path);
  }

  /** Exactly the clean paths are fixed points of normalisation. */
  lemma {:induction false} NormalizedFixedPoint(path: string)
    ensures NormalizeRelativePath(path) == Normalized(path) <==> Clean(path)
  {
    if Clean(path) {
      CleanChars(path);
      forall i | 0 <= i < |path| ensures PathChar(path[i]) || path[i] == '/' {
        assert path[i] in path;
      }
      assert Slashed(path) == path;
      assert forall p <- Split(path) :: Kept(p);
      FilterAll(Split(path), Kept);
      CharsOfParts(path);
    }
    if NormalizeRelativePath(path) == Normalized(path) {
      NormalizeIsClean(path);
    }
  }

  /** Whatever normalisation returns is clean, so normalising again returns it unchanged. */
  lemma {:induction false} NormalizeIsClean(value: string)
    requires NormalizeRelativePath(value).Normalized?
    ensures Clean(NormalizeRelativePath(value).path)
  {
    var kept := Filter(Split(Slashed(value)), Kept);
    FilterMembers(Split(Slashed(value)), Kept);
    SplitJoin(kept);
  }

  lemma {:induction false} NormalizeIsIdempotent(value: string)
    requires NormalizeRelativePath(value).Normalized?
    ensures NormalizeRelativePath(NormalizeRelativePath(value).path) == NormalizeRelativePath(value)
  {
    NormalizeIsClean(value);
    NormalizedFixedPoint(NormalizeRelativePath(value).path);
  }

  /** A segment that survives: a name of path characters that does not climb. */
  predicate PlainSegment(p: string) {
    p != "" && p != "." && p != ".."
    && forall c <- p :: 'a' <= c <= 'z' || 'A' <= c <= 'Z' || '0' <= c <= '9' || c == '.' || c == '_' || c == '-'
  }

  lemma {:induction false} JoinKept(parts: seq<string>)
    requires forall p <- parts :: p != "" && '/' !in p
    ensures Join(parts) == "" <==> parts == []
    ensures parts != [] ==> (MatchesRelativePath(Join(parts)) <==> forall p <- parts :: forall c <- p :: PathChar(c))
  {
    if parts != [] {
      SplitJoin(parts);
      assert Split("") == [""] && parts[0] in parts;
      assert parts[0] != "";
    }
  }

  /** Which paths are accepted: relative ones without control characters whose segments, with either slash
      as separator, are nothing, `.` or plain names, at least one of them a name. */
  lemma {:induction false} AcceptedPaths(value: string)
    ensures NormalizeRelativePath(value).Normalized? <==>
              && value != "" && value[0] != '/' && value[0] != '\\' && !(|value| >= 2 && IsLetter(value[0]) && value[1] == ':')
              && (forall c <- value :: c >= ' ' && c != '\U{007f}')
              && (exists p <- Split(Slashed(value)) :: PlainSegment(p))
              && forall p <- Split(Slashed(value)) :: p == "" || p == "." || PlainSegment(p)
  {
    if value != "" {
      var parts := Split(Slashed(value));
      FilterMembers(parts, Kept);
      assert forall p <- Filter(parts, Kept) :: p in parts && Kept(p);
      JoinKept(Filter(parts, Kept));
      if ".." !in parts { KeptSegments(parts); }
    }
  }

  lemma {:induction false} KeptSegments(parts: seq<string>)
    requires ".." !in parts
    ensures (forall p <- Filter(parts, Kept) :: forall c <- p :: PathChar(c))
       <==> forall p <- parts :: p == "" || p == "." || PlainSegment(p)
    ensures (forall p <- parts :: p == "" || p == "." || PlainSegment(p)) ==>
              (Filter(parts, Kept) != [] <==> exists p <- parts :: PlainSegment(p))
  {
    FilterMembers(parts, Kept);
    if forall p <- parts :: p == "" || p == "." || PlainSegment(p) {
      if Filter(parts, Kept) != [] {
        assert Filter(parts, Kept)[0] in Filter(parts, Kept);
      }
    }
  }

  /** What a refusal reports is true of the path. */
  lemma {:induction false} RefusalIsJustified(value: string)
    requires NormalizeRelativePath(value).Invalid?
    ensures match NormalizeRelativePath(value).error
            case PathEmpty => value == "" || forall p <- Split(Slashed(value)) :: p == "" || p == "."
            case PathControlCharacter => exists c <- value :: c < ' ' || c == '\U{007f}'
            case PathAbsolute => value[0] == '/' || value[0] == '\\' || (IsLetter(value[0]) && value[1] == ':')
            case PathTraversal => ".." in Split(Slashed(value))
            case PathCharacters => exists p <- Split(Slashed(value)) :: exists c <- p :: !PathChar(c)
  {
    if value != "" {
      var parts := Split(Slashed(value));
      FilterMembers(parts, Kept);
      assert forall p <- Filter(parts, Kept) :: p in parts && Kept(p);
      JoinKept(Filter(parts, Kept));
      if forall p <- parts :: !Kept(p) { FilterNone(parts, Kept); }
    }
  }

  // ------------------------------------------------------ isRelativePathContained

  predicate Absolute(path: string) {
    path != "" && path[0] == '/'
  }

  /** path.resolve on segments: '.' and empty parts vanish, '..' climbs but never above the root. */
  function Walk(from: seq<string>, parts: seq<string>): seq<string>
    decreases |parts|
  {
    if parts == [] then from
    else if parts[0] == "" || parts[0] == "." then Walk(from, parts[1..])
    else if parts[0] == ".." then Walk(if from == [] then [] else from[..|from| - 1], parts[1..])
    else Walk(from + [parts[0]], parts[1..])
  }

  function Resolve(root: string): seq<string> {
    Walk([], Split(root))
  }

  function ResolveIn(root: string, relative: string): seq<string> {
    if Absolute(relative) then Resolve(relative) else Walk(Resolve(root), Split(relative))
  }

  function CommonPrefix(a: seq<string>, b: seq<string>): (n: nat)
    ensures n <= |a| && n <= |b| && a[..n] == b[..n]
    ensures n < |a| && n < |b| ==> a[n] != b[n]
  {
    if a == [] || b == [] || a[0] != b[0] then 0
    else
      var n := CommonPrefix(a[1..], b[1..]);
      assert a[..n + 1] == [a[0]] + a[1..][..n] && b[..n + 1] == [b[0]] + b[1..][..n];
      n + 1
  }

  function Climbs(n: nat): seq<string> {
    if n == 0 then [] else [".."] + Climbs(n - 1)
  }

  /** path.relative */
  function Relation(from: seq<string>, to: seq<string>): string {
    var n := CommonPrefix(from, to);
    Join(Climbs(|from| - n) + to[n..])
  }

  predicate IsRelativePathContained(root: string, relative: string) {
    Absolute(root) &&
    var relation := Relation(Resolve(root), ResolveIn(root, relative));
    relation != "" && !("../" <= relation) && relation != ".." && !Absolute(relation)
  }

  /** Segments path.resolve can produce. */
  predicate Segment(p: string) {
    p != "" && p != "." && p != ".." && '/' !in p
  }

  lemma {:induction false} WalkYieldsSegments(from: seq<string>, parts: seq<string>)
    requires (forall p <- from :: Segment(p)) && forall p <- parts :: '/' !in p
    ensures forall p <- Walk(from, parts) :: Segment(p)
    decreases |parts|
  {
    if parts != [] {
      if parts[0] == "" || parts[0] == "." {
        WalkYieldsSegments(from, parts[1..]);
      } else if parts[0] == ".." {
        WalkYieldsSegments(if from == [] then [] else from[..|from| - 1], parts[1..]);
      } else {
        WalkYieldsSegments(from + [parts[0]], parts[1..]);
      }
    }
  }

  lemma {:induction false} WalkDown(from: seq<string>, parts: seq<string>)
    requires forall p <- parts :: Segment(p)
    ensures Walk(from, parts) == from + parts
    decreases |parts|
  {
    if parts != [] {
      assert Segment(parts[0]);
      WalkDown(from + [parts[0]], parts[1..]);
      assert from + [parts[0]] + parts[1..] == from + parts;
    } else {
      assert from + parts == from;
    }
  }

  lemma {:induction false} RelationOfDescendant(from: seq<string>, to: seq<string>)
    requires from < to && forall p <- to :: Segment(p)
    ensures var r := Relation(from, to); r != "" && !("../" <= r) && r != ".." && !Absolute(r)
  {
    var n := CommonPrefix(from, to);
    assert n == |from|;
    var tail := to[n..];
    assert Climbs(0) + tail == tail;
    assert Segment(tail[0]);
    if |tail| > 1 {
      var r := tail[0] + "/" + Join(tail[1..]);
      assert Relation(from, to) == r;
      FirstSegment(tail[0], Join(tail[1..]));
    } else {
      FirstSegment(tail[0], "");
    }
  }

  lemma {:induction false} FirstSegment(p: string, rest: string)
    requires Segment(p)
    ensures !("../" <= p) && !("../" <= p + "/" + rest) && p + "/" + rest != ".." && !Absolute(p + "/" + rest)
  {
    var r := p + "/" + rest;
    assert |p| > 2 ==> r[2] == p[2] && p[2] != '/';
    assert |p| == 2 ==> p == [r[0], r[1]];
    assert |p| == 1 ==> r[1] == '/';
  }

  lemma {:induction false} RelationOfStranger(from: seq<string>, to: seq<string>)
    requires !(from < to)
    ensures var r := Relation(from, to); r == "" || r == ".." || "../" <= r
  {
    var n := CommonPrefix(from, to);
    if n < |from| {
      var tail := Climbs(|from| - n - 1) + to[n..];
      assert Climbs(|from| - n) + to[n..] == [".."] + tail;
      if tail != [] {
        assert ([".."] + tail)[1..] == tail;
      }
    } else {
      assert from == to[..n];
      assert to == to[..n] + to[n..];
    }
  }

  /** Containment means exactly: the resolved path lies strictly below the resolved root. */
  lemma {:induction false} ContainedMeansBelow(root: string, relative: string)
    ensures IsRelativePathContained(root, relative) <==> Absolute(root) && Resolve(root) < ResolveIn(root, relative)
  {
    var from, to := Resolve(root), ResolveIn(root, relative);
    WalkYieldsSegments([], Split(root));
    WalkYieldsSegments([], Split(relative));
    WalkYieldsSegments(from, Split(relative));
    if from < to {
      RelationOfDescendant(from, to);
    } else {
      RelationOfStranger(from, to);
    }
  }

  /** A normalised path is contained in every absolute root, so FILES_REL_PATH_ESCAPES_ROOT can only
      report a root path that is not absolute. */
  lemma {:induction false} NormalizedIsContained(root: string, value: string)
    requires NormalizeRelativePath(value).Normalized?
    ensures IsRelativePathContained(root, NormalizeRelativePath(value).path) <==> Absolute(root)
  {
    var path := NormalizeRelativePath(value).path;
    NormalizeIsClean(value);
    CleanChars(path);
    assert forall p <- Split(path) :: Segment(p);
    WalkDown(Resolve(root), Split(path));
    ContainedMeansBelow(root, path);
  }

  lemma {:induction false} WalkSkips(from: seq<string>, parts: seq<string>)
    ensures Walk(from, Filter(parts, Kept)) == Walk(from, parts)
    decreases |parts|
  {
    if parts != [] {
      var first, rest := parts[0], parts[1..];
      assert parts == [first] + rest;
      FilterAppend([first], rest, Kept);
      assert Filter([first], Kept) == if Kept(first) then [first] else [];
      if !Kept(first) {
        assert Filter(parts, Kept) == Filter(rest, Kept);
        WalkSkips(from, rest);
      } else {
        assert Filter(parts, Kept)[0] == first && Filter(parts, Kept)[1..] == Filter(rest, Kept);
        WalkSkips(if first == ".." then (if from == [] then [] else from[..|from| - 1]) else from + [first], rest);
      }
    }
  }

  /** From every root, the normalised path leads where the path as given did, with `\` read as `/`. */
  lemma {:induction false} NormalizationKeepsTheTarget(root: string, value: string)
    requires NormalizeRelativePath(value).Normalized?
    ensures ResolveIn(root, NormalizeRelativePath(value).path) == ResolveIn(root, Slashed(value))
  {
    var kept := Filter(Split(Slashed(value)), Kept);
    FilterMembers(Split(Slashed(value)), Kept);
    SplitJoin(kept);
    NormalizeIsClean(value);
    CleanChars(NormalizeRelativePath(value).path);
    WalkSkips(Resolve(root), Split(Slashed(value)));
  }
}
