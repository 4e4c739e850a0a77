/** Remote paths as the broker normalises them, and the textual containment test on them.
    A path is a string of bytes, split as on Unix. */
module McpPaths {
  import opened Base

  const MAX_PATH: nat := 32 * 1024

  /** The stretches between slashes. */
  function Split(s: string): (segments: seq<string>)
    ensures |segments| >= 1
  {
    if s == [] then [""]
    else
      var rest := Split(s[1..]);
      if s[0] == '/' then [""] + rest else [[s[0]] + rest[0]] + rest[1..]
  }

  predicate Kept(segment: string) {
    segment != "" && segment != "."
  }

  function Keep(segments: seq<string>): seq<string> {
    if segments == [] then []
    else Keep(segments[..|segments| - 1])
         + (if Kept(segments[|segments| - 1]) then [segments[|segments| - 1]] else [])
  }

  /** Each part with a slash before it. */
  function Slashed(parts: seq<string>): string {
    if parts == [] then "" else "/" + parts[0] + Slashed(parts[1..])
  }

  function Render(parts: seq<string>): string {
    if parts == [] then "/" else Slashed(parts)
  }

  predicate Acceptable(path: string) {
    path != "" && |path| <= MAX_PATH && '\0' !in path && path[0] == '/'
  }

  function Components(path: string): seq<string> {
    Keep(Split(path))
  }

  function Normalize(path: string): Result<string> {
    if !Acceptable(path) || ".." in Split(path) then Err(Validation) else Ok(Render(Components(path)))
  }

  method NormalizeRemotePath(path: string) returns (normal: Result<string>)
    ensures normal == Normalize(path)
  {
    if path == "" || |path| > MAX_PATH || '\0' in path || path[0] != '/' {
      return Err(Validation);
    }
    var parts: seq<string> := [];
    var segments := Split(path);
    for i := 0 to |segments|
      invariant parts == Keep(segments[..i])
      invariant ".." !in segments[..i]
    {
      assert segments[..i + 1][..i] == segments[..i];
      if segments[i] == ".." {
        return Err(Validation);
      }
      if segments[i] != "" && segments[i] != "." {
        parts := parts + [segments[i]];
      }
    }
    assert segments[..|segments|] == segments;
    return Ok(Render(parts));
  }

  function RemotePathIsWithin(path: string, root: string): bool {
    root == "/" || path == root || (root <= path && var rest := path[|root|..]; rest != "" && rest[0] == '/')
  }

  // ---- what normalising does --------------------------------------------------

  /** A part that a normalised path may contain. */
  predicate Plain(part: string) {
    part != "" && part != "." && part != ".." && '/' !in part && '\0' !in part
  }

  predicate AllPlain(parts: seq<string>) {
    forall i :: 0 <= i < |parts| ==> Plain(parts[i])
  }

  predicate SlashFree(parts: seq<string>) {
    forall i :: 0 <= i < |parts| ==> '/' !in parts[i]
  }

  lemma {:induction false} SegmentsAreSlashFree(s: string)
    ensures forall i :: 0 <= i < |Split(s)| ==> '/' !in Split(s)[i] && ('\0' !in s ==> '\0' !in Split(s)[i])
  {
    if s != [] {
      SegmentsAreSlashFree(s[1..]);
    }
  }

  lemma {:induction false} KeptArePlain(segments: seq<string>)
    requires ".." !in segments
    requires forall i :: 0 <= i < |segments| ==> '/' !in segments[i] && '\0' !in segments[i]
    ensures AllPlain(Keep(segments))
  {
    if segments != [] {
      KeptArePlain(segments[..|segments| - 1]);
    }
  }

  lemma {:induction false} SplitAfterPart(part: string, rest: string)
    requires '/' !in part
    ensures Split(part + "/" + rest) == [part] + Split(rest)
    ensures Split(part) == [part]
  {
    if part == "" {
      assert part + "/" + rest == "/" + rest;
      assert ("/" + rest)[1..] == rest;
    } else {
      SplitAfterPart(part[1..], rest);
      assert (part + "/" + rest)[1..] == part[1..] + "/" + rest;
      assert part == [part[0]] + part[1..];
    }
  }

  lemma SplitSlash(s: string)
    ensures Split("/" + s) == [""] + Split(s)
  {
    assert ("/" + s)[1..] == s;
  }

  /** A part up to the next slash is a segment. */
  lemma SplitJoined(part: string, tail: string)
    requires '/' !in part
    ensures Split(part + ("/" + tail)) == [part] + Split(tail)
  {
    SplitAfterPart(part, tail);
    assert part + ("/" + tail) == part + "/" + tail;
  }

  lemma {:induction false} SplitSlashed(parts: seq<string>)
    requires SlashFree(parts) && parts != []
    ensures Split(Slashed(parts)) == [""] + parts
  {
    var rest := Slashed(parts[1..]);
    assert Slashed(parts) == "/" + (parts[0] + rest);
    SplitSlash(parts[0] + rest);
    if |parts| == 1 {
      SplitAfterPart(parts[0], "");
      assert parts[0] + rest == parts[0];
    } else {
      var tail := rest[1..];
      SplitSlashed(parts[1..]);
      SplitSlash(tail);
      assert rest == "/" + tail;
      SplitJoined(parts[0], tail);
      TailsAgree(parts[1..], Split(tail));
      assert parts == [parts[0]] + parts[1..];
    }
  }

  lemma TailsAgree(a: seq<string>, b: seq<string>)
    requires [""] + a == [""] + b
    ensures a == b
  {
    assert ([""] + a)[1..] == a && ([""] + b)[1..] == b;
  }

  lemma {:induction false} KeepPlain(parts: seq<string>)
    requires AllPlain(parts)
    ensures Keep([""] + parts) == parts
  {
    if parts == [] {
      assert [""] + parts == [""] && [""][..0] == [];
    } else {
      KeepPlain(parts[..|parts| - 1]);
      assert ([""] + parts)[..|parts|] == [""] + parts[..|parts| - 1];
    }
  }

  /** Rendering and splitting are inverse on plain parts. */
  lemma ComponentsOfRender(parts: seq<string>)
    requires AllPlain(parts)
    ensures Components(Render(parts)) == parts && ".." !in Split(Render(parts))
  {
    if parts == [] {
      assert "/"[1..] == "";
      assert Split("/") == ["", ""];
      assert Keep(["", ""][..1]) == [] by { assert ["", ""][..1][..0] == []; }
    } else {
      SplitSlashed(parts);
      KeepPlain(parts);
    }
  }

  function Total(segments: seq<string>): nat {
    if segments == [] then 0 else Total(segments[..|segments| - 1]) + 1 + |segments[|segments| - 1]|
  }

  lemma {:induction false} TotalCons(x: string, rest: seq<string>)
    ensures Total([x] + rest) == 1 + |x| + Total(rest)
  {
    if rest != [] {
      TotalCons(x, rest[..|rest| - 1]);
      assert ([x] + rest)[..|rest|] == [x] + rest[..|rest| - 1];
    } else {
      assert [x] + rest == [x] && [x][..0] == [];
    }
  }

  lemma {:induction false} TotalOfSplit(s: string)
    ensures Total(Split(s)) == |s| + 1
  {
    if s == [] {
      assert [""][..0] == [];
    } else {
      var rest := Split(s[1..]);
      TotalOfSplit(s[1..]);
      TotalCons(rest[0], rest[1..]);
      assert rest == [rest[0]] + rest[1..];
      TotalCons("", rest);
      TotalCons([s[0]] + rest[0], rest[1..]);
    }
  }

  lemma {:induction false} SlashedAppend(parts: seq<string>, last: string)
    ensures Slashed(parts + [last]) == Slashed(parts) + "/" + last
  {
    if parts == [] {
      assert parts + [last] == [last] && [last][1..] == [];
    } else {
      SlashedAppend(parts[1..], last);
      assert (parts + [last])[1..] == parts[1..] + [last];
    }
  }

  lemma {:induction false} KeptIsNoLonger(segments: seq<string>)
    ensures |Slashed(Keep(segments))| <= Total(segments)
  {
    if segments != [] {
      var init := segments[..|segments| - 1];
      KeptIsNoLonger(init);
      SlashedAppend(Keep(init), segments[|segments| - 1]);
      assert Keep(init) + [] == Keep(init);
    }
  }

  /** Since an acceptable path begins with a slash, normalising never makes it longer. */
  lemma NormalIsNoLonger(path: string)
    requires Acceptable(path)
    ensures |Render(Components(path))| <= |path|
  {
    var rest := Split(path[1..]);
    TotalOfSplit(path[1..]);
    KeepCons(rest);
    KeptIsNoLonger(rest);
  }

  lemma {:induction false} KeepCons(segments: seq<string>)
    ensures Keep([""] + segments) == Keep(segments)
  {
    if segments == [] {
      assert [""] + segments == [""] && [""][..0] == [];
    } else {
      KeepCons(segments[..|segments| - 1]);
      assert ([""] + segments)[..|segments|] == [""] + segments[..|segments| - 1];
    }
  }

  lemma {:induction false} SlashedHasNoNul(parts: seq<string>)
    requires AllPlain(parts)
    ensures '\0' !in Slashed(parts)
  {
    if parts != [] {
      SlashedHasNoNul(parts[1..]);
    }
  }

  /** Normalising an already normalised path changes nothing, and keeps the components: the
      normal form is the rendering of plain parts. */
  lemma NormalizeIsIdempotent(path: string)
    requires Normalize(path).Ok?
    ensures Normalize(Normalize(path).value) == Normalize(path)
    ensures AllPlain(Components(path)) && Components(Normalize(path).value) == Components(path)
  {
    var parts := Components(path);
    SegmentsAreSlashFree(path);
    KeptArePlain(Split(path));
    ComponentsOfRender(parts);
    NormalIsNoLonger(path);
    SlashedHasNoNul(parts);
  }

  // ---- containment ------------------------------------------------------------

  /** `b` and then the end or a slash. */
  predicate Continues(a: string, b: string) {
    b <= a && (|a| == |b| || a[|b|] == '/')
  }

  lemma LongerPartDoesNotContinue(x: string, y: string, a: string, b: string)
    requires |x| < |y| && '/' !in y && (a == "" || a[0] == '/')
    ensures !Continues(x + a, y + b)
  {
    assert (y + b)[|x|] == y[|x|];
    if a != "" { assert (x + a)[|x|] == a[0]; }
  }

  lemma ShorterPartDoesNotContinue(x: string, y: string, a: string, b: string)
    requires |y| < |x| && '/' !in x && (b == "" || b[0] == '/')
    ensures !Continues(x + a, y + b)
  {
    assert (x + a)[|y|] == x[|y|];
    if b != "" { assert (y + b)[|y|] == b[0]; }
  }

  lemma FirstPartAgrees(x: string, y: string, a: string, b: string)
    requires '/' !in x && '/' !in y
    requires (a == "" || a[0] == '/') && (b == "" || b[0] == '/')
    ensures Continues(x + a, y + b) <==> x == y && Continues(a, b)
  {
    if |x| < |y| {
      LongerPartDoesNotContinue(x, y, a, b);
    } else if |y| < |x| {
      ShorterPartDoesNotContinue(x, y, a, b);
    } else {
      assert x == (x + a)[..|x|] && y == (y + b)[..|y|];
      assert a == (x + a)[|x|..] && b == (y + b)[|y|..];
    }
  }

  lemma {:induction false} SlashedContinues(p: seq<string>, r: seq<string>)
    requires AllPlain(p) && AllPlain(r)
    ensures Continues(Slashed(p), Slashed(r)) <==> r <= p
  {
    if r != [] && p != [] {
      SlashedContinues(p[1..], r[1..]);
      FirstPartAgrees(p[0], r[0], Slashed(p[1..]), Slashed(r[1..]));
      assert Slashed(p) == "/" + (p[0] + Slashed(p[1..])) && Slashed(r) == "/" + (r[0] + Slashed(r[1..]));
      var x, y := p[0] + Slashed(p[1..]), r[0] + Slashed(r[1..]);
      assert Continues("/" + x, "/" + y) <==> Continues(x, y) by { SlashInFront(x, y); }
      assert r <= p <==> r[0] == p[0] && r[1..] <= p[1..];
    }
  }

  lemma SlashInFront(x: string, y: string)
    ensures Continues("/" + x, "/" + y) <==> Continues(x, y)
  {
    if Continues("/" + x, "/" + y) {
      assert x == ("/" + x)[1..] && y == ("/" + y)[1..];
    }
  }

  /** On normalised paths the textual test says exactly that the root's components begin the
      path's: `/var/log` holds `/var/log/app` and not `/var/logger`. */
  lemma WithinMeansComponentPrefix(path: string, root: string)
    requires Normalize(path).Ok? && Normalize(root).Ok?
    ensures RemotePathIsWithin(Normalize(path).value, Normalize(root).value)
            <==> Components(root) <= Components(path)
  {
    var p, r := Components(path), Components(root);
    NormalizeIsIdempotent(path);
    NormalizeIsIdempotent(root);
    SlashedContinues(p, r);
    assert Slashed(r) == "/" ==> r == [];
  }

  // ---- exactly what is accepted, and as what ----------------------------------

  /** Which segments are kept: all but the empty ones and the dots, in order. */
  lemma {:induction false} KeepOfParts(a: seq<string>, b: seq<string>)
    ensures Keep(a + b) == Keep(a) + Keep(b)
  {
    if b == [] {
      assert a + b == a;
    } else {
      var n := |b| - 1;
      assert (a + b)[..|a| + n] == a + b[..n];
      KeepOfParts(a, b[..n]);
    }
  }

  lemma KeepOfOne(segment: string)
    ensures Keep([segment]) == if segment == "" || segment == "." then [] else [segment]
  {
    assert [segment][..0] == [];
  }

  lemma {:induction false} NulInSlashed(segments: seq<string>)
    ensures '\0' in Slashed(segments) <==> exists i :: 0 <= i < |segments| && '\0' in segments[i]
  {
    if segments != [] {
      NulInSlashed(segments[1..]);
      assert Slashed(segments) == "/" + segments[0] + Slashed(segments[1..]);
      if i :| 0 <= i < |segments| && '\0' in segments[i] {
        assert i > 0 ==> '\0' in segments[1..][i - 1];
      }
    }
  }

  /** Any absolute path, written as the segments after its slashes, is refused if one of them is `..`
      or the path is too long or holds a NUL; otherwise its normal form has the kept segments. */
  lemma NormalizeOfSegments(segments: seq<string>)
    requires segments != [] && SlashFree(segments)
    ensures Normalize(Slashed(segments)) ==
              if |Slashed(segments)| > 32 * 1024 || ".." in segments
                 || exists i :: 0 <= i < |segments| && '\0' in segments[i]
              then Err(Validation) else Ok(Render(Keep(segments)))
  {
    SplitSlashed(segments);
    KeepCons(segments);
    NulInSlashed(segments);
  }

  /** Every path that begins with a slash is of that form; all other paths are refused. */
  lemma EveryPathIsSlashed(path: string)
    ensures path != "" && path[0] == '/' ==>
              var segments := Split(path)[1..];
              segments != [] && SlashFree(segments) && path == Slashed(segments)
    ensures path == "" || path[0] != '/' ==> Normalize(path) == Err(Validation)
  {
    if path != "" && path[0] == '/' {
      SegmentsAreSlashFree(path);
      SlashedSplit(path[1..]);
    }
  }

  lemma SlashedCons(part: string, parts: seq<string>)
    ensures Slashed([part] + parts) == "/" + part + Slashed(parts)
    ensures Slashed([part] + parts)[1..] == part + Slashed(parts)
  {
    assert ([part] + parts)[1..] == parts;
  }

  lemma {:induction false} SlashedSplit(s: string)
    ensures Slashed(Split(s)) == "/" + s
  {
    if s != [] {
      SlashedSplit(s[1..]);
      var rest := Split(s[1..]);
      var first, more := rest[0], rest[1..];
      assert rest == [first] + more && ("/" + s[1..])[1..] == s[1..];
      SlashedCons(first, more);
      if s[0] == '/' {
        SlashedCons("", rest);
      } else {
        SlashedCons([s[0]] + first, more);
        assert [s[0]] + first + Slashed(more) == [s[0]] + (first + Slashed(more)) == s;
      }
    }
  }
}
