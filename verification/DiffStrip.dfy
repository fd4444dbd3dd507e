/** Diff markers taken out of a generated patch by a line automaton. */
module DiffStrip {

  // ----- Lines

  /** The pieces between newlines: never none, as the empty string is one empty line. */
  function Split(s: string): (lines: seq<string>)
    ensures lines != []
    ensures forall l :: l in lines ==> '\n' !in l
  {
    if s == [] then [[]]
    else
      var rest := Split(s[1..]);
      if s[0] == '\n' then [[]] + rest else [[s[0]] + rest[0]] + rest[1..]
  }

  function Join(lines: seq<string>): string {
    if lines == [] then []
    else if |lines| == 1 then lines[0]
    else lines[0] + "\n" + Join(lines[1..])
  }

  lemma {:induction false} JoinSplit(s: string)
    ensures Join(Split(s)) == s
  {
    if s != [] {
      JoinSplit(s[1..]);
      var rest := Split(s[1..]);
      if s[0] == '\n' {
        assert ([[]] + rest)[1..] == rest;
        assert s == "\n" + s[1..];
      } else {
        var lines := [[s[0]] + rest[0]] + rest[1..];
        assert lines[1..] == rest[1..];
        assert s == [s[0]] + s[1..];
        assert |rest| > 1 ==> [s[0]] + (rest[0] + "\n" + Join(rest[1..])) == ([s[0]] + rest[0]) + "\n" + Join(rest[1..]);
      }
    }
  }

  lemma {:induction false} SplitAround(a: string, b: string)
    ensures var p, q := Split(a), Split(b);
            Split(a + ['\n'] + b) == p + q
  {
    var s := a + ['\n'] + b;
    if a == [] {
      assert s[1..] == b;
    } else {
      assert s[1..] == a[1..] + ['\n'] + b;
      SplitAround(a[1..], b);
    }
  }

  lemma {:induction false} SplitLine(l: string)
    requires '\n' !in l
    ensures Split(l) == [l]
  {
    if l != [] {
      assert forall c :: c in l[1..] ==> c in l;
      SplitLine(l[1..]);
      assert l == [l[0]] + l[1..];
    }
  }

  lemma {:induction false} SplitJoin(lines: seq<string>)
    requires lines != [] && forall l :: l in lines ==> '\n' !in l
    ensures Split(Join(lines)) == lines
  {
    SplitLine(lines[0]);
    if |lines| > 1 {
      SplitJoin(lines[1..]);
      assert "\n" == ['\n'];
      SplitAround(lines[0], Join(lines[1..]));
      assert lines == [lines[0]] + lines[1..];
    }
  }

  // ----- What a line looks like

  predicate HasPrefix(line: string, p: string) {
    |p| <= |line| && line[..|p|] == p
  }

  predicate Contains(s: string, part: string) {
    exists i: nat :: i <= |s| && HasPrefix(s[i..], part)
  }

  predicate DiffHeaderPrefix(line: string) {
    HasPrefix(line, "--- ") || HasPrefix(line, "+++ ") || HasPrefix(line, "diff ") || HasPrefix(line, "index ")
  }

  predicate IsHunkMeta(line: string) {
    HasPrefix(line, "@@") && Contains(line, "@@")
  }

  predicate IsDiffMetaLine(line: string) {
    || HasPrefix(line, "new file mode ")
    || HasPrefix(line, "deleted file mode ")
    || HasPrefix(line, "old mode ")
    || HasPrefix(line, "new mode ")
    || HasPrefix(line, "similarity index ")
    || HasPrefix(line, "rename from ")
    || HasPrefix(line, "rename to ")
    || HasPrefix(line, "copy from ")
    || HasPrefix(line, "copy to ")
    || HasPrefix(line, "Binary files ")
  }

  predicate IsHeader(line: string) {
    DiffHeaderPrefix(line) || IsDiffMetaLine(line)
  }

  predicate IsMarker(line: string) {
    IsHeader(line) || IsHunkMeta(line)
  }

  predicate IsDiff(patch: string) {
    || HasPrefix(patch, "---") || HasPrefix(patch, "diff ") || HasPrefix(patch, "+++")
    || Contains(patch, "\n--- ") || Contains(patch, "\ndiff ") || Contains(patch, "\n+++ ")
  }

  // ----- Which lines survive, said without an automaton

  /** A line that keeps a hunk going: empty, or context, addition or deletion. */
  predicate InBody(line: string) {
    !IsHeader(line) && (line == [] || line[0] == ' ' || line[0] == '+' || line[0] == '-')
  }

  /** Position `i` follows a hunk mark with nothing but hunk lines in between. */
  predicate InHunk(lines: seq<string>, i: nat)
    requires i <= |lines|
  {
    exists j: nat :: j < i && IsHunkMeta(lines[j]) && AllInBody(lines, j + 1, i)
  }

  predicate AllInBody(lines: seq<string>, from: nat, to: nat)
    requires to <= |lines|
  {
    forall k :: from <= k < to ==> InBody(lines[k])
  }

  predicate Survives(lines: seq<string>, i: nat)
    requires i < |lines|
  {
    !IsMarker(lines[i]) && !(InHunk(lines, i) && HasPrefix(lines[i], "-"))
  }

  function KeptTo(lines: seq<string>, n: nat): seq<string>
    requires n <= |lines|
  {
    if n == 0 then []
    else if Survives(lines, n - 1) then KeptTo(lines, n - 1) + [lines[n - 1]]
    else KeptTo(lines, n - 1)
  }

  function Kept(lines: seq<string>): seq<string> {
    KeptTo(lines, |lines|)
  }

  function Strip(patch: string): string {
    Join(Kept(Split(patch)))
  }

  lemma HunkGoesOn(lines: seq<string>, i: nat)
    requires i < |lines|
    requires IsHunkMeta(lines[i]) || (InHunk(lines, i) && InBody(lines[i]))
    ensures InHunk(lines, i + 1)
  {
    if IsHunkMeta(lines[i]) {
      assert AllInBody(lines, i + 1, i + 1);
    } else {
      var j: nat :| j < i && IsHunkMeta(lines[j]) && AllInBody(lines, j + 1, i);
      assert AllInBody(lines, j + 1, i + 1);
    }
  }

  lemma HunkWentOn(lines: seq<string>, i: nat)
    requires i < |lines| && InHunk(lines, i + 1)
    ensures IsHunkMeta(lines[i]) || (InHunk(lines, i) && InBody(lines[i]))
  {
    var j: nat :| j < i + 1 && IsHunkMeta(lines[j]) && AllInBody(lines, j + 1, i + 1);
    if j < i {
      assert AllInBody(lines, j + 1, i);
    }
  }

  lemma InHunkNext(lines: seq<string>, i: nat)
    requires i < |lines|
    ensures InHunk(lines, i + 1) <==> IsHunkMeta(lines[i]) || (InHunk(lines, i) && InBody(lines[i]))
  {
    if InHunk(lines, i + 1) {
      HunkWentOn(lines, i);
    } else if IsHunkMeta(lines[i]) || (InHunk(lines, i) && InBody(lines[i])) {
      HunkGoesOn(lines, i);
    }
  }

  // ----- The automaton

  datatype DiffState = TextHunk | DiffHeader | HunkMeta | HunkBody

  predicate InHunkState(state: DiffState) {
    state == HunkMeta || state == HunkBody
  }

  /** One line: the next state, and whether the line is kept. */
  method Step(state: DiffState, line: string) returns (next: DiffState, keep: bool)
    ensures next == DiffHeader <==> IsHeader(line)
    ensures next == HunkMeta <==> IsHunkMeta(line)
    ensures next == HunkBody <==> InHunkState(state) && InBody(line)
    ensures keep <==> !IsMarker(line) && !(InHunkState(state) && HasPrefix(line, "-"))
  {
    MarkIsNotHeader(line);
    match state {
      case TextHunk =>
        if DiffHeaderPrefix(line) || IsDiffMetaLine(line) {
          return DiffHeader, false;
        }
        if IsHunkMeta(line) {
          return HunkMeta, false;
        }
        return TextHunk, true;
      case DiffHeader =>
        if IsHunkMeta(line) {
          return HunkMeta, false;
        }
        if DiffHeaderPrefix(line) || IsDiffMetaLine(line) {
          return DiffHeader, false;
        }
        return TextHunk, true;
      case _ =>
        next, keep := BodyStep(line);
    }
  }

  /** Both hunk states treat a line alike. */
  method BodyStep(line: string) returns (next: DiffState, keep: bool)
    ensures next == DiffHeader <==> IsHeader(line)
    ensures next == HunkMeta <==> IsHunkMeta(line)
    ensures next == HunkBody <==> InBody(line)
    ensures keep <==> !IsMarker(line) && !HasPrefix(line, "-")
  {
    MarkIsNotHeader(line);
    if DiffHeaderPrefix(line) || IsDiffMetaLine(line) {
      return DiffHeader, false;
    }
    if IsHunkMeta(line) {
      return HunkMeta, false;
    }
    if HasPrefix(line, "-") {
      return HunkBody, false;
    }
    if |line| > 0 && line[0] == ' ' {
      return HunkBody, true;
    }
    if |line| > 0 && line[0] == '+' {
      return HunkBody, true;
    }
    if line == "" {
      return HunkBody, true;
    }
    return TextHunk, true;
  }

  /** The four-state automaton keeps exactly the survivors. */
  method StripDiffMarkers(patch: string) returns (r: string)
    ensures r == Strip(patch)
  {
    var lines := Split(patch);
    var result: seq<string> := [];
    var state := TextHunk;
    for i := 0 to |lines|
      invariant result == KeptTo(lines, i)
      invariant InHunkState(state) <==> InHunk(lines, i)
    {
      InHunkNext(lines, i);
      var keep;
      state, keep := Step(state, lines[i]);
      if keep {
        result := result + [lines[i]];
      }
    }
    r := Join(result);
  }

  lemma NotPrefix(line: string, p: string)
    requires line != [] && p != [] && line[0] != p[0]
    ensures !HasPrefix(line, p)
  {
    assert |p| <= |line| ==> line[..|p|][0] == line[0];
  }

  lemma NotDiffHeader(line: string)
    requires line != [] && line[0] == '@'
    ensures !DiffHeaderPrefix(line)
  {
    NotPrefix(line, "--- ");
    NotPrefix(line, "+++ ");
    NotPrefix(line, "diff ");
    NotPrefix(line, "index ");
  }

  lemma NotDiffMeta(line: string)
    requires line != [] && line[0] == '@'
    ensures !IsDiffMetaLine(line)
  {
    NotPrefix(line, "new file mode ");
    NotPrefix(line, "deleted file mode ");
    NotPrefix(line, "old mode ");
    NotPrefix(line, "new mode ");
    NotPrefix(line, "similarity index ");
    NotPrefix(line, "rename from ");
    NotPrefix(line, "rename to ");
    NotPrefix(line, "copy from ");
    NotPrefix(line, "copy to ");
    NotPrefix(line, "Binary files ");
  }

  /** No line is both a hunk mark and a header, a metadata line or a line of a hunk's body. */
  lemma MarkIsNotHeader(line: string)
    ensures IsHunkMeta(line) ==> !IsHeader(line) && !InBody(line)
  {
    if IsHunkMeta(line) {
      assert line[..2][0] == '@';
      NotDiffHeader(line);
      NotDiffMeta(line);
    }
  }

  // ----- Properties of the output

  predicate Subsequence(a: seq<string>, b: seq<string>) {
    a == [] || (b != [] && (
      || (a[|a| - 1] == b[|b| - 1] && Subsequence(a[..|a| - 1], b[..|b| - 1]))
      || Subsequence(a, b[..|b| - 1])))
  }

  predicate MarkerFree(lines: seq<string>) {
    forall l :: l in lines ==> !IsMarker(l)
  }

  lemma SubsequenceGrows(a: seq<string>, b: seq<string>, x: string)
    requires Subsequence(a, b)
    ensures Subsequence(a, b + [x]) && Subsequence(a + [x], b + [x])
  {
    assert (b + [x])[..|b|] == b && (a + [x])[..|a|] == a;
  }

  lemma {:induction false} KeptInOrder(lines: seq<string>, n: nat)
    requires n <= |lines|
    ensures Subsequence(KeptTo(lines, n), lines[..n])
  {
    if n > 0 {
      KeptInOrder(lines, n - 1);
      assert lines[..n] == lines[..n - 1] + [lines[n - 1]];
      SubsequenceGrows(KeptTo(lines, n - 1), lines[..n - 1], lines[n - 1]);
    }
  }

  lemma {:induction false} KeptClean(lines: seq<string>, n: nat)
    requires n <= |lines|
    ensures MarkerFree(KeptTo(lines, n)) && AllIn(KeptTo(lines, n), lines)
  {
    if n > 0 {
      KeptClean(lines, n - 1);
      if Survives(lines, n - 1) {
        SnocClean(KeptTo(lines, n - 1), lines, lines[n - 1]);
      }
    }
  }

  predicate AllIn(a: seq<string>, b: seq<string>) {
    forall l :: l in a ==> l in b
  }

  lemma SnocClean(a: seq<string>, lines: seq<string>, l: string)
    requires MarkerFree(a) && AllIn(a, lines) && !IsMarker(l) && l in lines
    ensures MarkerFree(a + [l]) && AllIn(a + [l], lines)
  {
  }

  lemma NoMarkNoHunk(lines: seq<string>, i: nat)
    requires i <= |lines| && MarkerFree(lines)
    ensures !InHunk(lines, i)
  {
    forall j: nat | j < i ensures !IsHunkMeta(lines[j]) {
      assert lines[j] in lines;
    }
  }

  /** Without a hunk mark nothing is a hunk: marker-free lines all survive. */
  lemma {:induction false} MarkerFreeKept(lines: seq<string>, n: nat)
    requires n <= |lines| && MarkerFree(lines)
    ensures KeptTo(lines, n) == lines[..n]
  {
    if n > 0 {
      MarkerFreeKept(lines, n - 1);
      NoMarkNoHunk(lines, n - 1);
      assert lines[n - 1] in lines;
    }
  }

  /** The lines of the output: what was kept, or the one empty line of an empty text. */
  lemma LinesOfStrip(patch: string)
    ensures Split(Strip(patch)) == (if Kept(Split(patch)) == [] then [[]] else Kept(Split(patch)))
    ensures MarkerFree(Split(Strip(patch)))
  {
    var lines := Split(patch);
    KeptClean(lines, |lines|);
    if Kept(lines) != [] {
      SplitJoin(Kept(lines));
    }
  }

  /** The kept lines come from the input in its order, and none of them is a header, metadata or hunk line. */
  lemma OutputIsCleanSubsequence(patch: string)
    ensures Subsequence(Kept(Split(patch)), Split(patch))
    ensures MarkerFree(Split(Strip(patch)))
  {
    var lines := Split(patch);
    KeptInOrder(lines, |lines|);
    assert lines[..|lines|] == lines;
    LinesOfStrip(patch);
  }

  lemma MarkerFreeUnchanged(patch: string)
    requires MarkerFree(Split(patch))
    ensures Strip(patch) == patch
  {
    var lines := Split(patch);
    MarkerFreeKept(lines, |lines|);
    assert lines[..|lines|] == lines;
    JoinSplit(patch);
  }

  /** Exactly the texts without a marker line come back unchanged. */
  lemma UnchangedIff(patch: string)
    ensures Strip(patch) == patch <==> MarkerFree(Split(patch))
  {
    LinesOfStrip(patch);
    if MarkerFree(Split(patch)) {
      MarkerFreeUnchanged(patch);
    }
  }

  /** Stripping twice is stripping once, on every string. */
  lemma StripIdempotent(patch: string)
    ensures Strip(Strip(patch)) == Strip(patch)
  {
    LinesOfStrip(patch);
    MarkerFreeUnchanged(Strip(patch));
  }

  // ----- Patches: headers, a hunk mark, a hunk

  /** The line begins with one of the three signs of a hunk, or with nothing. */
  predicate Signed(line: string) {
    line == "" || line[..1] == " " || line[..1] == "+" || line[..1] == "-"
  }

  predicate IsDeletion(line: string) {
    !IsMarker(line) && |line| > 0 && line[..1] == "-"
  }

  lemma InBodyIff(line: string)
    ensures InBody(line) <==> !IsHeader(line) && Signed(line)
    ensures HasPrefix(line, "-") <==> |line| > 0 && line[..1] == "-"
  {
    assert line != "" ==> line[..1] == [line[0]];
  }

  /** A deletion goes exactly when a hunk mark stands before it, with only signed lines that are no headers in between. */
  lemma DeletionGoesIff(lines: seq<string>, d: nat)
    requires d < |lines| && IsDeletion(lines[d])
    ensures !Survives(lines, d) <==>
              exists j: nat :: j < d && IsHunkMeta(lines[j]) && forall k :: j < k < d ==> !IsHeader(lines[k]) && Signed(lines[k])
  {
    InBodyIff(lines[d]);
    forall k | 0 <= k < d
      ensures InBody(lines[k]) <==> !IsHeader(lines[k]) && Signed(lines[k])
    {
      InBodyIff(lines[k]);
    }
    if InHunk(lines, d) {
      var j: nat :| j < d && IsHunkMeta(lines[j]) && AllInBody(lines, j + 1, d);
    }
    if j: nat :| j < d && IsHunkMeta(lines[j]) && forall k :: j < k < d ==> !IsHeader(lines[k]) && Signed(lines[k]) {
      assert AllInBody(lines, j + 1, d);
    }
  }

  /** The lines that are no deletions. */
  function Undeleted(body: seq<string>): seq<string> {
    if body == [] then []
    else if IsDeletion(body[|body| - 1]) then Undeleted(body[..|body| - 1])
    else Undeleted(body[..|body| - 1]) + [body[|body| - 1]]
  }

  /** Headers, a hunk mark, and signed lines that are no markers. */
  predicate IsPatch(headers: seq<string>, mark: string, body: seq<string>) {
    && (forall h :: h in headers ==> IsHeader(h)) && IsHunkMeta(mark)
    && forall l :: l in body ==> !IsMarker(l) && Signed(l)
  }

  lemma PatchLine(headers: seq<string>, mark: string, body: seq<string>, i: nat)
    requires IsPatch(headers, mark, body) && i < |headers| + 1 + |body|
    ensures var lines := headers + [mark] + body;
            Survives(lines, i) <==> i > |headers| && !IsDeletion(lines[i])
  {
    var lines, h := headers + [mark] + body, |headers|;
    if i < h {
      assert lines[i] in headers;
    } else if i > h {
      assert lines[i] in body && lines[h] == mark;
      forall k | h < k < i
        ensures !IsHeader(lines[k]) && Signed(lines[k])
      {
        assert lines[k] in body;
      }
      InBodyIff(lines[i]);
      if IsDeletion(lines[i]) {
        DeletionGoesIff(lines, i);
      }
    }
  }

  function Select(lines: seq<string>, keep: seq<bool>): seq<string>
    requires |lines| == |keep|
  {
    if lines == [] then []
    else
      var n := |lines| - 1;
      if keep[n] then Select(lines[..n], keep[..n]) + [lines[n]] else Select(lines[..n], keep[..n])
  }

  lemma {:induction false} KeptIsSelect(lines: seq<string>, keep: seq<bool>, n: nat)
    requires |lines| == |keep| && n <= |lines| && forall i :: 0 <= i < n ==> (keep[i] <==> Survives(lines, i))
    ensures KeptTo(lines, n) == Select(lines[..n], keep[..n])
  {
    if n > 0 {
      KeptIsSelect(lines, keep, n - 1);
      assert lines[..n][..n - 1] == lines[..n - 1] && keep[..n][..n - 1] == keep[..n - 1];
      assert keep[..n][n - 1] <==> Survives(lines, n - 1);
    }
  }

  lemma {:induction false} SelectNone(lines: seq<string>, keep: seq<bool>)
    requires |lines| == |keep| && forall i :: 0 <= i < |keep| ==> !keep[i]
    ensures Select(lines, keep) == []
  {
    if lines != [] {
      SelectNone(lines[..|lines| - 1], keep[..|lines| - 1]);
    }
  }

  lemma {:induction false} SelectAppend(a: seq<string>, b: seq<string>, ka: seq<bool>, kb: seq<bool>)
    requires |a| == |ka| && |b| == |kb|
    ensures Select(a + b, ka + kb) == Select(a, ka) + Select(b, kb)
  {
    if b == [] {
      assert a + b == a && ka + kb == ka;
    } else {
      var n := |b| - 1;
      SelectAppend(a, b[..n], ka, kb[..n]);
      assert (a + b)[..|a| + n] == a + b[..n] && (ka + kb)[..|a| + n] == ka + kb[..n];
    }
  }

  lemma {:induction false} SelectUndeleted(body: seq<string>, keep: seq<bool>)
    requires |body| == |keep| && forall i :: 0 <= i < |body| ==> (keep[i] <==> !IsDeletion(body[i]))
    ensures Select(body, keep) == Undeleted(body)
  {
    if body != [] {
      SelectUndeleted(body[..|body| - 1], keep[..|body| - 1]);
    }
  }

  /** Which lines of a patch are kept. */
  function PatchKeeps(headers: seq<string>, body: seq<string>): seq<bool> {
    seq(|headers| + 1, _ => false) + seq(|body|, i requires 0 <= i < |body| => !IsDeletion(body[i]))
  }

  lemma PatchKeepsAt(headers: seq<string>, mark: string, body: seq<string>, i: nat)
    requires IsPatch(headers, mark, body) && i < |headers| + 1 + |body|
    ensures PatchKeeps(headers, body)[i] <==> Survives(headers + [mark] + body, i)
  {
    PatchLine(headers, mark, body, i);
  }

  /** Of a one-hunk patch exactly the hunk's lines that are no deletions are kept, with their signs. */
  lemma PatchKeepsNewSide(headers: seq<string>, mark: string, body: seq<string>)
    requires IsPatch(headers, mark, body)
    ensures Kept(headers + [mark] + body) == Undeleted(body)
  {
    var lines, keep := headers + [mark] + body, PatchKeeps(headers, body);
    forall i | 0 <= i < |lines|
      ensures keep[i] <==> Survives(lines, i)
    {
      PatchKeepsAt(headers, mark, body, i);
    }
    KeptIsSelect(lines, keep, |lines|);
    assert lines[..|lines|] == lines && keep[..|lines|] == keep;
    assert (headers + [mark])[..|headers|] == headers;
    SelectPatch(headers + [mark], body);
  }

  lemma SelectPatch(top: seq<string>, body: seq<string>)
    requires top != []
    ensures Select(top + body, PatchKeeps(top[..|top| - 1], body)) == Undeleted(body)
  {
    var none, rest := seq(|top|, _ => false), seq(|body|, i requires 0 <= i < |body| => !IsDeletion(body[i]));
    SelectAppend(top, body, none, rest);
    SelectNone(top, none);
    SelectUndeleted(body, rest);
  }

  // ----- What the output still looks like

  lemma {:induction false} FirstLinePrefix(s: string, w: string)
    requires HasPrefix(s, w) && '\n' !in w
    ensures HasPrefix(Split(s)[0], w)
  {
    if w != [] {
      assert s[..|w|][0] == s[0] && w[0] in w;
      assert s[1..][..|w| - 1] == s[..|w|][1..];
      FirstLinePrefix(s[1..], w[1..]);
      assert w == [w[0]] + w[1..];
      var first := Split(s[1..])[0];
      assert ([s[0]] + first)[..|w|] == [s[0]] + first[..|w| - 1];
    }
  }

  lemma LaterLinePrefix(s: string, w: string)
    requires Contains(s, ['\n'] + w) && '\n' !in w
    ensures exists l :: l in Split(s) && HasPrefix(l, w)
  {
    var i: nat :| i <= |s| && HasPrefix(s[i..], ['\n'] + w);
    var t := s[i..];
    assert t[..|w| + 1] == ['\n'] + w;
    assert t[0] == t[..|w| + 1][0] && t[1..][..|w|] == t[..|w| + 1][1..];
    assert s == s[..i] + ['\n'] + t[1..];
    SplitAround(s[..i], t[1..]);
    FirstLinePrefix(t[1..], w);
    assert Split(t[1..])[0] in Split(s);
  }

  lemma HeaderLine(s: string, w: string)
    requires Contains(s, ['\n'] + w) || HasPrefix(s, w)
    requires '\n' !in w && forall l :: HasPrefix(l, w) ==> IsHeader(l)
    ensures !MarkerFree(Split(s))
  {
    if Contains(s, ['\n'] + w) {
      LaterLinePrefix(s, w);
    } else {
      FirstLinePrefix(s, w);
      assert Split(s)[0] in Split(s);
    }
  }

  lemma NoHeaderLine(s: string, w: string)
    requires MarkerFree(Split(s))
    requires '\n' !in w && forall l :: HasPrefix(l, w) ==> IsHeader(l)
    ensures !Contains(s, ['\n'] + w) && !HasPrefix(s, w)
  {
    if Contains(s, ['\n'] + w) || HasPrefix(s, w) {
      HeaderLine(s, w);
    }
  }

  /** The first line of the input that survives. */
  ghost predicate FirstSurvivor(lines: seq<string>, i: nat) {
    i < |lines| && Survives(lines, i) && forall j :: 0 <= j < i ==> !Survives(lines, j)
  }

  lemma {:induction false} KeptBefore(lines: seq<string>, n: nat)
    requires n <= |lines| && forall j :: 0 <= j < n ==> !Survives(lines, j)
    ensures KeptTo(lines, n) == []
  {
    if n > 0 {
      KeptBefore(lines, n - 1);
    }
  }

  lemma {:induction false} KeptStarts(lines: seq<string>, i: nat, n: nat)
    requires FirstSurvivor(lines, i) && i < n <= |lines|
    ensures KeptTo(lines, n) != [] && KeptTo(lines, n)[0] == lines[i]
  {
    if n == i + 1 {
      KeptBefore(lines, i);
    } else {
      KeptStarts(lines, i, n - 1);
    }
  }

  lemma {:induction false} SurvivorExists(lines: seq<string>, n: nat) returns (i: nat)
    requires n <= |lines| && KeptTo(lines, n) != []
    ensures FirstSurvivor(lines, i) && i < n
  {
    if KeptTo(lines, n - 1) != [] {
      i := SurvivorExists(lines, n - 1);
    } else {
      i := n - 1;
      KeptNone(lines, n - 1);
    }
  }

  lemma {:induction false} KeptNone(lines: seq<string>, n: nat)
    requires n <= |lines| && KeptTo(lines, n) == []
    ensures forall j :: 0 <= j < n ==> !Survives(lines, j)
  {
    if n > 0 {
      KeptNone(lines, n - 1);
    }
  }

  lemma PrefixOfFirst(s: string, w: string)
    requires HasPrefix(Split(s)[0], w)
    ensures HasPrefix(s, w)
  {
    var lines := Split(s);
    JoinSplit(s);
    assert s[..|lines[0]|] == lines[0];
    assert s[..|w|] == lines[0][..|w|];
  }

  /** The output's first line is the first line of the input that survives, if there is one. */
  lemma FirstLineOfStrip(patch: string)
    ensures forall i: nat :: FirstSurvivor(Split(patch), i) ==> Split(Strip(patch))[0] == Split(patch)[i]
    ensures Split(Strip(patch))[0] != [] ==> exists i: nat :: FirstSurvivor(Split(patch), i)
  {
    var lines := Split(patch);
    LinesOfStrip(patch);
    forall i: nat | FirstSurvivor(lines, i)
      ensures Split(Strip(patch))[0] == lines[i]
    {
      KeptStarts(lines, i, |lines|);
    }
    if Kept(lines) != [] {
      var i := SurvivorExists(lines, |lines|);
    }
  }

  lemma StartsLikeFirstLine(s: string, w: string)
    requires '\n' !in w
    ensures HasPrefix(s, w) <==> HasPrefix(Split(s)[0], w)
  {
    if HasPrefix(s, w) {
      FirstLinePrefix(s, w);
    }
    if HasPrefix(Split(s)[0], w) {
      PrefixOfFirst(s, w);
    }
  }

  /** A line that the diff test takes for the start of a diff, though it is no header. */
  predicate LooksLikeDiff(line: string) {
    HasPrefix(line, "---") || HasPrefix(line, "+++")
  }

  lemma OnlyLeadingSigns(patch: string)
    ensures IsDiff(Strip(patch)) <==> HasPrefix(Strip(patch), "---") || HasPrefix(Strip(patch), "+++")
  {
    var s := Strip(patch);
    assert MarkerFree(Split(s)) by {
      LinesOfStrip(patch);
    }
    assert !Contains(s, "\n--- ") by {
      NoHeaderLine(s, "--- ");
      assert ['\n'] + "--- " == "\n--- ";
    }
    assert !Contains(s, "\n+++ ") by {
      NoHeaderLine(s, "+++ ");
      assert ['\n'] + "+++ " == "\n+++ ";
    }
    assert !Contains(s, "\ndiff ") && !HasPrefix(s, "diff ") by {
      NoHeaderLine(s, "diff ");
      assert ['\n'] + "diff " == "\ndiff ";
    }
  }

  /** A stripped patch is taken for a diff again exactly when the first line of the input that survives starts so. */
  lemma StillDiffIff(patch: string)
    ensures IsDiff(Strip(patch)) <==> exists i: nat :: FirstSurvivor(Split(patch), i) && LooksLikeDiff(Split(patch)[i])
  {
    OnlyLeadingSigns(patch);
    StartsLikeFirstLine(Strip(patch), "---");
    StartsLikeFirstLine(Strip(patch), "+++");
    FirstLineOfStrip(patch);
    assert LooksLikeDiff(Split(Strip(patch))[0]) ==> Split(Strip(patch))[0] != [];
  }
}
