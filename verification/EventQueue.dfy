/**
 The append-only event queue: a file of encoded lines and a byte offset. The encoding is a
 parameter; scanning follows `bufio.Scanner`, including its limit on the length of a line.
 */
module EventQueues {
  import opened Wrappers

  /** `bufio.MaxScanTokenSize`. */
  const MAX_TOKEN: nat := 65536

  datatype Codec<!E> = Codec(encode: E -> string, decode: string -> Option<E>)

  /** An encoding in one line that decodes to what was encoded. */
  ghost predicate LineCodec<E(!new)>(c: Codec<E>) {
    forall e :: '\n' !in c.encode(e) && DropCR(c.encode(e)) == c.encode(e) && c.decode(c.encode(e)) == Some(e)
  }

  /** `bufio.ScanLines` drops one trailing carriage return. */
  function DropCR(s: string): string {
    if s != [] && s[|s| - 1] == '\r' then s[..|s| - 1] else s
  }

  // ----- One step of the scanner

  datatype ScanStep = Line(text: string, next: nat) | Eof | TooLong

  /** The position of the next newline at or after `pos`, or the end. */
  function NewlineAt(data: string, pos: nat): (i: nat)
    requires pos <= |data|
    ensures pos <= i <= |data|
    decreases |data| - pos
  {
    if pos == |data| || data[pos] == '\n' then pos else NewlineAt(data, pos + 1)
  }

  function NextLine(data: string, pos: nat): ScanStep
    requires pos <= |data|
  {
    var i := NewlineAt(data, pos);
    if i - pos >= MAX_TOKEN then TooLong
    else if i < |data| then Line(DropCR(data[pos..i]), i + 1)
    else if pos < |data| then Line(DropCR(data[pos..i]), i)
    else Eof
  }

  datatype Scan<E> = Scan(events: seq<E>, ok: bool, position: nat)

  /** Everything from `pos` on: the decodable lines, whether the end was reached, and how far was read. */
  function ScanAll<E>(c: Codec<E>, data: string, pos: nat): Scan<E>
    requires pos <= |data|
    decreases |data| - pos
  {
    match NextLine(data, pos)
    case Eof => Scan([], true, pos)
    case TooLong => Scan([], false, pos + MAX_TOKEN)
    case Line(text, next) =>
      var rest := ScanAll(c, data, next);
      Scan(match c.decode(text) case Some(e) => [e] + rest.events case None => rest.events, rest.ok, rest.position)
  }

  /** The scanning loop of `ReadFrom` and `LoadAll`. */
  method ScanLoop<E>(c: Codec<E>, data: string, start: nat) returns (r: Scan<E>)
    requires start <= |data|
    ensures r == ScanAll(c, data, start)
  {
    var events: seq<E> := [];
    var pos := start;
    ghost var whole := ScanAll(c, data, start);
    var step := NextLine(data, pos);
    while step.Line?
      invariant pos <= |data| && step == NextLine(data, pos)
      invariant whole == Scan(events + ScanAll(c, data, pos).events, ScanAll(c, data, pos).ok, ScanAll(c, data, pos).position)
      decreases |data| - pos
    {
      var decoded := c.decode(step.text);
      if decoded.Some? {
        assert (events + [decoded.value]) + ScanAll(c, data, step.next).events == events + ([decoded.value] + ScanAll(c, data, step.next).events);
        events := events + [decoded.value];
      }
      pos := step.next;
      step := NextLine(data, pos);
    }
    r := Scan(events, step.Eof?, if step.Eof? then pos else pos + MAX_TOKEN);
  }

  // ----- Files that hold a log

  function FileOf<E>(c: Codec<E>, log: seq<E>): string {
    if log == [] then [] else FileOf(c, log[..|log| - 1]) + c.encode(log[|log| - 1]) + ['\n']
  }

  predicate Fits<E>(c: Codec<E>, e: E) {
    |c.encode(e)| < 65536
  }

  lemma {:induction false} FileOfAppend<E>(c: Codec<E>, a: seq<E>, b: seq<E>)
    ensures FileOf(c, a + b) == FileOf(c, a) + FileOf(c, b)
  {
    if b == [] {
      assert a + b == a;
    } else {
      var n := |b| - 1;
      FileOfAppend(c, a, b[..n]);
      assert (a + b)[..|a + b| - 1] == a + b[..n];
    }
  }

  lemma {:induction false} NewlineFound(data: string, pos: nat, i: nat)
    requires pos <= i < |data| && data[i] == '\n' && forall k :: pos <= k < i ==> data[k] != '\n'
    ensures NewlineAt(data, pos) == i
    decreases i - pos
  {
    if pos < i {
      NewlineFound(data, pos + 1, i);
    }
  }

  /** The next step of the scanner from `k` characters into an event's line. */
  lemma StepInside<E(!new)>(c: Codec<E>, log: seq<E>, f: nat, k: nat)
    requires LineCodec(c) && f < |log| && k <= |c.encode(log[f])|
    ensures var line, pos, end := c.encode(log[f]), |FileOf(c, log[..f])| + k, |FileOf(c, log[..f + 1])|;
            && pos <= |FileOf(c, log)| && end <= |FileOf(c, log)|
            && NextLine(FileOf(c, log), pos) == (if |line| - k >= MAX_TOKEN then TooLong else Line(DropCR(line[k..]), end))
  {
    var pre, line, post := FileOf(c, log[..f]), c.encode(log[f]), FileOf(c, log[f + 1..]);
    FileAround(c, log, f);
    StepInLine(pre, line, post, k);
  }

  lemma FileAround<E>(c: Codec<E>, log: seq<E>, f: nat)
    requires f < |log|
    ensures FileOf(c, log[..f + 1]) == FileOf(c, log[..f]) + c.encode(log[f]) + ['\n']
    ensures FileOf(c, log) == FileOf(c, log[..f + 1]) + FileOf(c, log[f + 1..])
  {
    assert log[..f + 1][..f] == log[..f];
    assert log == log[..f + 1] + log[f + 1..];
    FileOfAppend(c, log[..f + 1], log[f + 1..]);
  }

  lemma StepInLine(pre: string, line: string, post: string, k: nat)
    requires k <= |line| && '\n' !in line
    ensures NextLine(pre + line + ['\n'] + post, |pre| + k)
            == if |line| - k >= MAX_TOKEN then TooLong else Line(DropCR(line[k..]), |pre| + |line| + 1)
  {
    var data, i := pre + line + ['\n'] + post, |pre| + |line|;
    assert data[i] == '\n';
    assert forall j :: |pre| <= j < i ==> data[j] == line[j - |pre|];
    NewlineFound(data, |pre| + k, i);
    assert data[|pre| + k..i] == line[k..];
  }

  /** At the start of an event's line the scanner yields that event, or gives up if it does not fit. */
  lemma StepAtBoundary<E(!new)>(c: Codec<E>, log: seq<E>, k: nat)
    requires LineCodec(c) && k < |log|
    ensures var pos := |FileOf(c, log[..k])|;
            && pos <= |FileOf(c, log)|
            && NextLine(FileOf(c, log), pos)
               == (if Fits(c, log[k]) then Line(c.encode(log[k]), |FileOf(c, log[..k + 1])|) else TooLong)
            && |FileOf(c, log[..k + 1])| <= |FileOf(c, log)|
            && (!Fits(c, log[k]) ==> pos + MAX_TOKEN <= |FileOf(c, log)|)
  {
    StepInside(c, log, k, 0);
    var line := c.encode(log[k]);
    assert line[0..] == line;
    assert log[..k + 1][..k] == log[..k];
  }

  /** The first event from `k` on that does not fit, or the end of the log. */
  ghost function FirstLong<E>(c: Codec<E>, log: seq<E>, k: nat): (i: nat)
    requires k <= |log|
    ensures k <= i <= |log| && (i < |log| ==> !Fits(c, log[i])) && forall j :: k <= j < i ==> Fits(c, log[j])
    decreases |log| - k
  {
    if k == |log| || !Fits(c, log[k]) then k else FirstLong(c, log, k + 1)
  }

  /** One delivered line: the scan from an event that fits is that event and the scan from the next. */
  lemma ScanOne<E(!new)>(c: Codec<E>, log: seq<E>, k: nat)
    requires LineCodec(c) && k < |log| && Fits(c, log[k])
    ensures |FileOf(c, log[..k])| <= |FileOf(c, log)| && |FileOf(c, log[..k + 1])| <= |FileOf(c, log)|
    ensures var rest := ScanAll(c, FileOf(c, log), |FileOf(c, log[..k + 1])|);
            ScanAll(c, FileOf(c, log), |FileOf(c, log[..k])|) == Scan([log[k]] + rest.events, rest.ok, rest.position)
  {
    StepAtBoundary(c, log, k);
  }

  lemma SliceHead<E>(log: seq<E>, k: nat, n: nat)
    requires k < n <= |log|
    ensures log[k..n] == [log[k]] + log[k + 1..n]
    ensures n == |log| ==> log[k..] == [log[k]] + log[k + 1..]
  {
  }

  /** Scanning from an event boundary, when all remaining events fit, delivers exactly the rest. */
  lemma {:induction false} ScanDeliversRest<E(!new)>(c: Codec<E>, log: seq<E>, k: nat)
    requires LineCodec(c) && k <= |log| && FirstLong(c, log, k) == |log|
    ensures |FileOf(c, log[..k])| <= |FileOf(c, log)|
    ensures ScanAll(c, FileOf(c, log), |FileOf(c, log[..k])|) == Scan(log[k..], true, |FileOf(c, log)|)
    decreases |log| - k
  {
    if k == |log| {
      assert log[..k] == log;
    } else {
      ScanOne(c, log, k);
      ScanDeliversRest(c, log, k + 1);
      SliceHead(log, k, |log|);
    }
  }

  /** An event that does not fit stops the scan in front of it. */
  lemma {:induction false} ScanStopsAt<E(!new)>(c: Codec<E>, log: seq<E>, k: nat, long: nat)
    requires LineCodec(c) && k <= long < |log| && FirstLong(c, log, k) == long
    ensures |FileOf(c, log[..k])| <= |FileOf(c, log)|
    ensures ScanAll(c, FileOf(c, log), |FileOf(c, log[..k])|)
            == Scan(log[k..long], false, |FileOf(c, log[..long])| + MAX_TOKEN)
    decreases long - k
  {
    if k < long {
      ScanOne(c, log, k);
      ScanStopsAt(c, log, k + 1, long);
      SliceHead(log, k, long);
    } else {
      ScanLong(c, log, k);
    }
  }

  lemma ScanLong<E(!new)>(c: Codec<E>, log: seq<E>, k: nat)
    requires LineCodec(c) && k < |log| && !Fits(c, log[k])
    ensures |FileOf(c, log[..k])| <= |FileOf(c, log)|
    ensures ScanAll(c, FileOf(c, log), |FileOf(c, log[..k])|) == Scan(log[k..k], false, |FileOf(c, log[..k])| + MAX_TOKEN)
  {
    StepAtBoundary(c, log, k);
  }

  /** The scan gave up inside the line of event `f`: everything before it was delivered. */
  ghost predicate StuckIn<E>(c: Codec<E>, log: seq<E>, f: nat, position: nat) {
    && f < |log| && !Fits(c, log[f])
    && |FileOf(c, log[..f])| < position == |FileOf(c, log[..f])| + MAX_TOKEN < |FileOf(c, log[..f + 1])|
  }

  lemma StuckThere<E(!new)>(c: Codec<E>, log: seq<E>, f: nat)
    requires f < |log| && !Fits(c, log[f])
    ensures StuckIn(c, log, f, |FileOf(c, log[..f])| + MAX_TOKEN)
  {
    assert log[..f + 1][..f] == log[..f];
  }

  /** Both outcomes of a scan from an event boundary. */
  lemma ScanOutcome<E(!new)>(c: Codec<E>, log: seq<E>, k: nat)
    requires LineCodec(c) && k <= |log|
    ensures |FileOf(c, log[..k])| <= |FileOf(c, log)|
    ensures var f, r := FirstLong(c, log, k), ScanAll(c, FileOf(c, log), |FileOf(c, log[..k])|);
            && (r.ok <==> forall i :: k <= i < |log| ==> Fits(c, log[i]))
            && (r.ok ==> r.events == log[k..] && r.position == |FileOf(c, log)|)
            && (!r.ok ==> r.events == log[k..f] && StuckIn(c, log, f, r.position))
  {
    var f := FirstLong(c, log, k);
    if f == |log| {
      ScanDeliversRest(c, log, k);
    } else {
      ScanStopsAt(c, log, k, f);
      StuckThere(c, log, f);
    }
  }

  // ----- After an event that does not fit

  /** No proper tail of the event's encoding reads as an event. */
  ghost predicate TailsDoNotDecode<E>(c: Codec<E>, e: E) {
    forall k :: 0 < k <= |c.encode(e)| ==> c.decode(DropCR(c.encode(e)[k..])) == None
  }

  /** What is left of an event that does not fit never reads as an event. */
  ghost predicate LongTailsFail<E(!new)>(c: Codec<E>) {
    forall e :: !Fits(c, e) ==> TailsDoNotDecode(c, e)
  }

  /**
   A read that starts inside the line of an event that did not fit never delivers that event:
   it fails again, still inside the line, or it goes on exactly like a read from the next event.
   */
  lemma LongEventIsSkipped<E(!new)>(c: Codec<E>, log: seq<E>, f: nat, k: nat)
    requires LineCodec(c) && f < |log| && 0 < k <= |c.encode(log[f])| && TailsDoNotDecode(c, log[f])
    ensures var data, pos, left := FileOf(c, log), |FileOf(c, log[..f])| + k, |c.encode(log[f])| - k;
            && pos <= |data| && |FileOf(c, log[..f + 1])| <= |data|
            && ScanAll(c, data, pos)
               == (if left >= MAX_TOKEN then Scan([], false, pos + MAX_TOKEN) else ScanAll(c, data, |FileOf(c, log[..f + 1])|))
  {
    StepInside(c, log, f, k);
  }

  /** A codec for numbers: a mark, and then as many strokes. */
  function Strokes(n: nat): string {
    ['<'] + seq(n, _ => '1')
  }

  function CountStrokes(s: string): Option<nat> {
    if s != [] && s[0] == '<' && forall i :: 1 <= i < |s| ==> s[i] == '1' then Some(|s| - 1) else None
  }

  const STROKE_CODEC := Codec(Strokes, CountStrokes)

  /** There are codecs and events that do not fit, and a queue that holds one delivers nothing from there on. */
  lemma LongEventBlocks(n: nat)
    requires n + 1 >= 65536
    ensures LineCodec(STROKE_CODEC) && LongTailsFail(STROKE_CODEC) && !Fits(STROKE_CODEC, n)
    ensures var r := ScanAll(STROKE_CODEC, FileOf(STROKE_CODEC, [n]), 0);
            !r.ok && r.events == []
  {
    var c := STROKE_CODEC;
    assert |c.encode(n)| == n + 1;
    ScanOutcome(c, [n], 0);
    assert FileOf(c, [n][..0]) == [];
    assert FirstLong(c, [n], 0) == 0;
  }

  // ----- Where the offset can stand

  /** `taken` events are behind the offset, and it stands `inside` characters into the line of the next one. */
  datatype Place = Place(taken: nat, inside: nat)

  /** The offset stands between two lines, or inside the line of an event that does not fit. */
  ghost predicate StandsAt<E>(c: Codec<E>, log: seq<E>, p: Place, offset: nat) {
    && p.taken <= |log| && offset == |FileOf(c, log[..p.taken])| + p.inside
    && (p.inside > 0 ==> p.taken < |log| && !Fits(c, log[p.taken]) && p.inside <= |c.encode(log[p.taken])|)
  }

  /** The events that fit, in order. */
  function Fitting<E>(c: Codec<E>, s: seq<E>): seq<E> {
    if s == [] then []
    else if Fits(c, s[|s| - 1]) then Fitting(c, s[..|s| - 1]) + [s[|s| - 1]]
    else Fitting(c, s[..|s| - 1])
  }

  lemma {:induction false} FittingAll<E>(c: Codec<E>, s: seq<E>)
    requires forall i :: 0 <= i < |s| ==> Fits(c, s[i])
    ensures Fitting(c, s) == s
  {
    if s != [] {
      FittingAll(c, s[..|s| - 1]);
    }
  }

  lemma {:induction false} FittingAppend<E>(c: Codec<E>, a: seq<E>, b: seq<E>)
    ensures Fitting(c, a + b) == Fitting(c, a) + Fitting(c, b)
  {
    if b == [] {
      assert a + b == a;
    } else {
      var n := |b| - 1;
      FittingAppend(c, a, b[..n]);
      assert (a + b)[..|a + b| - 1] == a + b[..n];
    }
  }

  lemma FittingSlices<E>(c: Codec<E>, log: seq<E>, i: nat, j: nat, k: nat)
    requires i <= j <= k <= |log|
    ensures Fitting(c, log[i..k]) == Fitting(c, log[i..j]) + Fitting(c, log[j..k])
  {
    FittingAppend(c, log[i..j], log[j..k]);
    assert log[i..k] == log[i..j] + log[j..k];
  }

  lemma FileGrows<E>(c: Codec<E>, log: seq<E>, k: nat, f: nat)
    requires k <= f <= |log|
    ensures |FileOf(c, log[..k])| <= |FileOf(c, log[..f])|
  {
    FileOfAppend(c, log[..k], log[k..f]);
    assert log[..k] + log[k..f] == log[..f];
  }

  /** The events after `p` that can keep a read from reaching the end. */
  function FirstOpen(p: Place): nat {
    if p.inside == 0 then p.taken else p.taken + 1
  }

  /** What a read from `p` that ends at `q` yields. */
  ghost predicate Reads<E>(c: Codec<E>, log: seq<E>, p: Place, r: Scan<E>, q: Place) {
    && StandsAt(c, log, q, r.position) && p.taken <= q.taken
    && r.events == Fitting(c, log[p.taken..q.taken])
    && (r.ok <==> q == Place(|log|, 0))
    && (!r.ok ==> q.inside > 0)
  }

  lemma ReadFromBoundary<E(!new)>(c: Codec<E>, log: seq<E>, k: nat) returns (q: Place)
    requires LineCodec(c) && k <= |log|
    ensures |FileOf(c, log[..k])| <= |FileOf(c, log)|
    ensures var r := ScanAll(c, FileOf(c, log), |FileOf(c, log[..k])|);
            && Reads(c, log, Place(k, 0), r, q)
            && (r.ok <==> forall i :: k <= i < |log| ==> Fits(c, log[i]))
            && (!r.ok ==> r.position >= |FileOf(c, log[..k])| + MAX_TOKEN)
  {
    var f := FirstLong(c, log, k);
    if f == |log| {
      q := Place(f, 0);
      ReadToEnd(c, log, k);
    } else {
      q := Place(f, MAX_TOKEN);
      ReadIntoLong(c, log, k);
    }
  }

  lemma ReadToEnd<E(!new)>(c: Codec<E>, log: seq<E>, k: nat)
    requires LineCodec(c) && k <= |log| && FirstLong(c, log, k) == |log|
    ensures |FileOf(c, log[..k])| <= |FileOf(c, log)|
    ensures var r := ScanAll(c, FileOf(c, log), |FileOf(c, log[..k])|);
            r.ok && Reads(c, log, Place(k, 0), r, Place(|log|, 0)) && forall i :: k <= i < |log| ==> Fits(c, log[i])
  {
    ScanDeliversRest(c, log, k);
    FittingAll(c, log[k..|log|]);
    assert log[k..] == log[k..|log|] && log[..|log|] == log;
  }

  lemma ReadIntoLong<E(!new)>(c: Codec<E>, log: seq<E>, k: nat)
    requires LineCodec(c) && k <= |log| && FirstLong(c, log, k) < |log|
    ensures |FileOf(c, log[..k])| <= |FileOf(c, log)|
    ensures var f, r := FirstLong(c, log, k), ScanAll(c, FileOf(c, log), |FileOf(c, log[..k])|);
            && !r.ok && Reads(c, log, Place(k, 0), r, Place(f, MAX_TOKEN)) && !Fits(c, log[f])
            && r.position >= |FileOf(c, log[..k])| + MAX_TOKEN
  {
    var f := FirstLong(c, log, k);
    ScanStopsAt(c, log, k, f);
    FittingAll(c, log[k..f]);
    StandsInStuck(c, log, f);
    FileGrows(c, log, k, f);
  }

  lemma StandsInStuck<E>(c: Codec<E>, log: seq<E>, f: nat)
    requires f < |log| && !Fits(c, log[f])
    ensures StandsAt(c, log, Place(f, MAX_TOKEN), |FileOf(c, log[..f])| + MAX_TOKEN)
  {
  }

  /** The outcome of every read: where it ends, what it yields, and when it fails. */
  lemma ReadOutcome<E(!new)>(c: Codec<E>, log: seq<E>, p: Place, offset: nat) returns (q: Place)
    requires LineCodec(c) && LongTailsFail(c) && StandsAt(c, log, p, offset)
    ensures offset <= |FileOf(c, log)|
    ensures var r := ScanAll(c, FileOf(c, log), offset);
            && Reads(c, log, p, r, q)
            && (r.ok <==> (forall i :: FirstOpen(p) <= i < |log| ==> Fits(c, log[i]))
                          && (p.inside > 0 ==> |c.encode(log[p.taken])| - p.inside < MAX_TOKEN))
            && (!r.ok ==> r.position >= offset + MAX_TOKEN)
  {
    if p.inside == 0 {
      q := ReadFromBoundary(c, log, p.taken);
    } else {
      q := ReadFromInside(c, log, p, offset);
    }
  }

  lemma ReadFromInside<E(!new)>(c: Codec<E>, log: seq<E>, p: Place, offset: nat) returns (q: Place)
    requires LineCodec(c) && LongTailsFail(c) && StandsAt(c, log, p, offset) && p.inside > 0
    ensures offset <= |FileOf(c, log)|
    ensures var r := ScanAll(c, FileOf(c, log), offset);
            && Reads(c, log, p, r, q)
            && (r.ok <==> (forall i :: p.taken < i < |log| ==> Fits(c, log[i]))
                          && |c.encode(log[p.taken])| - p.inside < MAX_TOKEN)
            && (!r.ok ==> r.position >= offset + MAX_TOKEN)
  {
    if |c.encode(log[p.taken])| - p.inside >= MAX_TOKEN {
      q := Place(p.taken, p.inside + MAX_TOKEN);
      StaysInside(c, log, p, offset);
    } else {
      q := ReadPastLong(c, log, p, offset);
    }
  }

  lemma StaysInside<E(!new)>(c: Codec<E>, log: seq<E>, p: Place, offset: nat)
    requires LineCodec(c) && LongTailsFail(c) && StandsAt(c, log, p, offset) && p.inside > 0
    requires |c.encode(log[p.taken])| - p.inside >= MAX_TOKEN
    ensures offset <= |FileOf(c, log)|
    ensures var r := ScanAll(c, FileOf(c, log), offset);
            !r.ok && Reads(c, log, p, r, Place(p.taken, p.inside + MAX_TOKEN)) && r.position >= offset + MAX_TOKEN
  {
    LongEventIsSkipped(c, log, p.taken, p.inside);
    assert log[p.taken..p.taken] == [];
  }

  lemma ReadPastLong<E(!new)>(c: Codec<E>, log: seq<E>, p: Place, offset: nat) returns (q: Place)
    requires LineCodec(c) && LongTailsFail(c) && StandsAt(c, log, p, offset) && p.inside > 0
    requires |c.encode(log[p.taken])| - p.inside < MAX_TOKEN
    ensures offset <= |FileOf(c, log)|
    ensures var r := ScanAll(c, FileOf(c, log), offset);
            && Reads(c, log, p, r, q)
            && (r.ok <==> forall i :: p.taken < i < |log| ==> Fits(c, log[i]))
            && (!r.ok ==> r.position >= offset + MAX_TOKEN)
  {
    SkipsLong(c, log, p, offset);
    q := ReadFromBoundary(c, log, p.taken + 1);
    ReadsEarlier(c, log, p, ScanAll(c, FileOf(c, log), offset), q);
  }

  lemma SkipsLong<E(!new)>(c: Codec<E>, log: seq<E>, p: Place, offset: nat)
    requires LineCodec(c) && LongTailsFail(c) && StandsAt(c, log, p, offset) && p.inside > 0
    requires |c.encode(log[p.taken])| - p.inside < MAX_TOKEN
    ensures offset <= |FileOf(c, log[..p.taken + 1])| <= |FileOf(c, log)|
    ensures ScanAll(c, FileOf(c, log), offset) == ScanAll(c, FileOf(c, log), |FileOf(c, log[..p.taken + 1])|)
  {
    LongEventIsSkipped(c, log, p.taken, p.inside);
    LineEnds(c, log, p, offset);
  }

  lemma ReadsEarlier<E>(c: Codec<E>, log: seq<E>, p: Place, r: Scan<E>, q: Place)
    requires p.taken < |log| && !Fits(c, log[p.taken]) && Reads(c, log, Place(p.taken + 1, 0), r, q)
    ensures Reads(c, log, p, r, q)
  {
    LongIsNotFitting(c, log, p.taken, q.taken);
  }

  lemma LineEnds<E>(c: Codec<E>, log: seq<E>, p: Place, offset: nat)
    requires StandsAt(c, log, p, offset) && p.inside > 0
    ensures offset <= |FileOf(c, log[..p.taken + 1])|
  {
    FileAround(c, log, p.taken);
  }

  lemma LongIsNotFitting<E>(c: Codec<E>, log: seq<E>, f: nat, k: nat)
    requires f < k <= |log| && !Fits(c, log[f])
    ensures Fitting(c, log[f..k]) == Fitting(c, log[f + 1..k])
  {
    FittingSlices(c, log, f, f + 1, k);
    assert log[f..f + 1] == [log[f]] && [log[f]][..0] == [];
  }

  lemma DeliveredGrows<E>(c: Codec<E>, log: seq<E>, i: nat, j: nat)
    requires i <= j <= |log|
    ensures Fitting(c, log[..j]) == Fitting(c, log[..i]) + Fitting(c, log[i..j])
    ensures j == |log| ==> log[i..j] == log[i..] && log[..j] == log
  {
    FittingSlices(c, log, 0, i, j);
    assert log[0..i] == log[..i] && log[0..j] == log[..j];
  }

  lemma StandsWithin<E>(c: Codec<E>, log: seq<E>, p: Place, offset: nat)
    requires StandsAt(c, log, p, offset)
    ensures offset <= |FileOf(c, log)|
  {
    assert log[..|log|] == log;
    FileGrows(c, log, p.taken, |log|);
    if p.inside > 0 {
      FileAround(c, log, p.taken);
    }
  }

  class EventQueue<E(!new)> {
    const codec: Codec<E>
    var file: string
    var offset: nat
    ghost var log: seq<E>   // every event ever enqueued
    ghost var place: Place   // where the offset stands in the log
    ghost var delivered: seq<E>   // everything ReadFrom has returned so far

    /**
     The file holds the log, and what was delivered is, once each and in order, the events behind
     the offset that fit. This holds after every interleaving of the operations, whether or not
     reads have failed: no fitting event is lost or repeated, and none that is too long delivered.
     */
    ghost predicate Valid()
      reads this
    {
      && LineCodec(codec) && LongTailsFail(codec) && file == FileOf(codec, log)
      && StandsAt(codec, log, place, offset)
      && delivered == Fitting(codec, log[..place.taken])
    }

    /** The events that are not behind the offset; the first may have been begun. */
    ghost function Unread(): (tail: seq<E>)
      requires Valid()
      reads this
      ensures log[..place.taken] + tail == log && Fitting(codec, log) == delivered + Fitting(codec, tail)
    {
      FittingAppend(codec, log[..place.taken], log[place.taken..]);
      assert log == log[..place.taken] + log[place.taken..];
      log[place.taken..]
    }

    constructor (codec: Codec<E>)
      requires LineCodec(codec) && LongTailsFail(codec)
      ensures Valid() && this.codec == codec && log == [] && place == Place(0, 0)
    {
      this.codec := codec;
      file, offset, log, place, delivered := [], 0, [], Place(0, 0), [];
    }

    method Enqueue(e: E)
      requires Valid()
      modifies this`file, this`log
      ensures Valid() && log == old(log) + [e] && Unread() == old(Unread()) + [e]
    {
      file := file + codec.encode(e) + ['\n'];
      log := log + [e];
      assert log[..|log| - 1] == old(log);
      assert log[..place.taken] == old(log[..place.taken]);
    }

    /** All events in order, without an error, exactly when every one of them fits. */
    method LoadAll() returns (events: seq<E>, ok: bool)
      requires Valid()
      ensures ok <==> forall i :: 0 <= i < |log| ==> Fits(codec, log[i])
      ensures events == if ok then log else log[..FirstLong(codec, log, 0)]
    {
      assert log[..0] == [] && log[0..] == log;
      ScanOutcome(codec, log, 0);
      var r := ScanLoop(codec, file, 0);
      return r.events, r.ok;
    }

    /**
     The events from the offset on that fit, up to the end or into the line of the next one that
     does not. A read that fails has moved on by a whole buffer, so no more than the length of the
     file allows can fail in a row; one that succeeds leaves nothing unread.
     */
    method ReadFrom() returns (events: seq<E>, ok: bool)
      requires Valid()
      modifies this`offset, this`place, this`delivered
      ensures Valid() && old(place.taken) <= place.taken
      ensures delivered == old(delivered) + events && events == Fitting(codec, log[old(place.taken)..place.taken])
      ensures ok <==> place == Place(|log|, 0)
      ensures ok ==> Unread() == [] && events == Fitting(codec, old(Unread())) && delivered == Fitting(codec, log)
      ensures old(place.inside) == 0 ==>
                (ok <==> forall i :: old(place.taken) <= i < |log| ==> Fits(codec, log[i])) && (ok ==> events == old(Unread()))
      ensures !ok ==> place.inside > 0 && offset >= old(offset) + 65536
      ensures offset <= |file|
    {
      ghost var p := place;
      place := ReadOutcome(codec, log, p, offset);
      var r := ScanLoop(codec, file, offset);
      DeliveredGrows(codec, log, p.taken, place.taken);
      if p.inside == 0 && r.ok {
        FittingAll(codec, log[p.taken..]);
      }
      StandsWithin(codec, log, place, r.position);
      offset := r.position;
      delivered := delivered + r.events;
      return r.events, r.ok;
    }
  }
}
