/** The SubRip layout the reader expects, written out, and the proof that the
    reader reads it back: a numbered cue is its index on one line, then
    `start --> end`, then its text lines, and cues are separated by one blank
    line. */
module SrtWriter {
  import opened Wrappers
  import opened Scanning
  import opened Captions
  import opened TimeCodes
  import opened Components
  import opened Srt

  datatype Cue = Cue(index: nat, start: TimeCodeText, end: TimeCodeText, lines: seq<string>)

  predicate CueOk(c: Cue) {
    && c.index <= IntMax
    && WellFormed(c.start) && WellFormed(c.end)
    && |c.lines| > 0
    && forall k :: 0 <= k < |c.lines| ==> LineOk(c.lines[k])
  }

  function CueHeader(c: Cue): string {
    NatToString(c.index) + "\n" + Render(c.start) + " --> " + Render(c.end) + "\n"
  }

  function RenderCue(c: Cue): string {
    CueHeader(c) + Join(c.lines, "\n")
  }

  /** The cues rendered one by one, in order. */
  function Rendered(cs: seq<Cue>): seq<string>
    decreases |cs|
  {
    if cs == [] then [] else [RenderCue(cs[0])] + Rendered(cs[1..])
  }

  /** A document: the rendered cues with one blank line between neighbours. */
  function RenderCues(cs: seq<Cue>): string {
    Join(Rendered(cs), "\n\n")
  }

  /** What the reader should make of one cue: its legible lines and its
      times in seconds, or nothing when no line is legible. */
  function EntryOf(c: Cue, strip: string -> string): Option<Entry> {
    var kept := Kept(c.lines, strip);
    if kept == [] then None
    else Some(Entry(kept, Seconds(Milliseconds(c.start)), Seconds(Milliseconds(c.end)), c.index))
  }

  function Expected(cs: seq<Cue>, strip: string -> string): seq<Entry>
    decreases |cs|
  {
    if cs == [] then []
    else
      var e := EntryOf(cs[0], strip);
      (if e.Some? then [e.value] else []) + Expected(cs[1..], strip)
  }

  /** The characters a rendered time code is made of. */
  predicate TimeCodeChar(c: char) {
    IsDigit(c) || c == ':' || c == ','
  }

  lemma RenderedChars(tc: TimeCodeText)
    requires WellFormed(tc)
    ensures CodeLike(Render(tc))
  {
    RenderedLayout(tc);
    var r, a := Render(tc), |tc.hours|;
    assert r[0] == tc.hours[0];
    forall k | 0 <= k < |r|
      ensures TimeCodeChar(r[k])
    {
      if k < a {
        assert r[k] == tc.hours[k];
      } else if a < k < a + 3 {
        assert r[k] == r[a + 1..a + 3][k - a - 1];
      } else if a + 3 < k < a + 6 {
        assert r[k] == r[a + 4..a + 6][k - a - 4];
      } else if a + 6 < k {
        assert r[k] == r[a + 7..][k - a - 7];
      }
    }
  }

  /** Line 107 reads the index. */
  lemma IndexScan(b: string, n: string)
    requires |n| < |b| && b[0..|n|] == n && b[|n|] == '\n'
    requires |n| > 0 && AllDigits(n) && DigitsValue(n) <= IntMax
    ensures ScanInt(b, 0, DefaultSkip) == IntScan(Some(DigitsValue(n)), |n|)
  {
    ScanIntDigits(b, 0, |n|);
  }

  /** Line 109 stops right before `"> "`, having taken the `"--"` of the
      arrow. */
  lemma DividerScan(b: string, p: nat)
    requires p + 5 <= |b|
    requires b[p] == ' ' && b[p + 1] == '-' && b[p + 2] == '-' && b[p + 3] == '>' && b[p + 4] == ' '
    ensures ScanUpToString(b, p, DefaultSkip, "> ") == Scan(Some("--"), p + 3)
  {
    SpanExact(b, p, p + 1, DefaultSkip, true);
    assert b[p + 3..p + 5] == "> ";
    assert !OccursAt(b, p + 1, "> ") && !OccursAt(b, p + 2, "> ");
    IndexOfExact(b, p + 1, p + 3, "> ");
    assert b[p + 1..p + 3] == "--";
  }

  /** Text shaped like a rendered time code. */
  predicate CodeLike(t: string) {
    |t| > 0 && IsDigit(t[0]) && forall k :: 0 <= k < |t| ==> TimeCodeChar(t[k])
  }

  /** Line 108 or 111: a scan from `i` takes the time code at `j`, past at
      most one skipped character. */
  lemma CodeScan(b: string, i: nat, j: nat, t: string, stop: CharSet)
    requires i <= j <= i + 1 && j + |t| <= |b| && b[j..j + |t|] == t && CodeLike(t)
    requires i < j ==> Contains(DefaultSkip, b[i])
    requires stop == Whitespaces || stop == Newlines
    requires j + |t| == |b| || Contains(stop, b[j + |t|])
    ensures ScanUpToCharacters(b, i, DefaultSkip, stop) == Scan(Some(t), j + |t|)
  {
    ScanToken(b, i, j, t, stop);
  }

  /** A header as a writer lays it out, with the offsets of its parts: the
      index ends at `a`, the arrow starts at `p`, and the time line ends at
      `d`. */
  predicate WrittenAt(b: string, n: string, rs: string, re: string, body: string, a: nat, p: nat, d: nat) {
    && b == n + "\n" + rs + " --> " + re + "\n" + body
    && a == |n| && p == a + 1 + |rs| && d == p + 3 + 2 + |re|
  }

  /** Line 107 on a written header. */
  lemma IndexOfWritten(b: string, n: string, rs: string, re: string, body: string, a: nat, p: nat, d: nat)
    requires WrittenAt(b, n, rs, re, body, a, p, d)
    requires |n| > 0 && AllDigits(n) && DigitsValue(n) <= IntMax
    ensures ScanHeader(b) == HeaderAfterIndex(b, IntScan(Some(DigitsValue(n)), a))
  {
    WrittenLayout(b, n, rs, re, body, a, p, d);
    IndexScan(b, n);
    IndexStage(b, IntScan(Some(DigitsValue(n)), a));
  }

  /** Line 108 on a written header. */
  lemma StartOfWritten(b: string, n: string, rs: string, re: string, body: string, a: nat, p: nat, d: nat, v: Option<int>)
    requires WrittenAt(b, n, rs, re, body, a, p, d) && CodeLike(rs)
    ensures a <= |b| && p <= |b|
    ensures HeaderAfterIndex(b, IntScan(v, a)) == HeaderAfterStart(b, v, Scan(Some(rs), p))
  {
    WrittenLayout(b, n, rs, re, body, a, p, d);
    CodeScan(b, a, a + 1, rs, Whitespaces);
    StartStage(b, IntScan(v, a), Scan(Some(rs), p));
  }

  /** Line 109 on a written header. */
  lemma DividerOfWritten(b: string, n: string, rs: string, re: string, body: string, a: nat, p: nat, d: nat, v: Option<int>)
    requires WrittenAt(b, n, rs, re, body, a, p, d)
    ensures p <= |b|
    ensures HeaderAfterStart(b, v, Scan(Some(rs), p)) == HeaderAfterDivider(b, v, Some(rs), Scan(Some("--"), p + 3))
  {
    WrittenLayout(b, n, rs, re, body, a, p, d);
    DividerScan(b, p);
    DividerStage(b, v, Scan(Some(rs), p), Scan(Some("--"), p + 3));
  }

  /** Lines 110-112 on a written header; the text lines start after the line
      break at `d`. */
  lemma EndOfWritten(b: string, n: string, rs: string, re: string, body: string, a: nat, p: nat, d: nat, v: Option<int>)
    requires WrittenAt(b, n, rs, re, body, a, p, d) && CodeLike(re)
    ensures d < |b| && b[d + 1..] == body
    ensures HeaderAfterDivider(b, v, Some(rs), Scan(Some("--"), p + 3)) == Some(Header(v, Some(rs), Some("--"), Some(re), d + 1))
  {
    WrittenLayout(b, n, rs, re, body, a, p, d);
    CodeScan(b, p + 3 + 2, p + 3 + 2, re, Newlines);
    EndStage(b, v, Some(rs), Scan(Some("--"), p + 3), Scan(Some(re), d));
  }

  /** One step of `ScanHeader` at a time: each stage, given what its scan
      returns, hands over to the next. */
  lemma IndexStage(b: string, index: IntScan)
    requires ScanInt(b, 0, DefaultSkip) == index
    ensures ScanHeader(b) == HeaderAfterIndex(b, index)
  {
  }

  lemma StartStage(b: string, index: IntScan, start: Scan)
    requires index.next <= |b| && ScanUpToCharacters(b, index.next, DefaultSkip, Whitespaces) == start
    ensures HeaderAfterIndex(b, index) == HeaderAfterStart(b, index.value, start)
  {
  }

  lemma DividerStage(b: string, index: Option<int>, start: Scan, divider: Scan)
    requires start.next <= |b| && ScanUpToString(b, start.next, DefaultSkip, "> ") == divider
    ensures HeaderAfterStart(b, index, start) == HeaderAfterDivider(b, index, start.token, divider)
  {
  }

  lemma EndStage(b: string, index: Option<int>, start: Option<string>, divider: Scan, end: Scan)
    requires divider.next + 2 <= |b| && ScanUpToCharacters(b, divider.next + 2, DefaultSkip, Newlines) == end
    requires end.next < |b|
    ensures HeaderAfterDivider(b, index, start, divider) == Some(Header(index, start, divider.token, end.token, end.next + 1))
  {
  }

  /** Where each part of a written header sits. */
  lemma WrittenLayout(b: string, n: string, rs: string, re: string, body: string, a: nat, p: nat, d: nat)
    requires b == n + "\n" + rs + " --> " + re + "\n" + body
    requires a == |n| && p == a + 1 + |rs| && d == p + 3 + 2 + |re|
    ensures d < |b| && b[0..a] == n && b[a] == '\n' && b[a + 1..p] == rs
    ensures b[p] == ' ' && b[p + 1] == '-' && b[p + 2] == '-' && b[p + 3] == '>' && b[p + 4] == ' '
    ensures b[p + 3 + 2..d] == re && b[d] == '\n' && b[d + 1..] == body
  {
    var arrow := " --> ";
    assert arrow[0] == ' ' && arrow[1] == '-' && arrow[2] == '-' && arrow[3] == '>' && arrow[4] == ' ';
    assert b == n + ("\n" + rs) + (arrow + re + "\n") + body;
    assert b[p..p + 5] == arrow;
    assert b[0..a] == n;
    assert b[a + 1..p] == rs;
    assert b[p + 3 + 2..d] == re;
    assert b[d + 1..] == body;
  }

  /** Lines 107-112 on a written header: each of the four scans succeeds,
      and the text lines begin right after the time line at `d + 1`. */
  lemma HeaderOfWritten(b: string, n: string, rs: string, re: string, body: string, d: nat)
    requires |n| > 0 && AllDigits(n) && DigitsValue(n) <= IntMax && CodeLike(rs) && CodeLike(re)
    requires b == n + "\n" + rs + " --> " + re + "\n" + body
    requires d == |n| + 1 + |rs| + 3 + 2 + |re|
    ensures ScanHeader(b) == Some(Header(Some(DigitsValue(n)), Some(rs), Some("--"), Some(re), d + 1))
    ensures d < |b| && b[d + 1..] == body
  {
    var a, p, v := |n|, |n| + 1 + |rs|, Some(DigitsValue(n));
    IndexOfWritten(b, n, rs, re, body, a, p, d);
    StartOfWritten(b, n, rs, re, body, a, p, d, v);
    DividerOfWritten(b, n, rs, re, body, a, p, d, v);
    EndOfWritten(b, n, rs, re, body, a, p, d, v);
  }

  /** `ParseBlock` once the header is known: the text lines from where the
      header ends, then the guard and the time codes. */
  lemma BlockOfHeader(b: string, strip: string -> string, h: Header)
    requires ScanHeader(b) == Some(h)
    ensures ParseBlock(b, strip) == BlockEntry(h, TextLines(b, h.body, strip))
  {
  }

  /** `BlockEntry` once all four header scans succeeded. */
  lemma BlockOfTimes(h: Header, lines: seq<string>, st: Option<int>, en: Option<int>)
    requires h.index.Some? && h.start.Some? && h.divider.Some? && h.end.Some?
    requires DecodeMs(h.start.value) == st && DecodeMs(h.end.value) == en
    ensures BlockEntry(h, Success(lines)) == TimedEntry(h.index.value, lines, st, en)
  {
  }

  /** A block whose header scans and whose text after the header is laid out
      one line per line. */
  lemma BlockOfLaidOut(b: string, h: Header, lines: seq<string>, strip: string -> string, st: Option<int>, en: Option<int>)
    requires ScanHeader(b) == Some(h) && h.index.Some? && h.start.Some? && h.divider.Some? && h.end.Some?
    requires h.body <= |b| && b[h.body..] == Join(lines, "\n")
    requires forall k :: 0 <= k < |lines| ==> LineOk(lines[k])
    requires DecodeMs(h.start.value) == st && DecodeMs(h.end.value) == en
    ensures ParseBlock(b, strip) == TimedEntry(h.index.value, Kept(lines, strip), st, en)
  {
    TextLinesOfJoin(b, h.body, h.body, lines, strip);
    BlockOfHeader(b, strip, h);
    BlockOfTimes(h, Kept(lines, strip), st, en);
  }

  /** Lines 100-146 on a written block: the index, the two time codes as
      they decode, and the legible lines. */
  lemma BlockOfWritten(b: string, n: string, rs: string, re: string, lines: seq<string>, d: nat, strip: string -> string, st: Option<int>, en: Option<int>)
    requires |n| > 0 && AllDigits(n) && DigitsValue(n) <= IntMax && CodeLike(rs) && CodeLike(re)
    requires forall k :: 0 <= k < |lines| ==> LineOk(lines[k])
    requires b == n + "\n" + rs + " --> " + re + "\n" + Join(lines, "\n")
    requires d == |n| + 1 + |rs| + 3 + 2 + |re|
    requires DecodeMs(rs) == st && DecodeMs(re) == en
    ensures ParseBlock(b, strip) == TimedEntry(DigitsValue(n), Kept(lines, strip), st, en)
  {
    HeaderOfWritten(b, n, rs, re, Join(lines, "\n"), d);
    BlockOfLaidOut(b, Header(Some(DigitsValue(n)), Some(rs), Some("--"), Some(re), d + 1), lines, strip, st, en);
  }

  /** Lines 100-146 on a rendered cue give the cue's entry. */
  lemma BlockOfRendered(c: Cue, strip: string -> string)
    requires CueOk(c)
    ensures ParseBlock(RenderCue(c), strip) == Success(EntryOf(c, strip))
  {
    var n, rs, re := NatToString(c.index), Render(c.start), Render(c.end);
    RenderedChars(c.start);
    RenderedChars(c.end);
    NatToStringValue(c.index);
    DecodeRendered(c.start);
    DecodeRendered(c.end);
    BlockOfWritten(RenderCue(c), n, rs, re, c.lines, |n| + 1 + |rs| + 3 + 2 + |re|, strip,
                   Some(Milliseconds(c.start)), Some(Milliseconds(c.end)));
  }
}
