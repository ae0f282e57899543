/** `parseSRTSub`: the SubRip reader. The text is cut into blocks at blank
    lines; each block is read with a `Scanner` that skips whitespace and
    newlines before every scan: an index, a start time code up to the next
    whitespace, a divider up to `"> "`, an end time code up to the end of the
    line, then the text lines. A text line is kept when, after markup
    stripping, it has more than two bytes of lower-case letters. A block
    without kept lines adds nothing; a malformed header fails the whole
    document. */
module Srt {
  import opened Wrappers
  import opened Scanning
  import opened Captions
  import opened TimeCodes
  import opened Components

  const CrlfBreak: string := "\r\n\r\n"
  const LfBreak: string := "\n\n"

  /** The separator the blocks are cut at: CRLF blank lines when the text has
      any, bare `\n\n` otherwise. */
  function Separator(s: string): string {
    if IndexOf(s, 0, CrlfBreak) < |s| then CrlfBreak else LfBreak
  }

  /** Lines 88-93: split at `"\r\n\r\n"`, and split again at `"\n\n"` only when
      the first split leaves the text whole. */
  function Blocks(s: string): seq<string> {
    var crlf := Split(s, CrlfBreak);
    if |crlf| == 1 then Split(s, LfBreak) else crlf
  }

  /** The blocks are the pieces between the occurrences of one separator:
      joined with it they give back the text, and none contains it. */
  lemma BlocksSplit(s: string)
    ensures Blocks(s) == Split(s, Separator(s))
    ensures Join(Blocks(s), Separator(s)) == s
    ensures forall k :: 0 <= k < |Blocks(s)| ==> Free(Blocks(s)[k], Separator(s))
  {
    var j := IndexOf(s, 0, CrlfBreak);
    if j < |s| {
      SplitOccurs(s, CrlfBreak, j);
    } else {
      SplitFree(s, CrlfBreak);
    }
    JoinOfSplit(s, Separator(s));
    SplitPiecesFree(s, Separator(s));
  }

  /** `NSCharacterSet.lowercaseLetters`, for the Basic Latin and Latin-1
      ranges: a-z, the micro sign, and U+00DF-U+00FF except the division
      sign. */
  predicate IsLowercaseLetter(c: char) {
    'a' <= c <= 'z' || c == '\U{00B5}' || ('\U{00DF}' <= c <= '\U{00FF}' && c != '\U{00F7}')
  }

  /** The number of bytes of `c` in UTF-8. */
  function Utf8Width(c: char): nat {
    if c as int < 0x80 then 1 else if c as int < 0x800 then 2 else if c as int < 0x1_0000 then 3 else 4
  }

  /** `lengthOfBytes(using: .utf8)`. */
  function Utf8Length(t: string): nat
    decreases |t|
  {
    if t == [] then 0 else Utf8Width(t[0]) + Utf8Length(t[1..])
  }

  /** The lower-case letters of `t`, in order. */
  function LowercaseLetters(t: string): (r: string)
    ensures forall c :: c in r ==> IsLowercaseLetter(c)
    ensures |r| <= |t|
    decreases |t|
  {
    if t == [] then []
    else (if IsLowercaseLetter(t[0]) then [t[0]] else []) + LowercaseLetters(t[1..])
  }

  /** Lines 126-131: the quality filter. A line is kept when its lower-case
      letters, after lower-casing, take more than two bytes in UTF-8. */
  predicate Legible(line: string) {
    Utf8Length(LowercaseLetters(Lowercased(line))) > 2
  }

  /** Lines 117-134: the text lines from cursor `i` to the end of the block,
      each passed through `strip` and kept when legible. */
  function TextLines(b: string, i: nat, strip: string -> string): (r: Result<seq<string>, ParseError>)
    requires i <= |b|
    ensures r.Success? ==> forall k :: 0 <= k < |r.value| ==> Legible(r.value[k])
    decreases |b| - i
  {
    if IsAtEnd(b, i, DefaultSkip) then Success([])
    else
      var line := ScanUpToCharacters(b, i, DefaultSkip, Newlines);
      if line.token.None? then Failure(InvalidFormat)
      else
        var plain := strip(line.token.value);
        match TextLines(b, line.next, strip)
        case Failure(e) => Failure(e)
        case Success(rest) => Success((if Legible(plain) then [plain] else []) + rest)
  }

  /** The four header scans of a block (lines 107-112), with the cursor where
      the text lines begin; `None` when a cursor step goes past the end. */
  datatype Header = Header(index: Option<int>, start: Option<string>, divider: Option<string>, end: Option<string>, body: nat)

  function ScanHeader(b: string): (r: Option<Header>)
    ensures r.Some? ==> r.value.body <= |b|
    ensures r.Some? && r.value.index.Some? ==> IntMin <= r.value.index.value <= IntMax
  {
    HeaderAfterIndex(b, ScanInt(b, 0, DefaultSkip))
  }

  /** Line 108: the start time code, up to the next whitespace. */
  function HeaderAfterIndex(b: string, index: IntScan): Option<Header>
    requires index.next <= |b|
  {
    HeaderAfterStart(b, index.value, ScanUpToCharacters(b, index.next, DefaultSkip, Whitespaces))
  }

  /** Line 109: the divider, up to the `"> "` that ends the arrow. */
  function HeaderAfterStart(b: string, index: Option<int>, start: Scan): Option<Header>
    requires start.next <= |b|
  {
    HeaderAfterDivider(b, index, start.token, ScanUpToString(b, start.next, DefaultSkip, "> "))
  }

  /** Lines 110-111: step over `"> "`, a trap past the end of the block, then
      the end time code up to the end of the line. */
  function HeaderAfterDivider(b: string, index: Option<int>, start: Option<string>, divider: Scan): Option<Header> {
    if divider.next + 2 > |b| then None
    else HeaderAfterEnd(b, index, start, divider.token, ScanUpToCharacters(b, divider.next + 2, DefaultSkip, Newlines))
  }

  /** Line 112: step over the line break, a trap past the end of the block. */
  function HeaderAfterEnd(b: string, index: Option<int>, start: Option<string>, divider: Option<string>, end: Scan): Option<Header> {
    if end.next + 1 > |b| then None
    else Some(Header(index, start, divider, end.token, end.next + 1))
  }

  /** One block (lines 100-146): `Failure(Trap)` where `parseSRTSub` crashes,
      `Failure(InvalidFormat)` where it throws, and otherwise the entry, or
      `None` when no text line is kept. */
  function ParseBlock(b: string, strip: string -> string): (r: Result<Option<Entry>, ParseError>)
    ensures r.Success? && r.value.Some? ==> |r.value.value.texts| > 0
    ensures r.Success? && r.value.Some? ==> forall k :: 0 <= k < |r.value.value.texts| ==> Legible(r.value.value.texts[k])
    ensures r.Success? && r.value.Some? ==> IntMin <= r.value.value.index <= IntMax
  {
    match ScanHeader(b)
    case None => Failure(Trap)
    case Some(h) => BlockEntry(h, TextLines(b, h.body, strip))
  }

  /** Lines 136-146, after the text lines: the guard over the four header
      scans, then the two time codes. */
  function BlockEntry(h: Header, lines: Result<seq<string>, ParseError>): (r: Result<Option<Entry>, ParseError>)
    ensures lines.Failure? ==> r == Failure(lines.error)
    ensures lines.Success? && (h.index.None? || h.start.None? || h.divider.None? || h.end.None?) ==>
      r == Failure(InvalidFormat)
    ensures r.Success? ==> lines.Success? && h.index.Some? && h.start.Some? && h.divider.Some? && h.end.Some?
    ensures r.Success? && r.value.Some? ==> r.value.value.texts == lines.value && r.value.value.index == h.index.value
  {
    match lines
    case Failure(e) => Failure(e)
    case Success(lines) =>
      if h.index.None? || h.start.None? || h.divider.None? || h.end.None? then Failure(InvalidFormat)
      else TimedEntry(h.index.value, lines, DecodeMs(h.start.value), DecodeMs(h.end.value))
  }

  /** Lines 140-146: a trap when a time code does not decode; otherwise the
      entry, or nothing when no line was kept. */
  function TimedEntry(index: int, lines: seq<string>, start: Option<int>, end: Option<int>): (r: Result<Option<Entry>, ParseError>)
    ensures r.Success? <==> start.Some? && end.Some?
    ensures r.Success? ==> (r.value.None? <==> lines == [])
    ensures r.Success? && r.value.Some? ==>
      r.value.value == Entry(lines, Seconds(start.value), Seconds(end.value), index)
  {
    if start.Some? && end.Some? then
      Success(if lines == [] then None else Some(Entry(lines, Seconds(start.value), Seconds(end.value), index)))
    else Failure(Trap)
  }

  /** What reading one block gives: an entry, nothing, or an error. */
  type BlockReader = string -> Result<Option<Entry>, ParseError>

  /** Lines 95-149 over a list of blocks, with `read` as the loop body: empty
      blocks are skipped, the first failing block fails the whole list, and
      the entries of the others are collected in block order. */
  function Collect(blocks: seq<string>, read: BlockReader): (r: Result<seq<Entry>, ParseError>)
    ensures r.Success? <==> forall k :: 0 <= k < |blocks| ==> blocks[k] == [] || read(blocks[k]).Success?
    ensures r.Success? ==> |r.value| <= |blocks|
    ensures r.Success? ==> forall n :: 0 <= n < |r.value| ==>
      exists k :: 0 <= k < |blocks| && read(blocks[k]) == Success(Some(r.value[n]))
    decreases |blocks|
  {
    if blocks == [] then Success([])
    else
      var rest := Collect(blocks[1..], read);
      assert forall k :: 1 <= k < |blocks| ==> blocks[k] == blocks[1..][k - 1];
      if blocks[0] == [] then rest
      else
        match read(blocks[0])
        case Failure(e) => Failure(e)
        case Success(entry) =>
          match rest
          case Failure(e) => Failure(e)
          case Success(entries) =>
            var r := (if entry.Some? then [entry.value] else []) + entries;
            assert forall n :: 0 <= n < |r| ==> exists k :: 0 <= k < |blocks| && read(blocks[k]) == Success(Some(r[n])) by {
              forall n | 0 <= n < |r|
                ensures exists k :: 0 <= k < |blocks| && read(blocks[k]) == Success(Some(r[n]))
              {
                if entry.Some? && n == 0 {
                  assert read(blocks[0]) == Success(Some(r[n]));
                } else {
                  var m := if entry.Some? then n - 1 else n;
                  assert r[n] == entries[m];
                  var k :| 0 <= k < |blocks[1..]| && read(blocks[1..][k]) == Success(Some(entries[m]));
                  assert read(blocks[k + 1]) == Success(Some(r[n]));
                }
              }
            }
            Success(r)
  }

  /** Every entry of the document has at least one line, and every line is
      legible. */
  function ParseBlocks(blocks: seq<string>, strip: string -> string): (r: Result<seq<Entry>, ParseError>)
    ensures r.Success? <==> forall k :: 0 <= k < |blocks| ==> blocks[k] == [] || ParseBlock(blocks[k], strip).Success?
    ensures r.Success? ==> forall n :: 0 <= n < |r.value| ==>
      |r.value[n].texts| > 0 && forall m :: 0 <= m < |r.value[n].texts| ==> Legible(r.value[n].texts[m])
  {
    Collect(blocks, Reader(strip))
  }

  /** The loop body of lines 95-149 as a block reader. */
  function Reader(strip: string -> string): BlockReader {
    b => ParseBlock(b, strip)
  }

  /** `parseSRTSub`. */
  function ParseSrt(s: string, strip: string -> string): Result<seq<Entry>, ParseError> {
    ParseBlocks(Blocks(s), strip)
  }

  /** Lines 119-123 can never throw: once the scanner is not at its end, the
      next character is neither whitespace nor a newline, so a line scan
      always takes at least one character. */
  lemma {:induction false} TextLinesSucceed(b: string, i: nat, strip: string -> string)
    requires i <= |b|
    ensures TextLines(b, i, strip).Success?
    decreases |b| - i
  {
    if !IsAtEnd(b, i, DefaultSkip) {
      var k := Skip(b, i, DefaultSkip);
      assert !Contains(DefaultSkip, b[k]);
      var line := ScanUpToCharacters(b, i, DefaultSkip, Newlines);
      assert line.token.Some?;
      TextLinesSucceed(b, line.next, strip);
    }
  }

  /** A text line as a writer lays it out: not empty, not starting with
      whitespace, and free of line breaks. */
  predicate LineOk(line: string) {
    && |line| > 0 && !IsWhitespace(line[0])
    && forall k :: 0 <= k < |line| ==> !IsNewline(line[k])
  }

  /** The lines the filter keeps, in order, after stripping. */
  function Kept(lines: seq<string>, strip: string -> string): seq<string>
    decreases |lines|
  {
    if lines == [] then []
    else (if Legible(strip(lines[0])) then [strip(lines[0])] else []) + Kept(lines[1..], strip)
  }

  /** Where the first line of a joined text sits, and what follows it. */
  lemma JoinedLines(b: string, j: nat, lines: seq<string>)
    requires j <= |b| && b[j..] == Join(lines, "\n") && |lines| > 0
    ensures j + |lines[0]| <= |b| && b[j..j + |lines[0]|] == lines[0]
    ensures |lines| == 1 ==> j + |lines[0]| == |b|
    ensures |lines| > 1 ==> j + |lines[0]| < |b| && b[j + |lines[0]|] == '\n'
                            && b[j + |lines[0]| + 1..] == Join(lines[1..], "\n")
  {
    var e := j + |lines[0]|;
    if |lines| > 1 {
      assert b[j..] == lines[0] + "\n" + Join(lines[1..], "\n");
      assert b[j..e] == lines[0];
      assert b[e] == b[j..][|lines[0]|];
      assert b[e + 1..] == b[j..][|lines[0]| + 1..];
    } else {
      assert b[j..e] == b[j..];
    }
  }

  /** One turn of the loop at lines 117-134. */
  lemma TextLinesStep(b: string, i: nat, strip: string -> string, line: string, e: nat)
    requires i <= |b| && !IsAtEnd(b, i, DefaultSkip)
    requires ScanUpToCharacters(b, i, DefaultSkip, Newlines) == Scan(Some(line), e)
    ensures TextLines(b, i, strip) ==
      match TextLines(b, e, strip)
      case Failure(err) => Failure(err)
      case Success(rest) => Success((if Legible(strip(line)) then [strip(line)] else []) + rest)
  {
  }

  /** The line scan at line 118 takes the first of the joined lines. */
  lemma FirstLineScan(b: string, i: nat, j: nat, lines: seq<string>)
    requires i <= j <= |b| && |lines| > 0
    requires forall k :: i <= k < j ==> Contains(DefaultSkip, b[k])
    requires b[j..] == Join(lines, "\n")
    requires LineOk(lines[0])
    ensures !IsAtEnd(b, i, DefaultSkip)
    ensures ScanUpToCharacters(b, i, DefaultSkip, Newlines) == Scan(Some(lines[0]), j + |lines[0]|)
    ensures |lines| == 1 ==> j + |lines[0]| == |b|
    ensures |lines| > 1 ==> j + |lines[0]| < |b| && Contains(DefaultSkip, b[j + |lines[0]|])
                            && b[j + |lines[0]| + 1..] == Join(lines[1..], "\n")
  {
    JoinedLines(b, j, lines);
    ScanToken(b, i, j, lines[0], Newlines);
  }

  /** Lines 117-134 read back the lines of a text laid out one per line, and
      keep exactly the legible ones. */
  lemma {:induction false} TextLinesOfJoin(b: string, i: nat, j: nat, lines: seq<string>, strip: string -> string)
    requires i <= j <= |b|
    requires forall k :: i <= k < j ==> Contains(DefaultSkip, b[k])
    requires b[j..] == Join(lines, "\n")
    requires forall k :: 0 <= k < |lines| ==> LineOk(lines[k])
    ensures TextLines(b, i, strip) == Success(Kept(lines, strip))
    decreases |lines|
  {
    if lines == [] {
      SpanExact(b, i, |b|, DefaultSkip, true);
    } else {
      var e := j + |lines[0]|;
      FirstLineScan(b, i, j, lines);
      if |lines| == 1 {
        TextLinesOfJoin(b, e, e, [], strip);
      } else {
        TextLinesOfJoin(b, e, e + 1, lines[1..], strip);
      }
      TextLinesStep(b, i, strip, lines[0], e);
    }
  }

  /** One non-empty block at the front is read first. */
  lemma CollectCons(b: string, rest: seq<string>, read: BlockReader)
    requires b != []
    ensures Collect([b] + rest, read) ==
      match read(b)
      case Failure(e) => Failure(e)
      case Success(entry) =>
        match Collect(rest, read)
        case Failure(e) => Failure(e)
        case Success(entries) => Success((if entry.Some? then [entry.value] else []) + entries)
  {
    assert ([b] + rest)[1..] == rest;
  }

  /** Reading consecutive runs of blocks: entries keep block order and the
      first failing block decides the error. */
  lemma {:induction false} CollectAppend(xs: seq<string>, ys: seq<string>, read: BlockReader)
    ensures Collect(xs + ys, read) ==
      match Collect(xs, read)
      case Failure(e) => Failure(e)
      case Success(a) =>
        match Collect(ys, read)
        case Failure(e) => Failure(e)
        case Success(b) => Success(a + b)
    decreases |xs|
  {
    if xs == [] {
      assert xs + ys == ys;
      if Collect(ys, read).Success? {
        assert [] + Collect(ys, read).value == Collect(ys, read).value;
      }
    } else {
      assert (xs + ys)[1..] == xs[1..] + ys;
      CollectAppend(xs[1..], ys, read);
      if xs[0] != [] && read(xs[0]).Success? && Collect(xs[1..], read).Success? && Collect(ys, read).Success? {
        var entry := read(xs[0]).value;
        var head := if entry.Some? then [entry.value] else [];
        assert head + (Collect(xs[1..], read).value + Collect(ys, read).value)
            == (head + Collect(xs[1..], read).value) + Collect(ys, read).value;
      }
    }
  }
}
