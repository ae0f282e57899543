/** Whole SubRip documents: a document the writer lays out is cut back into
    its cues at the blank lines, and the reader returns the entries of the
    cues in order. */
module SrtDocument {
  import opened Wrappers
  import opened Scanning
  import opened Captions
  import opened TimeCodes
  import opened Components
  import opened Srt
  import opened SrtWriter

  /** Two line feeds never meet in `t`. */
  predicate NoBlankLine(t: string) {
    forall k :: 0 <= k < |t| - 1 ==> !(t[k] == '\n' && t[k + 1] == '\n')
  }

  /** Text made of non-empty lines: no blank line, no line feed at either
      end, and no carriage return. */
  predicate Tidy(t: string) {
    && |t| > 0 && t[0] != '\n' && t[|t| - 1] != '\n'
    && NoBlankLine(t) && '\r' !in t
  }

  /** Text on one line. */
  lemma TidyPlain(t: string)
    requires |t| > 0 && '\n' !in t && '\r' !in t
    ensures Tidy(t)
  {
    assert t[0] in t && t[|t| - 1] in t;
    forall k | 0 <= k < |t| - 1
      ensures !(t[k] == '\n' && t[k + 1] == '\n')
    {
      assert t[k] in t;
    }
  }

  /** Two tidy texts on consecutive lines. */
  lemma TidyJoin(a: string, b: string)
    requires Tidy(a) && Tidy(b)
    ensures Tidy(a + "\n" + b)
  {
    var t := a + "\n" + b;
    forall k | 0 <= k < |t| - 1
      ensures !(t[k] == '\n' && t[k + 1] == '\n')
    {
      if k < |a| - 1 {
        assert t[k] == a[k] && t[k + 1] == a[k + 1];
      } else if k == |a| - 1 {
        assert t[k] == a[k];
      } else if k == |a| {
        assert t[k + 1] == b[0];
      } else {
        assert t[k] == b[k - |a| - 1] && t[k + 1] == b[k - |a|];
      }
    }
  }

  lemma {:induction false} TidyLines(lines: seq<string>)
    requires |lines| > 0 && forall k :: 0 <= k < |lines| ==> Tidy(lines[k])
    ensures Tidy(Join(lines, "\n"))
    decreases |lines|
  {
    if |lines| > 1 {
      TidyLines(lines[1..]);
      TidyJoin(lines[0], Join(lines[1..], "\n"));
    }
  }

  /** A rendered cue is its index, its time line and its text lines, one per
      line. */
  lemma CueLines(c: Cue)
    requires |c.lines| > 0
    ensures RenderCue(c) == Join([NatToString(c.index), Render(c.start) + " --> " + Render(c.end)] + c.lines, "\n")
  {
    var n, tl := NatToString(c.index), Render(c.start) + " --> " + Render(c.end);
    var all := [n, tl] + c.lines;
    assert all[1..] == [tl] + c.lines;
    assert all[1..][1..] == c.lines;
  }

  lemma DigitsPlain(t: string)
    requires AllDigits(t)
    ensures '\n' !in t && '\r' !in t
  {
  }

  lemma CodePlain(t: string)
    requires CodeLike(t)
    ensures '\n' !in t && '\r' !in t
  {
  }

  lemma LinePlain(line: string)
    requires LineOk(line)
    ensures Tidy(line)
  {
    TidyPlain(line);
  }

  /** A well-formed cue renders as tidy text. */
  lemma CueTidy(c: Cue)
    requires CueOk(c)
    ensures Tidy(RenderCue(c))
  {
    var n, tl := NatToString(c.index), Render(c.start) + " --> " + Render(c.end);
    DigitsPlain(n);
    RenderedChars(c.start);
    RenderedChars(c.end);
    CodePlain(Render(c.start));
    CodePlain(Render(c.end));
    TidyPlain(n);
    TidyPlain(tl);
    var all := [n, tl] + c.lines;
    forall k | 0 <= k < |all|
      ensures Tidy(all[k])
    {
      if k >= 2 {
        LinePlain(c.lines[k - 2]);
      }
    }
    TidyLines(all);
    CueLines(c);
  }

  /** Tidy text contains no blank line. */
  lemma TidyFree(t: string)
    requires Tidy(t)
    ensures Free(t, LfBreak)
  {
    forall k | 0 <= k < |t|
      ensures !OccursAt(t, k, LfBreak)
    {
      if k + 2 <= |t| {
        assert t[k..k + 2][0] == t[k] && t[k..k + 2][1] == t[k + 1];
      }
    }
  }

  /** Tidy text followed by a blank line meets it first at its end. */
  lemma TidyEndsCleanly(t: string)
    requires Tidy(t)
    ensures EndsCleanly(t, LfBreak)
  {
    var u := t + LfBreak;
    forall k | 0 <= k < |t|
      ensures !OccursAt(u, k, LfBreak)
    {
      assert u[k..k + 2][0] == u[k] == t[k] && u[k..k + 2][1] == u[k + 1];
    }
  }

  /** Text without a carriage return has no CRLF blank line. */
  lemma CrlfFree(s: string)
    requires '\r' !in s
    ensures Free(s, CrlfBreak)
  {
    forall k | 0 <= k < |s|
      ensures !OccursAt(s, k, CrlfBreak)
    {
      if k + 4 <= |s| {
        assert s[k..k + 4][0] == s[k];
      }
    }
  }

  lemma {:induction false} JoinWithoutCr(parts: seq<string>, sep: string)
    requires '\r' !in sep && forall k :: 0 <= k < |parts| ==> '\r' !in parts[k]
    ensures '\r' !in Join(parts, sep)
    decreases |parts|
  {
    if |parts| > 1 {
      JoinWithoutCr(parts[1..], sep);
    }
  }

  lemma {:induction false} RenderedAt(cs: seq<Cue>, k: nat)
    requires k < |cs|
    ensures |Rendered(cs)| == |cs| && Rendered(cs)[k] == RenderCue(cs[k])
    decreases |cs|
  {
    RenderedLength(cs);
    if k > 0 {
      RenderedAt(cs[1..], k - 1);
    }
  }

  lemma {:induction false} RenderedLength(cs: seq<Cue>)
    ensures |Rendered(cs)| == |cs|
    decreases |cs|
  {
    if cs != [] {
      RenderedLength(cs[1..]);
    }
  }

  lemma RenderedTidy(cs: seq<Cue>)
    requires forall k :: 0 <= k < |cs| ==> CueOk(cs[k])
    ensures |Rendered(cs)| == |cs|
    ensures forall k :: 0 <= k < |cs| ==> Rendered(cs)[k] == RenderCue(cs[k]) && Tidy(Rendered(cs)[k])
  {
    RenderedLength(cs);
    forall k | 0 <= k < |cs|
      ensures Rendered(cs)[k] == RenderCue(cs[k]) && Tidy(Rendered(cs)[k])
    {
      RenderedAt(cs, k);
      CueTidy(cs[k]);
    }
  }

  /** The rendered cues of a document meet the blank line only where it
      follows them, and the document has no carriage return. */
  lemma RenderedSeparable(cs: seq<Cue>)
    requires |cs| > 0 && forall k :: 0 <= k < |cs| ==> CueOk(cs[k])
    ensures |Rendered(cs)| > 0
    ensures forall k :: 0 <= k < |Rendered(cs)| - 1 ==> EndsCleanly(Rendered(cs)[k], LfBreak)
    ensures Free(Rendered(cs)[|Rendered(cs)| - 1], LfBreak)
    ensures '\r' !in RenderCues(cs)
  {
    var parts := Rendered(cs);
    RenderedTidy(cs);
    JoinWithoutCr(parts, LfBreak);
    forall k | 0 <= k < |parts| - 1
      ensures EndsCleanly(parts[k], LfBreak)
    {
      TidyEndsCleanly(parts[k]);
    }
    TidyFree(parts[|parts| - 1]);
  }

  /** Lines 88-93 on a document of well-formed cues cut it back into the
      rendered cues: the text has no carriage return, so the blank-line
      separator is used, and no cue contains a blank line. */
  lemma BlocksOfRendered(cs: seq<Cue>)
    requires |cs| > 0 && forall k :: 0 <= k < |cs| ==> CueOk(cs[k])
    ensures Blocks(RenderCues(cs)) == Rendered(cs)
  {
    RenderedSeparable(cs);
    LfBlocks(RenderCues(cs));
    SplitOfJoin(Rendered(cs), LfBreak);
  }

  /** Blocks that each read as the entry of the matching cue give the cues'
      entries, in order. */
  lemma {:induction false} CollectEntries(blocks: seq<string>, cs: seq<Cue>, read: BlockReader, strip: string -> string)
    requires |blocks| == |cs|
    requires forall k :: 0 <= k < |blocks| ==> blocks[k] != [] && read(blocks[k]) == Success(EntryOf(cs[k], strip))
    ensures Collect(blocks, read) == Success(Expected(cs, strip))
    decreases |cs|
  {
    if cs != [] {
      assert forall k :: 0 <= k < |blocks| - 1 ==> blocks[1..][k] == blocks[k + 1] && cs[1..][k] == cs[k + 1];
      CollectEntries(blocks[1..], cs[1..], read, strip);
      assert blocks == [blocks[0]] + blocks[1..];
      CollectCons(blocks[0], blocks[1..], read);
    }
  }

  /** Lines 95-149 on the rendered cues give the entries of the cues, in
      order. */
  lemma BlocksOfCues(cs: seq<Cue>, strip: string -> string)
    requires forall k :: 0 <= k < |cs| ==> CueOk(cs[k])
    ensures ParseBlocks(Rendered(cs), strip) == Success(Expected(cs, strip))
  {
    RenderedLength(cs);
    forall k | 0 <= k < |cs|
      ensures Rendered(cs)[k] != [] && Reader(strip)(Rendered(cs)[k]) == Success(EntryOf(cs[k], strip))
    {
      RenderedAt(cs, k);
      BlockOfRendered(cs[k], strip);
    }
    CollectEntries(Rendered(cs), cs, Reader(strip), strip);
  }

  /** The empty text has one empty block, which is skipped. */
  lemma EmptyDocument(strip: string -> string)
    ensures ParseSrt([], strip) == Success([])
  {
    assert Blocks([]) == [[]];
    ParseOfBlocks([], [[]], strip);
  }

  /** `parseSRTSub` reads back every document the writer lays out: the
      entries are the cues' legible lines and times, in cue order, and cues
      without a legible line are dropped. */
  lemma ParseRendered(cs: seq<Cue>, strip: string -> string)
    requires forall k :: 0 <= k < |cs| ==> CueOk(cs[k])
    ensures ParseSrt(RenderCues(cs), strip) == Success(Expected(cs, strip))
  {
    if cs == [] {
      assert RenderCues(cs) == [];
      EmptyDocument(strip);
    } else {
      BlocksOfRendered(cs);
      ParseOfBlocks(RenderCues(cs), Rendered(cs), strip);
      BlocksOfCues(cs, strip);
    }
  }

  /** Line 110 on a block that is a lone line break: no divider is found, the
      cursor is stepped two characters into a one-character block, and the
      app traps. */
  lemma LoneBreakTraps(strip: string -> string)
    ensures ParseBlock("\n", strip) == Failure(Trap)
  {
  }

  /** The header scans of a block whose index is a word, `x > y` then `z`:
      the index scan fails, the start scan takes `x`, the divider scan finds
      `"> "` straight after the skipped space and fails, and the end scan
      takes `y`. */
  lemma UnnumberedHeader(b: string)
    requires |b| == 7 && b[0] == 'x' && b[1] == ' ' && b[2] == '>' && b[3] == ' '
    requires b[4] == 'y' && b[5] == '\n' && b[6] == 'z'
    ensures ScanHeader(b) == Some(Header(None, Some("x"), None, Some("y"), 6))
  {
    ScanIntNone(b, 0, DefaultSkip, 0);
    assert b[0..1] == "x";
    ScanToken(b, 0, 0, "x", Whitespaces);
    SpanExact(b, 1, 2, DefaultSkip, true);
    assert b[2..4] == "> ";
    IndexOfExact(b, 2, 2, "> ");
    assert ScanUpToString(b, 1, DefaultSkip, "> ") == Scan(None, 1);
    assert b[4..5] == "y";
    ScanToken(b, 3, 4, "y", Newlines);
  }

  /** The guard at line 136 rejects such a block with `invalidFormat`. */
  lemma UnnumberedBlock(b: string, strip: string -> string)
    requires |b| == 7 && b[0] == 'x' && b[1] == ' ' && b[2] == '>' && b[3] == ' '
    requires b[4] == 'y' && b[5] == '\n' && b[6] == 'z'
    ensures ParseBlock(b, strip) == Failure(InvalidFormat)
  {
    UnnumberedHeader(b);
    TextLinesSucceed(b, 6, strip);
  }

  /** A document that is that one block is one block, and the reader throws
      `invalidFormat`. */
  lemma UnnumberedDocument(strip: string -> string)
    ensures ParseSrt("x > y\nz", strip) == Failure(InvalidFormat)
  {
    var b := "x > y\nz";
    assert |b| == 7 && b[0] == 'x' && b[1] == ' ' && b[2] == '>' && b[3] == ' ' && b[4] == 'y' && b[5] == '\n' && b[6] == 'z';
    assert Tidy(b);
    LfBlocks(b);
    TidyFree(b);
    SplitFree(b, LfBreak);
    UnnumberedBlock(b, strip);
    assert [b] + [] == [b];
    CollectCons(b, [], Reader(strip));
  }

  /** A text without a carriage return is cut at bare blank lines. */
  lemma LfBlocks(s: string)
    requires '\r' !in s
    ensures Blocks(s) == Split(s, LfBreak)
  {
    CrlfFree(s);
    SplitFree(s, CrlfBreak);
  }

  /** The reader goes through the blocks of the text. */
  lemma ParseOfBlocks(s: string, blocks: seq<string>, strip: string -> string)
    requires Blocks(s) == blocks
    ensures ParseSrt(s, strip) == ParseBlocks(blocks, strip)
  {
  }

  lemma TrailingJoin(cs: seq<Cue>)
    requires |cs| > 0 && forall k :: 0 <= k < |cs| ==> CueOk(cs[k])
    ensures Join(Rendered(cs) + ["\n"], LfBreak) == RenderCues(cs) + "\n\n\n"
    ensures '\r' !in RenderCues(cs) + "\n\n\n"
  {
    RenderedSeparable(cs);
    JoinSnoc(Rendered(cs), "\n", LfBreak);
    ExtraBreak(RenderCues(cs));
  }

  lemma ExtraBreak(x: string)
    ensures x + LfBreak + "\n" == x + "\n\n\n"
  {
    assert LfBreak + "\n" == "\n\n\n";
  }

  /** Every rendered cue, the last one included, ends cleanly before a blank
      line. */
  lemma RenderedEndClean(cs: seq<Cue>)
    requires forall k :: 0 <= k < |cs| ==> CueOk(cs[k])
    ensures forall k :: 0 <= k < |Rendered(cs)| ==> EndsCleanly(Rendered(cs)[k], LfBreak)
  {
    RenderedTidy(cs);
    forall k | 0 <= k < |Rendered(cs)|
      ensures EndsCleanly(Rendered(cs)[k], LfBreak)
    {
      TidyEndsCleanly(Rendered(cs)[k]);
    }
  }

  /** A document with one line break too many at its end is cut into the
      rendered cues and a last block holding that line break. */
  lemma TrailingBreakBlocks(cs: seq<Cue>)
    requires |cs| > 0 && forall k :: 0 <= k < |cs| ==> CueOk(cs[k])
    ensures Blocks(RenderCues(cs) + "\n\n\n") == Rendered(cs) + ["\n"]
  {
    TrailingJoin(cs);
    LfBlocks(RenderCues(cs) + "\n\n\n");
    RenderedEndClean(cs);
    assert Free("\n", LfBreak);
    SplitOfJoinSnoc(Rendered(cs), "\n", LfBreak);
  }

  /** A well-formed document followed by one extra line break makes the
      app trap instead of throwing `invalidFormat`: the last block is a
      lone line break, and line 110 steps past its end. */
  lemma TrailingBreakTraps(cs: seq<Cue>, strip: string -> string)
    requires |cs| > 0 && forall k :: 0 <= k < |cs| ==> CueOk(cs[k])
    ensures ParseSrt(RenderCues(cs) + "\n\n\n", strip) == Failure(Trap)
  {
    TrailingBreakBlocks(cs);
    ParseOfBlocks(RenderCues(cs) + "\n\n\n", Rendered(cs) + ["\n"], strip);
    BlocksOfCues(cs, strip);
    LoneBreakTraps(strip);
    CollectAppend(Rendered(cs), ["\n"], Reader(strip));
  }
}
