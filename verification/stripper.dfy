/** `NSString.byConvertingHTMLToPlainText`: a single-pass scanner that copies
    text, turns each run of whitespace into one space, drops comments, script
    blocks and tags, and puts a space in place of a closing tag unless the tag
    is one of the inline tags. It decodes no entities. The scanner skips no
    characters and is case sensitive. */
module MarkupStripper {
  import opened Wrappers
  import opened Scanning

  /** The stop set as written. Each interpolation `\(0x0085)`, `\(0x000C)`,
      `\(0x2028)`, `\(0x2029)` inserts the DECIMAL text of the number, so the
      set holds the digits 1, 2, 3 and 8 and none of the four intended
      separator characters. */
  const StopLiteral: string := "< \t\n\r" + "133" + "12" + "8232" + "8233"
  /** The whitespace set as written, with the same four interpolations. */
  const BreakLiteral: string := " \t\n\r" + "133" + "12" + "8232" + "8233"

  const StopCharacters: CharSet := MarkupStop
  const BreakCharacters: CharSet := MarkupBreak
  /** `CharacterSet(charactersIn: "abc...xyzABC...XYZ")`, the 52 ASCII letters. */
  const TagNameCharacters: CharSet := AsciiLetters

  /** Closing tags that are not replaced by a space. */
  const InlineTags: seq<string> := ["a", "b", "i", "q", "span", "em", "strong", "cite", "abbr", "acronym", "label"]

  predicate IsStop(c: char) {
    Contains(StopCharacters, c)
  }

  predicate IsBreak(c: char) {
    Contains(BreakCharacters, c)
  }

  /** The cursor and the text produced so far. */
  datatype StripState = StripState(pos: nat, out: string)

  /** What the stripper's output always looks like: it does not begin with a
      space, and every character is a space or lies outside the stop set. */
  predicate Clean(out: string) {
    && (out == [] || out[0] != ' ')
    && forall k :: 0 <= k < |out| ==> out[k] == ' ' || !IsStop(out[k])
  }

  /** Lines 231-234: copy everything up to the next stop character. */
  function CopyText(s: string, st: StripState): (r: StripState)
    requires st.pos <= |s|
    ensures st.pos <= r.pos <= |s|
    ensures r.out == st.out + s[st.pos..r.pos]
    ensures forall k :: st.pos <= k < r.pos ==> !IsStop(s[k])
    ensures r.pos == |s| || IsStop(s[r.pos])
  {
    var text := ScanUpToCharacters(s, st.pos, NoSkipping, StopCharacters);
    assert Skip(s, st.pos, NoSkipping) == st.pos;
    assert text.token.Some? ==> forall k :: st.pos <= k < text.next ==> s[k] == text.token.value[k - st.pos];
    if text.token.Some? then StripState(text.next, st.out + text.token.value) else st
  }

  /** `scanUpTo(pat)` then `scanString(pat)`: move past the next occurrence of
      `pat`, or to the end when there is none. */
  function SkipPast(s: string, i: nat, pat: string): (j: nat)
    requires i <= |s|
    requires |pat| > 0
    ensures i <= j <= |s|
    ensures || (j == |s| && forall k :: i <= k < |s| ==> !OccursAt(s, k, pat))
            || (i + |pat| <= j && OccursAt(s, j - |pat|, pat)
                && forall k :: i <= k < j - |pat| ==> !OccursAt(s, k, pat))
  {
    var upTo := ScanUpToString(s, i, NoSkipping, pat);
    assert Skip(s, i, NoSkipping) == i;
    assert upTo.next == IndexOf(s, i, pat);
    ScanString(s, upTo.next, NoSkipping, pat).next
  }

  /** Lines 249-262, after the `/` of a closing tag: read the tag name and add
      a space unless the lower-cased name is an inline tag, the output is still
      empty, or the text ends right after the name. */
  function ClosingTag(s: string, i: nat, out: string): (r: StripState)
    requires i <= |s|
    ensures i <= r.pos <= |s|
    ensures r.out == out || (r.out == out + " " && |out| > 0 && r.pos < |s|)
  {
    var name := ScanCharacters(s, i, NoSkipping, TagNameCharacters);
    var inline := name.token.Some? && Lowercased(name.token.value) in InlineTags;
    if !inline && |out| > 0 && !IsAtEnd(s, name.next, NoSkipping) then
      StripState(name.next, out + " ")
    else
      StripState(name.next, out)
  }

  /** Lines 238-266, after a `<`: a comment, a script block or a tag. */
  function Markup(s: string, i: nat, out: string): (r: StripState)
    requires 0 < i <= |s|
    ensures i <= r.pos <= |s|
    ensures r.out == out || (r.out == out + " " && |out| > 0 && i < r.pos)
  {
    if ScanString(s, i, NoSkipping, "!--").token.Some? then
      StripState(SkipPast(s, i + 3, "-->"), out)
    else if ScanString(s, i, NoSkipping, "script").token.Some? then
      StripState(SkipPast(s, i + 6, "</script>"), out)
    else
      var slash := ScanString(s, i, NoSkipping, "/");
      var tag := if slash.token.Some? then ClosingTag(s, i + 1, out) else StripState(i, out);
      StripState(SkipPast(s, tag.pos, ">"), tag.out)
  }

  /** Lines 267-273: a run of whitespace becomes one space, unless the output
      is still empty or the run reaches the end of the text. */
  function Break(s: string, i: nat, out: string): (r: StripState)
    requires i <= |s|
    ensures i <= r.pos <= |s|
    ensures r.out == out || (r.out == out + " " && |out| > 0 && i < r.pos < |s|)
  {
    var run := ScanCharacters(s, i, NoSkipping, BreakCharacters);
    if run.token.Some? && |out| > 0 && !IsAtEnd(s, run.next, NoSkipping) then
      StripState(run.next, out + " ")
    else
      StripState(run.next, out)
  }

  /** One iteration of the `repeat` loop (lines 229-275). Every iteration that
      does not start at the end consumes at least one character. */
  function Step(s: string, st: StripState): (r: StripState)
    requires st.pos <= |s|
    ensures st.pos <= r.pos <= |s|
    ensures st.pos < |s| ==> st.pos < r.pos
  {
    Dispatch(s, CopyText(s, st))
  }

  /** Lines 235-274: what follows the copied text is a `<` or whitespace. */
  function Dispatch(s: string, text: StripState): (r: StripState)
    requires text.pos <= |s|
    requires text.pos == |s| || IsStop(s[text.pos])
    ensures text.pos <= r.pos <= |s|
    ensures text.pos < |s| ==> text.pos < r.pos
  {
    if ScanString(s, text.pos, NoSkipping, "<").token.Some? then
      Markup(s, text.pos + 1, text.out)
    else
      assert text.pos < |s| ==> IsBreak(s[text.pos]);
      Break(s, text.pos, text.out)
  }

  /** The `repeat ... while !scanner.isAtEnd` loop from a given state. */
  function Run(s: string, st: StripState): string
    requires st.pos <= |s|
    decreases |s| - st.pos
  {
    var next := Step(s, st);
    if next.pos < |s| then Run(s, next) else next.out
  }

  /** An iteration only appends, adds at most as many characters as it
      consumes, and keeps the output clean. */
  lemma StepBounds(s: string, st: StripState)
    requires st.pos <= |s|
    ensures st.out <= Step(s, st).out
    ensures |Step(s, st).out| <= |st.out| + (Step(s, st).pos - st.pos)
    ensures Clean(st.out) ==> Clean(Step(s, st).out)
  {
    CopyTextClean(s, st);
  }

  /** Copied text keeps the output clean. */
  lemma CopyTextClean(s: string, st: StripState)
    requires st.pos <= |s|
    ensures Clean(st.out) ==> Clean(CopyText(s, st).out)
  {
    var text := CopyText(s, st);
    if Clean(st.out) {
      assert forall k :: st.pos <= k < text.pos ==> !IsStop(s[k]);
    }
  }

  /** The whole loop only appends, adds at most one character per character
      consumed, and keeps the output clean. */
  lemma {:induction false} RunBounds(s: string, st: StripState)
    requires st.pos <= |s|
    ensures st.out <= Run(s, st)
    ensures |Run(s, st)| <= |st.out| + (|s| - st.pos)
    ensures Clean(st.out) ==> Clean(Run(s, st))
    decreases |s| - st.pos
  {
    var next := Step(s, st);
    StepBounds(s, st);
    if next.pos < |s| {
      RunBounds(s, next);
    }
  }

  /** `byConvertingHTMLToPlainText`: never longer than its input, never
      beginning with a space, and every character of the result is a space or
      a character outside the stop set. */
  function Strip(s: string): (r: string)
    ensures |r| <= |s|
    ensures Clean(r)
  {
    RunBounds(s, StripState(0, ""));
    Run(s, StripState(0, ""))
  }

  /** The stop and whitespace sets are exactly the literals as written; the
      four separators the interpolations were meant to add are in neither. */
  lemma SetsAsWritten(c: char)
    ensures IsStop(c) <==> c in StopLiteral
    ensures IsBreak(c) <==> c in BreakLiteral
    ensures !IsStop('\U{0085}') && !IsStop('\U{000C}') && !IsStop('\U{2028}') && !IsStop('\U{2029}')
  {
  }

  lemma StepAtEnd(s: string, out: string)
    ensures Step(s, StripState(|s|, out)) == StripState(|s|, out)
  {
    assert Skip(s, |s|, NoSkipping) == |s|;
  }

  /** The loop may be unrolled by one iteration anywhere. */
  lemma RunStep(s: string, st: StripState)
    requires st.pos <= |s|
    ensures Run(s, st) == Run(s, Step(s, st))
  {
    var next := Step(s, st);
    if next.pos == |s| {
      StepAtEnd(s, next.out);
    }
  }

  lemma RunAtEnd(s: string, out: string)
    ensures Run(s, StripState(|s|, out)) == out
  {
    StepAtEnd(s, out);
  }

  lemma CopyTextAtStop(s: string, q: nat, out: string)
    requires q <= |s|
    requires q == |s| || IsStop(s[q])
    ensures CopyText(s, StripState(q, out)) == StripState(q, out)
  {
    assert Skip(s, q, NoSkipping) == q;
  }

  lemma CopyTextRun(s: string, p: nat, q: nat, out: string)
    requires p < q <= |s|
    requires forall k :: p <= k < q ==> !IsStop(s[k])
    requires q == |s| || IsStop(s[q])
    ensures CopyText(s, StripState(p, out)) == StripState(q, out + s[p..q])
  {
    assert Skip(s, p, NoSkipping) == p;
    SpanExact(s, p, q, StopCharacters, false);
  }

  /** An iteration depends only on where the copying of plain text stops. */
  lemma StepAfterCopy(s: string, st: StripState)
    requires st.pos <= |s|
    ensures Step(s, st) == Step(s, CopyText(s, st))
  {
    var c := CopyText(s, st);
    CopyTextAtStop(s, c.pos, c.out);
  }

  lemma RunSameStep(s: string, a: StripState, b: StripState)
    requires a.pos <= |s| && b.pos <= |s|
    requires Step(s, a) == Step(s, b)
    ensures Run(s, a) == Run(s, b)
  {
    RunStep(s, a);
    RunStep(s, b);
  }

  /** Characters outside the stop set are copied verbatim, in order. */
  lemma TextCopied(s: string, p: nat, q: nat, out: string)
    requires p < q <= |s|
    requires forall k :: p <= k < q ==> !IsStop(s[k])
    requires q == |s| || IsStop(s[q])
    ensures Run(s, StripState(p, out)) == Run(s, StripState(q, out + s[p..q]))
  {
    CopyTextRun(s, p, q, out);
    CopyTextAtStop(s, q, out + s[p..q]);
    StepAfterCopy(s, StripState(p, out));
    StepAfterCopy(s, StripState(q, out + s[p..q]));
    RunSameStep(s, StripState(p, out), StripState(q, out + s[p..q]));
  }

  lemma BreakRun(s: string, p: nat, q: nat, out: string)
    requires p < q <= |s|
    requires forall k :: p <= k < q ==> IsBreak(s[k])
    requires q == |s| || !IsBreak(s[q])
    ensures Break(s, p, out) == StripState(q, if |out| > 0 && q < |s| then out + " " else out)
  {
    assert Skip(s, p, NoSkipping) == p;
    SpanExact(s, p, q, BreakCharacters, true);
    assert Skip(s, q, NoSkipping) == q;
  }

  lemma DispatchAtBreak(s: string, p: nat, out: string)
    requires p < |s| && IsBreak(s[p])
    ensures Dispatch(s, StripState(p, out)) == Break(s, p, out)
  {
    assert Skip(s, p, NoSkipping) == p;
    assert !OccursAt(s, p, "<") by {
      OccursAtSingle(s, p, '<');
    }
  }

  lemma StepAtBreak(s: string, p: nat, out: string)
    requires p < |s| && IsBreak(s[p])
    ensures Step(s, StripState(p, out)) == Break(s, p, out)
  {
    CopyTextAtStop(s, p, out);
    DispatchAtBreak(s, p, out);
  }

  /** A run of whitespace becomes one space, except at the start of the output
      and at the end of the text. */
  lemma BreakCollapsed(s: string, p: nat, q: nat, out: string)
    requires p < q <= |s|
    requires forall k :: p <= k < q ==> IsBreak(s[k])
    requires q == |s| || !IsBreak(s[q])
    ensures Run(s, StripState(p, out))
         == Run(s, StripState(q, if |out| > 0 && q < |s| then out + " " else out))
  {
    StepAtBreak(s, p, out);
    BreakRun(s, p, q, out);
    RunStep(s, StripState(p, out));
  }

  /** The words of `s` from `i` on: its maximal runs of characters outside
      the whitespace set, in order. */
  function WordsFrom(s: string, i: nat): (ws: seq<string>)
    requires i <= |s|
    ensures forall w :: w in ws ==> |w| > 0 && forall c :: c in w ==> !IsBreak(c)
    decreases |s| - i
  {
    var a := Span(s, i, BreakCharacters, true);
    if a == |s| then []
    else
      var b := Span(s, a, BreakCharacters, false);
      [s[a..b]] + WordsFrom(s, b)
  }

  /** `out` followed by the words `ws`, with one space between neighbours and
      no space before the first word when `out` is empty. */
  function AppendWords(out: string, ws: seq<string>): string
    decreases |ws|
  {
    if ws == [] then out
    else AppendWords(if out == [] then ws[0] else out + " " + ws[0], ws[1..])
  }

  /** Leading whitespace becomes one space, or nothing at the start of the
      output or at the end of the text. */
  lemma LeadingBreaks(s: string, i: nat, out: string)
    requires i <= |s|
    ensures var a := Span(s, i, BreakCharacters, true);
            Run(s, StripState(i, out)) == Run(s, StripState(a, if |out| > 0 && a < |s| && i < a then out + " " else out))
  {
    var a := Span(s, i, BreakCharacters, true);
    if i < a {
      BreakCollapsed(s, i, a, out);
    }
  }

  /** A word of text without a `<` is copied as it stands. */
  lemma WordCopied(s: string, a: nat, out: string)
    requires a < |s| && !IsBreak(s[a])
    requires forall k :: a <= k < |s| ==> s[k] != '<'
    ensures var b := Span(s, a, BreakCharacters, false);
            Run(s, StripState(a, out)) == Run(s, StripState(b, out + s[a..b]))
  {
    var b := Span(s, a, BreakCharacters, false);
    TextCopied(s, a, b, out);
  }

  /** Text without a `<`: starting either at the end, on whitespace, or with an
      empty output, the loop emits the remaining words separated by single
      spaces, with no space before the first word of the output and none after
      the last word. */
  lemma {:induction false} RunTagFree(s: string, i: nat, out: string)
    requires i <= |s|
    requires forall k :: i <= k < |s| ==> s[k] != '<'
    requires i == |s| || out == [] || IsBreak(s[i])
    ensures Run(s, StripState(i, out)) == AppendWords(out, WordsFrom(s, i))
    decreases |s| - i
  {
    var a := Span(s, i, BreakCharacters, true);
    var out' := if |out| > 0 && a < |s| && i < a then out + " " else out;
    LeadingBreaks(s, i, out);
    if a == |s| {
      RunAtEnd(s, out');
      assert WordsFrom(s, i) == [];
    } else {
      var b := Span(s, a, BreakCharacters, false);
      WordCopied(s, a, out');
      RunTagFree(s, b, out' + s[a..b]);
      assert WordsFrom(s, i) == [s[a..b]] + WordsFrom(s, b);
      assert out' + s[a..b] == if out == [] then s[a..b] else out + " " + s[a..b];
    }
  }

  /** A text without a `<` comes out as its words separated by single spaces. */
  lemma StripTagFree(s: string)
    requires forall k :: 0 <= k < |s| ==> s[k] != '<'
    ensures Strip(s) == AppendWords("", WordsFrom(s, 0))
  {
    RunTagFree(s, 0, "");
  }

  /** A text without stop characters comes out unchanged. */
  lemma StripPlainText(s: string)
    requires forall k :: 0 <= k < |s| ==> !IsStop(s[k])
    ensures Strip(s) == s
  {
    if |s| == 0 {
      RunAtEnd(s, "");
    } else {
      TextCopied(s, 0, |s|, "");
      RunAtEnd(s, s);
    }
  }

  /** Where `SkipPast` lands: past the first occurrence `e` of `pat` at or
      after `i`, or at the end when `e` is the end. */
  lemma SkipPastFirst(s: string, i: nat, e: nat, pat: string)
    requires i <= e <= |s| && |pat| > 0
    requires forall k :: i <= k < e ==> !OccursAt(s, k, pat)
    requires e == |s| || OccursAt(s, e, pat)
    ensures SkipPast(s, i, pat) == if e == |s| then |s| else e + |pat|
  {
  }

  lemma DispatchAtMarkup(s: string, p: nat, out: string)
    requires p < |s| && s[p] == '<'
    ensures Dispatch(s, StripState(p, out)) == Markup(s, p + 1, out)
  {
    assert Skip(s, p, NoSkipping) == p;
    assert OccursAt(s, p, "<");
  }

  /** At a `<` the loop continues from wherever the markup ends. */
  lemma MarkupRun(s: string, p: nat, out: string)
    requires p < |s| && s[p] == '<'
    ensures Run(s, StripState(p, out)) == Run(s, Markup(s, p + 1, out))
  {
    CopyTextAtStop(s, p, out);
    DispatchAtMarkup(s, p, out);
    assert Step(s, StripState(p, out)) == Markup(s, p + 1, out);
    RunStep(s, StripState(p, out));
  }

  lemma MarkupComment(s: string, i: nat, out: string)
    requires 0 < i && OccursAt(s, i, "!--")
    ensures Markup(s, i, out) == StripState(SkipPast(s, i + 3, "-->"), out)
  {
    assert Skip(s, i, NoSkipping) == i;
  }

  lemma MarkupScript(s: string, i: nat, out: string)
    requires 0 < i && OccursAt(s, i, "script")
    ensures Markup(s, i, out) == StripState(SkipPast(s, i + 6, "</script>"), out)
  {
    assert Skip(s, i, NoSkipping) == i;
    assert !OccursAt(s, i, "!--");
  }

  lemma MarkupOther(s: string, i: nat, out: string)
    requires 0 < i <= |s|
    requires !OccursAt(s, i, "!--") && !OccursAt(s, i, "script") && !OccursAt(s, i, "/")
    ensures Markup(s, i, out) == StripState(SkipPast(s, i, ">"), out)
  {
    assert Skip(s, i, NoSkipping) == i;
  }

  lemma MarkupClosing(s: string, i: nat, out: string)
    requires 0 < i && OccursAt(s, i, "/")
    ensures var tag := ClosingTag(s, i + 1, out);
            Markup(s, i, out) == StripState(SkipPast(s, tag.pos, ">"), tag.out)
  {
    assert Skip(s, i, NoSkipping) == i;
    assert !OccursAt(s, i, "!--") && !OccursAt(s, i, "script");
  }

  /** A one-character pattern occurs exactly where that character is. */
  lemma OccursAtSingle(s: string, k: nat, c: char)
    ensures OccursAt(s, k, [c]) <==> k < |s| && s[k] == c
  {
    if k < |s| {
      assert s[k..k + 1] == [s[k]];
    }
  }

  /** The loop resumes wherever the markup at `p` leaves it. */
  lemma MarkupEndsAt(s: string, p: nat, r: StripState, out: string)
    requires p < |s| && s[p] == '<'
    requires Markup(s, p + 1, out) == r
    ensures Run(s, StripState(p, out)) == Run(s, r)
  {
    MarkupRun(s, p, out);
  }

  lemma OccursAtHead(s: string, p: nat, pat: string)
    requires OccursAt(s, p, pat) && |pat| > 0
    ensures p < |s| && s[p] == pat[0]
  {
    assert s[p..p + |pat|][0] == s[p];
  }

  lemma PrefixAt(s: string, p: nat, pat: string, n: nat)
    requires OccursAt(s, p, pat) && n <= |pat|
    ensures OccursAt(s, p + n, pat[n..])
  {
    assert s[p + n..p + |pat|] == s[p..p + |pat|][n..];
  }

  /** A comment `<!-- ... -->` adds nothing: the loop resumes after the first
      `-->` that follows `<!--`, and an unterminated comment swallows the rest
      of the text. */
  lemma CommentDropped(s: string, p: nat, e: nat, out: string)
    requires p + 4 <= e <= |s|
    requires OccursAt(s, p, "<!--")
    requires forall k :: p + 4 <= k < e ==> !OccursAt(s, k, "-->")
    requires e == |s| || OccursAt(s, e, "-->")
    ensures Run(s, StripState(p, out)) == Run(s, StripState(if e == |s| then |s| else e + 3, out))
  {
    CommentEnd(s, p, e, out);
    OccursAtHead(s, p, "<!--");
    MarkupEndsAt(s, p, StripState(if e == |s| then |s| else e + 3, out), out);
  }

  lemma CommentEnd(s: string, p: nat, e: nat, out: string)
    requires p + 4 <= e <= |s|
    requires OccursAt(s, p, "<!--")
    requires forall k :: p + 4 <= k < e ==> !OccursAt(s, k, "-->")
    requires e == |s| || OccursAt(s, e, "-->")
    ensures Markup(s, p + 1, out) == StripState(if e == |s| then |s| else e + 3, out)
  {
    PrefixAt(s, p, "<!--", 1);
    assert "<!--"[1..] == "!--";
    MarkupComment(s, p + 1, out);
    SkipPastFirst(s, p + 4, e, "-->");
  }

  /** A script block `<script ... </script>` adds nothing: the loop resumes
      after the first `</script>`, and an unterminated block swallows the rest
      of the text. */
  lemma ScriptDropped(s: string, p: nat, e: nat, out: string)
    requires p + 7 <= e <= |s|
    requires OccursAt(s, p, "<script")
    requires forall k :: p + 7 <= k < e ==> !OccursAt(s, k, "</script>")
    requires e == |s| || OccursAt(s, e, "</script>")
    ensures Run(s, StripState(p, out)) == Run(s, StripState(if e == |s| then |s| else e + 9, out))
  {
    ScriptEnd(s, p, e, out);
    OccursAtHead(s, p, "<script");
    MarkupEndsAt(s, p, StripState(if e == |s| then |s| else e + 9, out), out);
  }

  lemma ScriptEnd(s: string, p: nat, e: nat, out: string)
    requires p + 7 <= e <= |s|
    requires OccursAt(s, p, "<script")
    requires forall k :: p + 7 <= k < e ==> !OccursAt(s, k, "</script>")
    requires e == |s| || OccursAt(s, e, "</script>")
    ensures Markup(s, p + 1, out) == StripState(if e == |s| then |s| else e + 9, out)
  {
    PrefixAt(s, p, "<script", 1);
    assert "<script"[1..] == "script";
    MarkupScript(s, p + 1, out);
    SkipPastFirst(s, p + 7, e, "</script>");
  }

  /** Any other tag that is not a closing tag adds nothing: the loop resumes
      after the first `>`, and a tag that is never closed swallows the rest of
      the text. */
  lemma OpeningTagDropped(s: string, p: nat, e: nat, out: string)
    requires p < e <= |s| && s[p] == '<'
    requires !OccursAt(s, p, "<!--") && !OccursAt(s, p, "<script") && !OccursAt(s, p, "</")
    requires forall k :: p < k < e ==> s[k] != '>'
    requires e == |s| || s[e] == '>'
    ensures Run(s, StripState(p, out)) == Run(s, StripState(if e == |s| then |s| else e + 1, out))
  {
    OpeningTagEnd(s, p, e, out);
    MarkupEndsAt(s, p, StripState(if e == |s| then |s| else e + 1, out), out);
  }

  lemma OpeningTagEnd(s: string, p: nat, e: nat, out: string)
    requires p < e <= |s| && s[p] == '<'
    requires !OccursAt(s, p, "<!--") && !OccursAt(s, p, "<script") && !OccursAt(s, p, "</")
    requires forall k :: p < k < e ==> s[k] != '>'
    requires e == |s| || s[e] == '>'
    ensures Markup(s, p + 1, out) == StripState(if e == |s| then |s| else e + 1, out)
  {
    assert !OccursAt(s, p + 1, "!--");
    assert !OccursAt(s, p + 1, "script");
    assert !OccursAt(s, p + 1, "/");
    MarkupOther(s, p + 1, out);
    forall k | p + 1 <= k < e
      ensures !OccursAt(s, k, ">")
    {
      OccursAtSingle(s, k, '>');
    }
    OccursAtSingle(s, e, '>');
    SkipPastFirst(s, p + 1, e, ">");
  }

  /** The tag name of a closing tag is the run of letters after `</`; a space
      replaces the tag unless the name, lower-cased, is an inline tag, the
      output is still empty, or the text ends right after the name. */
  lemma ClosingTagName(s: string, i: nat, n: nat, out: string)
    requires i <= n <= |s|
    requires forall k :: i <= k < n ==> Contains(TagNameCharacters, s[k])
    requires n == |s| || !Contains(TagNameCharacters, s[n])
    ensures ClosingTag(s, i, out)
         == StripState(n, if Lowercased(s[i..n]) in InlineTags || out == [] || n == |s| then out else out + " ")
  {
    assert Skip(s, i, NoSkipping) == i;
    SpanExact(s, i, n, TagNameCharacters, true);
    if n == i {
      assert Lowercased(s[i..n]) == [];
    }
  }

  lemma ClosingTagEnd(s: string, p: nat, n: nat, e: nat, out: string)
    requires OccursAt(s, p, "</")
    requires p + 2 <= n <= e <= |s|
    requires forall k :: p + 2 <= k < n ==> Contains(TagNameCharacters, s[k])
    requires n == |s| || !Contains(TagNameCharacters, s[n])
    requires forall k :: n <= k < e ==> s[k] != '>'
    requires e == |s| || s[e] == '>'
    ensures Markup(s, p + 1, out)
         == StripState(if e == |s| then |s| else e + 1,
                       if Lowercased(s[p + 2..n]) in InlineTags || out == [] || n == |s| then out else out + " ")
  {
    PrefixAt(s, p, "</", 1);
    assert "</"[1..] == "/";
    MarkupClosing(s, p + 1, out);
    ClosingTagName(s, p + 2, n, out);
    forall k | n <= k < e
      ensures !OccursAt(s, k, ">")
    {
      OccursAtSingle(s, k, '>');
    }
    OccursAtSingle(s, e, '>');
    SkipPastFirst(s, n, e, ">");
  }

  /** A closing tag `</name ...>` adds one space, unless its lower-cased name
      is an inline tag, the output is still empty, or the text ends right
      after the name; the loop resumes after the first `>`. */
  lemma ClosingTagReplaced(s: string, p: nat, n: nat, e: nat, out: string)
    requires OccursAt(s, p, "</")
    requires p + 2 <= n <= e <= |s|
    requires forall k :: p + 2 <= k < n ==> Contains(TagNameCharacters, s[k])
    requires n == |s| || !Contains(TagNameCharacters, s[n])
    requires forall k :: n <= k < e ==> s[k] != '>'
    requires e == |s| || s[e] == '>'
    ensures Run(s, StripState(p, out))
         == Run(s, StripState(if e == |s| then |s| else e + 1,
                              if Lowercased(s[p + 2..n]) in InlineTags || out == [] || n == |s| then out else out + " "))
  {
    ClosingTagEnd(s, p, n, e, out);
    OccursAtHead(s, p, "</");
    MarkupEndsAt(s, p, Markup(s, p + 1, out), out);
  }

  lemma InlineTagText(s: string, q: nat)
    requires q + 4 <= |s|
    requires s[q] == '<' && s[q + 1] == '/' && s[q + 2] == 'b' && s[q + 3] == '>'
    ensures OccursAt(s, q, "</")
    ensures Contains(TagNameCharacters, s[q + 2]) && !Contains(TagNameCharacters, s[q + 3])
    ensures Lowercased(s[q + 2..q + 3]) in InlineTags
  {
    assert s[q..q + 2] == "</";
    assert s[q + 2..q + 3] == "b";
    assert Lowercased("b") == "b";
  }

  /** The output can end in a space, although the comment on line 271 says
      no space is appended at the end: a letter, a space and `</b>` (such as
      `a </b>`) come out as the letter followed by a space. */
  lemma TrailingSpaceExample(s: string)
    requires |s| == 6 && 'a' <= s[0] <= 'z' && s[1] == ' '
    requires s[2] == '<' && s[3] == '/' && s[4] == 'b' && s[5] == '>'
    ensures Strip(s) == s[0..1] + " "
  {
    var out := s[0..1] + " ";
    TrailingSpaceSteps(s);
    RunStep(s, StripState(0, []));
    RunStep(s, StripState(2, out));
    RunAtEnd(s, out);
  }

  lemma TrailingSpaceSteps(s: string)
    requires |s| == 6 && 'a' <= s[0] <= 'z' && s[1] == ' '
    requires s[2] == '<' && s[3] == '/' && s[4] == 'b' && s[5] == '>'
    ensures Step(s, StripState(0, [])) == StripState(2, s[0..1] + " ")
    ensures Step(s, StripState(2, s[0..1] + " ")) == StripState(6, s[0..1] + " ")
  {
    WordThenSpace(s);
    FinalInlineStep(s, 2, s[0..1] + " ");
  }

  /** From the start, a one-letter word and a space. */
  lemma WordThenSpace(s: string)
    requires |s| >= 3 && !IsStop(s[0]) && IsBreak(s[1]) && !IsBreak(s[2])
    ensures Step(s, StripState(0, [])) == StripState(2, s[0..1] + " ")
  {
    CopyTextRun(s, 0, 1, []);
    assert [] + s[0..1] == s[0..1];
    DispatchAtBreak(s, 1, s[0..1]);
    BreakRun(s, 1, 2, s[0..1]);
  }

  /** A final `</b>` is consumed in one iteration that adds nothing. */
  lemma FinalInlineStep(s: string, q: nat, out: string)
    requires q + 4 == |s|
    requires s[q] == '<' && s[q + 1] == '/' && s[q + 2] == 'b' && s[q + 3] == '>'
    ensures Step(s, StripState(q, out)) == StripState(|s|, out)
  {
    CopyTextAtStop(s, q, out);
    InlineTagText(s, q);
    ClosingTagEnd(s, q, q + 3, q + 3, out);
    DispatchAtMarkup(s, q, out);
  }

  /** The digits of the stop literal split words: a letter, one of the
      digits 1, 2, 3 or 8, and a letter (such as `a1b`) come out as the two
      letters with a space between them. */
  lemma DigitSplitsWords(s: string)
    requires |s| == 3 && 'a' <= s[0] <= 'z' && s[1] in "1238" && 'a' <= s[2] <= 'z'
    ensures Strip(s) == s[0..1] + " " + s[2..3]
  {
    SplitWordWords(s);
    StripTagFree(s);
    TwoWords(s[0..1], s[2..3]);
  }

  lemma SplitWordWords(s: string)
    requires |s| == 3 && !IsStop(s[0]) && IsBreak(s[1]) && !IsStop(s[2])
    ensures WordsFrom(s, 0) == [s[0..1], s[2..3]]
    ensures forall k :: 0 <= k < |s| ==> s[k] != '<'
  {
    SpanExact(s, 0, 0, BreakCharacters, true);
    SpanExact(s, 0, 1, BreakCharacters, false);
    SpanExact(s, 1, 2, BreakCharacters, true);
    SpanExact(s, 2, 3, BreakCharacters, false);
    SpanExact(s, 3, 3, BreakCharacters, true);
    assert WordsFrom(s, 3) == [];
    assert WordsFrom(s, 1) == [s[2..3]];
  }

  lemma TwoWords(a: string, b: string)
    requires a != []
    ensures AppendWords("", [a, b]) == a + " " + b
  {
    assert [a, b][1..] == [b];
    assert AppendWords("", [a, b]) == AppendWords(a, [b]);
    assert AppendWords(a, [b]) == AppendWords(a + " " + b, []);
  }

  /** `t` without its trailing spaces. */
  function TrimEnd(t: string): (r: string)
    ensures r <= t
    ensures r == [] || r[|r| - 1] != ' '
    ensures forall k :: |r| <= k < |t| ==> t[k] == ' '
    decreases |t|
  {
    if t != [] && t[|t| - 1] == ' ' then TrimEnd(t[..|t| - 1]) else t
  }

  /** The stripper as its comment on line 271 describes it: the output of
      `Strip` without the trailing space it can end with. The result neither
      begins nor ends with a space, and differs from `Strip` only by spaces at
      the end. */
  function StripTrimmed(s: string): (r: string)
    ensures |r| <= |s| && Clean(r)
    ensures r == [] || (r[0] != ' ' && r[|r| - 1] != ' ')
    ensures r <= Strip(s)
    ensures forall k :: |r| <= k < |Strip(s)| ==> Strip(s)[k] == ' '
  {
    var t := Strip(s);
    var r := TrimEnd(t);
    assert forall k :: 0 <= k < |r| ==> r[k] == t[k];
    r
  }

  /** On the text that shows the trailing space, the trimmed stripper keeps
      only the letter. */
  lemma StripTrimmedExample(s: string)
    requires |s| == 6 && 'a' <= s[0] <= 'z' && s[1] == ' '
    requires s[2] == '<' && s[3] == '/' && s[4] == 'b' && s[5] == '>'
    ensures StripTrimmed(s) == s[0..1]
  {
    TrailingSpaceExample(s);
    TrimOne(s[0..1]);
  }

  lemma TrimOne(w: string)
    requires |w| == 1 && w[0] != ' '
    ensures TrimEnd(w + " ") == w
  {
    assert (w + " ")[..1] == w;
  }
}
