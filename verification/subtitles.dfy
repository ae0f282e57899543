/** `Subtitle.init` once the file content is in hand: the content goes to the
    XML transcript reader when it starts with `<?xml`, and to the SubRip
    reader otherwise; an error thrown by the SubRip reader is swallowed and
    leaves the entries empty. */
module Subtitles {
  import opened Wrappers
  import opened Scanning
  import opened Captions
  import opened Components
  import opened Srt
  import opened SrtWriter
  import opened SrtDocument
  import opened SrtChecked
  import opened Transcript

  const XmlPrefix: string := "<?xml"

  /** Line 51: `starts(with:)`, with no trimming of leading whitespace. */
  predicate IsXml(content: string) {
    |XmlPrefix| <= |content| && content[..|XmlPrefix|] == XmlPrefix
  }

  /** The XML test holds exactly for the texts that begin with the prefix. */
  lemma IsXmlPrefix(content: string)
    ensures IsXml(content) <==> exists rest :: content == XmlPrefix + rest
  {
    if IsXml(content) {
      assert content == XmlPrefix + content[|XmlPrefix|..];
    }
    if exists rest :: content == XmlPrefix + rest {
      var rest :| content == XmlPrefix + rest;
      assert content[..|XmlPrefix|] == XmlPrefix;
    }
  }

  /** Leading whitespace is not skipped. */
  lemma IndentedXmlIsNot()
    ensures !IsXml(" <?xml version=\"1.0\"?>")
  {
    assert " <?xml version=\"1.0\"?>"[0] == ' ';
  }

  /** Lines 29-44: the entries `init` leaves in `items`, or `None` where the
      app traps. `nodes` are the transcript's children as the XML
      library reads them from `content`. */
  function Load(content: string, nodes: seq<Node>, strip: string -> string): (r: Option<seq<Entry>>)
    ensures IsXml(content) ==> r == Some(ParseXml(nodes, strip))
    ensures !IsXml(content) ==> (r.None? <==> ParseSrt(content, strip) == Failure(Trap))
    ensures !IsXml(content) && ParseSrt(content, strip).Success? ==> r == Some(ParseSrt(content, strip).value)
    ensures !IsXml(content) && ParseSrt(content, strip) == Failure(InvalidFormat) ==> r == Some([])
  {
    if IsXml(content) then Some(ParseXml(nodes, strip))
    else
      match ParseSrt(content, strip)
      case Success(items) => Some(items)
      case Failure(InvalidFormat) => Some([])
      case Failure(Trap) => None
  }

  /** `init` with the guarded SubRip reader. */
  function LoadChecked(content: string, nodes: seq<Node>, strip: string -> string): Option<seq<Entry>> {
    if IsXml(content) then Some(ParseXml(nodes, strip))
    else
      match ParseSrtChecked(content, strip)
      case Success(items) => Some(items)
      case Failure(_) => Some([])
  }

  /** With the guarded reader loading never traps, and it gives what the
      app gives wherever the app does not trap. */
  lemma LoadCheckedTotal(content: string, nodes: seq<Node>, strip: string -> string)
    ensures LoadChecked(content, nodes, strip).Some?
    ensures Load(content, nodes, strip).Some? ==> LoadChecked(content, nodes, strip) == Load(content, nodes, strip)
  {
    CheckedReader(content, strip);
  }

  /** Text starting with a digit is not taken for XML. */
  lemma DigitNotXml(s: string)
    requires |s| > 0 && IsDigit(s[0])
    ensures !IsXml(s)
  {
    if |s| >= |XmlPrefix| {
      assert s[..|XmlPrefix|][0] == s[0];
    }
  }

  /** A non-empty rendered document, whatever follows it, starts with the
      digits of its first cue's index. */
  lemma RenderedStartsWithDigit(cs: seq<Cue>, tail: string)
    requires |cs| > 0
    ensures |RenderCues(cs) + tail| > 0 && IsDigit((RenderCues(cs) + tail)[0])
  {
    var parts := Rendered(cs);
    var n := NatToString(cs[0].index);
    assert parts[0] == RenderCue(cs[0]);
    assert RenderCue(cs[0])[0] == n[0];
    assert Join(parts, LfBreak)[0] == parts[0][0];
  }

  /** An SRT text that is not taken for XML loads as its reader's entries. */
  lemma LoadOfSrt(content: string, nodes: seq<Node>, strip: string -> string, items: seq<Entry>)
    requires !IsXml(content) && ParseSrt(content, strip) == Success(items)
    ensures Load(content, nodes, strip) == Some(items)
  {
  }

  /** Loading a document the writer lays out gives its cues' entries. */
  lemma LoadRendered(cs: seq<Cue>, nodes: seq<Node>, strip: string -> string)
    requires forall k :: 0 <= k < |cs| ==> CueOk(cs[k])
    ensures Load(RenderCues(cs), nodes, strip) == Some(Expected(cs, strip))
  {
    if cs == [] {
      assert !IsXml(RenderCues(cs));
    } else {
      RenderedStartsWithDigit(cs, []);
      assert RenderCues(cs) + [] == RenderCues(cs);
      DigitNotXml(RenderCues(cs));
    }
    ParseRendered(cs, strip);
    LoadOfSrt(RenderCues(cs), nodes, strip, Expected(cs, strip));
  }

  /** Loading a well-formed document with one extra line break at its end
      traps. */
  lemma LoadTrailingBreakTraps(cs: seq<Cue>, nodes: seq<Node>, strip: string -> string)
    requires |cs| > 0 && forall k :: 0 <= k < |cs| ==> CueOk(cs[k])
    ensures Load(RenderCues(cs) + "\n\n\n", nodes, strip).None?
  {
    RenderedStartsWithDigit(cs, "\n\n\n");
    DigitNotXml(RenderCues(cs) + "\n\n\n");
    TrailingBreakTraps(cs, strip);
  }

  /** A SubRip text that the reader rejects with `invalidFormat` (a block
      whose index is a word) loads with no entries. */
  lemma LoadUnnumbered(nodes: seq<Node>, strip: string -> string)
    ensures Load("x > y\nz", nodes, strip) == Some([])
  {
    var content := "x > y\nz";
    assert content[..|XmlPrefix|][0] == 'x';
    UnnumberedDocument(strip);
  }

  /** With the guarded reader, a well-formed document with one extra line
      break at its end loads with no entries. */
  lemma LoadCheckedTrailingBreak(cs: seq<Cue>, nodes: seq<Node>, strip: string -> string)
    requires |cs| > 0 && forall k :: 0 <= k < |cs| ==> CueOk(cs[k])
    ensures LoadChecked(RenderCues(cs) + "\n\n\n", nodes, strip) == Some([])
  {
    RenderedStartsWithDigit(cs, "\n\n\n");
    DigitNotXml(RenderCues(cs) + "\n\n\n");
    TrailingBreakRejected(cs, strip);
  }
}
