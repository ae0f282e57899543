/** The SubRip reader with its traps reported as `invalidFormat`: each cursor
    step and each time-code unwrap is guarded, and a failed guard throws the
    error that the guard at line 136 throws for a failed scan. The reader
    succeeds exactly where `parseSRTSub` does, with the same entries, and never
    traps. */
module SrtChecked {
  import opened Wrappers
  import opened Captions
  import opened TimeCodes
  import opened Srt
  import opened SrtWriter
  import opened SrtDocument

  /** A trap reported as the format error. */
  function Untrapped<T>(r: Result<T, ParseError>): Result<T, ParseError> {
    match r
    case Failure(_) => Failure(InvalidFormat)
    case Success(v) => Success(v)
  }

  /** One block, with a guard wherever lines 100-146 would trap. */
  function ParseBlockChecked(b: string, strip: string -> string): (r: Result<Option<Entry>, ParseError>)
    ensures r.Failure? ==> r.error == InvalidFormat
  {
    match ScanHeader(b)
    case None => Failure(InvalidFormat)
    case Some(h) =>
      match TextLines(b, h.body, strip)
      case Failure(_) => Failure(InvalidFormat)
      case Success(lines) =>
        if h.index.None? || h.start.None? || h.divider.None? || h.end.None? then Failure(InvalidFormat)
        else
          match (DecodeMs(h.start.value), DecodeMs(h.end.value))
          case (Some(st), Some(en)) =>
            Success(if lines == [] then None else Some(Entry(lines, Seconds(st), Seconds(en), h.index.value)))
          case _ => Failure(InvalidFormat)
  }

  function ReaderChecked(strip: string -> string): BlockReader {
    b => ParseBlockChecked(b, strip)
  }

  /** `parseSRTSub` with the guarded block reader. */
  function ParseSrtChecked(s: string, strip: string -> string): Result<seq<Entry>, ParseError> {
    Collect(Blocks(s), ReaderChecked(strip))
  }

  /** The guarded block reader is the app's block reader with its trap turned into the
      format error. */
  lemma BlockChecked(b: string, strip: string -> string)
    ensures ParseBlockChecked(b, strip) == Untrapped(ParseBlock(b, strip))
  {
    match ScanHeader(b)
    case None =>
    case Some(h) =>
      var lines := TextLines(b, h.body, strip);
      assert ParseBlock(b, strip) == BlockEntry(h, lines);
      if lines.Success? && h.index.Some? && h.start.Some? && h.divider.Some? && h.end.Some? {
        assert BlockEntry(h, lines) == TimedEntry(h.index.value, lines.value, DecodeMs(h.start.value), DecodeMs(h.end.value));
      }
  }

  lemma {:induction false} CollectChecked(blocks: seq<string>, strip: string -> string)
    ensures Collect(blocks, ReaderChecked(strip)) == Untrapped(Collect(blocks, Reader(strip)))
    decreases |blocks|
  {
    if blocks != [] {
      CollectChecked(blocks[1..], strip);
      BlockChecked(blocks[0], strip);
    }
  }

  /** The guarded reader succeeds exactly where `parseSRTSub` does, with the
      same entries, and fails with `invalidFormat` wherever `parseSRTSub` traps
      or throws. */
  lemma CheckedReader(s: string, strip: string -> string)
    ensures ParseSrtChecked(s, strip) == Untrapped(ParseSrt(s, strip))
    ensures ParseSrtChecked(s, strip).Failure? ==> ParseSrtChecked(s, strip).error == InvalidFormat
  {
    CollectChecked(Blocks(s), strip);
  }

  /** A well-formed document with one extra line break at its end is
      rejected with `invalidFormat` instead of trapping. */
  lemma TrailingBreakRejected(cs: seq<Cue>, strip: string -> string)
    requires |cs| > 0 && forall k :: 0 <= k < |cs| ==> CueOk(cs[k])
    ensures ParseSrtChecked(RenderCues(cs) + "\n\n\n", strip) == Failure(InvalidFormat)
  {
    TrailingBreakTraps(cs, strip);
    CheckedReader(RenderCues(cs) + "\n\n\n", strip);
  }
}
