# Caption parsing of LearnLanguages, in Dafny

This project models how the LearnLanguages app turns a subtitle file into its
list of `SubtitleItem`s (`Entry` here). It covers `Subtitle.init` and `isXML`,
the SubRip reader `parseSRTSub`, the time-code decoder
`timeIntervalFromString`, and the timed-text transcript reader `parseXMLSub`.
It also covers the HTML-to-plain-text stripper
`NSString.byConvertingHTMLToPlainText`, all from
`LearnLanguages/Sources/Models/Subtitle.swift`. Everything is modelled as pure
functions over `string`. Foundation's `Scanner` becomes an explicit cursor, and
its skip-then-scan rule is modelled. A failed scan leaves the cursor where it
was.

How the pieces are modelled:

- **Failures:**
  - Where the Swift code crashes, the model returns a value that says so: `Failure(Trap)` from the SubRip reader, and `None` from the time-code decoder and from loading.
  - The crashes come from a cursor step past the end: of a block at lines 110 and 112, and of a time code at lines 162, 164 and 166. They also come from the force unwraps at lines 169-175 in `timeIntervalFromString`.
  - The force unwraps at lines 140-141 never fail, because the guard at line 136 has already checked both times.
  - `Failure(InvalidFormat)` is the `ParseError.invalidFormat` the reader throws.
- **Time codes** are integers of milliseconds. An entry's times are those milliseconds divided by 1000, as `real`.
- **Transcript nodes:**
  - The transcript's children are given as a sequence of nodes. The XML library is not modelled.
  - Each node has an optional `start` and `dur`, and each of those is an optional number. That number is `None` when `Double(_)` rejects the text.
- **The `strip` parameter:** both readers pass every text through a function that stands for `htmlToText`, the app's call into the system HTML importer.
- **The stripper's character sets:**
  - The stripper is modelled exactly as written, including its two character sets.
  - The Unicode separators they were meant to hold are written as interpolations, such as `\(0x0085)`. These insert the decimal numerals `133`, `12`, `8232` and `8233`.
  - So the digits 1, 2, 3 and 8 act as whitespace in the stripper, and the four separators do not (`MarkupStripper.SetsAsWritten`, `MarkupStripper.DigitSplitsWords`).

The model follows the code where the code's own structure and comments say
it means something else:

- **Loading can crash.** The nested do/catch in `init` (lines 31-44) swallows
  every error the readers throw, so a malformed file is meant to load as no
  entries. The model shows that loading can still crash, and gives the input:
  a well-formed SubRip document followed by one line break too many. It also
  gives a guarded reader that turns that crash into the error `init` swallows.
- **The stripper can end with a space.** The comment at line 271 says no
  space is appended at the beginning or end of the result. A space can still
  end it, when only an inline closing tag follows it.
- **No entity decoding.** The comment at line 279 calls decoding character
  entities often important, but the decoding call at line 280 is commented
  out, so the stripper leaves entities as they are.

The modules, in dependency order:

| module | file | what it holds |
|---|---|---|
| `Wrappers` | `wrappers.dfy` | `Option` and `Result` |
| `Captions` | `captions.dfy` | `Entry` and `ParseError` |
| `Scanning` | `scanning.dfy` | character sets, the scanner operations, numerals |
| `TimeCodes` | `timecodes.dfy` | `timeIntervalFromString`, and a writer of time codes |
| `Components` | `components.dfy` | `components(separatedBy:)` and its inverse `Join` |
| `Srt` | `srt.dfy` | `parseSRTSub` |
| `SrtWriter` | `srt_writer.dfy` | the SubRip layout, and the reading back of one cue |
| `SrtDocument` | `srt_document.dfy` | the reading back of whole documents, and the trailing-break crash |
| `SrtChecked` | `srt_checked.dfy` | the SubRip reader with its crashes turned into `invalidFormat` |
| `Transcript` | `transcript.dfy` | `parseXMLSub`, and the reader with the look-ahead taken by position |
| `MarkupStripper` | `stripper.dfy` | `byConvertingHTMLToPlainText` |
| `Subtitles` | `subtitles.dfy` | `isXML` and the load policy of `init` |

## Model

| member | source | states |
|---|---|---|
| Subtitles.IsXmlPrefix | LearnLanguages/Sources/Models/Subtitle.swift:50-52 | content is taken for XML exactly when it is `<?xml` followed by anything |
| Subtitles.IndentedXmlIsNot | LearnLanguages/Sources/Models/Subtitle.swift:50-52 | leading whitespace is not trimmed: ` <?xml ...` is not taken for XML |
| Subtitles.Load | LearnLanguages/Sources/Models/Subtitle.swift:29-45 | XML content always loads as the transcript reader's entries; other content loads as the SubRip reader's entries on success and as no entries when it throws `invalidFormat`, and it crashes exactly when the SubRip reader crashes |
| Subtitles.LoadRendered | LearnLanguages/Sources/Models/Subtitle.swift:31-41 | a document of well-formed cues, which starts with a digit and so is never taken for XML, loads as its cues' entries |
| Subtitles.LoadTrailingBreakTraps | LearnLanguages/Sources/Models/Subtitle.swift:31-41 | loading a non-empty well-formed document with one extra line break at its end crashes |
| Subtitles.LoadUnnumbered | LearnLanguages/Sources/Models/Subtitle.swift:33-41 | the document whose block has no index is caught by `init` and loads with no entries |
| Subtitles.LoadCheckedTotal | LearnLanguages/Sources/Models/Subtitle.swift:29-45 | with the guarded SubRip reader, loading never crashes, and it gives the same entries wherever `parseSRTSub` does not crash |
| Subtitles.LoadCheckedTrailingBreak | LearnLanguages/Sources/Models/Subtitle.swift:29-45 | with the guarded reader, the document that crashes the app loads with no entries |
| Scanning.Span | LearnLanguages/Sources/Models/Subtitle.swift:107-118 | the end of the longest run of members (or non-members) of a set: every character before it qualifies and the one at it does not |
| Scanning.IndexOf | LearnLanguages/Sources/Models/Subtitle.swift:88-92 | the first occurrence of a pattern at or after the cursor, or the end when there is none |
| Scanning.ScanUpToCharacters | LearnLanguages/Sources/Models/Subtitle.swift:108-118 | a successful scan takes a non-empty run free of the stop set, ending at a stop character or the end; a failed scan leaves the cursor in place |
| Scanning.ScanUpToString | LearnLanguages/Sources/Models/Subtitle.swift:109 | a successful scan ends where the pattern occurs or at the end; a failed scan leaves the cursor in place |
| Scanning.ScanCharacters | LearnLanguages/Sources/Models/Subtitle.swift:253 | a successful scan takes a non-empty run of members of the set; a failed scan leaves the cursor in place |
| Scanning.ScanString | LearnLanguages/Sources/Models/Subtitle.swift:236-249 | a successful scan consumes exactly the pattern; a failed scan leaves the cursor in place |
| Scanning.ScanInt | LearnLanguages/Sources/Models/Subtitle.swift:107 | `scanInt` fails exactly when it leaves the cursor in place; a value it reads is within the 64-bit range and ends on a digit |
| Scanning.Skip | LearnLanguages/Sources/Models/Subtitle.swift:107 | the scanner skips exactly the longest run of skippable characters at the cursor |
| Scanning.ScanIntValue | LearnLanguages/Sources/Models/Subtitle.swift:107 | after skippable characters, an optional sign and a maximal run of digits read as the signed value they denote, saturated at `Int.max` or `Int.min`, and the cursor lands after the last digit |
| Scanning.ScanIntNone | LearnLanguages/Sources/Models/Subtitle.swift:107 | when neither a digit nor a sign before a digit follows the skippable characters, `scanInt` fails and leaves the cursor in place |
| Scanning.ParseInt | LearnLanguages/Sources/Models/Subtitle.swift:170-173 | `Int(_:)` accepts only an optional sign followed by a non-empty run of digits, and its value is within the 64-bit range |
| Scanning.ParseIntValue | LearnLanguages/Sources/Models/Subtitle.swift:170-173 | on a sign and a non-empty run of digits, `Int(_:)` gives the signed value they denote when it fits in 64 bits and `nil` otherwise |
| Scanning.NatToStringValue | LearnLanguages/Sources/Models/Subtitle.swift:107 | reading back the decimal numeral of a number gives that number |
| Scanning.ScanToken | LearnLanguages/Sources/Models/Subtitle.swift:108-118 | a scan from the cursor takes exactly the token laid out after skippable characters, up to a stop character |
| TimeCodes.DecodeMs | LearnLanguages/Sources/Models/Subtitle.swift:152-178 | a time code only decodes when it has a comma |
| TimeCodes.ScanFraction | LearnLanguages/Sources/Models/Subtitle.swift:165-167 | the seconds field is only scanned when the text has a comma |
| TimeCodes.ScanFields | LearnLanguages/Sources/Models/Subtitle.swift:160-167 | the fields are only read with a seconds field when the text has a comma |
| TimeCodes.Convert | LearnLanguages/Sources/Models/Subtitle.swift:169-175 | the conversion succeeds only when both the seconds and the milliseconds fields were scanned |
| TimeCodes.DecodeRendered | LearnLanguages/Sources/Models/Subtitle.swift:152-178 | every `H:MM:SS,mmm` time code decodes to H*3600000 + M*60000 + S*1000 + F milliseconds, F being the integer value of the field after the comma |
| TimeCodes.DecodeNeedsComma | LearnLanguages/Sources/Models/Subtitle.swift:165-173 | text without a comma crashes the decoder |
| TimeCodes.MissingMillisExample | LearnLanguages/Sources/Models/Subtitle.swift:165-173 | `00:01:02` crashes the decoder |
| TimeCodes.FirstExample | LearnLanguages/Sources/Models/Subtitle.swift:161-175 | `00:01:02,500` is 62.5 seconds |
| TimeCodes.SecondExample | LearnLanguages/Sources/Models/Subtitle.swift:161-175 | `01:00:00,000` is 3600 seconds |
| Components.JoinOfSplit | LearnLanguages/Sources/Models/Subtitle.swift:88-92 | the pieces of `components(separatedBy:)`, joined with the separator, give back the text |
| Components.SplitPiecesFree | LearnLanguages/Sources/Models/Subtitle.swift:88-92 | no piece contains the separator |
| Components.SplitOfJoin | LearnLanguages/Sources/Models/Subtitle.swift:88-92 | splitting the join of pieces that are free of the separator and do not end in a prefix of it gives back the pieces |
| Srt.BlocksSplit | LearnLanguages/Sources/Models/Subtitle.swift:88-93 | the blocks are the split at `\r\n\r\n` when the text has one, and at `\n\n` otherwise; they join back to the text and none holds the separator |
| Srt.TextLines | LearnLanguages/Sources/Models/Subtitle.swift:117-134 | every line the loop keeps has more than two UTF-8 bytes of lower-case letters |
| Srt.TextLinesSucceed | LearnLanguages/Sources/Models/Subtitle.swift:117-122 | the throw at line 121 is unreachable: the line scan never fails |
| Srt.TextLinesOfJoin | LearnLanguages/Sources/Models/Subtitle.swift:117-134 | on lines laid out one per line, the loop returns exactly the stripped lines that pass the filter, in order |
| Srt.ScanHeader | LearnLanguages/Sources/Models/Subtitle.swift:102-112 | the text lines begin inside the block, and a scanned index is within the 64-bit range |
| Srt.ParseBlock | LearnLanguages/Sources/Models/Subtitle.swift:100-146 | an entry read from a block has at least one line, every line is legible, and its index is within the 64-bit range |
| Srt.BlockEntry | LearnLanguages/Sources/Models/Subtitle.swift:136-146 | a failed line scan is passed on; a block with no index, start, divider or end throws `invalidFormat`; a block succeeds only when its lines scanned and all four header fields were read, and the entry carries the kept lines and the scanned index |
| Srt.TimedEntry | LearnLanguages/Sources/Models/Subtitle.swift:140-146 | the block succeeds exactly when both time codes decode; it adds an entry exactly when a line was kept, with the decoded start and end in seconds |
| Srt.Collect | LearnLanguages/Sources/Models/Subtitle.swift:95-149 | the document succeeds exactly when every non-empty block succeeds, so one bad block fails all of it; at most one entry per block, and each entry is the entry of one of the blocks |
| Srt.ParseBlocks | LearnLanguages/Sources/Models/Subtitle.swift:95-149 | on success every entry has at least one line and every line is legible |
| Srt.CollectAppend | LearnLanguages/Sources/Models/Subtitle.swift:95-149 | entries keep block order, and the first failing block decides the error |
| SrtWriter.BlockOfRendered | LearnLanguages/Sources/Models/Subtitle.swift:100-146 | a well-formed cue (index, `start --> end`, text lines) reads back as its index, its decoded times and its legible lines, or as nothing when no line is legible |
| SrtDocument.BlocksOfRendered | LearnLanguages/Sources/Models/Subtitle.swift:88-93 | a document of well-formed cues separated by blank lines is cut back into exactly its cues |
| SrtDocument.BlocksOfCues | LearnLanguages/Sources/Models/Subtitle.swift:95-149 | reading the rendered cues gives the cues' entries in cue order |
| SrtDocument.EmptyDocument | LearnLanguages/Sources/Models/Subtitle.swift:88-98 | the empty text has one empty block, which is skipped: no entries and no error |
| SrtDocument.ParseRendered | LearnLanguages/Sources/Models/Subtitle.swift:86-150 | every document the writer lays out reads back as its cues' entries, in order, without the cues that have no legible line |
| SrtDocument.LoneBreakTraps | LearnLanguages/Sources/Models/Subtitle.swift:107-110 | a block that is a single line break crashes at line 110 |
| SrtDocument.TrailingBreakBlocks | LearnLanguages/Sources/Models/Subtitle.swift:88-93 | a document with one line break too many at its end is cut into its cues and a final block holding that line break |
| SrtDocument.UnnumberedHeader | LearnLanguages/Sources/Models/Subtitle.swift:107-112 | the header scan of `x > y` then `z` reads no index, the start `x`, no divider and the end `y` |
| SrtDocument.UnnumberedBlock | LearnLanguages/Sources/Models/Subtitle.swift:136-138 | a block whose first line does not begin with a number throws `invalidFormat` at the guard |
| SrtDocument.UnnumberedDocument | LearnLanguages/Sources/Models/Subtitle.swift:86-150 | the document made of that block is rejected with `invalidFormat` |
| SrtDocument.TrailingBreakTraps | LearnLanguages/Sources/Models/Subtitle.swift:86-150 | that document crashes the reader instead of being read or rejected |
| SrtChecked.BlockChecked | LearnLanguages/Sources/Models/Subtitle.swift:100-146 | the guarded block reader is `parseSRTSub`'s block reader with its crash reported as `invalidFormat` |
| SrtChecked.ParseBlockChecked | LearnLanguages/Sources/Models/Subtitle.swift:100-146 | the guarded block reader fails only with `invalidFormat` |
| SrtChecked.CheckedReader | LearnLanguages/Sources/Models/Subtitle.swift:86-150 | the guarded reader succeeds exactly where `parseSRTSub` does, with the same entries, and never crashes |
| SrtChecked.TrailingBreakRejected | LearnLanguages/Sources/Models/Subtitle.swift:86-150 | the guarded reader rejects the trailing-break document with `invalidFormat` |
| Transcript.Emit | LearnLanguages/Sources/Models/Subtitle.swift:60-82 | at most one entry per child; the entries are numbered consecutively from one, each with one text |
| Transcript.TimedFrom | LearnLanguages/Sources/Models/Subtitle.swift:61-65 | the positions of the children with both `start` and `dur`, strictly increasing |
| Transcript.TimedFromComplete | LearnLanguages/Sources/Models/Subtitle.swift:61-65 | no child with both attributes is skipped |
| Transcript.XmlEntries | LearnLanguages/Sources/Models/Subtitle.swift:54-84 | one entry per child with both attributes, in document order; the k-th is numbered k+1, starts at its own `start`, and ends at the start of child k+1 less 0.01 when that child has a `start`, else at start plus duration |
| Transcript.SkippedChildShiftsLookAhead | LearnLanguages/Sources/Models/Subtitle.swift:66-71 | with a child lacking `dur` first, an ascending transcript gives entries that end before they start |
| Transcript.EmitByPosition | LearnLanguages/Sources/Models/Subtitle.swift:60-82 | with the look-ahead by position, the entries are still numbered consecutively from one, at most one per child |
| Transcript.ByPositionEntries | LearnLanguages/Sources/Models/Subtitle.swift:60-82 | with the look-ahead by position, the k-th entry is closed by the child right after its own |
| Transcript.ByPositionOrdered | LearnLanguages/Sources/Models/Subtitle.swift:66-71 | with the look-ahead by position, no entry of an ascending transcript ends before it starts |
| Transcript.ByPositionAgrees | LearnLanguages/Sources/Models/Subtitle.swift:66-71 | when every child has both attributes, the two look-aheads give the same entries |
| MarkupStripper.SetsAsWritten | LearnLanguages/Sources/Models/Subtitle.swift:216-217 | the stop and whitespace sets are exactly the literals as written, which hold the digits 1, 2, 3 and 8 and none of U+0085, U+000C, U+2028 and U+2029 |
| MarkupStripper.CopyText | LearnLanguages/Sources/Models/Subtitle.swift:231-234 | the text up to the first stop character at or after the cursor is appended as it stands, and the cursor stops on that character or at the end |
| MarkupStripper.Dispatch | LearnLanguages/Sources/Models/Subtitle.swift:235-274 | at a stop character an iteration always moves the cursor forward and stays within the text |
| MarkupStripper.SkipPast | LearnLanguages/Sources/Models/Subtitle.swift:240-245 | the cursor lands right after the first occurrence of the pattern, or at the end when there is none |
| MarkupStripper.ClosingTag | LearnLanguages/Sources/Models/Subtitle.swift:249-262 | a closing tag adds at most one space, and only to non-empty output before the end of the text |
| MarkupStripper.Markup | LearnLanguages/Sources/Models/Subtitle.swift:236-266 | markup adds at most one space, and only to non-empty output |
| MarkupStripper.Break | LearnLanguages/Sources/Models/Subtitle.swift:267-273 | whitespace adds at most one space, only to non-empty output and only before the end of the text |
| MarkupStripper.Step | LearnLanguages/Sources/Models/Subtitle.swift:229-275 | every iteration that does not start at the end consumes at least one character, so the loop terminates |
| MarkupStripper.StepBounds | LearnLanguages/Sources/Models/Subtitle.swift:229-275 | an iteration only appends, adds no more characters than it consumes, and keeps the output free of a leading space and of stop characters other than the space |
| MarkupStripper.RunStep | LearnLanguages/Sources/Models/Subtitle.swift:229-275 | the loop may be unrolled by one iteration from any cursor, including one at the end |
| MarkupStripper.RunBounds | LearnLanguages/Sources/Models/Subtitle.swift:229-275 | the same for the whole loop |
| MarkupStripper.Strip | LearnLanguages/Sources/Models/Subtitle.swift:214-284 | the output is never longer than the input, never begins with a space, and holds no stop character but the space |
| MarkupStripper.TextCopied | LearnLanguages/Sources/Models/Subtitle.swift:231-234 | characters outside the stop set are copied verbatim and in order |
| MarkupStripper.BreakCollapsed | LearnLanguages/Sources/Models/Subtitle.swift:267-273 | a run of whitespace becomes one space, or nothing at the start of the output or at the end of the text |
| MarkupStripper.CommentDropped | LearnLanguages/Sources/Models/Subtitle.swift:238-241 | a comment adds nothing; the loop resumes after the first `-->`, or at the end when it is never closed |
| MarkupStripper.ScriptDropped | LearnLanguages/Sources/Models/Subtitle.swift:242-245 | a script block adds nothing; the loop resumes after the first `</script>`, or at the end |
| MarkupStripper.OpeningTagDropped | LearnLanguages/Sources/Models/Subtitle.swift:246-265 | any other tag that is not a closing tag adds nothing; the loop resumes after the first `>`, or at the end |
| MarkupStripper.ClosingTagReplaced | LearnLanguages/Sources/Models/Subtitle.swift:249-265 | a closing tag adds one space unless its lower-cased name is an inline tag, the output is empty, or the text ends after the name |
| MarkupStripper.StripTagFree | LearnLanguages/Sources/Models/Subtitle.swift:229-275 | text without a `<` comes out as its words separated by single spaces |
| MarkupStripper.StripPlainText | LearnLanguages/Sources/Models/Subtitle.swift:229-275 | text without stop characters comes out unchanged |
| MarkupStripper.DigitSplitsWords | LearnLanguages/Sources/Models/Subtitle.swift:216-217 | a letter, one of the digits 1, 2, 3 or 8, and a letter come out as the two letters with a space between them |
| MarkupStripper.TrailingSpaceExample | LearnLanguages/Sources/Models/Subtitle.swift:267-273 | a letter, a space and `</b>` come out as the letter followed by a space |
| MarkupStripper.StripTrimmed | LearnLanguages/Sources/Models/Subtitle.swift:267-273 | the corrected stripper: its output neither begins nor ends with a space, and it differs from the app's stripper only by spaces at the end |
| MarkupStripper.StripTrimmedExample | LearnLanguages/Sources/Models/Subtitle.swift:267-273 | on the text that shows the trailing space, the corrected stripper keeps only the letter |

## Left out

- Reading the file and `debugPrint` (lines 29-44) are I/O. The model starts from the file's content, and a failed read is not modelled.
- `htmlToText` and the `NSAttributedString` HTML import (lines 181-210) call into the system HTML importer. Both readers take that function as the parameter `strip`, and nothing is assumed about it. `byConvertingHTMLToPlainText` is modelled on its own, because the call to it at line 183 is commented out.
- Parsing the XML (lines 56 and 59) belongs to the SWXMLHash library. The transcript reader takes the children of `<transcript>` as a sequence of nodes. Because SWXMLHash's `children` yields elements only, the force unwrap at line 68 never fails, and a non-element child is not modelled.
- `Double(_:)` on attribute texts is a parameter of the model: each number is given already converted, or `None` when the conversion fails.
- IEEE double arithmetic is left out. SubRip times are exact integer milliseconds divided by 1000, and transcript times are `real`. Rounding is not modelled.
- Text offsets count characters, not UTF-16 code units. Characters beyond the Basic Multilingual Plane can count differently there.
- Grapheme clusters are not modelled, for example in the `starts(with:)` of line 51.
- Srt.Legible approximates `NSCharacterSet.lowercaseLetters` by the Basic Latin and Latin-1 lower-case letters, and `lowercased()` by the same two ranges.
- Scanning.IsDigit covers the ASCII digits only, because other scripts' digits are not modelled for `scanInt` and `Int(_:)`.
- Scanning.IsWhitespace covers the space separators and the tab, because the rest of the Unicode table for `CharacterSet.whitespaces` is not modelled.
- Scanning.ScanInt saturates at the 64-bit bounds (Scanning.ScanIntValue). This does not model the other overflow behaviours that Foundation versions differ on.
- Scanning.IsAtEnd has no contract of its own. It is `isAtEnd` read as Scanning.Skip reaching the end of the text, and Scanning.Skip states what is skipped.
- TimeCodes.ScanClock only bounds its cursor. What the hours and minutes fields read is stated through TimeCodes.DecodeRendered and the examples.
- MarkupStripper.Run has no contract of its own. Its behaviour is stated through MarkupStripper.RunBounds and MarkupStripper.RunStep.
- Srt.Blocks has no contract of its own. It is stated through Srt.BlocksSplit and SrtDocument.BlocksOfRendered.
- Srt.ParseSrt has no contract of its own. It is stated through Srt.ParseBlocks, SrtDocument.ParseRendered and SrtDocument.TrailingBreakTraps.
- Transcript.ParseXml has no contract of its own. It is stated through Transcript.XmlEntries.
- Subtitles.IsXml has no contract of its own. It is stated through Subtitles.IsXmlPrefix.
- Transcript.EndOf states no contract of its own. Its behaviour is stated through Transcript.XmlEntries and Transcript.ByPositionEntries.
- Crashes are modelled as outcomes (`Failure(Trap)`, `None`) rather than excluded by preconditions. This way the readers are total, and the inputs that crash are named.
- `LearnLanguages/Sources/ChooseInputsViewController/ChooseInputsViewController.swift` is not part of this model. It holds player control and the per-tick caption lookup, which is user-interface code over floating-point playback times.
- No entity decoding is modelled, because line 280 is commented out in the stripper.

## Findings

| source | as written | input that shows it | evidently intended | confidence | as-written member | corrected member |
|---|---|---|---|---|---|---|
| LearnLanguages/Sources/Models/Subtitle.swift:270-271 | a whitespace run appends a space when the output is non-empty and the scanner is not at its end, but a later tag can still end the text | `a </b>` gives `a ` | the comment on line 271: no space at the end of the result | not executed | MarkupStripper.TrailingSpaceExample | MarkupStripper.StripTrimmed |
| LearnLanguages/Sources/Models/Subtitle.swift:110 | the cursor is moved two characters past the divider scan without checking the block's length | a well-formed document followed by `\n\n\n` (its last block is a lone `\n`) | a malformed block throws `invalidFormat`, which `init` swallows, as the guard at line 136 does | not executed | SrtDocument.TrailingBreakTraps | SrtChecked.CheckedReader |
| LearnLanguages/Sources/Models/Subtitle.swift:67-68 | the look-ahead child is `texts[index + 1]`, where `index` counts the entries emitted, not the position of the current child | children (start 1, no dur), (start 5, dur 2), (start 9, dur 1): the first entry runs from 5.0 to 4.99 | the child after the current one closes the entry | not executed | Transcript.SkippedChildShiftsLookAhead | Transcript.ByPositionOrdered |
