/** The parsed caption entry shared by both readers (`SubtitleItem` in the app). */
module Captions {

  /** One displayable caption: its text lines, its playback interval in seconds
      and the ordinal it was given (declared by SRT, counted by the XML reader). */
  datatype Entry = Entry(texts: seq<string>, start: real, end: real, index: int)

  /** Why a reader gave up. `InvalidFormat` is the Swift `ParseError.invalidFormat`
      the SRT reader throws; `Trap` stands for a runtime trap of the app
      (a scan location set past the end of the text, or a force unwrap of `nil`). */
  datatype ParseError = InvalidFormat | Trap
}
