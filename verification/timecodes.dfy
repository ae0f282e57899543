/** The SRT time-code decoder (`timeIntervalFromString`), in whole milliseconds. */
module TimeCodes {
  import opened Wrappers
  import opened Scanning

  /** The four fields of a time code as `timeIntervalFromString` scans them: hours and
      minutes already as integers (0 when the scan failed), seconds and
      milliseconds as the raw texts still to be converted. */
  datatype Fields = Fields(hours: int, minutes: int, seconds: Option<string>, millis: Option<string>)

  /** Scan the hours and minutes and step over the separator after each.
      `None` when a step would move the cursor past the end. */
  function ScanClock(t: string): (r: Option<(int, int, nat)>)
    ensures r.Some? ==> r.value.2 <= |t|
  {
    var h := ScanInt(t, 0, DefaultSkip);
    if h.next + 1 > |t| then None
    else
      var m := ScanInt(t, h.next + 1, DefaultSkip);
      if m.next + 1 > |t| then None
      else
        Some((h.value.GetOr(0), m.value.GetOr(0), m.next + 1))
  }

  /** Scan the seconds up to the comma, step over it, and scan the milliseconds
      up to the end of the line. */
  function ScanFraction(t: string, i: nat): (r: Option<(Option<string>, Option<string>)>)
    requires i <= |t|
    ensures r.Some? && r.value.0.Some? ==> ',' in t
  {
    var sec := ScanUpToString(t, i, DefaultSkip, ",");
    if sec.next + 1 > |t| then None
    else
      var ms := ScanUpToCharacters(t, sec.next + 1, DefaultSkip, Newlines);
      assert sec.token.Some? ==> t[sec.next] == ',';
      Some((sec.token, ms.token))
  }

  /** Lines 160-167 of `timeIntervalFromString`: the fields, or `None` for a trap. */
  function ScanFields(t: string): (r: Option<Fields>)
    ensures r.Some? && r.value.seconds.Some? ==> ',' in t
  {
    match ScanClock(t)
    case None => None
    case Some((hours, minutes, i)) =>
      match ScanFraction(t, i)
      case None => None
      case Some((seconds, millis)) => Some(Fields(hours, minutes, seconds, millis))
  }

  /** `timeIntervalFromString`: H*3600 + M*60 + S + F/1000 seconds, returned as
      H*3600000 + M*60000 + S*1000 + F milliseconds, where F is the integer value
      of the field after the comma. `None` stands for the trap of `timeIntervalFromString`:
      a cursor step past the end, or a force unwrap of a field that did not scan
      or that `Int(_:)` does not convert. */
  function DecodeMs(t: string): (r: Option<int>)
    ensures r.Some? ==> ',' in t
  {
    Convert(ScanFields(t))
  }

  /** Lines 169-175 of `timeIntervalFromString`: convert the seconds and milliseconds texts
      and combine the four fields. */
  function Convert(fields: Option<Fields>): (r: Option<int>)
    ensures r.Some? ==> fields.Some? && fields.value.seconds.Some? && fields.value.millis.Some?
  {
    match fields
    case None => None
    case Some(f) =>
      if f.seconds.None? || f.millis.None? then None
      else
        var seconds := ParseInt(f.seconds.value);
        var millis := ParseInt(f.millis.value);
        if seconds.None? || millis.None? then None
        else Some(f.hours * 3_600_000 + f.minutes * 60_000 + seconds.value * 1000 + millis.value)
  }

  /** The seconds value of a millisecond count, as the app's `TimeInterval`. */
  function Seconds(ms: int): real {
    ms as real / 1000.0
  }

  /** A time code written out field by field as `hours:minutes:seconds,millis`. */
  datatype TimeCodeText = TimeCodeText(hours: string, minutes: string, seconds: string, millis: string)

  /** The `H:MM:SS,mmm` grammar: hours and milliseconds of any non-zero width,
      minutes and seconds of exactly two digits, and no value beyond `Int.max`. */
  predicate WellFormed(tc: TimeCodeText) {
    && |tc.hours| > 0 && AllDigits(tc.hours) && DigitsValue(tc.hours) <= IntMax
    && |tc.minutes| == 2 && AllDigits(tc.minutes)
    && |tc.seconds| == 2 && AllDigits(tc.seconds)
    && |tc.millis| > 0 && AllDigits(tc.millis) && DigitsValue(tc.millis) <= IntMax
  }

  function Render(tc: TimeCodeText): string {
    tc.hours + ":" + tc.minutes + ":" + tc.seconds + "," + tc.millis
  }

  /** The offset a time code denotes, in milliseconds. */
  function Milliseconds(tc: TimeCodeText): int {
    DigitsValue(tc.hours) * 3_600_000 + DigitsValue(tc.minutes) * 60_000
      + DigitsValue(tc.seconds) * 1000 + DigitsValue(tc.millis)
  }

  /** `scanInt` over a run of digits `s[i..j]` that starts at the cursor. */
  lemma ScanIntDigits(s: string, i: nat, j: nat)
    requires i < j <= |s|
    requires AllDigits(s[i..j])
    requires j == |s| || !IsDigit(s[j])
    requires DigitsValue(s[i..j]) <= IntMax
    ensures ScanInt(s, i, DefaultSkip) == IntScan(Some(DigitsValue(s[i..j])), j)
  {
    assert IsDigit(s[i..j][0]);
    assert Skip(s, i, DefaultSkip) == i;
    assert forall k :: i <= k < j ==> s[k] == s[i..j][k - i];
    SpanExact(s, i, j, DecimalDigits, true);
  }

  lemma ParseIntDigits(t: string)
    requires |t| > 0 && AllDigits(t) && DigitsValue(t) <= IntMax
    ensures ParseInt(t) == Some(DigitsValue(t))
  {
    assert t[0] != '-' && t[0] != '+';
  }

  /** Where each field and separator sits in a rendered time code. */
  lemma RenderedLayout(tc: TimeCodeText)
    requires |tc.minutes| == 2 && |tc.seconds| == 2
    ensures var s, a := Render(tc), |tc.hours|;
            && |s| == a + 7 + |tc.millis|
            && s[0..a] == tc.hours && s[a] == ':'
            && s[a + 1..a + 3] == tc.minutes && s[a + 3] == ':'
            && s[a + 4..a + 6] == tc.seconds && s[a + 6] == ','
            && s[a + 7..] == tc.millis
  {
  }

  lemma ClockOfRendered(tc: TimeCodeText)
    requires WellFormed(tc)
    ensures ScanClock(Render(tc)) == Some((DigitsValue(tc.hours), DigitsValue(tc.minutes), |tc.hours| + 4))
  {
    var s := Render(tc);
    var a := |tc.hours|;
    RenderedLayout(tc);
    ScanIntDigits(s, 0, a);
    DigitsValueBound(tc.minutes);
    assert Pow10(2) == 100;
    ScanIntDigits(s, a + 1, a + 3);
  }

  /** `scanUpTo(",")` over a run of digits `s[i..j]` that a comma ends. */
  lemma ScanDigitsToComma(s: string, i: nat, j: nat)
    requires i < j < |s|
    requires AllDigits(s[i..j]) && s[j] == ','
    ensures ScanUpToString(s, i, DefaultSkip, ",") == Scan(Some(s[i..j]), j)
  {
    assert IsDigit(s[i..j][0]);
    assert Skip(s, i, DefaultSkip) == i;
    assert forall k :: i <= k < j ==> s[k] == s[i..j][k - i];
    assert s[j..j + 1] == ",";
    forall k | i <= k < j
      ensures !OccursAt(s, k, ",")
    {
      assert s[k..k + 1][0] == s[k];
    }
    IndexOfExact(s, i, j, ",");
  }

  /** Scanning up to a newline over digits that run to the end of the text. */
  lemma ScanDigitsToEnd(s: string, i: nat)
    requires i < |s|
    requires AllDigits(s[i..])
    ensures ScanUpToCharacters(s, i, DefaultSkip, Newlines) == Scan(Some(s[i..]), |s|)
  {
    assert IsDigit(s[i..][0]);
    assert Skip(s, i, DefaultSkip) == i;
    assert forall k :: i <= k < |s| ==> s[k] == s[i..][k - i];
    SpanExact(s, i, |s|, Newlines, false);
    assert s[i..|s|] == s[i..];
  }

  lemma FractionOfRendered(tc: TimeCodeText)
    requires WellFormed(tc)
    ensures ScanFraction(Render(tc), |tc.hours| + 4) == Some((Some(tc.seconds), Some(tc.millis)))
  {
    var s := Render(tc);
    var a := |tc.hours|;
    RenderedLayout(tc);
    ScanDigitsToComma(s, a + 4, a + 6);
    ScanDigitsToEnd(s, a + 7);
  }

  lemma FieldsOfRendered(tc: TimeCodeText)
    requires WellFormed(tc)
    ensures ScanFields(Render(tc))
         == Some(Fields(DigitsValue(tc.hours), DigitsValue(tc.minutes), Some(tc.seconds), Some(tc.millis)))
  {
    ClockOfRendered(tc);
    FractionOfRendered(tc);
  }

  lemma ConvertDigits(tc: TimeCodeText)
    requires WellFormed(tc)
    ensures Convert(Some(Fields(DigitsValue(tc.hours), DigitsValue(tc.minutes), Some(tc.seconds), Some(tc.millis))))
         == Some(Milliseconds(tc))
  {
    DigitsValueBound(tc.seconds);
    assert Pow10(2) == 100;
    ParseIntDigits(tc.seconds);
    ParseIntDigits(tc.millis);
  }

  /** Decoding a well-formed time code yields H*3600000 + M*60000 + S*1000 + F. */
  lemma DecodeRendered(tc: TimeCodeText)
    requires WellFormed(tc)
    ensures DecodeMs(Render(tc)) == Some(Milliseconds(tc))
  {
    FieldsOfRendered(tc);
    ConvertDigits(tc);
  }

  /** Without a comma `timeIntervalFromString` traps: the cursor step after the seconds
      field goes past the end, or the milliseconds field is `nil`. */
  lemma DecodeNeedsComma(t: string)
    requires ',' !in t
    ensures DecodeMs(t) == None
  {
  }

  /** "00:01:02" has no milliseconds field and traps. */
  lemma MissingMillisExample()
    ensures DecodeMs("00:01:02") == None
  {
    DecodeNeedsComma("00:01:02");
  }

  /** "00:01:02,500" is 62.5 seconds. */
  lemma FirstExample()
    ensures DecodeMs("00:01:02,500") == Some(62_500) && Seconds(62_500) == 62.5
  {
    var a := TimeCodeText("00", "01", "02", "500");
    assert Render(a) == "00:01:02,500";
    assert Milliseconds(a) == 62_500 by {
      assert DigitsValue("500") == 500 by {
        assert "500"[..2] == "50" && "50"[..1] == "5" && "5"[..0] == "";
      }
      assert DigitsValue("01") == 1 && DigitsValue("02") == 2 && DigitsValue("00") == 0 by {
        assert "01"[..1] == "0" && "02"[..1] == "0" && "00"[..1] == "0" && "0"[..0] == "";
      }
    }
    DecodeRendered(a);
  }

  /** "01:00:00,000" is 3600 seconds. */
  lemma SecondExample()
    ensures DecodeMs("01:00:00,000") == Some(3_600_000) && Seconds(3_600_000) == 3600.0
  {
    var b := TimeCodeText("01", "00", "00", "000");
    assert Render(b) == "01:00:00,000";
    assert Milliseconds(b) == 3_600_000 by {
      assert DigitsValue("000") == 0 by {
        assert "000"[..2] == "00" && "00"[..1] == "0" && "0"[..0] == "";
      }
      assert DigitsValue("01") == 1 && DigitsValue("00") == 0 by {
        assert "01"[..1] == "0" && "00"[..1] == "0" && "0"[..0] == "";
      }
    }
    DecodeRendered(b);
  }
}
