/** A value-semantics model of the Foundation `Scanner` operations the caption
    parser calls. A scanner is the text plus an explicit cursor (`scanLocation`)
    plus the set of characters skipped before every scan; each operation takes
    the cursor and returns the new one. A failed scan leaves the cursor where it
    was, skipped characters included. Characters are Unicode scalar values;
    UTF-16 offsets are not modelled. */
module Scanning {
  import opened Wrappers

  /** Largest and smallest value of Swift's 64-bit `Int`. */
  const IntMax: int := 0x7FFF_FFFF_FFFF_FFFF
  const IntMin: int := -0x8000_0000_0000_0000

  /** The `CharacterSet`s the parser uses. `CharactersIn(chars)` is
      `CharacterSet(charactersIn: chars)`; `CharactersIn("")` stands for a
      scanner whose `charactersToBeSkipped` is `nil`. `AsciiLetters`,
      `MarkupStop` and `MarkupBreak` are the three literal sets of the markup
      stripper, spelled out member by member (the stripper proves them equal
      to the literals as written). */
  datatype CharSet =
    | Whitespaces
    | Newlines
    | WhitespacesAndNewlines
    | DecimalDigits
    | AsciiLetters
    | MarkupStop
    | MarkupBreak
    | CharactersIn(chars: string)

  const NoSkipping: CharSet := CharactersIn("")

  /** A new `Scanner` skips whitespace and newlines before every scan. */
  const DefaultSkip: CharSet := WhitespacesAndNewlines

  /** `CharacterSet.newlines`: U+000A to U+000D, U+0085, U+2028, U+2029. */
  predicate IsNewline(c: char) {
    '\n' <= c <= '\r' || c == '\U{0085}' || c == '\U{2028}' || c == '\U{2029}'
  }

  /** `CharacterSet.whitespaces`: the space separators (category Zs) and tab. */
  predicate IsWhitespace(c: char) {
    || c == ' ' || c == '\t' || c == '\U{00A0}' || c == '\U{1680}'
    || ('\U{2000}' <= c <= '\U{200A}')
    || c == '\U{202F}' || c == '\U{205F}' || c == '\U{3000}'
  }

  /** The members of the stripper's whitespace literal. */
  predicate IsMarkupBreak(c: char) {
    c == ' ' || c == '\t' || c == '\n' || c == '\r' || c == '1' || c == '2' || c == '3' || c == '8'
  }

  /** ASCII decimal digits (Unicode digits of other scripts are not modelled). */
  predicate IsDigit(c: char) {
    '0' <= c <= '9'
  }

  predicate Contains(cs: CharSet, c: char) {
    match cs
    case Whitespaces => IsWhitespace(c)
    case Newlines => IsNewline(c)
    case WhitespacesAndNewlines => IsWhitespace(c) || IsNewline(c)
    case DecimalDigits => IsDigit(c)
    case AsciiLetters => 'a' <= c <= 'z' || 'A' <= c <= 'Z'
    case MarkupStop => c == '<' || IsMarkupBreak(c)
    case MarkupBreak => IsMarkupBreak(c)
    case CharactersIn(chars) => c in chars
  }

  /** The pattern `pat` occurs in `s` starting at offset `k`. */
  predicate OccursAt(s: string, k: nat, pat: string) {
    k + |pat| <= |s| && s[k..k + |pat|] == pat
  }

  /** The end of the longest run, starting at `i`, of characters whose
      membership in `cs` is `member`. */
  function Span(s: string, i: nat, cs: CharSet, member: bool): (j: nat)
    requires i <= |s|
    ensures i <= j <= |s|
    ensures forall k :: i <= k < j ==> Contains(cs, s[k]) == member
    ensures j < |s| ==> Contains(cs, s[j]) != member
    decreases |s| - i
  {
    if i < |s| && Contains(cs, s[i]) == member then Span(s, i + 1, cs, member) else i
  }

  /** The first offset at or after `i` where `pat` occurs, or `|s|` if none. */
  function IndexOf(s: string, i: nat, pat: string): (j: nat)
    requires i <= |s|
    ensures i <= j <= |s|
    ensures j < |s| ==> OccursAt(s, j, pat)
    ensures forall k :: i <= k < j ==> !OccursAt(s, k, pat)
    decreases |s| - i
  {
    if i == |s| || OccursAt(s, i, pat) then i else IndexOf(s, i + 1, pat)
  }

  /** Outcome of a string-producing scan: the scanned text (`None` when the scan
      failed) and the new cursor. */
  datatype Scan = Scan(token: Option<string>, next: nat)

  /** Outcome of `scanInt`. */
  datatype IntScan = IntScan(value: Option<int>, next: nat)

  /** The cursor after the characters to be skipped. */
  function Skip(s: string, i: nat, skip: CharSet): (k: nat)
    requires i <= |s|
    ensures i <= k <= |s|
    ensures forall p :: i <= p < k ==> Contains(skip, s[p])
    ensures k < |s| ==> !Contains(skip, s[k])
  {
    Span(s, i, skip, true)
  }

  /** `isAtEnd`: only skippable characters remain. */
  predicate IsAtEnd(s: string, i: nat, skip: CharSet)
    requires i <= |s|
  {
    Skip(s, i, skip) == |s|
  }

  /** `scanUpToCharacters(from: stop, into:)`. */
  function ScanUpToCharacters(s: string, i: nat, skip: CharSet, stop: CharSet): (r: Scan)
    requires i <= |s|
    ensures i <= r.next <= |s|
    ensures r.token.None? ==> r.next == i
    ensures r.token.Some? ==> i < r.next && |r.token.value| > 0 && forall c :: c in r.token.value ==> !Contains(stop, c)
    ensures r.token.Some? ==> r.next == |s| || Contains(stop, s[r.next])
  {
    var k := Skip(s, i, skip);
    var j := Span(s, k, stop, false);
    if k < j then Scan(Some(s[k..j]), j) else Scan(None, i)
  }

  /** `scanCharacters(from: members, into:)`. */
  function ScanCharacters(s: string, i: nat, skip: CharSet, members: CharSet): (r: Scan)
    requires i <= |s|
    ensures i <= r.next <= |s|
    ensures r.token.None? ==> r.next == i
    ensures r.token.Some? ==> |r.token.value| > 0 && forall c :: c in r.token.value ==> Contains(members, c)
  {
    var k := Skip(s, i, skip);
    var j := Span(s, k, members, true);
    if k < j then Scan(Some(s[k..j]), j) else Scan(None, i)
  }

  /** `scanUpTo(pat, into:)`: everything before the next occurrence of `pat`, or
      the rest of the text when there is none. Only non-empty patterns are used. */
  function ScanUpToString(s: string, i: nat, skip: CharSet, pat: string): (r: Scan)
    requires i <= |s|
    requires |pat| > 0
    ensures i <= r.next <= |s|
    ensures r.token.None? ==> r.next == i
    ensures r.token.Some? ==> r.next == |s| || OccursAt(s, r.next, pat)
  {
    var k := Skip(s, i, skip);
    var j := IndexOf(s, k, pat);
    if k < j then Scan(Some(s[k..j]), j) else Scan(None, i)
  }

  /** `scanString(pat, into:)`: consumes `pat` if it comes next. */
  function ScanString(s: string, i: nat, skip: CharSet, pat: string): (r: Scan)
    requires i <= |s|
    ensures i <= r.next <= |s|
    ensures r.token.None? ==> r.next == i
    ensures r.token.Some? ==> r.token.value == pat && |pat| > 0 && |pat| <= r.next && OccursAt(s, r.next - |pat|, pat)
  {
    var k := Skip(s, i, skip);
    if |pat| > 0 && OccursAt(s, k, pat) then Scan(Some(pat), k + |pat|) else Scan(None, i)
  }

  function DigitValue(c: char): nat {
    if IsDigit(c) then c as int - '0' as int else 0
  }

  /** The value of a string of decimal digits, most significant first. */
  function DigitsValue(ds: string): nat
    decreases |ds|
  {
    if ds == [] then 0 else DigitsValue(ds[..|ds| - 1]) * 10 + DigitValue(ds[|ds| - 1])
  }

  predicate IsSign(c: char) {
    c == '-' || c == '+'
  }

  /** The signs a numeral may begin with. */
  predicate SignText(sign: string) {
    sign == "" || sign == "+" || sign == "-"
  }

  /** The number a sign and a run of digits denote. */
  function SignedValue(sign: string, ds: string): int {
    var v: int := DigitsValue(ds);
    if sign == "-" then -v else v
  }

  /** A value forced into the 64-bit range. */
  function Saturate(x: int): (r: int)
    ensures IntMin <= r <= IntMax
    ensures IntMin <= x <= IntMax ==> r == x
    ensures x > IntMax ==> r == IntMax
    ensures x < IntMin ==> r == IntMin
  {
    if x < IntMin then IntMin else if x > IntMax then IntMax else x
  }

  /** `scanInt(_:)` into a 64-bit `Int`: an optional sign and a run of digits;
      a value out of range saturates at `Int.max` or `Int.min`. */
  function ScanInt(s: string, i: nat, skip: CharSet): (r: IntScan)
    requires i <= |s|
    ensures i <= r.next <= |s|
    ensures r.value.None? <==> r.next == i
    ensures r.value.Some? ==> IntMin <= r.value.value <= IntMax && IsDigit(s[r.next - 1])
  {
    var k := Skip(s, i, skip);
    var negative := k < |s| && s[k] == '-';
    var d := if k < |s| && IsSign(s[k]) then k + 1 else k;
    var j := Span(s, d, DecimalDigits, true);
    if d < j then
      var v: int := DigitsValue(s[d..j]);
      var x := if negative then (if -v < IntMin then IntMin else -v)
               else (if v > IntMax then IntMax else v);
      IntScan(Some(x), j)
    else
      IntScan(None, i)
  }

  /** Swift's `Int(_: String)`: an optional sign followed by one or more digits
      and nothing else, within the 64-bit range. */
  function ParseInt(t: string): (r: Option<int>)
    ensures r.Some? ==> |t| > 0 && IntMin <= r.value <= IntMax
    ensures r.Some? ==> IsDigit(t[0]) || (IsSign(t[0]) && |t| > 1)
    ensures r.Some? ==> forall k :: 0 < k < |t| ==> IsDigit(t[k])
  {
    var negative := |t| > 0 && t[0] == '-';
    var body := if |t| > 0 && IsSign(t[0]) then t[1..] else t;
    if |body| > 0 && (forall c :: c in body ==> IsDigit(c)) then
      var v: int := DigitsValue(body);
      var x := if negative then -v else v;
      if IntMin <= x <= IntMax then Some(x) else None
    else
      None
  }

  /** `scanInt` on a numeral laid out after skippable characters: a sign and
      a maximal run of digits. It reads the value they denote, saturated at
      the 64-bit bounds, and moves past every digit. */
  lemma ScanIntValue(s: string, i: nat, skip: CharSet, k: nat, sign: string, j: nat)
    requires SignText(sign) && i <= k && k + |sign| < j <= |s| && s[k..k + |sign|] == sign
    requires forall p :: i <= p < k ==> Contains(skip, s[p])
    requires !Contains(skip, s[k])
    requires AllDigits(s[k + |sign|..j]) && (j == |s| || !IsDigit(s[j]))
    ensures ScanInt(s, i, skip) == IntScan(Some(Saturate(SignedValue(sign, s[k + |sign|..j]))), j)
  {
    SpanExact(s, i, k, skip, true);
    var d := k + |sign|;
    assert IsDigit(s[d..j][0]);
    assert s[k] == '-' <==> sign == "-" by {
      if sign != "" {
        assert s[k] == s[k..k + |sign|][0];
      }
    }
    assert k < |s| && IsSign(s[k]) <==> sign != "" by {
      if sign != "" {
        assert s[k] == s[k..k + |sign|][0];
      }
    }
    DigitRun(s, d, j);
    ScanIntAt(s, i, skip, k, d, j);
  }

  /** A run of digits `s[d..j]` that ends at a non-digit is where the digit
      span from `d` stops. */
  lemma DigitRun(s: string, d: nat, j: nat)
    requires d <= j <= |s| && AllDigits(s[d..j]) && (j == |s| || !IsDigit(s[j]))
    ensures Span(s, d, DecimalDigits, true) == j
  {
    assert forall p :: d <= p < j ==> s[p] == s[d..j][p - d];
    SpanExact(s, d, j, DecimalDigits, true);
  }

  /** `scanInt` once the skipped prefix, the sign and the digits are located. */
  lemma ScanIntAt(s: string, i: nat, skip: CharSet, k: nat, d: nat, j: nat)
    requires i <= k <= d < j <= |s|
    requires Skip(s, i, skip) == k
    requires d == (if IsSign(s[k]) then k + 1 else k)
    requires Span(s, d, DecimalDigits, true) == j
    ensures ScanInt(s, i, skip)
         == IntScan(Some(Saturate(if s[k] == '-' then -(DigitsValue(s[d..j]) as int) else DigitsValue(s[d..j]))), j)
  {
  }

  /** `scanInt` fails, and leaves the cursor in place, when what follows the
      skippable characters is neither a digit nor a sign before a digit. */
  lemma ScanIntNone(s: string, i: nat, skip: CharSet, k: nat)
    requires i <= k <= |s| && forall p :: i <= p < k ==> Contains(skip, s[p])
    requires k == |s| || !Contains(skip, s[k])
    requires k < |s| ==> !IsDigit(s[k]) && !(IsSign(s[k]) && k + 1 < |s| && IsDigit(s[k + 1]))
    ensures ScanInt(s, i, skip) == IntScan(None, i)
  {
    SpanExact(s, i, k, skip, true);
    var d := if k < |s| && IsSign(s[k]) then k + 1 else k;
    SpanExact(s, d, d, DecimalDigits, true);
  }

  /** `Int(_:)` on a sign and a non-empty run of digits: the value they denote
      when it fits in 64 bits, and `nil` when it does not. With the shape
      `ParseInt` promises on success, this decides every text. */
  lemma ParseIntValue(sign: string, ds: string)
    requires SignText(sign) && |ds| > 0 && AllDigits(ds)
    ensures ParseInt(sign + ds)
         == if IntMin <= SignedValue(sign, ds) <= IntMax then Some(SignedValue(sign, ds)) else None
  {
    var t := sign + ds;
    if sign == "" {
      assert t == ds && IsDigit(ds[0]);
    } else {
      assert t[0] == sign[0] && t[1..] == ds;
    }
    assert forall c :: c in ds ==> IsDigit(c);
  }

  /** Every character of `t` is a decimal digit. */
  predicate AllDigits(t: string) {
    forall k :: 0 <= k < |t| ==> IsDigit(t[k])
  }

  function Pow10(n: nat): (p: nat)
    ensures p >= 1
  {
    if n == 0 then 1 else 10 * Pow10(n - 1)
  }

  function DigitChar(d: nat): (c: char)
    requires d < 10
    ensures IsDigit(c) && DigitValue(c) == d
  {
    ('0' as int + d) as char
  }

  /** The shortest decimal numeral of `n` (the inverse of `DigitsValue`). */
  function NatToString(n: nat): (t: string)
    ensures |t| > 0 && AllDigits(t)
    decreases n
  {
    if n < 10 then [DigitChar(n)] else NatToString(n / 10) + [DigitChar(n % 10)]
  }

  lemma DigitsValueAppend(x: string, c: char)
    ensures DigitsValue(x + [c]) == DigitsValue(x) * 10 + DigitValue(c)
  {
    assert (x + [c])[..|x|] == x;
  }

  /** Reading back a numeral gives the number it was written from. */
  lemma {:induction false} NatToStringValue(n: nat)
    ensures DigitsValue(NatToString(n)) == n
    decreases n
  {
    if n < 10 {
      assert NatToString(n) == [] + [DigitChar(n)];
      DigitsValueAppend([], DigitChar(n));
    } else {
      NatToStringValue(n / 10);
      DigitsValueAppend(NatToString(n / 10), DigitChar(n % 10));
    }
  }

  /** A run that ends where the characterisation says is where `Span` stops. */
  lemma SpanExact(s: string, i: nat, j: nat, cs: CharSet, member: bool)
    requires i <= j <= |s|
    requires forall k :: i <= k < j ==> Contains(cs, s[k]) == member
    requires j == |s| || Contains(cs, s[j]) != member
    ensures Span(s, i, cs, member) == j
  {
  }

  /** A scan up to `stop` from `i` takes exactly the token `t` laid out at `j`
      after skippable characters, up to a stop character or the end. */
  lemma ScanToken(b: string, i: nat, j: nat, t: string, stop: CharSet)
    requires i <= j && j + |t| <= |b| && b[j..j + |t|] == t
    requires |t| > 0 && !Contains(DefaultSkip, t[0])
    requires forall k :: i <= k < j ==> Contains(DefaultSkip, b[k])
    requires forall k :: 0 <= k < |t| ==> !Contains(stop, t[k])
    requires j + |t| == |b| || Contains(stop, b[j + |t|])
    ensures !IsAtEnd(b, i, DefaultSkip)
    ensures ScanUpToCharacters(b, i, DefaultSkip, stop) == Scan(Some(t), j + |t|)
  {
    assert b[j] == t[0];
    SpanExact(b, i, j, DefaultSkip, true);
    forall k | j <= k < j + |t|
      ensures !Contains(stop, b[k])
    {
      assert b[k] == t[k - j];
    }
    SpanExact(b, j, j + |t|, stop, false);
  }

  /** An occurrence with none before it is the one `IndexOf` finds. */
  lemma IndexOfExact(s: string, i: nat, j: nat, pat: string)
    requires i <= j < |s|
    requires OccursAt(s, j, pat)
    requires forall k :: i <= k < j ==> !OccursAt(s, k, pat)
    ensures IndexOf(s, i, pat) == j
  {
  }


  /** A numeral of `n` digits is worth less than 10^n. */
  lemma {:induction false} DigitsValueBound(t: string)
    requires AllDigits(t)
    ensures DigitsValue(t) < Pow10(|t|)
    decreases |t|
  {
    if t != [] {
      var u := t[..|t| - 1];
      assert AllDigits(u);
      DigitsValueBound(u);
    }
  }

  /** `lowercased()` on one character, for the Basic Latin and Latin-1 letters
      (A-Z and U+00C0-U+00DE except U+00D7 map 0x20 further up); other
      characters are left as they are. */
  function LowerChar(c: char): char {
    if 'A' <= c <= 'Z' || ('\U{00C0}' <= c <= '\U{00DE}' && c != '\U{00D7}') then
      (c as int + 0x20) as char
    else
      c
  }

  function Lowercased(t: string): (r: string)
    ensures |r| == |t|
    ensures forall k :: 0 <= k < |t| ==> r[k] == LowerChar(t[k])
  {
    seq(|t|, k requires 0 <= k < |t| => LowerChar(t[k]))
  }
}
