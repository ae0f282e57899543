/** `components(separatedBy:)` and its inverse, joining with the separator. */
module Components {
  import opened Scanning

  /** The pieces of `s` between the occurrences of `sep`, found left to right
      without overlap. A text without `sep`, the empty text included, is one
      piece. */
  function Split(s: string, sep: string): (parts: seq<string>)
    requires |sep| > 0
    ensures |parts| > 0
    ensures forall k :: 0 <= k < |parts| ==> |parts[k]| <= |s|
    decreases |s|
  {
    var j := IndexOf(s, 0, sep);
    if j == |s| then [s] else [s[..j]] + Split(s[j + |sep|..], sep)
  }

  /** The pieces with `sep` between neighbours. */
  function Join(parts: seq<string>, sep: string): string
    decreases |parts|
  {
    if parts == [] then []
    else if |parts| == 1 then parts[0]
    else parts[0] + sep + Join(parts[1..], sep)
  }

  /** One more piece adds the separator and the piece at the end. */
  lemma {:induction false} JoinSnoc(parts: seq<string>, last: string, sep: string)
    requires |parts| > 0
    ensures Join(parts + [last], sep) == Join(parts, sep) + sep + last
    decreases |parts|
  {
    if |parts| == 1 {
      assert (parts + [last])[1..] == [last];
    } else {
      JoinSnoc(parts[1..], last, sep);
      assert (parts + [last])[1..] == parts[1..] + [last];
    }
  }

  /** `pat` occurs nowhere in `t`. */
  predicate Free(t: string, pat: string) {
    forall k :: 0 <= k < |t| ==> !OccursAt(t, k, pat)
  }

  /** An occurrence inside a prefix is an occurrence in the whole text. */
  lemma OccursInPrefix(s: string, j: nat, k: nat, pat: string)
    requires j <= |s| && OccursAt(s[..j], k, pat)
    ensures OccursAt(s, k, pat)
  {
    assert s[..j][k..k + |pat|] == s[k..k + |pat|];
  }

  /** The text before the first occurrence of `pat` does not contain it. */
  lemma PrefixFree(s: string, pat: string)
    requires |pat| > 0
    ensures Free(s[..IndexOf(s, 0, pat)], pat)
  {
    var j := IndexOf(s, 0, pat);
    forall k | 0 <= k < j
      ensures !OccursAt(s[..j], k, pat)
    {
      if OccursAt(s[..j], k, pat) {
        OccursInPrefix(s, j, k, pat);
      }
    }
  }

  /** Joining the pieces gives back the text. */
  lemma {:induction false} JoinOfSplit(s: string, sep: string)
    requires |sep| > 0
    ensures Join(Split(s, sep), sep) == s
    decreases |s|
  {
    var j := IndexOf(s, 0, sep);
    if j == |s| {
      assert s[..j] == s;
    } else {
      var rest := s[j + |sep|..];
      JoinOfSplit(rest, sep);
      assert s == s[..j] + sep + rest by {
        assert s[j..j + |sep|] == sep;
      }
    }
  }

  /** No piece contains the separator. */
  lemma {:induction false} SplitPiecesFree(s: string, sep: string)
    requires |sep| > 0
    ensures forall k :: 0 <= k < |Split(s, sep)| ==> Free(Split(s, sep)[k], sep)
    decreases |s|
  {
    var j := IndexOf(s, 0, sep);
    PrefixFree(s, sep);
    if j == |s| {
      assert s[..j] == s;
    } else {
      var parts, rest := Split(s, sep), Split(s[j + |sep|..], sep);
      SplitPiecesFree(s[j + |sep|..], sep);
      forall k | 1 <= k < |parts|
        ensures Free(parts[k], sep)
      {
        assert parts[k] == rest[k - 1];
      }
    }
  }

  /** Splitting a text that does not contain the separator gives one piece. */
  lemma SplitFree(s: string, sep: string)
    requires |sep| > 0 && Free(s, sep)
    ensures Split(s, sep) == [s]
  {
  }

  /** A text that contains the separator splits into at least two pieces. */
  lemma SplitOccurs(s: string, sep: string, k: nat)
    requires |sep| > 0 && k < |s| && OccursAt(s, k, sep)
    ensures |Split(s, sep)| >= 2
  {
    var j := IndexOf(s, 0, sep);
    assert j <= k;
    assert |Split(s[j + |sep|..], sep)| > 0;
  }

  /** `p` followed by `sep` contains `sep` first at the end of `p`. */
  predicate EndsCleanly(p: string, sep: string) {
    forall k :: 0 <= k < |p| ==> !OccursAt(p + sep, k, sep)
  }

  lemma FirstAfter(p: string, sep: string, rest: string)
    requires |sep| > 0 && EndsCleanly(p, sep)
    ensures IndexOf(p + sep + rest, 0, sep) == |p|
  {
    var s := p + sep + rest;
    assert s[|p|..|p| + |sep|] == sep;
    forall k | 0 <= k < |p|
      ensures !OccursAt(s, k, sep)
    {
      assert s == (p + sep) + rest;
      assert (p + sep)[k..k + |sep|] == s[k..k + |sep|];
      assert !OccursAt(p + sep, k, sep);
    }
    IndexOfExact(s, 0, |p|, sep);
  }

  /** A first piece that ends cleanly is split off as it stands. */
  lemma SplitAt(p: string, sep: string, rest: string)
    requires |sep| > 0 && EndsCleanly(p, sep)
    ensures Split(p + sep + rest, sep) == [p] + Split(rest, sep)
  {
    var s := p + sep + rest;
    FirstAfter(p, sep, rest);
    assert s[..|p|] == p;
    assert s[|p| + |sep|..] == rest;
  }

  /** Splitting inverts joining when each piece but the last meets the
      separator only where the separator follows it, and the last piece does
      not contain it. */
  lemma {:induction false} SplitOfJoin(parts: seq<string>, sep: string)
    requires |sep| > 0 && |parts| > 0
    requires forall k :: 0 <= k < |parts| - 1 ==> EndsCleanly(parts[k], sep)
    requires Free(parts[|parts| - 1], sep)
    ensures Split(Join(parts, sep), sep) == parts
    decreases |parts|
  {
    if |parts| == 1 {
      SplitFree(parts[0], sep);
    } else {
      SplitAt(parts[0], sep, Join(parts[1..], sep));
      SplitOfJoin(parts[1..], sep);
      assert [parts[0]] + parts[1..] == parts;
    }
  }

  /** Splitting inverts joining when one more piece, free of the separator,
      follows pieces that all end cleanly. */
  lemma SplitOfJoinSnoc(parts: seq<string>, last: string, sep: string)
    requires |sep| > 0
    requires forall k :: 0 <= k < |parts| ==> EndsCleanly(parts[k], sep)
    requires Free(last, sep)
    ensures Split(Join(parts + [last], sep), sep) == parts + [last]
  {
    var all := parts + [last];
    assert forall k :: 0 <= k < |all| - 1 ==> all[k] == parts[k];
    SplitOfJoin(all, sep);
  }
}
