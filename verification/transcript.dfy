/** `parseXMLSub`: the reader of timed-text transcripts, over the `<text>`
    children of `<transcript>` as the XML library hands them over. Every child
    with both a `start` and a `dur` attribute becomes one entry, numbered from
    1 in the order emitted. An entry ends where the look-ahead child starts,
    less a hundredth of a second, or else after its own duration. The
    look-ahead child is chosen by the number of entries emitted so far, not by
    the position of the current child. */
module Transcript {
  import opened Wrappers
  import opened Captions

  /** An attribute's text as `Double(_)` reads it: `None` when it is not a
      number. */
  type Number = Option<real>

  /** A child element: its `start` and `dur` attributes (`None` when absent)
      and its text. */
  datatype Node = Node(start: Option<Number>, dur: Option<Number>, text: string)

  /** Line 55. */
  const Delay: real := 0.0

  /** Line 68: the gap left before the next entry starts. */
  const Gap: real := 1.0 / 100.0

  /** `Double(x) ?? 0`. */
  function OrZero(n: Number): real {
    n.GetOr(0.0)
  }

  /** Lines 61-64: the child has both attributes. */
  predicate Timed(n: Node) {
    n.start.Some? && n.dur.Some?
  }

  function StartOf(n: Node): real
    requires Timed(n)
  {
    Delay + OrZero(n.start.value)
  }

  /** Lines 66-71: the end of an entry whose look-ahead child is at
      `ahead`: that child's start less the gap when it exists and has a
      `start`, otherwise start plus duration. */
  function EndOf(nodes: seq<Node>, ahead: nat, n: Node): real
    requires Timed(n)
  {
    if ahead < |nodes| && nodes[ahead].start.Some? then Delay + OrZero(nodes[ahead].start.value) - Gap
    else Delay + OrZero(n.start.value) + OrZero(n.dur.value)
  }

  /** The `forEach` of lines 60-82 from child `pos` on, with `count` entries
      already emitted. */
  function Emit(nodes: seq<Node>, pos: nat, count: nat, strip: string -> string): (r: seq<Entry>)
    requires pos <= |nodes|
    ensures |r| <= |nodes| - pos
    ensures forall k :: 0 <= k < |r| ==> r[k].index == count + k + 1 && |r[k].texts| == 1
    decreases |nodes| - pos
  {
    if pos == |nodes| then []
    else
      var n := nodes[pos];
      if !Timed(n) then Emit(nodes, pos + 1, count, strip)
      else [Entry([strip(n.text)], StartOf(n), EndOf(nodes, count + 1, n), count + 1)]
           + Emit(nodes, pos + 1, count + 1, strip)
  }

  /** `parseXMLSub`. */
  function ParseXml(nodes: seq<Node>, strip: string -> string): seq<Entry> {
    Emit(nodes, 0, 0, strip)
  }

  /** The positions of the timed children from `pos` on, in increasing
      order. */
  function TimedFrom(nodes: seq<Node>, pos: nat): (ps: seq<nat>)
    requires pos <= |nodes|
    ensures forall k :: 0 <= k < |ps| ==> pos <= ps[k] < |nodes| && Timed(nodes[ps[k]])
    ensures forall k, m :: 0 <= k < m < |ps| ==> ps[k] < ps[m]
    decreases |nodes| - pos
  {
    if pos == |nodes| then []
    else if Timed(nodes[pos]) then [pos] + TimedFrom(nodes, pos + 1)
    else TimedFrom(nodes, pos + 1)
  }

  /** No timed child is left out. */
  lemma {:induction false} TimedFromComplete(nodes: seq<Node>, pos: nat)
    requires pos <= |nodes|
    ensures forall p :: pos <= p < |nodes| && Timed(nodes[p]) ==> p in TimedFrom(nodes, pos)
    decreases |nodes| - pos
  {
    if pos < |nodes| {
      TimedFromComplete(nodes, pos + 1);
    }
  }

  /** The entry the child at `p` gives when it is the `k`-th one emitted
      (from 0): look-ahead child `k + 1`. */
  function EntryAt(nodes: seq<Node>, p: nat, k: nat, strip: string -> string): Entry
    requires p < |nodes| && Timed(nodes[p])
  {
    Entry([strip(nodes[p].text)], StartOf(nodes[p]), EndOf(nodes, k + 1, nodes[p]), k + 1)
  }

  lemma {:induction false} EmitLength(nodes: seq<Node>, pos: nat, count: nat, strip: string -> string)
    requires pos <= |nodes|
    ensures |Emit(nodes, pos, count, strip)| == |TimedFrom(nodes, pos)|
    decreases |nodes| - pos
  {
    if pos < |nodes| {
      if Timed(nodes[pos]) {
        EmitLength(nodes, pos + 1, count + 1, strip);
      } else {
        EmitLength(nodes, pos + 1, count, strip);
      }
    }
  }

  lemma {:induction false} EmitAt(nodes: seq<Node>, pos: nat, count: nat, strip: string -> string, k: nat)
    requires pos <= |nodes| && k < |Emit(nodes, pos, count, strip)|
    ensures k < |TimedFrom(nodes, pos)|
    ensures Emit(nodes, pos, count, strip)[k] == EntryAt(nodes, TimedFrom(nodes, pos)[k], count + k, strip)
    decreases |nodes| - pos
  {
    EmitLength(nodes, pos, count, strip);
    if Timed(nodes[pos]) {
      if k > 0 {
        EmitAt(nodes, pos + 1, count + 1, strip, k - 1);
      }
    } else {
      EmitAt(nodes, pos + 1, count, strip, k);
    }
  }

  /** Lines 58-83: one entry per timed child, in document order, the `k`-th
      (from 0) numbered `k + 1`, starting at its own `start` and closed by
      the look-ahead child `k + 1`. */
  lemma XmlEntries(nodes: seq<Node>, strip: string -> string)
    ensures |ParseXml(nodes, strip)| == |TimedFrom(nodes, 0)|
    ensures forall k :: 0 <= k < |ParseXml(nodes, strip)| ==>
      ParseXml(nodes, strip)[k] == EntryAt(nodes, TimedFrom(nodes, 0)[k], k, strip)
  {
    EmitLength(nodes, 0, 0, strip);
    forall k | 0 <= k < |ParseXml(nodes, strip)|
      ensures ParseXml(nodes, strip)[k] == EntryAt(nodes, TimedFrom(nodes, 0)[k], k, strip)
    {
      EmitAt(nodes, 0, 0, strip, k);
    }
  }

  /** A transcript with a child lacking `dur` before two timed children whose
      starts increase: the first entry is closed by its own start, so it ends
      before it begins. */
  lemma SkippedChildShiftsLookAhead(strip: string -> string)
    ensures var nodes := [Node(Some(Some(1.0)), None, "a"),
                          Node(Some(Some(5.0)), Some(Some(2.0)), "b"),
                          Node(Some(Some(9.0)), Some(Some(1.0)), "c")];
            && Ascending(nodes)
            && ParseXml(nodes, strip) == [Entry([strip("b")], 5.0, 4.99, 1), Entry([strip("c")], 9.0, 8.99, 2)]
  {
  }

  /** The reader with the look-ahead taken from the child after the current
      one. */
  function EmitByPosition(nodes: seq<Node>, pos: nat, count: nat, strip: string -> string): (r: seq<Entry>)
    requires pos <= |nodes|
    ensures |r| <= |nodes| - pos
    ensures forall k :: 0 <= k < |r| ==> r[k].index == count + k + 1 && |r[k].texts| == 1
    decreases |nodes| - pos
  {
    if pos == |nodes| then []
    else
      var n := nodes[pos];
      if !Timed(n) then EmitByPosition(nodes, pos + 1, count, strip)
      else [Entry([strip(n.text)], StartOf(n), EndOf(nodes, pos + 1, n), count + 1)]
           + EmitByPosition(nodes, pos + 1, count + 1, strip)
  }

  function ParseXmlByPosition(nodes: seq<Node>, strip: string -> string): seq<Entry> {
    EmitByPosition(nodes, 0, 0, strip)
  }

  /** The entry the child at `p` gives to the corrected reader when it is
      the `k`-th one emitted (from 0): look-ahead child `p + 1`. */
  function ByPositionEntry(nodes: seq<Node>, p: nat, k: nat, strip: string -> string): Entry
    requires p < |nodes| && Timed(nodes[p])
  {
    Entry([strip(nodes[p].text)], StartOf(nodes[p]), EndOf(nodes, p + 1, nodes[p]), k + 1)
  }

  /** Every numeric `start` is at least a hundredth of a second after the
      one before it, and durations are not negative. */
  predicate Ascending(nodes: seq<Node>) {
    && (forall p :: 0 <= p < |nodes| - 1 && nodes[p].start.Some? && nodes[p + 1].start.Some? ==>
          OrZero(nodes[p].start.value) + Gap <= OrZero(nodes[p + 1].start.value))
    && (forall p :: 0 <= p < |nodes| && nodes[p].dur.Some? ==> OrZero(nodes[p].dur.value) >= 0.0)
  }

  lemma {:induction false} ByPositionEntries(nodes: seq<Node>, pos: nat, count: nat, strip: string -> string)
    requires pos <= |nodes|
    ensures |EmitByPosition(nodes, pos, count, strip)| == |TimedFrom(nodes, pos)|
    ensures forall k :: 0 <= k < |EmitByPosition(nodes, pos, count, strip)| ==>
      EmitByPosition(nodes, pos, count, strip)[k] == ByPositionEntry(nodes, TimedFrom(nodes, pos)[k], count + k, strip)
    decreases |nodes| - pos
  {
    if pos < |nodes| {
      var r, ps, qs := EmitByPosition(nodes, pos, count, strip), TimedFrom(nodes, pos), TimedFrom(nodes, pos + 1);
      if Timed(nodes[pos]) {
        var rest := EmitByPosition(nodes, pos + 1, count + 1, strip);
        ByPositionEntries(nodes, pos + 1, count + 1, strip);
        assert ps == [pos] + qs;
        forall k | 1 <= k < |r|
          ensures r[k] == ByPositionEntry(nodes, ps[k], count + k, strip)
        {
          assert r[k] == rest[k - 1] && ps[k] == qs[k - 1];
        }
      } else {
        ByPositionEntries(nodes, pos + 1, count, strip);
      }
    }
  }

  /** With the look-ahead taken by position, an ascending transcript gives
      entries that never end before they start, whatever children lack an
      attribute. */
  lemma ByPositionOrdered(nodes: seq<Node>, strip: string -> string)
    requires Ascending(nodes)
    ensures forall k :: 0 <= k < |ParseXmlByPosition(nodes, strip)| ==>
      ParseXmlByPosition(nodes, strip)[k].start <= ParseXmlByPosition(nodes, strip)[k].end
  {
    ByPositionEntries(nodes, 0, 0, strip);
  }

  /** When no child lacks an attribute the two look-aheads coincide, so the
      correction changes nothing on complete transcripts. */
  lemma {:induction false} ByPositionAgrees(nodes: seq<Node>, pos: nat, strip: string -> string)
    requires pos <= |nodes| && forall p :: 0 <= p < |nodes| ==> Timed(nodes[p])
    ensures EmitByPosition(nodes, pos, pos, strip) == Emit(nodes, pos, pos, strip)
    decreases |nodes| - pos
  {
    if pos < |nodes| {
      var n := nodes[pos];
      assert Timed(n);
      var head := Entry([strip(n.text)], StartOf(n), EndOf(nodes, pos + 1, n), pos + 1);
      assert EmitByPosition(nodes, pos, pos, strip) == [head] + EmitByPosition(nodes, pos + 1, pos + 1, strip);
      assert Emit(nodes, pos, pos, strip) == [head] + Emit(nodes, pos + 1, pos + 1, strip);
      ByPositionAgrees(nodes, pos + 1, strip);
    }
  }
}
