/**
 * `highlightCompanyNames` from the education section: the description text is cut into
 * plain pieces and highlighted company names (rendered as link previews), scanning left
 * to right with `indexOf` from a moving `lastIndex`.
 */
module Education {
  import opened Wrappers
  import opened Seqs
  import opened Text

  /** One entry of `highlights`: the name to find and the link it previews. */
  datatype HighlightSpec = HighlightSpec(name: string, url: string, previewImage: string)

  /** A rendered piece: a plain `<span>` or a highlighted name inside a `LinkPreview`. */
  datatype Segment = Text(s: string) | Highlight(h: HighlightSpec)

  function SegmentText(seg: Segment): string {
    match seg
    case Text(s) => s
    case Highlight(h) => h.name
  }

  /** The text a reader sees: the segments' strings, concatenated. */
  function Render(segs: seq<Segment>): string {
    if segs == [] then "" else SegmentText(segs[0]) + Render(segs[1..])
  }

  lemma {:induction false} RenderAppend(a: seq<Segment>, b: seq<Segment>)
    ensures Render(a + b) == Render(a) + Render(b)
    decreases |a|
  {
    if a == [] {
      assert a + b == b;
    } else {
      assert (a + b)[1..] == a[1..] + b;
      RenderAppend(a[1..], b);
    }
  }

  /** The highlights that were placed, in output order. */
  function Highlighted(segs: seq<Segment>): seq<HighlightSpec> {
    if segs == [] then []
    else if segs[0].Highlight? then [segs[0].h] + Highlighted(segs[1..])
    else Highlighted(segs[1..])
  }

  /** The plain `<span>` pushed before a highlight found at `start`: the text since `last`, when there is any. */
  function Gap(text: string, last: nat, start: nat): (r: seq<Segment>)
    requires last <= start <= |text|
    ensures r == [] || (|r| == 1 && r[0].Text?)
  {
    if start > last then [Text(text[last..start])] else []
  }

  /** The `forEach` over `hs` from `lastIndex == last`, followed by the trailing text. */
  function ScanFrom(text: string, hs: seq<HighlightSpec>, last: nat): seq<Segment>
    requires last <= |text|
    decreases |hs|
  {
    if hs == [] then
      (if last < |text| then [Text(text[last..])] else [])
    else
      var start := IndexOf(text, hs[0].name, last);
      if start == -1 then ScanFrom(text, hs[1..], last)
      else
        Gap(text, last, start)
        + [Highlight(hs[0])]
        + ScanFrom(text, hs[1..], start + |hs[0].name|)
  }

  /** The segments `highlightCompanyNames(text, highlights)` renders. */
  function Segments(text: string, highlights: Option<seq<HighlightSpec>>): seq<Segment> {
    if highlights.None? || highlights.value == [] then [Text(text)]
    else ScanFrom(text, highlights.value, 0)
  }

  /** `highlightCompanyNames`, as the loop it is in the component. */
  method HighlightCompanyNames(text: string, highlights: Option<seq<HighlightSpec>>) returns (segs: seq<Segment>)
    ensures segs == Segments(text, highlights)
    ensures Render(segs) == text
  {
    if highlights.None? || |highlights.value| == 0 {
      segs := [Text(text)];
      SegmentsRoundTrip(text, highlights);
      return;
    }
    var hs := highlights.value;
    segs := [];
    var lastIndex: nat := 0;
    for i := 0 to |hs|
      invariant lastIndex <= |text|
      invariant segs + ScanFrom(text, hs[i..], lastIndex) == ScanFrom(text, hs, 0)
    {
      var h := hs[i];
      var startIndex := IndexOf(text, h.name, lastIndex);
      ScanUnfold(text, hs, i, lastIndex);
      if startIndex != -1 {
        var before := Gap(text, lastIndex, startIndex);
        var rest := ScanFrom(text, hs[i + 1..], startIndex + |h.name|);
        AppendRegroup(segs, before, [Highlight(h)], rest);
        segs := segs + before + [Highlight(h)];
        lastIndex := startIndex + |h.name|;
      }
    }
    if lastIndex < |text| {
      segs := segs + [Text(text[lastIndex..])];
    } else {
      assert segs + [] == segs;
    }
    SegmentsRoundTrip(text, highlights);
  }

  /** One turn of the `forEach`, for the highlight at index `i`. */
  lemma ScanUnfold(text: string, hs: seq<HighlightSpec>, i: nat, last: nat)
    requires i < |hs| && last <= |text|
    ensures var start := IndexOf(text, hs[i].name, last);
            && (start == -1 ==> ScanFrom(text, hs[i..], last) == ScanFrom(text, hs[i + 1..], last))
            && (start != -1 ==>
                  var before := Gap(text, last, start);
                  ScanFrom(text, hs[i..], last)
                  == before + [Highlight(hs[i])] + ScanFrom(text, hs[i + 1..], start + |hs[i].name|))
  {
    assert hs[i..][0] == hs[i] && hs[i..][1..] == hs[i + 1..];
  }

  /** The scan from `last` renders exactly the rest of the text. */
  lemma {:induction false} ScanRoundTrip(text: string, hs: seq<HighlightSpec>, last: nat)
    requires last <= |text|
    ensures Render(ScanFrom(text, hs, last)) == text[last..]
    decreases |hs|
  {
    if hs == [] {
      TailRender(text, last);
    } else {
      var start := IndexOf(text, hs[0].name, last);
      if start == -1 {
        ScanRoundTrip(text, hs[1..], last);
      } else {
        ScanFound(text, hs, last);
        var next := start + |hs[0].name|;
        ScanRoundTrip(text, hs[1..], next);
        RenderStep(text, last, start, hs[0], ScanFrom(text, hs[1..], next));
      }
    }
  }

  /** A name found at `start`: the scan emits the text before it, the highlight, then scans on from its end. */
  lemma ScanFound(text: string, hs: seq<HighlightSpec>, last: nat)
    requires last <= |text| && hs != [] && IndexOf(text, hs[0].name, last) != -1
    ensures var start := IndexOf(text, hs[0].name, last);
            && last <= start && OccursAt(text, hs[0].name, start)
            && ScanFrom(text, hs, last)
               == Gap(text, last, start)
                  + [Highlight(hs[0])] + ScanFrom(text, hs[1..], start + |hs[0].name|)
  {
    assert ClampFrom(text, last) == last;
  }

  lemma TailRender(text: string, last: nat)
    requires last <= |text|
    ensures Render(ScanFrom(text, [], last)) == text[last..]
  {
    if last < |text| {
      RenderOne(Text(text[last..]));
    }
  }

  /** Plain text up to an occurrence of a name, the name, then the rest: the text from `last` on. */
  lemma RenderStep(text: string, last: nat, start: nat, h: HighlightSpec, rest: seq<Segment>)
    requires last <= start && OccursAt(text, h.name, start)
    requires Render(rest) == text[start + |h.name|..]
    ensures var before := Gap(text, last, start);
            Render(before + [Highlight(h)] + rest) == text[last..]
  {
    var before := Gap(text, last, start);
    var end := start + |h.name|;
    RenderPieces(before, h, rest);
    RenderBefore(text, last, start);
    SliceSplit(text, last, start, end);
    Concat3(Render(before), h.name, Render(rest), text[last..start], text[start..end], text[end..]);
  }

  lemma Concat3(a: string, b: string, c: string, x: string, y: string, z: string)
    requires a == x && b == y && c == z
    ensures a + b + c == x + y + z
  {
  }

  /** Rendering the text before a name, the name and the rest. */
  lemma RenderPieces(before: seq<Segment>, h: HighlightSpec, rest: seq<Segment>)
    ensures Render(before + [Highlight(h)] + rest) == Render(before) + h.name + Render(rest)
  {
    RenderAppend(before + [Highlight(h)], rest);
    RenderAppend(before, [Highlight(h)]);
    RenderOne(Highlight(h));
  }

  /** The plain piece before a name renders as the text between `last` and the name. */
  lemma RenderBefore(text: string, last: nat, start: nat)
    requires last <= start <= |text|
    ensures Render(Gap(text, last, start)) == text[last..start]
  {
    if start > last {
      RenderOne(Text(text[last..start]));
    }
  }

  lemma RenderOne(seg: Segment)
    ensures Render([seg]) == SegmentText(seg)
  {
    assert Render([seg]) == SegmentText(seg) + Render([]);
  }

  /** Round trip: concatenating the segments, a highlight counting as its name, gives back the text. */
  lemma SegmentsRoundTrip(text: string, highlights: Option<seq<HighlightSpec>>)
    ensures Render(Segments(text, highlights)) == text
  {
    if highlights.None? || highlights.value == [] {
      RenderOne(Text(text));
    } else {
      ScanRoundTrip(text, highlights.value, 0);
      assert text[0..] == text;
    }
  }

  /** The scan never emits an empty plain segment. */
  lemma {:induction false} ScanNoEmptyText(text: string, hs: seq<HighlightSpec>, last: nat)
    requires last <= |text|
    ensures forall i :: 0 <= i < |ScanFrom(text, hs, last)| ==>
              (ScanFrom(text, hs, last)[i].Text? ==> ScanFrom(text, hs, last)[i].s != "")
    decreases |hs|
  {
    if hs != [] {
      var start := IndexOf(text, hs[0].name, last);
      if start == -1 {
        ScanNoEmptyText(text, hs[1..], last);
      } else {
        ScanNoEmptyText(text, hs[1..], start + |hs[0].name|);
      }
    }
  }

  /** With at least one highlight, no plain segment is empty. */
  lemma NoEmptyTextSegment(text: string, hs: seq<HighlightSpec>)
    requires hs != []
    ensures forall i :: 0 <= i < |Segments(text, Some(hs))| ==>
              (Segments(text, Some(hs))[i].Text? ==> Segments(text, Some(hs))[i].s != "")
  {
    ScanNoEmptyText(text, hs, 0);
  }

  lemma {:induction false} HighlightedAppend(a: seq<Segment>, b: seq<Segment>)
    ensures Highlighted(a + b) == Highlighted(a) + Highlighted(b)
    decreases |a|
  {
    if a == [] {
      assert a + b == b;
    } else {
      assert (a + b)[1..] == a[1..] + b;
      HighlightedAppend(a[1..], b);
    }
  }

  /** Highlights come out in the order of the list, each at most once; missing names are dropped. */
  lemma {:induction false} ScanHighlightsInOrder(text: string, hs: seq<HighlightSpec>, last: nat)
    requires last <= |text|
    ensures IsSubseq(Highlighted(ScanFrom(text, hs, last)), hs)
    decreases |hs|
  {
    if hs != [] {
      var start := IndexOf(text, hs[0].name, last);
      if start == -1 {
        ScanHighlightsInOrder(text, hs[1..], last);
        SubseqDropHead(Highlighted(ScanFrom(text, hs[1..], last)), hs);
      } else {
        var before := Gap(text, last, start);
        var rest := ScanFrom(text, hs[1..], start + |hs[0].name|);
        ScanFound(text, hs, last);
        ScanHighlightsInOrder(text, hs[1..], start + |hs[0].name|);
        HighlightedInOrderStep(before, rest, hs);
      }
    } else if last < |text| {
      assert Highlighted([Text(text[last..])]) == Highlighted([]);
    }
  }

  /** The highlights of the text before a name, the name and the rest: the name, then those of the rest. */
  lemma HighlightedPieces(before: seq<Segment>, h: HighlightSpec, rest: seq<Segment>)
    requires before == [] || (|before| == 1 && before[0].Text?)
    ensures Highlighted(before + [Highlight(h)] + rest) == [h] + Highlighted(rest)
  {
    HighlightedAppend(before + [Highlight(h)], rest);
    HighlightedAppend(before, [Highlight(h)]);
    assert Highlighted(before) == [] by {
      if before != [] {
        assert before[1..] == [];
      }
    }
    assert Highlighted([Highlight(h)]) == [h] by {
      assert [Highlight(h)][1..] == [];
    }
  }

  /** Placing the first highlight in front of the highlights of the rest keeps the list order. */
  lemma HighlightedInOrderStep(before: seq<Segment>, rest: seq<Segment>, hs: seq<HighlightSpec>)
    requires hs != [] && (before == [] || (|before| == 1 && before[0].Text?))
    requires IsSubseq(Highlighted(rest), hs[1..])
    ensures IsSubseq(Highlighted(before + [Highlight(hs[0])] + rest), hs)
  {
    HighlightedPieces(before, hs[0], rest);
    SubseqCons(Highlighted(rest), hs);
  }

  /**
   * A name with an occurrence at or after `last` is highlighted at its first such occurrence,
   * after the plain text in between; scanning continues from the end of the name.
   */
  lemma ScanPlacesFirstOccurrence(text: string, hs: seq<HighlightSpec>, last: nat, p: nat)
    requires last <= |text| && hs != []
    requires last <= p && OccursAt(text, hs[0].name, p)
    requires forall q :: last <= q < p ==> !OccursAt(text, hs[0].name, q)
    ensures p + |hs[0].name| <= |text|
    ensures var before := Gap(text, last, p);
            ScanFrom(text, hs, last) == before + [Highlight(hs[0])] + ScanFrom(text, hs[1..], p + |hs[0].name|)
  {
    assert ClampFrom(text, last) == last;
    IndexOfFindsFirst(text, hs[0].name, last, p);
  }

  /** A name with no occurrence at or after `last` is skipped, and `lastIndex` stays where it was. */
  lemma ScanSkipsMissing(text: string, hs: seq<HighlightSpec>, last: nat)
    requires last <= |text| && hs != []
    requires forall q :: last <= q ==> !OccursAt(text, hs[0].name, q)
    ensures ScanFrom(text, hs, last) == ScanFrom(text, hs[1..], last)
  {
    IndexOfIsFirst(text, hs[0].name, last);
  }
}
