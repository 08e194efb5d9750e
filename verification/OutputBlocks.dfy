/** Finding the outputs in a reply's markup (outputBlocks.ts). */
module OutputBlocks {
  import opened Basics
  import opened Markup
  import opened Slides

  // Text made safe for markup, and back.

  function Mark(c: char): string {
    match c
    case '&' => "&amp;"
    case '<' => "&lt;"
    case '>' => "&gt;"
    case '"' => "&quot;"
    case '\'' => "&#39;"
    case _ => [c]
  }

  function EscapeMarkup(text: string): string {
    if text == "" then "" else Mark(text[0]) + EscapeMarkup(text[1..])
  }

  predicate StartsWith(text: string, start: string) {
    |start| <= |text| && text[..|start|] == start
  }

  /** What the entity a text starts with stands for, and its length. */
  function Entity(text: string): (e: Option<(char, nat)>)
    ensures e.Some? ==> 0 < e.value.1 <= |text|
  {
    if StartsWith(text, "&lt;") then Some(('<', 4))
    else if StartsWith(text, "&gt;") then Some(('>', 4))
    else if StartsWith(text, "&quot;") then Some(('"', 6))
    else if StartsWith(text, "&#39;") then Some(('\'', 5))
    else if StartsWith(text, "&amp;") then Some(('&', 5))
    else None
  }

  function Unescape(text: string): string
    decreases |text|
  {
    if text == "" then ""
    else
      match Entity(text)
      case Some((c, length)) => [c] + Unescape(text[length..])
      case None => [text[0]] + Unescape(text[1..])
  }

  lemma MarkRead(c: char, rest: string)
    ensures var text := Mark(c) + rest;
      Unescape(text) == [c] + Unescape(rest)
  {
    var text, mark := Mark(c) + rest, Mark(c);
    assert text[..|mark|] == mark && text[|mark|..] == rest;
    if |mark| == 1 {
      assert text[0] == c && text[1..] == rest;
      assert Entity(text).None?;
    } else {
      assert text[0] == mark[0] && text[1] == mark[1] && text[2] == mark[2];
      assert Entity(text) == Some((c, |mark|));
    }
  }

  /** Unescaping undoes escaping, whatever the text. */
  lemma {:induction false} UnescapeEscape(text: string)
    ensures Unescape(EscapeMarkup(text)) == text
  {
    if text != "" {
      UnescapeEscape(text[1..]);
      MarkRead(text[0], EscapeMarkup(text[1..]));
    }
  }

  /** Escaped text holds none of the marks that could end what it is put in. */
  lemma {:induction false} EscapedIsInert(text: string)
    ensures forall k :: 0 <= k < |EscapeMarkup(text)| ==> EscapeMarkup(text)[k] !in {'<', '>', '"', '\''}
  {
    if text != "" {
      EscapedIsInert(text[1..]);
    }
  }

  // Splitting a reply.

  const OPEN: string := "<pre data-lang=\""
  const MIDDLE: string := "\"><code>"
  const CLOSE: string := "</code></pre>"

  datatype Kind = Diagram | Drawing | Page | SlideDeck

  datatype Segment = Html(html: string) | Output(kind: Kind, source: string, sourceIndex: nat)

  datatype Match = Match(index: nat, language: string, body: string, end: nat)

  /** The fenced block that stands at `i`. */
  function BlockAt(html: string, i: nat): (m: Option<Match>)
    ensures m.Some? ==> m.value.index == i && i < m.value.end <= |html|
  {
    if !At(html, i, OPEN) then None
    else
      var from := i + |OPEN|;
      var quote := FindChar(html, '"', from);
      if !At(html, quote, MIDDLE) then None
      else
        match Find(html, CLOSE, quote + |MIDDLE|)
        case None => None
        case Some(end) => Some(Match(i, html[from..quote], html[quote + |MIDDLE|..end], end + |CLOSE|))
  }

  /** The first fenced block from `from` on. */
  function NextBlock(html: string, from: nat): (m: Option<Match>)
    requires from <= |html|
    ensures m.Some? ==> from <= m.value.index < m.value.end <= |html|
    decreases |html| - from
  {
    if from == |html| then None
    else
      match BlockAt(html, from)
      case Some(m) => Some(m)
      case None => NextBlock(html, from + 1)
  }

  function SkipBlank(text: string, i: nat): (j: nat)
    requires i <= |text|
    ensures i <= j <= |text|
    decreases |text| - i
  {
    if i < |text| && IsBlankChar(text[i]) then SkipBlank(text, i + 1) else i
  }

  predicate IsDocument(source: string) {
    var at := SkipBlank(source, 0);
    || AtAnyCase(source, at, "<!doctype html")
    || (AtAnyCase(source, at, "<html") && at + 5 < |source| && (IsBlankChar(source[at + 5]) || source[at + 5] == '>'))
  }

  /** What a fenced block of that language is shown as, if it is an output. */
  function KindOf(language: string, source: string): Option<Kind> {
    if language == "mermaid" then Some(Diagram)
    else if language == "svg" then Some(Drawing)
    else if language == "html" && IsDocument(source) then
      Some(if |Read(source).slides| > 1 then SlideDeck else Page)
    else None
  }

  /** The text begins so, in any case. */
  predicate Begins(text: string, start: string) {
    |start| <= |text| && forall k :: 0 <= k < |start| ==> Lower(text[k]) == start[k]
  }

  /** A page and not a fragment: behind white space a doctype or an html element. */
  ghost predicate IsPage(source: string) {
    exists n: nat :: n <= |source| && IsBlank(source[..n]) && OpensPage(source[n..])
  }

  predicate OpensPage(text: string) {
    Begins(text, "<!doctype html") || (Begins(text, "<html") && |text| > 5 && (text[5] == '>' || IsBlankChar(text[5])))
  }

  lemma {:induction false} BlankSkipped(text: string, i: nat)
    requires i <= |text|
    ensures forall k :: i <= k < SkipBlank(text, i) ==> IsBlankChar(text[k])
    ensures SkipBlank(text, i) < |text| ==> !IsBlankChar(text[SkipBlank(text, i)])
    decreases |text| - i
  {
    hide IsBlankChar;
    if i < |text| && IsBlankChar(text[i]) {
      BlankSkipped(text, i + 1);
    }
  }

  lemma BeginsHere(text: string, i: nat, start: string)
    requires i <= |text|
    ensures AtAnyCase(text, i, start) <==> Begins(text[i..], start)
  {
    if Begins(text[i..], start) {
      forall k | 0 <= k < |start| ensures Lower(text[i + k]) == start[k] {
        assert text[i..][k] == text[i + k];
      }
    }
  }

  lemma BlankBefore(text: string, n: nat, k: nat)
    requires k < n <= |text| && IsBlank(text[..n])
    ensures IsBlankChar(text[k])
  {
    assert text[..n][k] == text[k];
  }

  lemma PagesAreDocuments(source: string)
    ensures IsDocument(source) <==> IsPage(source)
  {
    hide IsBlankChar, Begins, AtAnyCase;
    var at := SkipBlank(source, 0);
    BlankSkipped(source, 0);
    BeginsHere(source, at, "<!doctype html");
    BeginsHere(source, at, "<html");
    if IsPage(source) {
      var n: nat :| n <= |source| && IsBlank(source[..n]) && OpensPage(source[n..]);
      PageStarts(source[n..]);
      assert source[n] == source[n..][0];
      if at < n {
        BlankBefore(source, n, at);
      }
    }
    assert IsDocument(source) ==> IsBlank(source[..at]) && OpensPage(source[at..]);
  }

  lemma PageStarts(text: string)
    requires OpensPage(text)
    ensures text != "" && !IsBlankChar(text[0])
  {
    assert "<html"[0] == '<' && "<!doctype html"[0] == '<';
  }

  /** What is shown instead of a fenced block: a diagram, a drawing, a whole page, which is a deck when it has
      more than one slide, and no other block. */
  lemma ShownAs(language: string, source: string)
    ensures KindOf(language, source).Some? <==> language == "mermaid" || language == "svg" || (language == "html" && IsPage(source))
    ensures KindOf(language, source) == Some(Diagram) <==> language == "mermaid"
    ensures KindOf(language, source) == Some(Drawing) <==> language == "svg"
    ensures KindOf(language, source) == Some(SlideDeck) <==> language == "html" && IsPage(source) && |Read(source).slides| > 1
  {
    hide IsPage, IsDocument, Read;
    PagesAreDocuments(source);
  }

  function HtmlUnlessBlank(html: string): seq<Segment> {
    if IsBlank(html) then [] else [Html(html)]
  }

  /** The segments still to come: markup not yet shown starts at `from`, the search goes on at `at`. */
  function SegmentsFrom(html: string, from: nat, at: nat, sourceIndex: nat): seq<Segment>
    requires from <= at <= |html|
    decreases |html| - at
  {
    match NextBlock(html, at)
    case None => HtmlUnlessBlank(html[from..])
    case Some(m) =>
      match KindOf(m.language, Unescape(m.body))
      case None => SegmentsFrom(html, from, m.end, sourceIndex + 1)
      case Some(kind) =>
        HtmlUnlessBlank(html[from..m.index]) + [Output(kind, Unescape(m.body), sourceIndex)] +
        SegmentsFrom(html, m.end, m.end, sourceIndex + 1)
  }

  function Segments(html: string): seq<Segment> {
    var segments := SegmentsFrom(html, 0, 0, 0);
    if segments == [] then [Html(html)] else segments
  }

  lemma Reassociate(done: seq<Segment>, shown: seq<Segment>, output: Segment, rest: seq<Segment>)
    ensures done + (shown + [output] + rest) == done + shown + [output] + rest
    ensures done + [] == done
  {
  }

  /** What is left when no block is: the markup not yet shown, unless blank and not all there is. */
  lemma SegmentsEnd(html: string, segments: seq<Segment>, from: nat, at: nat, sourceIndex: nat)
    requires from <= at <= |html| && NextBlock(html, at).None? && (segments == [] ==> from == 0)
    requires segments + SegmentsFrom(html, from, at, sourceIndex) == SegmentsFrom(html, 0, 0, 0)
    ensures Segments(html) ==
      if !IsBlank(html[from..]) || segments == [] then segments + [Html(html[from..])] else segments
  {
    hide NextBlock, IsBlank;
  }

  method SplitOutputs(html: string) returns (segments: seq<Segment>)
    ensures segments == Segments(html)
  {
    hide NextBlock, KindOf, Unescape, IsBlank, Segments;
    segments := [];
    var from, at, sourceIndex := 0, 0, 0;
    var next := NextBlock(html, 0);
    while next.Some?
      invariant 0 <= from <= at <= |html| && 0 <= sourceIndex && next == NextBlock(html, at)
      invariant segments + SegmentsFrom(html, from, at, sourceIndex) == SegmentsFrom(html, 0, 0, 0)
      invariant segments == [] ==> from == 0
      decreases |html| - at
    {
      var m := next.value;
      var source := Unescape(m.body);
      var kind := KindOf(m.language, source);
      if kind.Some? {
        var before := html[from..m.index];
        Reassociate(segments, HtmlUnlessBlank(before), Output(kind.value, source, sourceIndex),
                    SegmentsFrom(html, m.end, m.end, sourceIndex + 1));
        if !IsBlank(before) {
          segments := segments + [Html(before)];
        }
        segments := segments + [Output(kind.value, source, sourceIndex)];
        from := m.end;
      }
      sourceIndex := sourceIndex + 1;
      at := m.end;
      next := NextBlock(html, at);
    }
    var rest := html[from..];
    SegmentsEnd(html, segments, from, at, sourceIndex);
    if !IsBlank(rest) || segments == [] {
      segments := segments + [Html(rest)];
    }
  }

  // Replies as the backend renders them: prose and fenced blocks by turns.

  datatype Part = Part(prose: string, language: string, body: string)

  datatype Reply = Reply(parts: seq<Part>, tail: string)

  function RenderPart(part: Part): string {
    part.prose + RenderBlock(part)
  }

  function Render(reply: Reply): string
    decreases |reply.parts|
  {
    if reply.parts == [] then reply.tail
    else RenderPart(reply.parts[0]) + Render(Reply(reply.parts[1..], reply.tail))
  }

  ghost predicate NoOpen(text: string) {
    forall k: nat :: !At(text, k, OPEN)
  }

  /** Prose in which no fenced block opens, and language names without a quote. */
  ghost predicate Rendered(reply: Reply) {
    && NoOpen(reply.tail)
    && forall k :: 0 <= k < |reply.parts| ==> NoOpen(reply.parts[k].prose) && '"' !in reply.parts[k].language
  }

  /** The outputs a reply is made with: its qualifying blocks, each with its place among all. */
  function OutputsOf(parts: seq<Part>, sourceIndex: nat): seq<Segment> {
    if parts == [] then []
    else
      (match KindOf(parts[0].language, parts[0].body)
       case None => []
       case Some(kind) => [Output(kind, parts[0].body, sourceIndex)]) + OutputsOf(parts[1..], sourceIndex + 1)
  }

  function OnlyOutputs(segments: seq<Segment>): seq<Segment> {
    if segments == [] then []
    else if segments[0].Output? then [segments[0]] + OnlyOutputs(segments[1..])
    else OnlyOutputs(segments[1..])
  }

  /** A block cannot open in prose, nor across its end into the next block. */
  lemma NoOpenInProse(html: string, i: nat, prose: string, k: nat)
    requires At(html, i, prose) && NoOpen(prose) && k < |prose|
    requires i + |prose| == |html| || html[i + |prose|] == '<'
    ensures !At(html, i + k, OPEN)
  {
    if k + |OPEN| <= |prose| {
      AtInside(html, i, prose, k, OPEN);
    } else if At(html, i + k, OPEN) {
      AtChar(html, i + k, OPEN, |prose| - k);
      assert false;
    }
  }

  /** The close found after an escaped body is the one that was put there. */
  lemma CloseAfter(html: string, i: nat, body: string)
    requires At(html, i, EscapeMarkup(body)) && At(html, i + |EscapeMarkup(body)|, CLOSE)
    ensures Find(html, CLOSE, i) == Some(i + |EscapeMarkup(body)|)
  {
    hide EscapeMarkup, Find;
    var escaped := EscapeMarkup(body);
    EscapedIsInert(body);
    forall k: nat | i <= k < i + |escaped| ensures !At(html, k, CLOSE) {
      AtChar(html, i, escaped, k - i);
      if At(html, k, CLOSE) {
        AtChar(html, k, CLOSE, 0);
      }
    }
    FindAt(html, CLOSE, i, i + |escaped|);
  }

  function RenderBlock(part: Part): string {
    OPEN + (part.language + (MIDDLE + (EscapeMarkup(part.body) + CLOSE)))
  }

  /** A block is read back with its language and its escaped body. */
  lemma BlockReads(html: string, i: nat, part: Part)
    requires At(html, i, RenderBlock(part)) && '"' !in part.language
    ensures BlockAt(html, i) == Some(Match(i, part.language, EscapeMarkup(part.body), i + |RenderBlock(part)|))
  {
    hide EscapeMarkup, Find, FindChar;
    var language, escaped := part.language, EscapeMarkup(part.body);
    AtSplit(html, i, OPEN, language + (MIDDLE + (escaped + CLOSE)));
    var from := i + |OPEN|;
    AtSplit(html, from, language, MIDDLE + (escaped + CLOSE));
    var quote := from + |language|;
    AtSplit(html, quote, MIDDLE, escaped + CLOSE);
    AtSplit(html, quote + |MIDDLE|, escaped, CLOSE);
    forall k | from <= k < quote ensures html[k] != '"' {
      AtChar(html, from, language, k - from);
    }
    AtChar(html, quote, MIDDLE, 0);
    FindCharAt(html, '"', from, quote);
    CloseAfter(html, quote + |MIDDLE|, part.body);
  }

  lemma {:induction false} SkipProse(html: string, from: nat, end: nat)
    requires from <= end <= |html| && forall k: nat :: from <= k < end ==> !At(html, k, OPEN)
    ensures NextBlock(html, from) == NextBlock(html, end)
    decreases end - from
  {
    hide At;
    if from < end {
      SkipProse(html, from + 1, end);
    }
  }

  /** The next block of a reply is its first part's. */
  lemma FirstPart(html: string, i: nat, part: Part)
    requires At(html, i, RenderPart(part)) && NoOpen(part.prose) && '"' !in part.language
    ensures NextBlock(html, i) ==
      Some(Match(i + |part.prose|, part.language, EscapeMarkup(part.body), i + |RenderPart(part)|))
  {
    hide BlockAt, NoOpen, At;
    var at := i + |part.prose|;
    AtSplit(html, i, part.prose, RenderBlock(part));
    AtBlock(html, at, part);
    forall k: nat | i <= k < at ensures !At(html, k, OPEN) {
      NoOpenInProse(html, i, part.prose, k - i);
    }
    SkipProse(html, i, at);
    BlockReads(html, at, part);
  }

  lemma AtBlock(html: string, i: nat, part: Part)
    requires At(html, i, RenderBlock(part))
    ensures i < |html| && html[i] == '<'
  {
    AtChar(html, i, RenderBlock(part), 0);
  }

  lemma NoBlockInTail(html: string, i: nat, tail: string)
    requires At(html, i, tail) && i + |tail| == |html| && NoOpen(tail)
    ensures NextBlock(html, i).None?
  {
    hide BlockAt, NoOpen;
    forall k: nat | i <= k < |html| ensures !At(html, k, OPEN) {
      NoOpenInProse(html, i, tail, k - i);
    }
    SkipProse(html, i, |html|);
  }

  lemma {:induction false} OutputsSum(a: seq<Segment>, b: seq<Segment>)
    ensures OnlyOutputs(a + b) == OnlyOutputs(a) + OnlyOutputs(b)
  {
    if a == [] {
      assert a + b == b;
    } else {
      assert (a + b)[1..] == a[1..] + b;
      OutputsSum(a[1..], b);
    }
  }

  lemma OneSegment(segment: Segment)
    ensures OnlyOutputs([segment]) == if segment.Output? then [segment] else []
  {
    assert [segment][1..] == [];
  }

  /** The segments a reply is made with: between its qualifying blocks everything else as it stands,
      unless it is blank. */
  function Expected(parts: seq<Part>, tail: string, before: string, sourceIndex: nat): seq<Segment>
    decreases |parts|
  {
    if parts == [] then HtmlUnlessBlank(before + tail)
    else
      match KindOf(parts[0].language, parts[0].body)
      case None => Expected(parts[1..], tail, before + RenderPart(parts[0]), sourceIndex + 1)
      case Some(kind) =>
        HtmlUnlessBlank(before + parts[0].prose) + [Output(kind, parts[0].body, sourceIndex)] +
        Expected(parts[1..], tail, "", sourceIndex + 1)
  }

  lemma SliceGrows(html: string, from: nat, i: nat, part: string)
    requires from <= i && At(html, i, part)
    ensures html[from..i + |part|] == html[from..i] + part
  {
    assert html[from..i + |part|] == html[from..i] + html[i..i + |part|];
  }

  lemma {:induction false} PartsAreSplit(html: string, i: nat, reply: Reply, from: nat, sourceIndex: nat)
    requires At(html, i, Render(reply)) && i + |Render(reply)| == |html| && from <= i && Rendered(reply)
    ensures SegmentsFrom(html, from, i, sourceIndex) == Expected(reply.parts, reply.tail, html[from..i], sourceIndex)
    decreases |reply.parts|
  {
    hide NoOpen, KindOf, NextBlock, RenderPart, EscapeMarkup, Unescape, IsBlank, At;
    if reply.parts == [] {
      NoBlockInTail(html, i, reply.tail);
      SliceGrows(html, from, i, reply.tail);
      assert html[from..] == html[from..i + |reply.tail|];
    } else {
      var part, rest := reply.parts[0], Reply(reply.parts[1..], reply.tail);
      AtSplit(html, i, RenderPart(part), Render(rest));
      FirstPart(html, i, part);
      UnescapeEscape(part.body);
      var next, at := i + |RenderPart(part)|, i + |part.prose|;
      match KindOf(part.language, part.body)
      case None =>
        PartsAreSplit(html, next, rest, from, sourceIndex + 1);
        SliceGrows(html, from, i, RenderPart(part));
      case Some(kind) =>
        PartsAreSplit(html, next, rest, next, sourceIndex + 1);
        ProseStands(html, i, part);
        SliceGrows(html, from, i, part.prose);
        assert html[next..next] == "";
    }
  }

  lemma ProseStands(html: string, i: nat, part: Part)
    requires At(html, i, RenderPart(part))
    ensures At(html, i, part.prose)
  {
    AtSplit(html, i, part.prose, RenderBlock(part));
  }

  lemma {:induction false} ExpectedOutputs(parts: seq<Part>, tail: string, before: string, sourceIndex: nat)
    ensures OnlyOutputs(Expected(parts, tail, before, sourceIndex)) == OutputsOf(parts, sourceIndex)
    decreases |parts|
  {
    hide KindOf, RenderPart, IsBlank, OnlyOutputs;
    NoSegments();
    if parts == [] {
      OneSegment(Html(before + tail));
    } else {
      var part := parts[0];
      match KindOf(part.language, part.body)
      case None => ExpectedOutputs(parts[1..], tail, before + RenderPart(part), sourceIndex + 1);
      case Some(kind) =>
        var shown, output := HtmlUnlessBlank(before + part.prose), Output(kind, part.body, sourceIndex);
        ExpectedOutputs(parts[1..], tail, "", sourceIndex + 1);
        OutputsSum(shown + [output], Expected(parts[1..], tail, "", sourceIndex + 1));
        OutputsSum(shown, [output]);
        OneSegment(output);
        OneSegment(Html(before + part.prose));
    }
  }

  lemma NoSegments()
    ensures OnlyOutputs([]) == []
  {
  }

  /** The outputs of a rendered reply are exactly its qualifying blocks, in order, each with the
      body it was made from and its place among all blocks. */
  lemma ReplySplits(reply: Reply)
    requires Rendered(reply)
    ensures OnlyOutputs(Segments(Render(reply))) == OutputsOf(reply.parts, 0)
  {
    hide Expected, SegmentsFrom;
    AtWhole(Render(reply));
    PartsAreSplit(Render(reply), 0, reply, 0, 0);
    ExpectedOutputs(reply.parts, reply.tail, Render(reply)[0..0], 0);
    NoSegments();
    OneSegment(Html(Render(reply)));
  }

  // Nothing of a reply is lost but white space.

  function LanguageOf(kind: Kind): string {
    match kind
    case Diagram => "mermaid"
    case Drawing => "svg"
    case _ => "html"
  }

  /** The segments put together again, each output as the block it came from. */
  function Again(segments: seq<Segment>): string {
    if segments == [] then ""
    else
      (match segments[0]
       case Html(html) => html
       case Output(kind, source, _) => RenderBlock(Part("", LanguageOf(kind), source))) + Again(segments[1..])
  }

  /** What of a text is not white space. */
  function Ink(text: string): string {
    if text == "" then ""
    else if IsBlankChar(text[0]) then Ink(text[1..])
    else [text[0]] + Ink(text[1..])
  }

  lemma {:induction false} InkSum(a: string, b: string)
    ensures Ink(a + b) == Ink(a) + Ink(b)
    decreases |a|
  {
    if a == "" {
      assert a + b == b;
    } else {
      assert (a + b)[1..] == a[1..] + b;
      InkSum(a[1..], b);
    }
  }

  lemma {:induction false} BlankHasNoInk(text: string)
    requires IsBlank(text)
    ensures Ink(text) == ""
  {
    if text != "" {
      assert IsBlankChar(text[0]);
      BlankHasNoInk(text[1..]);
    }
  }

  lemma {:induction false} AgainSum(a: seq<Segment>, b: seq<Segment>)
    ensures Again(a + b) == Again(a) + Again(b)
    decreases |a|
  {
    hide RenderBlock;
    if a == [] {
      assert a + b == b;
    } else {
      assert (a + b)[1..] == a[1..] + b;
      AgainSum(a[1..], b);
    }
  }

  lemma HtmlInk(html: string)
    ensures Ink(Again(HtmlUnlessBlank(html))) == Ink(html)
  {
    hide IsBlank, Ink;
    if IsBlank(html) {
      BlankHasNoInk(html);
      NothingIsBlank();
      BlankHasNoInk("");
    } else {
      OneHtml(html);
    }
  }

  lemma NothingIsBlank()
    ensures IsBlank("")
  {}

  lemma OutputAgain(part: Part, kind: Kind, sourceIndex: nat)
    requires KindOf(part.language, part.body) == Some(kind)
    ensures Again([Output(kind, part.body, sourceIndex)]) == RenderBlock(part)
  {
    hide Read;
    assert [Output(kind, part.body, sourceIndex)][1..] == [];
    assert part.language == LanguageOf(kind);
  }

  lemma {:induction false} ExpectedInk(reply: Reply, before: string, sourceIndex: nat)
    ensures Ink(Again(Expected(reply.parts, reply.tail, before, sourceIndex))) == Ink(before + Render(reply))
    decreases |reply.parts|
  {
    hide KindOf, RenderPart, RenderBlock, Ink, Again, HtmlUnlessBlank;
    if reply.parts == [] {
      HtmlInk(before + reply.tail);
    } else {
      var part, rest := reply.parts[0], Reply(reply.parts[1..], reply.tail);
      match KindOf(part.language, part.body)
      case None =>
        ExpectedInk(rest, before + RenderPart(part), sourceIndex + 1);
        assert before + Render(reply) == before + RenderPart(part) + Render(rest);
      case Some(kind) =>
        var shown, output := HtmlUnlessBlank(before + part.prose), [Output(kind, part.body, sourceIndex)];
        var others := Expected(rest.parts, rest.tail, "", sourceIndex + 1);
        ExpectedInk(rest, "", sourceIndex + 1);
        HtmlInk(before + part.prose);
        OutputAgain(part, kind, sourceIndex);
        AgainSum(shown + output, others);
        AgainSum(shown, output);
        InkSum(Again(shown + output), Again(others));
        InkSum(Again(shown), Again(output));
        PartInk(before, part);
        InkSum(before + RenderPart(part), Render(rest));
        assert "" + Render(rest) == Render(rest);
        assert before + Render(reply) == before + RenderPart(part) + Render(rest);
    }
  }

  lemma PartInk(before: string, part: Part)
    ensures Ink(before + RenderPart(part)) == Ink(before + part.prose) + Ink(RenderBlock(part))
  {
    hide Ink, RenderBlock;
    assert before + RenderPart(part) == before + part.prose + RenderBlock(part);
    InkSum(before + part.prose, RenderBlock(part));
  }

  /** The segments of a rendered reply, put together again, are the reply up to white space: no prose
      and no block that is no output is lost or moved. */
  lemma ReplyComesBack(reply: Reply)
    requires Rendered(reply)
    ensures Ink(Again(Segments(Render(reply)))) == Ink(Render(reply))
  {
    hide Expected, SegmentsFrom, Ink, Again, Render;
    AtWhole(Render(reply));
    PartsAreSplit(Render(reply), 0, reply, 0, 0);
    ExpectedInk(reply, "", 0);
    assert Render(reply)[0..0] == "" && "" + Render(reply) == Render(reply);
    OneHtml(Render(reply));
  }

  lemma OneHtml(html: string)
    ensures Again([Html(html)]) == html
  {
    assert [Html(html)][1..] == [];
  }
}
