/** Reading a page as a deck of slides, and one slide as a page (outputBlocks.ts). */
module Slides {
  import opened Basics
  import opened Markup

  /** Where a section tag starts, whether it closes, and where its name ends. */
  function SectionName(text: string, i: nat): Option<(bool, nat)> {
    if i < |text| && text[i] == '<' then
      var closing := i + 1 < |text| && text[i + 1] == '/';
      var name := if closing then i + 2 else i + 1;
      if AtAnyCase(text, name, "section") && (name + 7 == |text| || !IsWordChar(text[name + 7])) then Some((closing, name + 7))
      else None
    else None
  }

  /** The section tag that stands at `i`: whether it closes and where it ends. */
  function SectionTag(text: string, i: nat): (tag: Option<(bool, nat)>)
    ensures tag.Some? ==> i < tag.value.1 <= |text| && text[tag.value.1 - 1] == '>'
  {
    match SectionName(text, i)
    case None => None
    case Some((closing, end)) =>
      var gt := FindChar(text, '>', end);
      if gt < |text| then Some((closing, gt + 1)) else None
  }

  /** From inside `depth` open sections: where the outermost of them is closed. */
  function Closes(content: string, at: nat, depth: nat): (end: Option<nat>)
    requires at <= |content| && depth > 0
    ensures end.Some? ==> at < end.value <= |content| && content[end.value - 1] == '>'
    decreases |content| - at
  {
    if at == |content| then None
    else
      match SectionTag(content, at)
      case None => Closes(content, at + 1, depth)
      case Some((closing, end)) =>
        if !closing then Closes(content, end, depth + 1)
        else if depth == 1 then Some(end)
        else Closes(content, end, depth - 1)
  }

  /** Where the top-level sections from `at` on start and end. */
  function Sections(content: string, at: nat): (ranges: seq<(nat, nat)>)
    requires at <= |content|
    ensures forall k :: 0 <= k < |ranges| ==> at <= ranges[k].0 < ranges[k].1 <= |content| && content[ranges[k].1 - 1] == '>'
    decreases |content| - at
  {
    if at == |content| then []
    else
      match SectionTag(content, at)
      case None => Sections(content, at + 1)
      case Some((true, end)) => Sections(content, end)
      case Some((false, inside)) =>
        match Closes(content, inside, 1)
        case None => []
        case Some(end) => [(at, end)] + Sections(content, end)
  }

  /** What stands outside the top-level sections from `at` on; a section left open takes the rest. */
  function OutsideFrom(content: string, at: nat): string
    requires at <= |content|
    decreases |content| - at
  {
    if at == |content| then ""
    else
      match SectionTag(content, at)
      case None => [content[at]] + OutsideFrom(content, at + 1)
      case Some((true, end)) => content[at..end] + OutsideFrom(content, end)
      case Some((false, inside)) =>
        match Closes(content, inside, 1)
        case None => ""
        case Some(end) => OutsideFrom(content, end)
  }

  /** The texts of some stretches of the page. */
  function Texts(content: string, ranges: seq<(nat, nat)>): (texts: seq<string>)
    requires forall k :: 0 <= k < |ranges| ==> ranges[k].0 < ranges[k].1 <= |content|
    ensures |texts| == |ranges|
    ensures forall k :: 0 <= k < |ranges| ==> texts[k] == content[ranges[k].0..ranges[k].1]
  {
    seq(|ranges|, k requires 0 <= k < |ranges| => content[ranges[k].0..ranges[k].1])
  }

  /** What is still to be read at `at`, inside `depth` open sections the first of which starts at `from`. */
  ghost function Coming(content: string, at: nat, depth: nat, from: nat): seq<(nat, nat)>
    requires from <= at <= |content|
  {
    if depth == 0 then Sections(content, at)
    else
      match Closes(content, at, depth)
      case None => []
      case Some(end) => [(from, end)] + Sections(content, end)
  }

  ghost function ComingOutside(content: string, at: nat, depth: nat): string
    requires at <= |content|
  {
    if depth == 0 then OutsideFrom(content, at)
    else
      match Closes(content, at, depth)
      case None => ""
      case Some(end) => OutsideFrom(content, end)
  }

  lemma ComesFirst(content: string)
    ensures Coming(content, 0, 0, 0) == Sections(content, 0) && ComingOutside(content, 0, 0) == OutsideFrom(content, 0)
  {}

  lemma NothingComes(content: string, depth: nat, from: nat)
    requires from <= |content|
    ensures Coming(content, |content|, depth, from) == [] && ComingOutside(content, |content|, depth) == ""
  {}

  /** What one step of the pass leaves to be read. */
  lemma {:induction false} StepLeaves(content: string, at: nat, depth: nat, from: nat)
    requires from <= at < |content|
    ensures SectionTag(content, at) == None ==>
      Coming(content, at, depth, from) == Coming(content, at + 1, depth, from) &&
      ComingOutside(content, at, depth) ==
        if depth == 0 then content[at..at + 1] + ComingOutside(content, at + 1, 0) else ComingOutside(content, at + 1, depth)
    ensures forall end :: SectionTag(content, at) == Some((false, end)) ==>
      Coming(content, at, depth, from) == Coming(content, end, depth + 1, if depth == 0 then at else from) &&
      ComingOutside(content, at, depth) == ComingOutside(content, end, depth + 1)
    ensures forall end :: SectionTag(content, at) == Some((true, end)) ==>
      if depth == 0 then
        Coming(content, at, 0, from) == Coming(content, end, 0, from) &&
        ComingOutside(content, at, 0) == content[at..end] + ComingOutside(content, end, 0)
      else
        Coming(content, at, depth, from) ==
          (if depth == 1 then [(from, end)] + Coming(content, end, 0, from) else Coming(content, end, depth - 1, from)) &&
        ComingOutside(content, at, depth) == ComingOutside(content, end, depth - 1)
  {
    hide SectionTag;
    assert content[at..at + 1] == [content[at]];
  }

  lemma Regroup<T>(a: seq<T>, b: seq<T>, c: seq<T>)
    ensures a + (b + c) == a + b + c
  {}

  lemma Grows(before: string, content: string, cursor: nat, at: nat, end: nat, after: string)
    requires cursor <= at <= end <= |content|
    ensures before + content[cursor..at] + (content[at..end] + after) == before + content[cursor..end] + after
  {
    assert content[cursor..end] == content[cursor..at] + content[at..end];
    Regroup(before, content[cursor..at], content[at..end]);
    Regroup(before + content[cursor..at], content[at..end], after);
  }

  lemma TextsGrow(content: string, ranges: seq<(nat, nat)>, from: nat, end: nat)
    requires forall k :: 0 <= k < |ranges| ==> ranges[k].0 < ranges[k].1 <= |content|
    requires from < end <= |content|
    ensures Texts(content, ranges + [(from, end)]) == Texts(content, ranges) + [content[from..end]]
  {
    var more := ranges + [(from, end)];
    assert forall k :: 0 <= k < |more| ==> more[k] == if k < |ranges| then ranges[k] else (from, end);
  }

  /** What has been read and what is still to come make up the whole. */
  ghost predicate Reading(content: string, at: nat, depth: nat, from: nat, cursor: nat, slides: seq<string>, outside: string,
                          found: seq<(nat, nat)>)
  {
    && from <= at <= |content| && cursor <= at
    && (forall k :: 0 <= k < |found| ==> found[k].0 < found[k].1 <= |content|)
    && slides == Texts(content, found)
    && found + Coming(content, at, depth, from) == Sections(content, 0)
    && outside + (if depth == 0 then content[cursor..at] else "") + ComingOutside(content, at, depth)
         == OutsideFrom(content, 0)
  }

  lemma ReadNothing(content: string)
    ensures Reading(content, 0, 0, 0, 0, [], "", [])
  {
    hide Sections, OutsideFrom;
    ComesFirst(content);
    assert [] == Texts(content, []);
  }

  lemma ReadChar(content: string, at: nat, depth: nat, from: nat, cursor: nat, slides: seq<string>, outside: string,
                 found: seq<(nat, nat)>)
    requires Reading(content, at, depth, from, cursor, slides, outside, found) && at < |content| && SectionTag(content, at) == None
    ensures Reading(content, at + 1, depth, from, cursor, slides, outside, found)
  {
    hide SectionTag, Coming, ComingOutside, Texts, Sections, OutsideFrom;
    StepLeaves(content, at, depth, from);
    if depth == 0 {
      Grows(outside, content, cursor, at, at + 1, ComingOutside(content, at + 1, 0));
    }
  }

  lemma ReadOpening(content: string, at: nat, depth: nat, from: nat, cursor: nat, slides: seq<string>, outside: string,
                    found: seq<(nat, nat)>, end: nat)
    requires Reading(content, at, depth, from, cursor, slides, outside, found)
    requires at < |content| && SectionTag(content, at) == Some((false, end))
    ensures depth == 0 ==> Reading(content, end, 1, at, cursor, slides, outside + content[cursor..at], found)
    ensures depth > 0 ==> Reading(content, end, depth + 1, from, cursor, slides, outside, found)
  {
    hide SectionTag, Coming, ComingOutside, Texts, Sections, OutsideFrom;
    StepLeaves(content, at, depth, from);
  }

  lemma ReadClosing(content: string, at: nat, depth: nat, from: nat, cursor: nat, slides: seq<string>, outside: string,
                    found: seq<(nat, nat)>, end: nat)
    requires Reading(content, at, depth, from, cursor, slides, outside, found)
    requires at < |content| && SectionTag(content, at) == Some((true, end))
    ensures depth == 0 ==> Reading(content, end, 0, from, cursor, slides, outside, found)
    ensures depth == 1 ==>
      Reading(content, end, 0, from, end, slides + [content[from..end]], outside, found + [(from, end)])
    ensures depth > 1 ==> Reading(content, end, depth - 1, from, cursor, slides, outside, found)
  {
    hide SectionTag, Coming, ComingOutside, Texts, Sections, OutsideFrom;
    StepLeaves(content, at, depth, from);
    if depth == 0 {
      Grows(outside, content, cursor, at, end, ComingOutside(content, end, 0));
    } else if depth == 1 {
      Regroup(found, [(from, end)], Coming(content, end, 0, from));
      TextsGrow(content, found, from, end);
      assert content[end..end] == "";
    }
  }

  lemma ReadAll(content: string, depth: nat, from: nat, cursor: nat, slides: seq<string>, outside: string,
                found: seq<(nat, nat)>)
    requires Reading(content, |content|, depth, from, cursor, slides, outside, found)
    ensures slides == Texts(content, Sections(content, 0))
    ensures outside + (if depth > 0 then "" else content[cursor..]) == OutsideFrom(content, 0)
  {
    hide Coming, ComingOutside, Texts, Sections, OutsideFrom;
    NothingComes(content, depth, from);
    assert content[cursor..] == content[cursor..|content|];
  }

  /** One pass over the section tags, counting how many sections are open. */
  method ReadSections(content: string) returns (slides: seq<string>, outside: string)
    ensures slides == Texts(content, Sections(content, 0))
    ensures outside == OutsideFrom(content, 0)
  {
    hide SectionTag, Sections, OutsideFrom, Texts, Coming, ComingOutside;
    slides, outside := [], "";
    var depth: nat, from: nat, cursor: nat, at: nat := 0, 0, 0, 0;
    ghost var found: seq<(nat, nat)> := [];
    ReadNothing(content);
    while at < |content|
      invariant Reading(content, at, depth, from, cursor, slides, outside, found)
    {
      var tag := SectionTag(content, at);
      match tag
      case None =>
        ReadChar(content, at, depth, from, cursor, slides, outside, found);
        at := at + 1;
      case Some((false, end)) =>
        ReadOpening(content, at, depth, from, cursor, slides, outside, found, end);
        if depth == 0 {
          outside := outside + content[cursor..at];
          from := at;
        }
        depth := depth + 1;
        at := end;
      case Some((true, end)) =>
        ReadClosing(content, at, depth, from, cursor, slides, outside, found, end);
        if depth > 0 {
          depth := depth - 1;
          if depth == 0 {
            cursor := end;
            slides := slides + [content[from..cursor]];
            found := found + [(from, end)];
          }
        }
        at := end;
    }
    ReadAll(content, depth, from, cursor, slides, outside, found);
    outside := outside + if depth > 0 then "" else content[cursor..];
  }

  /** The end of a script or style that starts at `i`. */
  function BlockEnd(text: string, i: nat, open: string, close: string): Option<nat> {
    if AtAnyCase(text, i, open) && i + |open| < |text| && !IsWordChar(text[i + |open|]) then
      match FindAnyCase(text, close, i + |open|)
      case None => None
      case Some(at) => Some(at + |close|)
    else None
  }

  /** The end of the comment, script or style that stands at `i`. */
  function StrippedEnd(text: string, i: nat): (end: Option<nat>)
    ensures end.Some? ==> i < end.value <= |text|
  {
    if At(text, i, "<!--") then
      match Find(text, "-->", i + 4)
      case Some(at) => Some(at + 3)
      case None => None
    else
      match BlockEnd(text, i, "<script", "</script>")
      case Some(end) => Some(end)
      case None => BlockEnd(text, i, "<style", "</style>")
  }

  /** Whether nothing but white space is left when comments, scripts and styles are taken out. */
  predicate NothingLoose(text: string, i: nat)
    requires i <= |text|
    decreases |text| - i
  {
    if i == |text| then true
    else
      match StrippedEnd(text, i)
      case Some(end) => NothingLoose(text, end)
      case None => IsBlankChar(text[i]) && NothingLoose(text, i + 1)
  }

  datatype Deck = Deck(head: string, body: string, slides: seq<string>, tail: string)

  const NO_DECK: Deck := Deck("", "", [], "")

  /** The first body tag: where it starts and where its closing angle stands. */
  function BodyTag(source: string): (tag: Option<(nat, nat)>)
    ensures tag.Some? ==> tag.value.0 + 5 <= tag.value.1 < |source| && source[tag.value.1] == '>'
  {
    match FindAnyCase(source, "<body", 0)
    case None => None
    case Some(at) =>
      var gt := FindChar(source, '>', at + 5);
      if gt < |source| then Some((at, gt)) else None
  }

  /** The page from `start` to the first closing body tag, which may even stand before `start`. */
  function Content(source: string, start: nat): (content: string)
    requires start <= |source|
    ensures start + |content| <= |source| && content == source[start..start + |content|]
  {
    match FindAnyCase(source, "</body>", 0)
    case None => source[start..]
    case Some(end) => if start <= end then source[start..end] else ""
  }

  /** What stands in the first head element that is closed. */
  function HeadFrom(source: string, at: nat): string
    requires at <= |source|
    decreases |source| - at
  {
    if at == |source| then ""
    else if AtAnyCase(source, at, "<head") then
      var gt := FindChar(source, '>', at + 5);
      if gt == |source| then ""
      else
        match FindAnyCase(source, "</head>", gt + 1)
        case None => ""
        case Some(end) => source[gt + 1..end]
    else HeadFrom(source, at + 1)
  }

  /** Each top-level section is a slide, as long as nothing loose is left between them. */
  function Read(source: string): Deck {
    match BodyTag(source)
    case None => NO_DECK
    case Some((at, gt)) =>
      var content := Content(source, gt + 1);
      if !NothingLoose(OutsideFrom(content, 0), 0) then NO_DECK
      else Deck(HeadFrom(source, 0), source[at + 5..gt], Texts(content, Sections(content, 0)), OutsideFrom(content, 0))
  }

  method SlidesOf(source: string) returns (deck: Deck)
    ensures deck == Read(source)
  {
    hide BodyTag, Content, NothingLoose, HeadFrom, Sections, OutsideFrom, Texts;
    var open := BodyTag(source);
    if open == None {
      return NO_DECK;
    }
    var (at, gt) := open.value;
    var slides, outside := ReadSections(Content(source, gt + 1));
    if !NothingLoose(outside, 0) {
      return NO_DECK;
    }
    deck := Deck(HeadFrom(source, 0), source[at + 5..gt], slides, outside);
  }

  const PREAMBLE := "<!doctype html>" + "<html>"
  const META := "<meta charset=\"utf-8\">"
  const FILL_PAGE := "html,body{height:" + "100%;margin:0}"
  const FILL_SECTION := "body>section{" + "box-sizing:border-box;" + "min-height:100%}"
  const FILL := "<style>" + FILL_PAGE + FILL_SECTION + "</style>"

  /** The page drawn for a single slide; beyond the last slide it is empty. */
  function SlidePage(deck: Deck, index: nat): string {
    var slide := if index < |deck.slides| then deck.slides[index] else "";
    PREAMBLE + "<head>" + META + deck.head + FILL + "</head>" + "<body" + deck.body + ">" + slide + deck.tail + "</body></html>"
  }
}
