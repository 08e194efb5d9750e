/** What reading a page as a deck keeps: its nesting, one slide at a time, and a page that is cut short. */
module SlideDecks {
  import opened Basics
  import opened Markup
  import opened Slides

  function Shift(tag: Option<(bool, nat)>, offset: nat): Option<(bool, nat)> {
    match tag
    case None => None
    case Some((closing, end)) => Some((closing, offset + end))
  }

  /** `part` stands in `text` at `i`, and no tag can run on over its end. */
  predicate Apart(text: string, i: nat, part: string) {
    At(text, i, part) && |part| > 0 &&
    (part[|part| - 1] == '>' || i + |part| == |text| || text[i + |part|] == '<')
  }

  lemma AnyCaseChar(text: string, i: nat, pattern: string, j: nat)
    requires AtAnyCase(text, i, pattern) && j < |pattern|
    ensures i + |pattern| <= |text| && Lower(text[i + j]) == pattern[j]
  {}

  lemma AnyCaseHere(text: string, i: nat, part: string, k: nat, pattern: string)
    requires At(text, i, part) && k + |pattern| <= |part|
    ensures AtAnyCase(text, i + k, pattern) == AtAnyCase(part, k, pattern)
  {
    if AtAnyCase(part, k, pattern) {
      forall j | 0 <= j < |pattern| ensures Lower(text[i + k + j]) == pattern[j] {
        AtChar(text, i, part, k + j);
      }
    }
  }

  /** A text in any case that would run over the end of a part set apart would hold an angle inside it. */
  lemma AnyCaseOver(text: string, i: nat, part: string, k: nat, pattern: string)
    requires Apart(text, i, part) && k < |part| < k + |pattern|
    requires forall j :: 0 < j < |pattern| ==> pattern[j] != '<'
    requires forall j :: 0 <= j < |pattern| - 1 ==> pattern[j] != '>'
    ensures !AtAnyCase(text, i + k, pattern) && !AtAnyCase(part, k, pattern)
  {
    if AtAnyCase(text, i + k, pattern) {
      AtChar(text, i, part, |part| - 1);
      AnyCaseChar(text, i + k, pattern, |part| - 1 - k);
      AnyCaseChar(text, i + k, pattern, |part| - k);
    }
  }

  lemma NameHere(text: string, i: nat, part: string, k: nat)
    requires Apart(text, i, part) && k < |part|
    ensures SectionName(text, i + k) == Shift(SectionName(part, k), i)
  {
    hide AtAnyCase;
    AtChar(text, i, part, k);
    if part[k] == '<' {
      var slash := k + 1 < |part| && part[k + 1] == '/';
      var name := if slash then k + 2 else k + 1;
      if AtAnyCase(part, name, "section") {
        AnyCaseChar(part, name, "section", 6);
      }
      if k + 1 < |part| {
        AtChar(text, i, part, k + 1);
      } else {
        assert part[|part| - 1] == '<';
      }
      if name + 7 <= |part| {
        AnyCaseHere(text, i, part, name, "section");
        if name + 7 < |part| {
          AtChar(text, i, part, name + 7);
          assert text[i + (name + 7)] == part[name + 7];
        }
      } else if name < |part| {
        AnyCaseOver(text, i, part, name, "section");
      } else if AtAnyCase(text, i + name, "section") {
        AnyCaseChar(text, i + name, "section", 0);
      }
    }
  }

  lemma TagHere(text: string, i: nat, part: string, k: nat)
    requires At(text, i, part) && k < |part| && part[|part| - 1] == '>'
    ensures SectionTag(text, i + k) == Shift(SectionTag(part, k), i)
  {
    NameHere(text, i, part, k);
    match SectionName(part, k)
    case None =>
    case Some((closing, end)) =>
      assert Lower(part[end - 1]) == "section"[6];
      var gt := FindChar(part, '>', end);
      assert gt < |part|;
      forall j | i + end <= j < i + gt ensures text[j] != '>' {
        AtChar(text, i, part, j - i);
      }
      AtChar(text, i, part, gt);
      FindCharAt(text, '>', i + end, i + gt);
  }

  // ---- sections nested in sections ----

  /** A text that goes on with a section after it, or not. */
  datatype Forest =
    | Last(text: string)
    | Then(text: string, open: string, inner: Forest, close: string, rest: Forest)

  function Print(f: Forest): string {
    match f
    case Last(text) => text
    case Then(text, open, inner, close, rest) => text + (open + (Print(inner) + (close + Print(rest))))
  }

  /** No section tag starts in the text, whatever comes after it. */
  predicate NoTags(text: string) {
    forall k: nat :: k < |text| ==> SectionName(text, k).None?
  }

  predicate IsTag(tag: string, closing: bool) {
    SectionTag(tag, 0) == Some((closing, |tag|))
  }

  predicate Proper(f: Forest) {
    match f
    case Last(text) => NoTags(text)
    case Then(text, open, inner, close, rest) =>
      NoTags(text) && IsTag(open, false) && Proper(inner) && IsTag(close, true) && Proper(rest)
  }

  /** The sections that stand in no other, each with all it holds. */
  function TopSections(f: Forest): seq<string> {
    match f
    case Last(_) => []
    case Then(_, open, inner, close, rest) => [open + (Print(inner) + close)] + TopSections(rest)
  }

  function Between(f: Forest): string {
    match f
    case Last(text) => text
    case Then(text, _, _, _, rest) => text + Between(rest)
  }

  /** `at` is the end of the text, or another tag or element starts there. */
  predicate Stops(content: string, at: nat) {
    at == |content| || (at < |content| && content[at] == '<')
  }

  lemma NoTagHere(content: string, at: nat, text: string, k: nat)
    requires At(content, at, text) && NoTags(text) && Stops(content, at + |text|) && k < |text|
    ensures at + k < |content| && SectionTag(content, at + k) == None && content[at + k] == text[k]
  {
    NameHere(content, at, text, k);
    AtChar(content, at, text, k);
  }

  lemma AtEnd(content: string)
    ensures Sections(content, |content|) == [] && OutsideFrom(content, |content|) == "" && Texts(content, []) == []
  {}

  /** What reading does at a place where no tag starts. */
  lemma PastChar(content: string, at: nat, depth: nat)
    requires at < |content| && SectionTag(content, at) == None && depth > 0
    ensures Closes(content, at, depth) == Closes(content, at + 1, depth)
    ensures Sections(content, at) == Sections(content, at + 1)
    ensures OutsideFrom(content, at) == [content[at]] + OutsideFrom(content, at + 1)
  {}

  /** What reading does at an opening tag. */
  lemma PastOpening(content: string, at: nat, end: nat, depth: nat)
    requires at < |content| && SectionTag(content, at) == Some((false, end)) && depth > 0
    ensures Closes(content, at, depth) == Closes(content, end, depth + 1)
    ensures match Closes(content, end, 1)
      case None => Sections(content, at) == [] && OutsideFrom(content, at) == ""
      case Some(after) =>
        Sections(content, at) == [(at, after)] + Sections(content, after) && OutsideFrom(content, at) == OutsideFrom(content, after)
  {}

  /** What reading does at a closing tag. */
  lemma PastClosing(content: string, at: nat, end: nat, depth: nat)
    requires at < |content| && SectionTag(content, at) == Some((true, end)) && depth > 0
    ensures Closes(content, at, depth) == if depth == 1 then Some(end) else Closes(content, end, depth - 1)
    ensures Sections(content, at) == Sections(content, end)
    ensures OutsideFrom(content, at) == content[at..end] + OutsideFrom(content, end)
  {}

  lemma {:induction false} SkipText(content: string, at: nat, text: string, k: nat, depth: nat)
    requires At(content, at, text) && NoTags(text) && Stops(content, at + |text|) && k <= |text| && depth > 0
    ensures Closes(content, at + k, depth) == Closes(content, at + |text|, depth)
    ensures Sections(content, at + k) == Sections(content, at + |text|)
    ensures OutsideFrom(content, at + k) == text[k..] + OutsideFrom(content, at + |text|)
    decreases |text| - k
  {
    hide SectionTag, NoTags, Stops, Closes, Sections, OutsideFrom, At;
    if k == |text| {
      assert text[k..] == "";
    } else {
      NoTagHere(content, at, text, k);
      PastChar(content, at + k, depth);
      SkipText(content, at, text, k + 1, depth);
      assert text[k..] == [text[k]] + text[k + 1..];
    }
  }

  lemma TagIs(content: string, at: nat, tag: string, closing: bool)
    requires At(content, at, tag) && IsTag(tag, closing)
    ensures SectionTag(content, at) == Some((closing, at + |tag|)) && content[at] == '<' && tag != ""
  {
    TagHere(content, at, tag, 0);
  }

  lemma FiveParts(content: string, at: nat, a: string, b: string, c: string, d: string, e: string)
    requires At(content, at, a + (b + (c + (d + e))))
    ensures At(content, at, a) && At(content, at + |a|, b) && At(content, at + |a| + |b|, c)
    ensures At(content, at + |a| + |b| + |c|, d) && At(content, at + |a| + |b| + |c| + |d|, e)
    ensures content[at + |a|..at + |a| + |b| + |c| + |d|] == b + (c + d)
  {
    AtSplit(content, at, a, b + (c + (d + e)));
    AtSplit(content, at + |a|, b, c + (d + e));
    AtSplit(content, at + |a| + |b|, c, d + e);
    AtSplit(content, at + |a| + |b| + |c|, d, e);
    var one, two, three := at + |a|, at + |a| + |b|, at + |a| + |b| + |c|;
    assert content[one..three + |d|] == content[one..two] + (content[two..three] + content[three..three + |d|]);
  }

  /** Where the parts of a forest stand. */
  lemma Taken(content: string, at: nat, f: Forest, opening: nat, within: nat, closing: nat, after: nat)
    requires f.Then? && At(content, at, Print(f)) && Proper(f)
    requires opening == at + |f.text| && within == opening + |f.open| && closing == within + |Print(f.inner)|
    requires after == closing + |f.close|
    ensures At(content, at, f.text) && NoTags(f.text) && Stops(content, opening)
    ensures SectionTag(content, opening) == Some((false, within))
    ensures At(content, within, Print(f.inner)) && Proper(f.inner) && Stops(content, closing)
    ensures SectionTag(content, closing) == Some((true, after))
    ensures At(content, after, Print(f.rest)) && Proper(f.rest) && after + |Print(f.rest)| == at + |Print(f)|
    ensures opening < |content| && closing < |content| && after <= |content|
    ensures content[opening..after] == f.open + (Print(f.inner) + f.close)
  {
    hide SectionTag, NoTags, IsTag, At;
    FiveParts(content, at, f.text, f.open, Print(f.inner), f.close, Print(f.rest));
    TagIs(content, opening, f.open, false);
    TagIs(content, closing, f.close, true);
  }

  lemma LastIs(f: Forest)
    requires f.Last? && Proper(f)
    ensures Print(f) == f.text && NoTags(f.text) && TopSections(f) == [] && Between(f) == f.text
  {}

  lemma {:induction false} SkipForest(content: string, at: nat, f: Forest, depth: nat)
    requires At(content, at, Print(f)) && Proper(f) && Stops(content, at + |Print(f)|) && depth > 0
    ensures Closes(content, at, depth) == Closes(content, at + |Print(f)|, depth)
    decreases f
  {
    hide SectionTag, NoTags, Stops, At, IsTag, Print, Proper, Closes, Sections, OutsideFrom;
    match f
    case Last(text) =>
      LastIs(f);
      SkipText(content, at, text, 0, depth);
    case Then(text, open, inner, close, rest) =>
      var opening := at + |text|;
      var within := opening + |open|;
      var closing := within + |Print(inner)|;
      var after := closing + |close|;
      Taken(content, at, f, opening, within, closing, after);
      SkipText(content, at, text, 0, depth);
      PastOpening(content, opening, within, depth);
      SkipForest(content, within, inner, depth + 1);
      PastClosing(content, closing, after, depth + 1);
      SkipForest(content, after, rest, depth);
  }

  lemma TextsCons(content: string, range: (nat, nat), ranges: seq<(nat, nat)>)
    requires range.0 < range.1 <= |content|
    requires forall k :: 0 <= k < |ranges| ==> ranges[k].0 < ranges[k].1 <= |content|
    ensures Texts(content, [range] + ranges) == [content[range.0..range.1]] + Texts(content, ranges)
  {
    var more := [range] + ranges;
    assert forall k :: 0 <= k < |more| ==> more[k] == if k == 0 then range else ranges[k - 1];
    assert Texts(content, more) == [content[range.0..range.1]] + Texts(content, ranges);
  }

  lemma {:induction false} ReadsForest(content: string, at: nat, f: Forest)
    requires At(content, at, Print(f)) && Proper(f) && at + |Print(f)| == |content|
    ensures Texts(content, Sections(content, at)) == TopSections(f)
    ensures OutsideFrom(content, at) == Between(f)
    decreases f
  {
    hide SectionTag, NoTags, At, IsTag, Print, Proper, Closes, Texts, Sections, OutsideFrom;
    match f
    case Last(text) =>
      LastIs(f);
      SkipText(content, at, text, 0, 1);
      AtEnd(content);
    case Then(text, open, inner, close, rest) =>
      var opening := at + |text|;
      var within := opening + |open|;
      var closing := within + |Print(inner)|;
      var after := closing + |close|;
      Taken(content, at, f, opening, within, closing, after);
      SkipText(content, at, text, 0, 1);
      PastOpening(content, opening, within, 1);
      SkipForest(content, within, inner, 1);
      PastClosing(content, closing, after, 1);
      ReadsForest(content, after, rest);
      TextsCons(content, (opening, after), Sections(content, after));
  }

  /** A page whose body is sections, nested as deep as one likes, shows the outermost ones in order, whole. */
  lemma NestedSectionsAreSlides(source: string, f: Forest)
    requires BodyTag(source).Some? && Content(source, BodyTag(source).value.1 + 1) == Print(f) && Proper(f)
    ensures Read(source).slides == if NothingLoose(Between(f), 0) then TopSections(f) else []
    ensures NothingLoose(Between(f), 0) ==> Read(source).tail == Between(f)
  {
    AtWhole(Print(f));
    ReadsForest(Print(f), 0, f);
  }

  // ---- a page that is cut short ----

  lemma TagSame(a: string, b: string, end: nat, k: nat)
    requires k < end <= |a| && end <= |b| && a[..end] == b[..end] && a[end - 1] == '>'
    ensures SectionTag(a, k) == SectionTag(b, k)
  {
    var part := a[..end];
    assert a[0..end] == part && b[0..end] == part;
    TagHere(a, 0, part, k);
    TagHere(b, 0, part, k);
  }

  /** A cut page has the tags that end before the cut. */
  lemma TagCut(content: string, cut: nat, k: nat)
    requires k < cut <= |content|
    ensures SectionTag(content[..cut], k) == match SectionTag(content, k)
      case None => None
      case Some((closing, end)) => if end <= cut then Some((closing, end)) else None
  {
    hide SectionTag;
    var pre := content[..cut];
    if SectionTag(content, k).Some? && SectionTag(content, k).value.1 <= cut {
      assert pre[..SectionTag(content, k).value.1] == content[..SectionTag(content, k).value.1];
      TagSame(content, pre, SectionTag(content, k).value.1, k);
    } else if SectionTag(pre, k).Some? {
      assert pre[..SectionTag(pre, k).value.1] == content[..SectionTag(pre, k).value.1];
      TagSame(pre, content, SectionTag(pre, k).value.1, k);
    }
  }

  predicate NoAngle(text: string, from: nat, until: nat) {
    forall j :: from <= j < until && j < |text| ==> text[j] != '>'
  }

  lemma TagHoldsNoAngle(text: string, k: nat, closing: bool, end: nat)
    requires SectionTag(text, k) == Some((closing, end))
    ensures NoAngle(text, k, end - 1)
  {
    var (_, name) := SectionName(text, k).value;
    var start := if closing then k + 2 else k + 1;
    assert AtAnyCase(text, start, "section");
    forall j | start <= j < name ensures text[j] != '>' {
      AnyCaseChar(text, start, "section", j - start);
    }
  }

  /** Where no angle follows, no tag ends. */
  lemma {:induction false} NothingAfter(text: string, at: nat, depth: nat)
    requires at <= |text| && NoAngle(text, at, |text|) && depth > 0
    ensures Closes(text, at, depth) == None && Sections(text, at) == [] && OutsideFrom(text, at) == text[at..]
    decreases |text| - at
  {
    hide SectionTag, Closes, Sections, OutsideFrom;
    if at == |text| {
      AtEnd(text);
      ClosesAtEnd(text, depth);
    } else {
      assert SectionTag(text, at) == None;
      PastChar(text, at, depth);
      NothingAfter(text, at + 1, depth);
      assert text[at..] == [text[at]] + text[at + 1..];
    }
  }

  lemma ClosesAtEnd(text: string, depth: nat)
    requires depth > 0
    ensures Closes(text, |text|, depth) == None
  {}

  lemma {:induction false} ClosesCut(content: string, cut: nat, at: nat, depth: nat)
    requires at <= cut <= |content| && depth > 0
    ensures Closes(content[..cut], at, depth) == match Closes(content, at, depth)
      case None => None
      case Some(end) => if end <= cut then Some(end) else None
    decreases cut - at
  {
    hide SectionTag, Closes, Sections, OutsideFrom;
    var pre := content[..cut];
    if at == cut {
      ClosesAtEnd(pre, depth);
    } else {
      TagCut(content, cut, at);
      match SectionTag(content, at)
      case None =>
        PastChar(content, at, depth);
        PastChar(pre, at, depth);
        ClosesCut(content, cut, at + 1, depth);
      case Some((closing, end)) =>
        if closing {
          PastClosing(content, at, end, depth);
        } else {
          PastOpening(content, at, end, depth);
        }
        if end > cut {
          TagHoldsNoAngle(content, at, closing, end);
          NothingAfter(pre, at, depth);
        } else if !closing {
          PastOpening(pre, at, end, depth);
          ClosesCut(content, cut, end, depth + 1);
        } else {
          PastClosing(pre, at, end, depth);
          if depth > 1 {
            ClosesCut(content, cut, end, depth - 1);
          }
        }
    }
  }

  /** The leading sections that end before the cut. */
  function Finished(ranges: seq<(nat, nat)>, cut: nat): (done: seq<(nat, nat)>)
    ensures |done| <= |ranges| && forall k :: 0 <= k < |done| ==> done[k] == ranges[k]
  {
    if ranges == [] || ranges[0].1 > cut then [] else [ranges[0]] + Finished(ranges[1..], cut)
  }

  lemma {:induction false} FinishedIsPrefix(ranges: seq<(nat, nat)>, cut: nat)
    ensures |Finished(ranges, cut)| <= |ranges| && Finished(ranges, cut) == ranges[..|Finished(ranges, cut)|]
    ensures forall k :: 0 <= k < |Finished(ranges, cut)| ==> Finished(ranges, cut)[k].1 <= cut
    ensures |Finished(ranges, cut)| == |ranges| || ranges[|Finished(ranges, cut)|].1 > cut
  {
    if ranges != [] && ranges[0].1 <= cut {
      FinishedIsPrefix(ranges[1..], cut);
    }
  }

  lemma NoneFinished(content: string, cut: nat, at: nat)
    requires cut <= at <= |content|
    ensures Finished(Sections(content, at), cut) == []
  {}

  lemma {:induction false} SectionsCut(content: string, cut: nat, at: nat)
    requires at <= cut <= |content|
    ensures Sections(content[..cut], at) == Finished(Sections(content, at), cut)
    decreases cut - at
  {
    hide SectionTag, Closes, Sections, OutsideFrom;
    var pre := content[..cut];
    if at == cut {
      AtEnd(pre);
      NoneFinished(content, cut, at);
    } else {
      TagCut(content, cut, at);
      match SectionTag(content, at)
      case None =>
        PastChar(content, at, 1);
        PastChar(pre, at, 1);
        SectionsCut(content, cut, at + 1);
      case Some((closing, end)) =>
        if closing {
          PastClosing(content, at, end, 1);
        } else {
          PastOpening(content, at, end, 1);
        }
        if end > cut {
          TagHoldsNoAngle(content, at, closing, end);
          NothingAfter(pre, at, 1);
          if closing {
            NoneFinished(content, cut, end);
          }
        } else if closing {
          PastClosing(pre, at, end, 1);
          SectionsCut(content, cut, end);
        } else {
          PastOpening(pre, at, end, 1);
          ClosesCut(content, cut, end, 1);
          if Closes(content, end, 1).Some? && Closes(content, end, 1).value <= cut {
            SectionsCut(content, cut, Closes(content, end, 1).value);
          }
        }
    }
  }

  lemma {:induction false} OutsideCut(content: string, cut: nat, at: nat)
    requires at <= cut <= |content| && (at < cut ==> content[cut - 1] == '>')
    requires IsBlank(OutsideFrom(content, at))
    ensures IsBlank(OutsideFrom(content[..cut], at))
    decreases cut - at
  {
    hide SectionTag, Closes, Sections, OutsideFrom;
    var pre := content[..cut];
    if at == cut {
      AtEnd(pre);
    } else {
      TagCut(content, cut, at);
      match SectionTag(content, at)
      case None =>
        PastChar(content, at, 1);
        PastChar(pre, at, 1);
        BlankParts([content[at]], OutsideFrom(content, at + 1));
        OutsideCut(content, cut, at + 1);
        BlankParts([pre[at]], OutsideFrom(pre, at + 1));
      case Some((closing, end)) =>
        TagStarts(content, at);
        if closing {
          PastClosing(content, at, end, 1);
          BlankParts(content[at..end], OutsideFrom(content, end));
          assert false;
        } else {
          TagHoldsNoAngle(content, at, closing, end);
          assert end <= cut;
          PastOpening(content, at, end, 1);
          PastOpening(pre, at, end, 1);
          ClosesCut(content, cut, end, 1);
          if Closes(content, end, 1).Some? && Closes(content, end, 1).value <= cut {
            OutsideCut(content, cut, Closes(content, end, 1).value);
          }
        }
    }
  }

  lemma TagStarts(text: string, at: nat)
    requires SectionTag(text, at).Some?
    ensures at < |text| && text[at] == '<'
  {}

  lemma BlankParts(a: string, b: string)
    ensures IsBlank(a + b) <==> IsBlank(a) && IsBlank(b)
  {
    if IsBlank(a + b) {
      forall k | 0 <= k < |a| ensures IsBlankChar(a[k]) { assert (a + b)[k] == a[k]; }
      forall k | 0 <= k < |b| ensures IsBlankChar(b[k]) { assert (a + b)[|a| + k] == b[k]; }
    }
  }

  lemma {:induction false} BlankIsNotLoose(text: string, i: nat)
    requires i <= |text| && IsBlank(text)
    ensures NothingLoose(text, i)
    decreases |text| - i
  {
    if i < |text| {
      assert IsBlankChar(text[i]);
      if At(text, i, "<!--") {
        AtChar(text, i, "<!--", 0);
      } else if AtAnyCase(text, i, "<script") {
        AnyCaseChar(text, i, "<script", 0);
      } else if AtAnyCase(text, i, "<style") {
        AnyCaseChar(text, i, "<style", 0);
      }
      BlankIsNotLoose(text, i + 1);
    }
  }

  /** The first place of a text in a cut page. */
  lemma FindCut(source: string, cut: nat, pattern: string)
    requires cut <= |source|
    ensures FindAnyCase(source[..cut], pattern, 0) == match FindAnyCase(source, pattern, 0)
      case None => None
      case Some(at) => if at + |pattern| <= cut then Some(at) else None
  {
    var pre := source[..cut];
    assert source[0..cut] == pre;
    forall k: nat | k + |pattern| <= cut ensures AtAnyCase(source, k, pattern) == AtAnyCase(pre, k, pattern) {
      AnyCaseHere(source, 0, pre, k, pattern);
    }
    AnyCaseFits(source, pattern);
    AnyCaseFits(pre, pattern);
    hide AtAnyCase;
  }

  lemma AnyCaseFits(text: string, pattern: string)
    ensures forall k: nat :: AtAnyCase(text, k, pattern) ==> k + |pattern| <= |text|
  {}

  lemma BodyCut(source: string, cut: nat)
    requires cut <= |source|
    ensures BodyTag(source[..cut]) == match BodyTag(source)
      case None => None
      case Some((at, gt)) => if gt < cut then Some((at, gt)) else None
  {
    var pre := source[..cut];
    FindCut(source, cut, "<body");
    match FindAnyCase(source, "<body", 0)
    case None =>
    case Some(at) =>
      var gt := FindChar(source, '>', at + 5);
      if gt < cut {
        FindCharAt(pre, '>', at + 5, gt);
      }
  }

  /** What a cut leaves of the text up to `end`, where a closing body tag stands. */
  lemma TagCutShort(source: string, start: nat, end: nat, cut: nat)
    requires start <= end && AtAnyCase(source, end, "</body>") && start <= cut < end + 7
    ensures var content, short := source[start..end], source[start..cut];
      || (cut - start <= |content| && short == content[..cut - start])
      || (|content| <= |short| && short[..|content|] == content && NoAngle(short, |content|, |short|))
  {
    var content, short := source[start..end], source[start..cut];
    if cut - start <= |content| {
      assert short == content[..cut - start];
    } else {
      assert short[..|content|] == content;
      forall j | |content| <= j < |short| ensures short[j] != '>' {
        AnyCaseChar(source, end, "</body>", start + j - end);
      }
    }
  }

  lemma ContentEnds(source: string, start: nat, cut: nat)
    requires 0 < start <= cut <= |source| && source[start - 1] == '>'
    ensures var content, short := Content(source, start), Content(source[..cut], start);
      || short == content
      || (cut - start <= |content| && short == content[..cut - start])
      || (|content| <= |short| && short[..|content|] == content && NoAngle(short, |content|, |short|))
  {
    hide AtAnyCase, FindAnyCase, NoAngle;
    FindCut(source, cut, "</body>");
    assert source[..cut][start..] == source[start..cut];
    match FindAnyCase(source, "</body>", 0)
    case None => assert source[start..cut] == source[start..][..cut - start];
    case Some(end) =>
      if end + 7 <= cut {
        if start <= end {
          assert source[..cut][start..end] == source[start..end];
        }
      } else if start <= end {
        TagCutShort(source, start, end, cut);
      } else {
        AnyCaseChar(source, end, "</body>", start - 1 - end);
      }
  }

  lemma TextsCut(content: string, cut: nat, ranges: seq<(nat, nat)>)
    requires cut <= |content| && forall k :: 0 <= k < |ranges| ==> ranges[k].0 < ranges[k].1 <= cut
    ensures Texts(content[..cut], ranges) == Texts(content, ranges)
  {
    forall k | 0 <= k < |ranges| ensures Texts(content[..cut], ranges)[k] == Texts(content, ranges)[k] {
      assert content[..cut][ranges[k].0..ranges[k].1] == content[ranges[k].0..ranges[k].1];
    }
  }

  /** All sections of a page still stand in it when angle-free text is added. */
  lemma AngleFreeAdds(content: string, longer: string)
    requires |content| <= |longer| && longer[..|content|] == content && NoAngle(longer, |content|, |longer|)
    ensures Texts(longer, Sections(longer, 0)) == Texts(content, Sections(content, 0))
  {
    var all := Sections(longer, 0);
    SectionsCut(longer, |content|, 0);
    FinishedIsPrefix(all, |content|);
    assert |Finished(all, |content|)| == |all|;
    TextsCut(longer, |content|, all);
  }

  lemma CutSlides(content: string, cut: nat)
    requires cut <= |content|
    ensures Texts(content[..cut], Sections(content[..cut], 0)) <= Texts(content, Sections(content, 0))
  {
    var all := Sections(content, 0);
    SectionsCut(content, cut, 0);
    FinishedIsPrefix(all, cut);
    TextsCut(content, cut, Finished(all, cut));
  }

  lemma ShortSlides(content: string, short: string, cut: nat)
    requires (cut <= |content| && short == content[..cut])
      || (|content| <= |short| && short[..|content|] == content && NoAngle(short, |content|, |short|))
    ensures Texts(short, Sections(short, 0)) <= Texts(content, Sections(content, 0))
  {
    if cut <= |content| && short == content[..cut] {
      CutSlides(content, cut);
    } else {
      AngleFreeAdds(content, short);
    }
  }

  /** Wherever a deck's page is cut, what is left shows the first of its slides, or none. */
  lemma CutPageShowsPrefix(source: string, cut: nat)
    requires cut <= |source| && BodyTag(source).Some?
    requires NothingLoose(OutsideFrom(Content(source, BodyTag(source).value.1 + 1), 0), 0)
    ensures Read(source[..cut]).slides <= Read(source).slides
  {
    hide SectionTag, Closes, Sections, OutsideFrom, NothingLoose, HeadFrom, FindAnyCase, BodyTag, Content, NoAngle, Texts;
    BodyCut(source, cut);
    var (at, gt) := BodyTag(source).value;
    if gt < cut {
      ContentEnds(source, gt + 1, cut);
      var content, short := Content(source, gt + 1), Content(source[..cut], gt + 1);
      if short != content {
        ShortSlides(content, short, cut - gt - 1);
      }
    }
  }

  /** What a page with a body reads as. */
  lemma ReadIs(source: string, at: nat, gt: nat, content: string)
    requires BodyTag(source) == Some((at, gt)) && content == Content(source, gt + 1)
    ensures Read(source) == if NothingLoose(OutsideFrom(content, 0), 0) then
      Deck(HeadFrom(source, 0), source[at + 5..gt], Texts(content, Sections(content, 0)), OutsideFrom(content, 0)) else NO_DECK
  {
    hide BodyTag, Content, NothingLoose, OutsideFrom, HeadFrom, Texts, Sections;
  }

  /** Cut right after a tag, a page with nothing but sections shows every section that is closed by then. */
  lemma CutAfterTagShowsClosed(source: string, at: nat, gt: nat, content: string, cut: nat)
    requires BodyTag(source) == Some((at, gt)) && content == Content(source, gt + 1) && IsBlank(OutsideFrom(content, 0))
    requires cut <= |content| && (0 < cut ==> content[cut - 1] == '>')
    ensures gt + 1 + cut <= |source|
    ensures Read(source[..gt + 1 + cut]).slides == Texts(content, Finished(Sections(content, 0), cut))
  {
    hide SectionTag, Closes, Sections, OutsideFrom, NothingLoose, HeadFrom, FindAnyCase, BodyTag, Finished, Content, Read, Texts,
      IsBlank;
    ContentStart(source, gt + 1, cut);
    var short := content[..cut];
    BodyCut(source, gt + 1 + cut);
    ReadIs(source[..gt + 1 + cut], at, gt, short);
    SectionsCut(content, cut, 0);
    FinishedIsPrefix(Sections(content, 0), cut);
    TextsCut(content, cut, Finished(Sections(content, 0), cut));
    OutsideCut(content, cut, 0);
    BlankIsNotLoose(OutsideFrom(short, 0), 0);
  }

  lemma ContentStart(source: string, start: nat, cut: nat)
    requires start <= |source| && cut <= |Content(source, start)|
    ensures start + cut <= |source| && Content(source[..start + cut], start) == Content(source, start)[..cut]
  {
    hide AtAnyCase, FindAnyCase;
    var short := source[..start + cut];
    FindCut(source, start + cut, "</body>");
    assert short[start..] == source[start..start + cut] == Content(source, start)[..cut];
    assert |Content(short, start)| <= cut;
  }
}
