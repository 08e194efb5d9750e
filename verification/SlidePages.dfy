/** When the page drawn for a single slide reads back as that slide alone. */
module SlidePages {
  import opened Basics
  import opened Markup
  import opened Slides
  import opened SlideDecks

  /** `pattern` stands nowhere in `text`, in any case. */
  predicate Free(text: string, pattern: string) {
    forall k: nat :: k < |text| ==> !AtAnyCase(text, k, pattern)
  }

  /** The start of a tag, or a whole tag. */
  predicate Marker(pattern: string) {
    |pattern| > 1 && pattern[0] == '<' && (forall j :: 0 < j < |pattern| ==> pattern[j] != '<') &&
    forall j :: 0 <= j < |pattern| - 1 ==> pattern[j] != '>'
  }

  /** Whether a marker that starts in a part stands there in the whole. */
  lemma MarkerHere(text: string, i: nat, part: string, k: nat, pattern: string)
    requires Marker(pattern) && Apart(text, i, part) && k < |part|
    ensures AtAnyCase(text, i + k, pattern) == AtAnyCase(part, k, pattern)
  {
    if k + |pattern| <= |part| {
      AnyCaseHere(text, i, part, k, pattern);
    } else {
      AnyCaseOver(text, i, part, k, pattern);
    }
  }

  lemma FreeJoin(a: string, b: string, pattern: string)
    requires Marker(pattern) && Free(a, pattern) && Free(b, pattern)
    requires |a| > 0 ==> a[|a| - 1] == '>' || b == "" || b[0] == '<'
    ensures Free(a + b, pattern)
  {
    hide AtAnyCase;
    var text := a + b;
    assert text[0..|a|] == a && text[|a|..|a| + |b|] == b;
    forall k: nat | k < |text| ensures !AtAnyCase(text, k, pattern) {
      if k < |a| {
        MarkerHere(text, 0, a, k, pattern);
      } else {
        MarkerHere(text, |a|, b, k - |a|, pattern);
      }
    }
  }

  lemma SubFree(text: string, from: nat, until: nat, pattern: string)
    requires from <= until <= |text| && Free(text[..until], pattern)
    ensures Free(text[from..until], pattern)
  {
    var part := text[from..until];
    assert text[..until][from..from + |part|] == part;
    forall k: nat | k < |part| ensures !AtAnyCase(part, k, pattern) {
      if AtAnyCase(part, k, pattern) {
        AnyCaseHere(text[..until], from, part, k, pattern);
      }
    }
  }

  lemma SingleFree(text: string, pattern: string, at: nat)
    requires Marker(pattern) && at < |pattern|
    requires forall k :: 1 <= k < |text| ==> text[k] != '<'
    requires at < |text| ==> Lower(text[at]) != pattern[at]
    ensures Free(text, pattern)
  {
    forall k: nat | k < |text| ensures !AtAnyCase(text, k, pattern) {
      if AtAnyCase(text, k, pattern) {
        AnyCaseChar(text, k, pattern, 0);
        AnyCaseChar(text, k, pattern, at);
      }
    }
  }

  predicate Angleless(text: string) {
    forall k :: 0 <= k < |text| ==> text[k] != '<'
  }

  lemma RulesAreFree(pattern: string)
    requires Marker(pattern)
    ensures Free(FILL_PAGE + FILL_SECTION, pattern)
  {
    assert Angleless("html,body{height:");
    assert Angleless("100%;margin:0}");
    assert Angleless("body>section{");
    assert Angleless("box-sizing:border-box;");
    assert Angleless("min-height:100%}");
    assert Angleless(FILL_PAGE + FILL_SECTION);
    SingleFree(FILL_PAGE + FILL_SECTION, pattern, 0);
  }

  lemma FillIsFree(pattern: string)
    requires Marker(pattern) && |pattern| > 2 && (pattern[1] == 'b' || pattern[1] == 'h' || (pattern[1] == '/' && pattern[2] != 's'))
    ensures Free(FILL, pattern) && Free(META, pattern)
  {
    hide FILL_PAGE, FILL_SECTION;
    RulesAreFree(pattern);
    var rules := FILL_PAGE + FILL_SECTION;
    SingleFree("<style>", pattern, 1);
    SingleFree("</style>", pattern, if pattern[1] == '/' then 2 else 1);
    SingleFree(META, pattern, 1);
    FreeJoin("<style>", rules, pattern);
    FreeJoin("<style>" + rules, "</style>", pattern);
    assert FILL == "<style>" + rules + "</style>";
  }

  /** The first place of a marker is right after a text that holds none. */
  lemma FirstAfter(text: string, from: nat, middle: string, pattern: string)
    requires Marker(pattern) && At(text, from, middle) && Free(middle, pattern)
    requires AtAnyCase(text, from + |middle|, pattern)
    ensures FindAnyCase(text, pattern, from) == Some(from + |middle|)
  {
    AnyCaseChar(text, from + |middle|, pattern, 0);
    forall k: nat | from <= k < from + |middle| ensures !AtAnyCase(text, k, pattern) {
      MarkerHere(text, from, middle, k - from, pattern);
    }
  }

  lemma {:induction false} HeadFromAt(text: string, from: nat, until: nat)
    requires from <= until < |text| && forall k: nat :: from <= k < until ==> !AtAnyCase(text, k, "<head")
    ensures HeadFrom(text, from) == HeadFrom(text, until)
    decreases until - from
  {
    if from < until {
      HeadFromAt(text, from + 1, until);
    }
  }

  /** Up to its first place a text is free of a pattern. */
  lemma FreeUntilFound(text: string, pattern: string, from: nat, at: nat)
    requires from <= at <= |text| && FindAnyCase(text, pattern, from) == Some(at)
    ensures Free(text[from..at], pattern)
  {
    hide FindAnyCase;
    var part := text[from..at];
    forall k: nat | k < |part| ensures !AtAnyCase(part, k, pattern) {
      if AtAnyCase(part, k, pattern) {
        AnyCaseHere(text, from, part, k, pattern);
      }
    }
  }

  lemma {:induction false} HeadIsFree(source: string, at: nat)
    requires at <= |source|
    ensures Free(HeadFrom(source, at), "</head>")
    decreases |source| - at
  {
    if at < |source| {
      if AtAnyCase(source, at, "<head") {
        var gt := FindChar(source, '>', at + 5);
        if gt < |source| && FindAnyCase(source, "</head>", gt + 1).Some? {
          var end := FindAnyCase(source, "</head>", gt + 1).value;
          FreeUntilFound(source, "</head>", gt + 1, end);
        }
      } else {
        HeadIsFree(source, at + 1);
      }
    }
  }

  // ---- one section on its own ----

  /** The whole text is one section. */
  predicate OneSection(text: string) {
    match SectionTag(text, 0)
    case Some((false, inside)) => Closes(text, inside, 1) == Some(|text|)
    case _ => false
  }

  /** What closes within a part that ends with a tag closes there in the whole. */
  lemma {:induction false} ClosesHere(text: string, i: nat, part: string, k: nat, depth: nat)
    requires At(text, i, part) && k <= |part| && |part| > 0 && part[|part| - 1] == '>' && depth > 0
    requires Closes(text, i + k, depth) == Some(i + |part|) || Closes(part, k, depth) == Some(|part|)
    ensures Closes(text, i + k, depth) == Some(i + |part|) && Closes(part, k, depth) == Some(|part|)
    decreases |part| - k
  {
    hide SectionTag, Closes, Sections, OutsideFrom;
    if k == |part| {
      ClosesAtEnd(part, depth);
    } else {
      TagHere(text, i, part, k);
      match SectionTag(part, k)
      case None =>
        PastChar(text, i + k, depth);
        PastChar(part, k, depth);
        ClosesHere(text, i, part, k + 1, depth);
      case Some((false, end)) =>
        PastOpening(text, i + k, i + end, depth);
        PastOpening(part, k, end, depth);
        ClosesHere(text, i, part, end, depth + 1);
      case Some((true, end)) =>
        PastClosing(text, i + k, i + end, depth);
        PastClosing(part, k, end, depth);
        if depth > 1 {
          ClosesHere(text, i, part, end, depth - 1);
        }
    }
  }

  lemma {:induction false} EachOpensAndCloses(content: string, at: nat, n: nat)
    requires at <= |content| && n < |Sections(content, at)|
    ensures var (from, until) := Sections(content, at)[n];
      match SectionTag(content, from)
      case Some((false, inside)) => Closes(content, inside, 1) == Some(until)
      case _ => false
    decreases |content| - at
  {
    hide SectionTag, Closes;
    if at < |content| {
      match SectionTag(content, at)
      case None => EachOpensAndCloses(content, at + 1, n);
      case Some((true, end)) => EachOpensAndCloses(content, end, n);
      case Some((false, inside)) =>
        if n > 0 {
          EachOpensAndCloses(content, Closes(content, inside, 1).value, n - 1);
        }
    }
  }

  lemma EachIsOneSection(content: string, n: nat)
    requires n < |Sections(content, 0)|
    ensures OneSection(Texts(content, Sections(content, 0))[n])
  {
    hide SectionTag, Closes;
    EachOpensAndCloses(content, 0, n);
    var (from, until) := Sections(content, 0)[n];
    var slide := content[from..until];
    assert content[from..from + |slide|] == slide;
    TagHere(content, from, slide, 0);
    var (_, inside) := SectionTag(slide, 0).value;
    ClosesHere(content, from, slide, inside, 1);
  }

  /** No section is opened, though stray closing tags may stand. */
  predicate NoOpening(text: string, at: nat)
    requires at <= |text|
    decreases |text| - at
  {
    at == |text| ||
    match SectionTag(text, at)
    case None => NoOpening(text, at + 1)
    case Some((closing, end)) => closing && NoOpening(text, end)
  }

  lemma TagSuffix(text: string, i: nat, part: string, k: nat)
    requires At(text, i, part) && i + |part| == |text| && k < |part|
    ensures SectionTag(text, i + k) == Shift(SectionTag(part, k), i)
  {
    NameHere(text, i, part, k);
    match SectionName(part, k)
    case None =>
    case Some((_, end)) =>
      var gt := FindChar(part, '>', end);
      forall j | i + end <= j < i + gt ensures text[j] != '>' {
        AtChar(text, i, part, j - i);
      }
      if gt < |part| {
        AtChar(text, i, part, gt);
        FindCharAt(text, '>', i + end, i + gt);
      }
  }

  lemma {:induction false} OutsideBound(text: string, at: nat)
    requires at <= |text|
    ensures |OutsideFrom(text, at)| <= |text| - at
    decreases |text| - at
  {
    hide SectionTag, Closes;
    if at < |text| {
      match SectionTag(text, at)
      case None => OutsideBound(text, at + 1);
      case Some((true, end)) => OutsideBound(text, end);
      case Some((false, inside)) =>
        if Closes(text, inside, 1).Some? {
          OutsideBound(text, Closes(text, inside, 1).value);
        }
    }
  }

  lemma SliceHere(text: string, i: nat, part: string, from: nat, until: nat)
    requires At(text, i, part) && from <= until <= |part|
    ensures text[i + from..i + until] == part[from..until]
  {
    var here, there := text[i + from..i + until], part[from..until];
    forall j | 0 <= j < until - from ensures here[j] == there[j] {
      AtChar(text, i, part, from + j);
    }
  }

  /** The end of a page stays outside just when it opens no section. */
  lemma {:induction false} TailStays(text: string, i: nat, tail: string, k: nat)
    requires At(text, i, tail) && i + |tail| == |text| && k <= |tail|
    ensures OutsideFrom(text, i + k) == tail[k..] <==> NoOpening(tail, k)
    ensures NoOpening(tail, k) ==> Sections(text, i + k) == []
    decreases |tail| - k
  {
    hide SectionTag, Closes, Sections, OutsideFrom, At;
    if k == |tail| {
      AtEnd(text);
    } else {
      TagSuffix(text, i, tail, k);
      AtChar(text, i, tail, k);
      assert tail[k..] == [tail[k]] + tail[k + 1..];
      match SectionTag(tail, k)
      case None =>
        PastChar(text, i + k, 1);
        TailStays(text, i, tail, k + 1);
      case Some((true, end)) =>
        PastClosing(text, i + k, i + end, 1);
        TailStays(text, i, tail, end);
        SliceHere(text, i, tail, k, end);
        assert tail[k..] == tail[k..end] + tail[end..];
      case Some((false, end)) =>
        PastOpening(text, i + k, i + end, 1);
        if Closes(text, i + end, 1).Some? {
          OutsideBound(text, Closes(text, i + end, 1).value);
        }
    }
  }

  // ---- the page of one slide ----

  /** What a page of one slide must be able to tell apart: nothing around the slide ends the body or
      opens a section. */
  predicate Separable(deck: Deck) {
    Free(deck.head, "</body>") && Free(deck.tail, "</body>") && NoOpening(deck.tail, 0)
  }

  function BeforeBody(head: string): string {
    PREAMBLE + "<head>" + (META + head + FILL) + "</head>"
  }

  lemma LiteralsAreFree(pattern: string)
    requires pattern == "<body" || pattern == "</body>"
    ensures Marker(pattern) && Free("<!doctype html>", pattern) && Free("<html>", pattern)
    ensures Free("<head>", pattern) && Free("</head>", pattern) && Free(META, pattern) && Free(FILL, pattern)
  {
    assert pattern[1] == 'b' || (pattern[1] == '/' && pattern[2] == 'b');
    FillIsFree(pattern);
    SingleFree("<!doctype html>", pattern, 1);
    SingleFree("<html>", pattern, 1);
    SingleFree("<head>", pattern, 1);
    SingleFree("</head>", pattern, if pattern[1] == '/' then 2 else 1);
  }

  lemma HeadAround(head: string, pattern: string)
    requires Marker(pattern) && Free(META, pattern) && Free(head, pattern) && Free(FILL, pattern)
    ensures Free(META + head + FILL, pattern)
  {
    hide META, FILL, Free;
    EdgesOfFill();
    FreeJoin(META, head, pattern);
    FreeJoin(META + head, FILL, pattern);
  }

  lemma EdgesOfFill()
    ensures FILL != "" && FILL[0] == '<' && META != "" && META[|META| - 1] == '>' && META[0] == '<'
  {
    assert FILL[0] == "<style>"[0];
  }

  lemma BeforeBodyIsFree(head: string, pattern: string)
    requires (pattern == "<body" || pattern == "</body>") && Free(head, pattern)
    ensures Free(BeforeBody(head), pattern)
  {
    LiteralsAreFree(pattern);
    hide Free, FILL, META, Marker;
    EdgesOfFill();
    HeadAround(head, pattern);
    FreeJoin("<!doctype html>", "<html>", pattern);
    FreeJoin(PREAMBLE, "<head>", pattern);
    FreeJoin(PREAMBLE + "<head>", META + head + FILL, pattern);
    FreeJoin(PREAMBLE + "<head>" + (META + head + FILL), "</head>", pattern);
  }

  lemma FourStand(text: string, a: string, b: string, c: string, d: string)
    requires text == a + b + c + d
    ensures At(text, 0, a) && At(text, |a|, b) && At(text, |a| + |b|, c) && At(text, |a| + |b| + |c|, d)
    ensures At(text, 0, a + b + c)
  {
    var one, two, three := |a|, |a| + |b|, |a| + |b| + |c|;
    assert text[0..one] == a && text[one..two] == b && text[two..three] == c && text[three..three + |d|] == d;
    assert text[0..three] == a + b + c;
  }

  lemma Regrouped(a: string, b: string, c: string, d: string, e: string, f: string, g: string, h: string, i: string,
                  j: string, k: string, l: string)
    ensures a + b + c + d + e + f + g + h + i + j + k + l == (a + b + (c + d + e) + f) + (g + h + i) + (j + k) + l
  {
    assert a + b + c + d + e == a + b + (c + d + e);
    var m := a + b + (c + d + e) + f;
    assert m + g + h + i == m + (g + h + i);
    var n := m + (g + h + i);
    assert n + j + k == n + (j + k);
  }

  lemma PageParts(deck: Deck, n: nat, page: string)
    requires n < |deck.slides| && page == SlidePage(deck, n)
    ensures page == BeforeBody(deck.head) + ("<body" + deck.body + ">") + (deck.slides[n] + deck.tail) + "</body></html>"
  {
    hide PREAMBLE, META, FILL;
    Regrouped(PREAMBLE, "<head>", META, deck.head, FILL, "</head>", "<body", deck.body, ">", deck.slides[n], deck.tail,
              "</body></html>");
  }

  lemma PreambleIsFree()
    ensures Free(PREAMBLE, "<head")
  {
    SingleFree("<!doctype html>", "<head", 1);
    SingleFree("<html>", "<head", 2);
    FreeJoin("<!doctype html>", "<html>", "<head");
  }

  lemma HeadParts(page: string, preamble: string, inner: string)
    requires At(page, 0, preamble + "<head>" + inner + "</head>")
    ensures At(page, 0, preamble) && At(page, |preamble|, "<head>") && At(page, |preamble| + 6, inner)
    ensures At(page, |preamble| + 6 + |inner|, "</head>")
  {
    hide At;
    AtSplit(page, 0, preamble + "<head>" + inner, "</head>");
    AtSplit(page, 0, preamble + "<head>", inner);
    AtSplit(page, 0, preamble, "<head>");
  }

  lemma InnerIsFree(head: string)
    requires Free(head, "</head>")
    ensures Free(META + head + FILL, "</head>")
  {
    hide META, FILL, Free;
    MarkersMark();
    FillIsFree("</head>");
    HeadAround(head, "</head>");
  }

  lemma HeadOfPage(head: string, page: string)
    requires At(page, 0, BeforeBody(head)) && Free(head, "</head>")
    ensures HeadFrom(page, 0) == META + head + FILL
  {
    hide META, FILL, Free, PREAMBLE, HeadFrom, Marker, AtAnyCase, At, FindAnyCase;
    var inner := META + head + FILL;
    PreambleIsFree();
    InnerIsFree(head);
    MarkersMark();
    var start := |PREAMBLE|;
    HeadParts(page, PREAMBLE, inner);
    AtAnyCaseOf(page, start, "<head>", "<head");
    HeadStarts(page, start);
    AtChar(page, start, "<head>", 5);
    AtAnyCaseOf(page, start + 6 + |inner|, "</head>", "</head>");
    FirstAfter(page, start + 6, inner, "</head>");
    HeadIs(page, start, inner);
  }

  lemma MarkersMark()
    ensures Marker("<head") && Marker("</head>") && Marker("<body") && Marker("</body>")
  {}

  lemma HeadIs(page: string, start: nat, inner: string)
    requires AtAnyCase(page, start, "<head") && start + 5 < |page| && page[start + 5] == '>'
    requires FindAnyCase(page, "</head>", start + 6) == Some(start + 6 + |inner|) && At(page, start + 6, inner)
    ensures HeadFrom(page, start) == inner
  {
    FindCharAt(page, '>', start + 5, start + 5);
  }

  lemma HeadStarts(page: string, start: nat)
    requires start == |PREAMBLE| && At(page, 0, PREAMBLE) && Free(PREAMBLE, "<head") && AtAnyCase(page, start, "<head")
    ensures HeadFrom(page, 0) == HeadFrom(page, start)
  {
    AnyCaseChar(page, start, "<head", 0);
    forall k: nat | k < start ensures !AtAnyCase(page, k, "<head") {
      MarkerHere(page, 0, PREAMBLE, k, "<head");
    }
    HeadFromAt(page, 0, start);
  }

  lemma AtAnyCaseOf(text: string, i: nat, whole: string, pattern: string)
    requires At(text, i, whole) && |pattern| <= |whole| && whole[..|pattern|] == pattern
    requires forall j :: 0 <= j < |pattern| ==> Lower(pattern[j]) == pattern[j]
    ensures AtAnyCase(text, i, pattern)
  {
    forall j | 0 <= j < |pattern| ensures Lower(text[i + j]) == pattern[j] {
      AtChar(text, i, whole, j);
      assert whole[..|pattern|][j] == whole[j];
    }
  }

  /** Where the body of a page starts and where it ends. */
  lemma BodyStands(page: string, before: string, body: string, content: string, rest: string)
    requires page == before + ("<body" + body + ">") + content + rest && AtAnyCase(rest, 0, "</body>")
    requires before != "" && before[|before| - 1] == '>' && '>' !in body
    requires Free(before, "<body") && Free(before, "</body>") && Free("<body" + body + ">", "</body>") && Free(content, "</body>")
    ensures BodyTag(page) == Some((|before|, |before| + 5 + |body|))
    ensures page[|before| + 5..|before| + 5 + |body|] == body && Content(page, |before| + 6 + |body|) == content
  {
    hide Free, Marker, AtAnyCase, At, BodyTag, Content, FindAnyCase;
    var open := "<body" + body + ">";
    FourStand(page, before, open, content, rest);
    MarkersMark();
    FreeJoin(before, open, "</body>");
    FreeJoin(before + open, content, "</body>");
    AtAnyCaseOf(page, |before|, open, "<body");
    FirstAfter(page, 0, before, "<body");
    EndHere(page, |before| + |open| + |content|, rest);
    FirstAfter(page, 0, before + open + content, "</body>");
    BodyEnds(page, |before|, body);
    ContentIs(page, |before| + |open|, content);
  }

  /** How a page reads that is put together from its parts. */
  lemma PutTogether(page: string, head: string, body: string, content: string, rest: string)
    requires page == BeforeBody(head) + ("<body" + body + ">") + content + rest && AtAnyCase(rest, 0, "</body>")
    requires Free(head, "<body") && Free(head, "</body>") && Free(head, "</head>") && '>' !in body
    requires Free("<body" + body + ">", "</body>") && Free(content, "</body>")
    ensures BodyTag(page).Some?
    ensures var (at, gt) := BodyTag(page).value; page[at + 5..gt] == body && Content(page, gt + 1) == content
    ensures HeadFrom(page, 0) == META + head + FILL
  {
    hide Free, Marker, AtAnyCase, HeadFrom, BeforeBody, At, BodyTag, Content, META, FILL;
    var before := BeforeBody(head);
    FourStand(page, before, "<body" + body + ">", content, rest);
    HeadOfPage(head, page);
    BeforeBodyIsFree(head, "<body");
    BeforeBodyIsFree(head, "</body>");
    EndsWithTag(head);
    BodyStands(page, before, body, content, rest);
  }

  lemma EndHere(page: string, at: nat, rest: string)
    requires At(page, at, rest) && AtAnyCase(rest, 0, "</body>")
    ensures AtAnyCase(page, at, "</body>")
  {
    AnyCaseHere(page, at, rest, 0, "</body>");
  }

  lemma EndsWithTag(head: string)
    ensures BeforeBody(head) != "" && BeforeBody(head)[|BeforeBody(head)| - 1] == '>'
  {
    assert "</head>"[6] == '>';
  }

  lemma BodyEnds(page: string, at: nat, body: string)
    requires At(page, at, "<body" + body + ">") && '>' !in body && FindAnyCase(page, "<body", 0) == Some(at)
    ensures BodyTag(page) == Some((at, at + 5 + |body|)) && page[at + 5..at + 5 + |body|] == body
  {
    AtSplit(page, at, "<body" + body, ">");
    AtSplit(page, at, "<body", body);
    AtChar(page, at + 5 + |body|, ">", 0);
    forall k | at + 5 <= k < at + 5 + |body| ensures page[k] != '>' {
      AtChar(page, at + 5, body, k - at - 5);
    }
    FindCharAt(page, '>', at + 5, at + 5 + |body|);
  }

  lemma ContentIs(page: string, start: nat, content: string)
    requires At(page, start, content) && FindAnyCase(page, "</body>", 0) == Some(start + |content|)
    ensures Content(page, start) == content
  {}

  /** What a page that reads as a deck has read. */
  lemma DeckOf(source: string, n: nat)
    requires n < |Read(source).slides|
    ensures BodyTag(source).Some?
    ensures var (at, gt) := BodyTag(source).value;
      var content := Content(source, gt + 1);
      && content != "" && n < |Sections(content, 0)| && NothingLoose(OutsideFrom(content, 0), 0)
      && Read(source) == Deck(HeadFrom(source, 0), source[at + 5..gt], Texts(content, Sections(content, 0)), OutsideFrom(content, 0))
  {
    hide BodyTag, Content, HeadFrom, NothingLoose, OutsideFrom;
  }

  /** The parts of a deck that a page is put together from. */
  lemma DeckParts(source: string, n: nat)
    requires n < |Read(source).slides|
    ensures var deck := Read(source);
      && Free(deck.head, "</head>") && '>' !in deck.body && Free("<body" + deck.body + ">", "</body>")
      && Free(deck.slides[n], "</body>") && OneSection(deck.slides[n]) && NothingLoose(deck.tail, 0)
  {
    hide AtAnyCase, HeadFrom, NothingLoose, Sections, OutsideFrom, OneSection, Free, FindAnyCase, Read, BodyTag, Content, Texts;
    DeckOf(source, n);
    var (at, gt) := BodyTag(source).value;
    var content := Content(source, gt + 1);
    HeadIsFree(source, 0);
    EachIsOneSection(content, n);
    BodyIsFree(source, at, gt);
    SlideIsFree(source, gt + 1, content, Sections(content, 0)[n].0, Sections(content, 0)[n].1);
  }

  lemma SlideIsFree(source: string, start: nat, content: string, from: nat, until: nat)
    requires start <= |source| && content == Content(source, start) != "" && from <= until <= |content|
    ensures Free(content[from..until], "</body>")
  {
    hide Content, Free;
    FreeUpto(source, start);
    SubFreePrefix(source, start + until, start + |content|, "</body>");
    SubFree(source, start + from, start + until, "</body>");
    SliceOfSlice(source, start, content, from, until);
  }

  lemma SliceOfSlice(source: string, start: nat, content: string, from: nat, until: nat)
    requires start + |content| <= |source| && content == source[start..start + |content|] && from <= until <= |content|
    ensures content[from..until] == source[start + from..start + until]
  {
    var here, there := content[from..until], source[start + from..start + until];
    forall j | 0 <= j < until - from ensures here[j] == there[j] {
      assert content[from + j] == source[start + (from + j)];
    }
  }

  lemma SubFreePrefix(text: string, less: nat, more: nat, pattern: string)
    requires less <= more <= |text| && Free(text[..more], pattern)
    ensures Free(text[..less], pattern)
  {
    FreeOfLonger(text[..more], less, pattern);
    assert text[..more][..less] == text[..less];
  }

  lemma FreeOfLonger(text: string, less: nat, pattern: string)
    requires less <= |text| && Free(text, pattern)
    ensures Free(text[..less], pattern)
  {
    var part := text[..less];
    assert text[0..less] == part;
    forall k: nat | k < less ensures !AtAnyCase(part, k, pattern) {
      if AtAnyCase(part, k, pattern) {
        AnyCaseHere(text, 0, part, k, pattern);
      }
    }
  }

  /** Up to the end of the content no closing body tag stands, unless the content is empty. */
  lemma FreeUpto(source: string, start: nat)
    requires start <= |source| && Content(source, start) != ""
    ensures Free(source[..start + |Content(source, start)|], "</body>")
  {
    var end := start + |Content(source, start)|;
    var part := source[..end];
    assert source[0..end] == part;
    forall k: nat | k < end ensures !AtAnyCase(part, k, "</body>") {
      if AtAnyCase(part, k, "</body>") {
        AnyCaseHere(source, 0, part, k, "</body>");
      }
    }
  }

  lemma BodyIsFree(source: string, at: nat, gt: nat)
    requires BodyTag(source) == Some((at, gt)) && Content(source, gt + 1) != ""
    ensures '>' !in source[at + 5..gt] && Free("<body" + source[at + 5..gt] + ">", "</body>")
  {
    hide AtAnyCase, FindAnyCase, Content, Free;
    var rest := source[at + 5..gt] + ">";
    assert rest == source[at + 5..gt + 1];
    FreeUpto(source, gt + 1);
    SubFreePrefix(source, gt + 1, gt + 1 + |Content(source, gt + 1)|, "</body>");
    SubFree(source, at + 5, gt + 1, "</body>");
    AfterBodyWord(rest);
    assert "<body" + rest == "<body" + source[at + 5..gt] + ">";
  }

  lemma AfterBodyWord(rest: string)
    requires Free(rest, "</body>")
    ensures Free("<body" + rest, "</body>")
  {
    var open := "<body" + rest;
    assert open[5..5 + |rest|] == rest;
    forall k: nat | k < |open| ensures !AtAnyCase(open, k, "</body>") {
      if AtAnyCase(open, k, "</body>") {
        AnyCaseChar(open, k, "</body>", 0);
        AnyCaseChar(open, k, "</body>", 1);
        AnyCaseHere(open, 5, rest, k - 5, "</body>");
      }
    }
  }

  /** One section with a text after it. */
  lemma SectionThenTail(slide: string, tail: string)
    requires OneSection(slide)
    ensures OutsideFrom(slide + tail, 0) == tail <==> NoOpening(tail, 0)
    ensures NoOpening(tail, 0) ==> Texts(slide + tail, Sections(slide + tail, 0)) == [slide]
    ensures |OutsideFrom(slide + tail, 0)| <= |tail|
  {
    hide SectionTag, Closes, Sections, OutsideFrom, NoOpening;
    var text := slide + tail;
    assert text[0..|slide|] == slide && text[|slide|..|slide| + |tail|] == tail;
    var (_, inside) := SectionTag(slide, 0).value;
    ClosesHere(text, 0, slide, inside, 1) by { ClosedEnds(slide, inside); }
    TagHere(text, 0, slide, 0) by { ClosedEnds(slide, inside); }
    PastOpening(text, 0, inside, 1);
    TailStays(text, |slide|, tail, 0);
    OutsideBound(text, |slide|);
    assert tail[0..] == tail;
  }

  lemma ClosedEnds(slide: string, inside: nat)
    requires inside <= |slide| && Closes(slide, inside, 1) == Some(|slide|)
    ensures inside < |slide| && slide[|slide| - 1] == '>'
  {}

  /** With the end of the body in the head nothing is left of the body. */
  lemma BodyEndsInHead(page: string, head: string, body: string, rest: string)
    requires page == BeforeBody(head) + ("<body" + body + ">") + rest + ""
    requires Free(head, "<body") && !Free(head, "</body>") && '>' !in body
    ensures Read(page).slides == []
  {
    hide Free, Marker, HeadFrom, BeforeBody, NothingLoose, OutsideFrom;
    var before, open := BeforeBody(head), "<body" + body + ">";
    FourStand(page, before, open, rest, "");
    MarkersMark();
    BeforeBodyIsFree(head, "<body");
    AtAnyCaseOf(page, |before|, open, "<body");
    FirstAfter(page, 0, before, "<body");
    BodyEnds(page, |before|, body);
    EndInHead(page, head);
    AtEnd("");
  }

  lemma EndInHead(page: string, head: string)
    requires At(page, 0, BeforeBody(head)) && !Free(head, "</body>")
    ensures FindAnyCase(page, "</body>", 0).Some? && FindAnyCase(page, "</body>", 0).value < |BeforeBody(head)|
  {
    hide FindAnyCase, PREAMBLE, META, FILL;
    var k: nat :| k < |head| && AtAnyCase(head, k, "</body>");
    var start := |PREAMBLE + "<head>" + META|;
    AtSplit(page, 0, PREAMBLE + "<head>" + (META + head + FILL), "</head>");
    AtSplit(page, 0, PREAMBLE + "<head>", META + head + FILL);
    AtSplit(page, |PREAMBLE + "<head>"|, META + head, FILL);
    AtSplit(page, |PREAMBLE + "<head>"|, META, head);
    AnyCaseHere(page, start, head, k, "</body>");
  }

  /** Up to its first end of the body a text holds none. */
  lemma FreeBefore(text: string, at: nat)
    requires FindAnyCase(text, "</body>", 0) == Some(at) && at <= |text|
    ensures Free(text[..at], "</body>") && AtAnyCase(text[at..], 0, "</body>")
  {
    hide FindAnyCase, AtAnyCase;
    FreeUntilFound(text, "</body>", 0, at);
    AnyCaseFits(text, "</body>");
    assert text[0..at] == text[..at];
    var rest := text[at..];
    assert text[at..at + |rest|] == rest;
    AnyCaseHere(text, at, rest, 0, "</body>");
  }

  lemma NotFreeHolds(text: string)
    requires !Free(text, "</body>")
    ensures FindAnyCase(text, "</body>", 0).Some? && FindAnyCase(text, "</body>", 0).value < |text|
  {
    var k: nat :| k < |text| && AtAnyCase(text, k, "</body>");
  }

  /** With the end of the body in the tail the tail is cut short. */
  lemma BodyEndsInTail(page: string, head: string, body: string, slide: string, tail: string)
    requires page == BeforeBody(head) + ("<body" + body + ">") + (slide + tail) + "</body></html>"
    requires Free(head, "<body") && Free(head, "</body>") && Free(head, "</head>") && '>' !in body
    requires Free("<body" + body + ">", "</body>") && Free(slide, "</body>") && OneSection(slide) && !Free(tail, "</body>")
    ensures |Read(page).tail| < |tail|
  {
    hide Free, Marker, AtAnyCase, HeadFrom, BodyTag, Content, NothingLoose, Sections, OutsideFrom, Texts, NoOpening,
      BeforeBody, OneSection, FindAnyCase;
    NotFreeHolds(tail);
    var at := FindAnyCase(tail, "</body>", 0).value;
    var less, rest := tail[..at], tail[at..] + "</body></html>";
    FreeBefore(tail, at);
    MarkersMark();
    OneSectionEnds(slide);
    FreeJoin(slide, less, "</body>");
    StillHere(tail[at..], "</body></html>");
    MoveOver(BeforeBody(head) + ("<body" + body + ">"), slide, less, tail[at..], "</body></html>");
    assert less + tail[at..] == tail;
    PutTogether(page, head, body, slide + less, rest);
    SectionThenTail(slide, less);
  }

  lemma StillHere(text: string, more: string)
    requires AtAnyCase(text, 0, "</body>")
    ensures AtAnyCase(text + more, 0, "</body>")
  {
    assert (text + more)[0..|text|] == text;
    AnyCaseHere(text + more, 0, text, 0, "</body>");
  }

  lemma MoveOver(a: string, b: string, c: string, d: string, e: string)
    ensures a + (b + (c + d)) + e == a + (b + c) + (d + e)
  {
    assert b + (c + d) == (b + c) + d;
  }

  /**
   * Shown on its own, every slide of every deck reads back as that one slide, with the deck's head, body and
   * tail around it, just when nothing around it ends the body and what the deck keeps outside its sections
   * opens no section itself.
   */
  lemma SlideReadsAlone(source: string, n: nat, page: string)
    requires n < |Read(source).slides| && page == SlidePage(Read(source), n) && Free(Read(source).head, "<body")
    ensures var deck := Read(source);
      Read(page) == Deck(META + deck.head + FILL, deck.body, [deck.slides[n]], deck.tail) <==> Separable(deck)
  {
    hide Free, Marker, AtAnyCase, HeadFrom, BodyTag, Content, NothingLoose, Sections, OutsideFrom, Texts, NoOpening,
      BeforeBody, SlidePage, OneSection;
    var deck := Read(source);
    var slide := deck.slides[n];
    DeckParts(source, n);
    PageParts(deck, n, page);
    if !Free(deck.head, "</body>") {
      var rest := (slide + deck.tail) + "</body></html>";
      assert page == BeforeBody(deck.head) + ("<body" + deck.body + ">") + rest + "";
      BodyEndsInHead(page, deck.head, deck.body, rest);
    } else if !Free(deck.tail, "</body>") {
      BodyEndsInTail(page, deck.head, deck.body, slide, deck.tail);
    } else {
      MarkersMark();
      OneSectionEnds(slide);
      FreeJoin(slide, deck.tail, "</body>");
      EndsBody();
      PutTogether(page, deck.head, deck.body, slide + deck.tail, "</body></html>");
      SectionThenTail(slide, deck.tail);
    }
  }

  lemma EndsBody()
    ensures AtAnyCase("</body></html>", 0, "</body>")
  {}

  lemma OneSectionEnds(slide: string)
    requires OneSection(slide)
    ensures slide != "" && slide[|slide| - 1] == '>'
  {}

  // ---- decks whose slides do not read alone ----

  const TORN: Forest := Then("<!--<sec", "<section>", Last(""), "</section>", Last("tion>-->"))

  /** No section tag stands where no angle is followed by its name. */
  lemma NoTagsIn(text: string)
    requires forall k: nat :: k + 8 <= |text| && text[k] == '<' ==> Lower(text[k + 1]) != 's' && text[k + 1] != '/'
    ensures NoTags(text)
  {
    forall k: nat | k < |text| ensures SectionName(text, k).None? {
      if k + 8 <= |text| && AtAnyCase(text, k + 1, "section") {
        AnyCaseChar(text, k + 1, "section", 0);
      }
    }
  }

  lemma SectionOpens()
    ensures IsTag("<section>", false)
  {
    FindCharAt("<section>", '>', 8, 8);
    assert AtAnyCase("<section>", 1, "section");
  }

  lemma SectionCloses()
    ensures IsTag("</section>", true)
  {
    FindCharAt("</section>", '>', 9, 9);
    assert AtAnyCase("</section>", 2, "section");
  }

  /** One section between two texts. */
  lemma OneIsProper(before: string, inner: string, after: string)
    requires NoTags(before) && NoTags(inner) && NoTags(after)
    ensures var f := Then(before, "<section>", Last(inner), "</section>", Last(after));
      && Proper(f) && Between(f) == before + after && TopSections(f) == ["<section>" + (inner + "</section>")]
      && Print(f) == before + ("<section>" + (inner + ("</section>" + after)))
  {
    SectionOpens();
    SectionCloses();
    hide NoTags, IsTag;
    assert TopSections(Last(after)) == [] && Print(Last(after)) == after && Print(Last(inner)) == inner;
    assert Proper(Last(after)) && Proper(Last(inner));
  }

  lemma TornIsProper()
    ensures Proper(TORN) && Between(TORN) == "<!--<sec" + "tion>-->" && TopSections(TORN) == ["<section>" + ("" + "</section>")]
    ensures Print(TORN) == "<!--<sec" + ("<section>" + ("" + ("</section>" + "tion>-->")))
  {
    NoTagsIn("<!--<sec");
    NoTagsIn("");
    NoTagsIn("tion>-->");
    OneIsProper("<!--<sec", "", "tion>-->");
  }

  lemma TornTailOpens()
    ensures !NoOpening("<!--<sec" + "tion>-->", 0) && NothingLoose("<!--<sec" + "tion>-->", 0)
  {
    var tail := "<!--<sec" + "tion>-->";
    assert AtAnyCase(tail, 5, "section");
    FindCharAt(tail, '>', 12, 12);
    assert SectionTag(tail, 4) == Some((false, 13));
    assert !NoOpening(tail, 4);
    assert !NoOpening(tail, 3);
    assert !NoOpening(tail, 2);
    assert !NoOpening(tail, 1);
    assert At(tail, 0, "<!--") && At(tail, 13, "-->");
    forall k: nat | 4 <= k < 13 ensures !At(tail, k, "-->") {
      if At(tail, k, "-->") {
        AtChar(tail, k, "-->", 0);
      }
    }
    FindAt(tail, "-->", 4, 13);
    assert StrippedEnd(tail, 0) == Some(16);
    assert NothingLoose(tail, 16);
  }

  /** A page that is nothing but its body. */
  lemma BodyOnly(source: string, content: string, rest: string)
    requires source == "<body>" + content + "</body>" + rest && Free(content, "</body>")
    ensures BodyTag(source) == Some((0, 5)) && Content(source, 6) == content
  {
    hide AtAnyCase, Free, Marker, Content;
    FourStand(source, "<body>", content, "</body>", rest);
    MarkersMark();
    SingleFree("<body>", "</body>", 1) by { MarkerIs(); }
    FreeJoin("<body>", content, "</body>");
    AtAnyCaseOf(source, 6 + |content|, "</body>", "</body>");
    FirstAfter(source, 0, "<body>" + content, "</body>") by { AtSplit(source, 0, "<body>" + content, "</body>"); }
    AtAnyCaseOf(source, 0, "<body>", "<body");
    BodyTagFirst(source);
    ContentIs(source, 6, content);
  }

  lemma MarkerIs()
    ensures Lower("<body>"[1]) != "</body>"[1]
  {}

  lemma BodyTagFirst(source: string)
    requires At(source, 0, "<body>") && AtAnyCase(source, 0, "<body")
    ensures BodyTag(source) == Some((0, 5))
  {
    AtChar(source, 0, "<body>", 5);
    FindCharAt(source, '>', 5, 5);
  }

  /** The page of such a deck: a section inside a comment tears a tag in two, and the slide's page puts
      it together again. */
  lemma TornSlideIsLost(source: string, page: string)
    requires source == "<body>" + Print(TORN) + "</body>" + "" && page == SlidePage(Read(source), 0)
    ensures Read(source).slides == ["<section>" + ("" + "</section>")] && Read(source).tail == "<!--<sec" + "tion>-->"
    ensures Read(page) != Deck(META + Read(source).head + FILL, Read(source).body, Read(source).slides, Read(source).tail)
  {
    hide Read, SlidePage, Free, BodyTag, Content, NoOpening, NothingLoose, Proper, Between, TopSections, HeadFrom, Print;
    TornIsFree("</body>");
    BodyOnly(source, Print(TORN), "");
    TornIsProper();
    TornTailOpens();
    NestedSectionsAreSlides(source, TORN);
    TornHead(source);
    DeckOf(source, 0);
    SlideReadsAlone(source, 0, page);
  }

  /** What is free of a marker around and inside one section is free of it with the section. */
  lemma AroundSection(before: string, inner: string, after: string, pattern: string)
    requires Marker(pattern) && |pattern| > 2 && pattern[1] != 's' && pattern[2] != 's'
    requires Free(before, pattern) && Free(inner, pattern) && Free(after, pattern) && (inner == "" || inner[0] == '<')
    ensures Free(before + ("<section>" + (inner + ("</section>" + after))), pattern)
  {
    SingleFree("<section>", pattern, 1);
    SingleFree("</section>", pattern, 2);
    hide Free, Marker;
    FreeJoin("</section>", after, pattern);
    FreeJoin(inner, "</section>" + after, pattern);
    FreeJoin("<section>", inner + ("</section>" + after), pattern);
    FreeJoin(before, "<section>" + (inner + ("</section>" + after)), pattern);
  }

  lemma TornIsFree(pattern: string)
    requires pattern == "</body>" || pattern == "<head"
    ensures Marker(pattern) && Free(Print(TORN), pattern)
  {
    MarkersMark();
    assert pattern[1] != 's' && pattern[2] != 's' && pattern[1] != '!' && pattern[0] == '<';
    TornIsProper();
    forall k: nat | k < 8 ensures !AtAnyCase("<!--<sec", k, pattern) {
      if AtAnyCase("<!--<sec", k, pattern) {
        AnyCaseChar("<!--<sec", k, pattern, 0);
        AnyCaseChar("<!--<sec", k, pattern, 1);
      }
    }
    SingleFree("tion>-->", pattern, 0);
    AroundSection("<!--<sec", "", "tion>-->", pattern);
  }

  /** A page without the word has no head. */
  lemma {:induction false} NoHead(source: string, at: nat)
    requires at <= |source| && Free(source, "<head")
    ensures HeadFrom(source, at) == ""
    decreases |source| - at
  {
    if at < |source| {
      NoHead(source, at + 1);
    }
  }

  lemma TornHead(source: string)
    requires source == "<body>" + Print(TORN) + "</body>" + ""
    ensures Free(HeadFrom(source, 0), "<body")
  {
    TornIsFree("<head");
    SingleFree("<body>", "<head", 1);
    SingleFree("</body>", "<head", 1);
    hide Free, Print, Marker;
    FreeJoin("<body>", Print(TORN), "<head");
    FreeJoin("<body>" + Print(TORN), "</body>", "<head");
    assert source == "<body>" + Print(TORN) + "</body>";
    NoHead(source, 0);
    FreeNothing();
  }

  lemma FreeNothing()
    ensures Free("", "<body")
  {}

  const HEADED: Forest := Then("", "<section>", Last("<header>"), "</section>", Last(""))

  const HEADED_TEXT := "<section>" + ("<header>" + "</section>")

  lemma HeadedIsProper()
    ensures Proper(HEADED) && Between(HEADED) == "" && NothingLoose("", 0)
    ensures Print(HEADED) == HEADED_TEXT && TopSections(HEADED) == [HEADED_TEXT] && Free(HEADED_TEXT, "</body>")
  {
    NoTagsIn("");
    NoTagsIn("<header>");
    OneIsProper("", "<header>", "");
    MarkersMark();
    SingleFree("<header>", "</body>", 1);
    AroundSection("", "<header>", "", "</body>");
    assert "" + ("<section>" + ("<header>" + ("</section>" + ""))) == HEADED_TEXT;
  }

  lemma HeaderIsHead(source: string)
    requires source == ("<body>" + "<section>") + "<header>" + ("</section>" + "</body>") + "</head>"
    ensures HeadFrom(source, 0) == "</section>" + "</body>"
  {
    var start, inner := "<body>" + "<section>", "</section>" + "</body>";
    hide Free, Marker, HeadFrom, AtAnyCase;
    MarkersMark();
    StartIsFree();
    HeadHere();
    FourStand(source, start, "<header>", inner, "</head>");
    AtAnyCaseOf(source, 15, "<header>", "<head");
    forall k: nat | k < 15 ensures !AtAnyCase(source, k, "<head") {
      AtChar(source, 15, "<header>", 0);
      FreeHere(source, start, k);
    }
    HeadFromAt(source, 0, 15);
    AtAnyCaseOf(source, 40, "</head>", "</head>");
    FirstAfter(source, 23, inner, "</head>");
    HeaderEnds(source, inner);
  }

  lemma StartIsFree()
    ensures Free("<body>" + "<section>", "<head")
  {
    MarkersMark();
    SingleFree("<body>", "<head", 1);
    SingleFree("<section>", "<head", 1);
    FreeJoin("<body>", "<section>", "<head");
  }

  lemma FreeHere(source: string, part: string, k: nat)
    requires Apart(source, 0, part) && Free(part, "<head") && k < |part| && Marker("<head")
    ensures !AtAnyCase(source, k, "<head")
  {
    MarkerHere(source, 0, part, k, "<head");
  }

  lemma HeaderEnds(source: string, inner: string)
    requires At(source, 15, "<header>") && AtAnyCase(source, 15, "<head") && At(source, 23, inner) && |inner| == 17
    requires FindAnyCase(source, "</head>", 23) == Some(40)
    ensures HeadFrom(source, 15) == inner
  {
    AtChar(source, 15, "<header>", 5);
    AtChar(source, 15, "<header>", 6);
    AtChar(source, 15, "<header>", 7);
    FindCharAt(source, '>', 20, 22);
  }

  lemma HeadHere()
    ensures var head := "</section>" + "</body>"; Free(head, "</head>") && Free(head, "<body") && !Free(head, "</body>")
  {
    MarkersMark();
    SingleFree("</section>", "</head>", 2);
    SingleFree("</body>", "</head>", 2);
    SingleFree("</section>", "<body", 1);
    SingleFree("</body>", "<body", 1);
    FreeJoin("</section>", "</body>", "</head>");
    FreeJoin("</section>", "</body>", "<body");
    assert AtAnyCase("</section>" + "</body>", 10, "</body>");
  }

  /** Another such deck: a header is taken for the head, which then holds the end of the body. */
  lemma HeaderSlideIsLost(source: string, page: string)
    requires source == "<body>" + HEADED_TEXT + "</body>" + "</head>" && page == SlidePage(Read(source), 0)
    ensures Read(source).slides == [HEADED_TEXT] && NoOpening(Read(source).tail, 0)
    ensures Read(page) != Deck(META + Read(source).head + FILL, Read(source).body, Read(source).slides, Read(source).tail)
  {
    hide Read, SlidePage, Free, BodyTag, Content, NothingLoose, Proper, Between, TopSections, HeadFrom, Print;
    HeadedIsProper();
    BodyOnly(source, HEADED_TEXT, "</head>");
    NestedSectionsAreSlides(source, HEADED);
    Rejoined("<body>", "<section>", "<header>", "</section>", "</body>", "</head>");
    HeaderIsHead(source);
    HeadHere();
    DeckOf(source, 0);
    SlideReadsAlone(source, 0, page);
  }

  lemma Rejoined(a: string, b: string, c: string, d: string, e: string, f: string)
    ensures a + (b + (c + d)) + e + f == (a + b) + c + (d + e) + f
  {
    assert a + (b + (c + d)) == (a + b) + (c + d);
    assert (a + b) + (c + d) + e == (a + b) + c + (d + e);
  }
}
