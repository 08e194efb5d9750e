/** What may stand between the sections of a deck: white space, comments, scripts and styles, and nothing else
    (outputBlocks.ts). */
module LooseText {
  import opened Basics
  import opened Markup
  import opened Slides
  import opened SlideDecks
  import opened SlidePages

  /** A stretch of text: plain, a comment, or a script or style, which `rest` is the inside of from its name on. */
  datatype Piece = Plain(text: string) | Comment(inner: string) | Block(name: string, rest: string)

  function Show(piece: Piece): string {
    match piece
    case Plain(text) => text
    case Comment(inner) => "<!--" + (inner + "-->")
    case Block(name, rest) => "<" + name + (rest + ("</" + name + ">"))
  }

  function ShowAll(pieces: seq<Piece>): string {
    if pieces == [] then "" else Show(pieces[0]) + ShowAll(pieces[1..])
  }

  /** Plain text holds no angle; a comment and a block end where they are first closed. */
  ghost predicate Whole(piece: Piece) {
    match piece
    case Plain(text) => '<' !in text
    case Comment(inner) => forall k: nat :: k < |inner| ==> !At(inner + "-->", k, "-->")
    case Block(name, rest) =>
      && (name == "script" || name == "style") && (rest != "" ==> !IsWordChar(rest[0]))
      && forall k: nat :: k < |rest| ==> !AtAnyCase(rest + ("</" + name + ">"), k, "</" + name + ">")
  }

  ghost predicate AllWhole(pieces: seq<Piece>) {
    forall k :: 0 <= k < |pieces| ==> Whole(pieces[k])
  }

  predicate PlainIsBlank(pieces: seq<Piece>) {
    forall k :: 0 <= k < |pieces| && pieces[k].Plain? ==> IsBlank(pieces[k].text)
  }

  lemma FirstPiece(pieces: seq<Piece>)
    ensures pieces == [] ==> PlainIsBlank(pieces)
    ensures pieces != [] ==>
      (PlainIsBlank(pieces) <==> (pieces[0].Plain? ==> IsBlank(pieces[0].text)) && PlainIsBlank(pieces[1..]))
    ensures pieces != [] && AllWhole(pieces) ==> Whole(pieces[0]) && AllWhole(pieces[1..])
  {
    hide Whole, IsBlank;
    if pieces != [] && PlainIsBlank(pieces[1..]) {
      forall k | 0 < k < |pieces| && pieces[k].Plain? ensures IsBlank(pieces[k].text) {
        assert pieces[1..][k - 1] == pieces[k];
      }
    }
  }

  lemma {:induction false} PlainIsLoose(text: string, i: nat, plain: string, k: nat)
    requires At(text, i, plain) && '<' !in plain && k <= |plain|
    ensures NothingLoose(text, i + k) <==> IsBlank(plain[k..]) && NothingLoose(text, i + |plain|)
    decreases |plain| - k
  {
    if k < |plain| {
      AtChar(text, i, plain, k);
      NoAngleHere(text, i + k);
      PlainIsLoose(text, i, plain, k + 1);
      assert plain[k..] == [plain[k]] + plain[k + 1..];
    } else {
      assert plain[k..] == "";
    }
  }

  lemma NoAngleHere(text: string, i: nat)
    requires i < |text| && text[i] != '<'
    ensures StrippedEnd(text, i).None?
  {
    if At(text, i, "<!--") {
      AtChar(text, i, "<!--", 0);
    }
    NotOpened(text, i, "<script", "</script>");
    NotOpened(text, i, "<style", "</style>");
  }

  lemma NotOpened(text: string, i: nat, open: string, close: string)
    requires i < |text| && text[i] != '<' && |open| > 0 && open[0] == '<'
    ensures BlockEnd(text, i, open, close).None?
  {}

  lemma CommentEnds(text: string, i: nat, inner: string)
    requires At(text, i, "<!--" + (inner + "-->")) && Whole(Comment(inner))
    ensures StrippedEnd(text, i) == Some(i + |inner| + 7)
  {
    AtSplit(text, i, "<!--", inner + "-->");
    AtSplit(text, i + 4, inner, "-->");
    forall k: nat | i + 4 <= k < i + 4 + |inner| ensures !At(text, k, "-->") {
      AtInside(text, i + 4, inner + "-->", k - i - 4, "-->");
    }
    FindAt(text, "-->", i + 4, i + 4 + |inner|);
  }

  lemma {:induction false} FindAnyCaseAt(text: string, pattern: string, from: nat, at: nat)
    requires from <= at <= |text| && AtAnyCase(text, at, pattern) && forall k: nat :: from <= k < at ==> !AtAnyCase(text, k, pattern)
    ensures FindAnyCase(text, pattern, from) == Some(at)
    decreases at - from
  {
    hide AtAnyCase;
    if from < at {
      FindAnyCaseAt(text, pattern, from + 1, at);
    }
  }

  lemma LowerIs(text: string, i: nat, pattern: string)
    requires At(text, i, pattern) && forall k :: 0 <= k < |pattern| ==> Lower(pattern[k]) == pattern[k]
    ensures AtAnyCase(text, i, pattern)
  {
    forall k | 0 <= k < |pattern| ensures text[i + k] == pattern[k] {
      AtChar(text, i, pattern, k);
    }
  }

  lemma BlockCloses(text: string, i: nat, open: string, rest: string, close: string)
    requires At(text, i, open + (rest + close)) && AtAnyCase(text, i, open) && close != "" && !IsWordChar((rest + close)[0])
    requires AtAnyCase(text, i + |open| + |rest|, close)
    requires forall k: nat :: k < |rest| ==> !AtAnyCase(rest + close, k, close)
    ensures BlockEnd(text, i, open, close) == Some(i + |open + (rest + close)|)
  {
    hide AtAnyCase, IsWordChar, FindAnyCase;
    var from := i + |open|;
    AtSplit(text, i, open, rest + close);
    AtSplit(text, from, rest, close);
    AtChar(text, from, rest + close, 0);
    forall k: nat | from <= k < from + |rest| ensures !AtAnyCase(text, k, close) {
      AnyCaseHere(text, from, rest + close, k - from, close);
    }
    FindAnyCaseAt(text, close, from, from + |rest|);
  }

  lemma NamedBlockCloses(text: string, i: nat, name: string, rest: string)
    requires At(text, i, Show(Block(name, rest))) && Whole(Block(name, rest))
    ensures BlockEnd(text, i, "<" + name, "</" + name + ">") == Some(i + |Show(Block(name, rest))|)
  {
    hide BlockEnd, At;
    var open, close := "<" + name, "</" + name + ">";
    AtSplit(text, i, open, rest + close);
    AtSplit(text, i + |open|, rest, close);
    LowerIs(text, i, open);
    LowerIs(text, i + |open| + |rest|, close);
    BlockCloses(text, i, open, rest, close);
  }

  /** Only the name that stands there opens a block. */
  lemma BlockEnds(text: string, i: nat, name: string, rest: string)
    requires At(text, i, Show(Block(name, rest))) && Whole(Block(name, rest))
    ensures StrippedEnd(text, i) == Some(i + |Show(Block(name, rest))|)
  {
    hide BlockEnd, FindAnyCase;
    NamedBlockCloses(text, i, name, rest);
    var open, close := "<" + name, "</" + name + ">";
    AtSplit(text, i, open, rest + close);
    AtChar(text, i, open, 1);
    AtChar(text, i, open, 2);
    if At(text, i, "<!--") {
      AtChar(text, i, "<!--", 1);
      assert false;
    }
    if name == "style" {
      assert open == "<style" && close == "</style>";
      NotScript(text, i);
    } else {
      assert open == "<script" && close == "</script>";
    }
  }

  lemma NotScript(text: string, i: nat)
    requires i + 2 < |text| && text[i + 2] == 't'
    ensures BlockEnd(text, i, "<script", "</script>").None?
  {
    if AtAnyCase(text, i, "<script") {
      AnyCaseChar(text, i, "<script", 2);
    }
  }

  /** Nothing loose stands in a text of such pieces exactly when its plain pieces are blank. */
  lemma {:induction false} LooseIsPlain(text: string, i: nat, pieces: seq<Piece>)
    requires At(text, i, ShowAll(pieces)) && i + |ShowAll(pieces)| == |text|
    requires AllWhole(pieces)
    ensures NothingLoose(text, i) <==> PlainIsBlank(pieces)
    decreases |pieces|
  {
    hide Whole, IsBlank, StrippedEnd, At, NothingLoose, AllWhole, PlainIsBlank, Show;
    FirstPiece(pieces);
    if pieces == [] {
      NothingAtEnd(text);
    } else {
      var piece, rest := pieces[0], pieces[1..];
      AtSplit(text, i, Show(piece), ShowAll(rest));
      LooseIsPlain(text, i + |Show(piece)|, rest);
      PieceIsLoose(text, i, piece);
    }
  }

  lemma PieceIsLoose(text: string, i: nat, piece: Piece)
    requires At(text, i, Show(piece)) && Whole(piece)
    ensures NothingLoose(text, i) <==> (piece.Plain? ==> IsBlank(piece.text)) && NothingLoose(text, i + |Show(piece)|)
  {
    hide IsBlank, StrippedEnd, At, NothingLoose;
    match piece
    case Plain(plain) =>
      PlainIsLoose(text, i, plain, 0);
      assert plain[0..] == plain;
    case Comment(inner) =>
      CommentEnds(text, i, inner);
      Stripped(text, i);
    case Block(name, inside) =>
      BlockEnds(text, i, name, inside);
      Stripped(text, i);
  }

  lemma NothingAtEnd(text: string)
    ensures NothingLoose(text, |text|)
  {}

  lemma Stripped(text: string, i: nat)
    requires i < |text| && StrippedEnd(text, i).Some?
    ensures NothingLoose(text, i) == NothingLoose(text, StrippedEnd(text, i).value)
  {}

  /** A page whose body is sections with such pieces around and between them is a deck of these sections exactly
      when no plain text but white space stands there; otherwise it shows no slide. */
  lemma LooseTextIsNoDeck(source: string, f: Forest, pieces: seq<Piece>)
    requires BodyTag(source).Some? && Content(source, BodyTag(source).value.1 + 1) == Print(f) && Proper(f)
    requires Between(f) == ShowAll(pieces) && AllWhole(pieces)
    ensures Read(source).slides == if PlainIsBlank(pieces) then TopSections(f) else []
  {
    AtWhole(Between(f));
    LooseIsPlain(Between(f), 0, pieces);
    NestedSectionsAreSlides(source, f);
  }

  /** A page put together from a head, a body tag and such sections reads as just these. */
  lemma PageIsRead(page: string, head: string, body: string, f: Forest, pieces: seq<Piece>)
    requires page == BeforeBody(head) + ("<body" + body + ">") + Print(f) + "</body></html>"
    requires Free(head, "<body") && Free(head, "</body>") && Free(head, "</head>") && '>' !in body
    requires Free("<body" + body + ">", "</body>") && Free(Print(f), "</body>") && Proper(f)
    requires Between(f) == ShowAll(pieces) && AllWhole(pieces) && PlainIsBlank(pieces)
    ensures Read(page) == Deck(META + head + FILL, body, TopSections(f), Between(f))
  {
    hide Free, HeadFrom, BodyTag, Content, NothingLoose, BeforeBody, META, FILL, AllWhole, PlainIsBlank, Proper;
    EndsBody();
    PutTogether(page, head, body, Print(f), "</body></html>");
    LooseTextIsNoDeck(page, f, pieces);
    NestedSectionsAreSlides(page, f);
    AtWhole(Between(f));
    LooseIsPlain(Between(f), 0, pieces);
  }
}
