/** Reading a PowerPoint file within its budgets: unpacking its parts, and keeping its rendered slides
    (outputDeckRead.ts). */
module DeckRead {
  import opened Basics
  import opened CodeUnits

  newtype Byte = b: int | 0 <= b < 256

  const MAX_SLIDES := 200
  const MAX_PART := 4 * 1024 * 1024
  const MAX_PICTURE := 3 * 1024 * 1024
  const MAX_UNPACKED := 32 * 1024 * 1024
  const MAX_MARKUP := 16 * 1024 * 1024

  // ---- one part, unpacked chunk by chunk ----

  datatype StreamEvent = Data(chunk: seq<Byte>) | Failure | End

  /** What unpacking comes to: still waiting, nothing, or the whole part. */
  datatype Outcome = Waiting | Nothing | Whole(data: seq<Byte>)

  function Concat(chunks: seq<seq<Byte>>): seq<Byte> {
    if chunks == [] then [] else Concat(chunks[..|chunks| - 1]) + chunks[|chunks| - 1]
  }

  /** The chunks before a stream ends or fails. */
  function Chunks(stream: seq<StreamEvent>): (chunks: seq<seq<Byte>>)
    ensures |chunks| <= |stream|
    ensures forall k :: 0 <= k < |chunks| ==> stream[k] == Data(chunks[k])
    ensures |chunks| < |stream| ==> !stream[|chunks|].Data?
  {
    if stream == [] || !stream[0].Data? then [] else [stream[0].chunk] + Chunks(stream[1..])
  }

  /** What a stream holds: everything it gave before it ended, if that is not too much. */
  function Outcomes(stream: seq<StreamEvent>, maximum: int): Outcome {
    var chunks := Chunks(stream);
    if |Concat(chunks)| > maximum then Nothing
    else if |chunks| == |stream| then Waiting
    else if stream[|chunks|] == Failure then Nothing
    else Whole(Concat(chunks))
  }

  /** The events that give some chunks. */
  function Giving(chunks: seq<seq<Byte>>): (stream: seq<StreamEvent>)
    ensures |stream| == |chunks| && forall k :: 0 <= k < |stream| ==> stream[k] == Data(chunks[k])
  {
    seq(|chunks|, k requires 0 <= k < |chunks| => Data(chunks[k]))
  }

  /** However a stream goes on after its chunks, more than allowed is nothing; else it is waited for while it goes
      on, nothing when it fails, and all its chunks when it ends. */
  lemma StreamComesTo(chunks: seq<seq<Byte>>, rest: seq<StreamEvent>, maximum: int)
    requires rest != [] ==> !rest[0].Data?
    ensures var outcome := Outcomes(Giving(chunks) + rest, maximum);
      if |Concat(chunks)| > maximum then outcome == Nothing
      else if rest == [] then outcome == Waiting
      else if rest[0] == End then outcome == Whole(Concat(chunks))
      else outcome == Nothing
  {
    var stream := Giving(chunks) + rest;
    ChunksSplit(stream, |chunks|);
    assert Chunks(stream) == chunks;
  }

  lemma ChunksSplit(stream: seq<StreamEvent>, n: nat)
    requires n <= |stream| && forall k :: 0 <= k < n ==> stream[k].Data?
    ensures n <= |Chunks(stream)| && (n < |stream| && !stream[n].Data? ==> |Chunks(stream)| == n)
    ensures n == |stream| ==> |Chunks(stream)| == n
  {}

  lemma {:induction false} ConcatGrows(chunks: seq<seq<Byte>>, n: nat)
    requires n <= |chunks|
    ensures |Concat(chunks[..n])| <= |Concat(chunks)|
    decreases |chunks|
  {
    if n < |chunks| {
      var less := chunks[..|chunks| - 1];
      ConcatGrows(less, n);
      assert less[..n] == chunks[..n];
    } else {
      assert chunks[..n] == chunks;
    }
  }

  /** Copies the chunks one after the other into one array. */
  method Join(chunks: seq<seq<Byte>>, size: nat) returns (joined: array<Byte>)
    requires size == |Concat(chunks)|
    ensures fresh(joined) && joined[..] == Concat(chunks)
  {
    joined := new Byte[size];
    var at := 0;
    assert joined[..0] == [];
    for k := 0 to |chunks|
      invariant at == |Concat(chunks[..k])| <= size
      invariant joined[..at] == Concat(chunks[..k])
    {
      ConcatGrows(chunks, k + 1);
      assert chunks[..k + 1][..k] == chunks[..k];
      ghost var before := joined[..at];
      var chunk := chunks[k];
      forall j | 0 <= j < |chunk| {
        joined[at + j] := chunk[j];
      }
      at := at + |chunk|;
      assert joined[..at] == before + chunk;
    }
    assert chunks[..|chunks|] == chunks;
    assert joined[..] == joined[..at];
  }

  /** How far a stream has been taken after `i` events, while nothing has ended it. */
  ghost predicate Collecting(stream: seq<StreamEvent>, maximum: int, i: nat, chunks: seq<seq<Byte>>, size: nat) {
    i <= |Chunks(stream)| && chunks == Chunks(stream)[..i] && size == |Concat(chunks)| <= maximum
  }

  lemma ChunkComes(stream: seq<StreamEvent>, maximum: int, i: nat, chunks: seq<seq<Byte>>, size: nat)
    requires Collecting(stream, maximum, i, chunks, size) && i < |stream| && stream[i].Data?
    ensures var chunk := stream[i].chunk;
      if size + |chunk| > maximum then |Concat(Chunks(stream))| > maximum
      else Collecting(stream, maximum, i + 1, chunks + [chunk], size + |chunk|)
  {
    hide Chunks, Concat;
    var all := Chunks(stream);
    ChunksSplit(stream, i + 1);
    assert all[..i + 1] == chunks + [stream[i].chunk];
    ConcatGrows(all, i + 1);
    ConcatAdds(chunks, stream[i].chunk);
  }

  lemma ConcatAdds(chunks: seq<seq<Byte>>, chunk: seq<Byte>)
    ensures Concat(chunks + [chunk]) == Concat(chunks) + chunk
  {
    assert (chunks + [chunk])[..|chunks|] == chunks;
  }

  lemma StreamStops(stream: seq<StreamEvent>, maximum: int, i: nat, chunks: seq<seq<Byte>>, size: nat)
    requires Collecting(stream, maximum, i, chunks, size) && (i < |stream| ==> !stream[i].Data?) && i <= |stream|
    ensures chunks == Chunks(stream) && |Concat(chunks)| <= maximum
  {
    assert Chunks(stream)[..|Chunks(stream)|] == Chunks(stream);
  }

  /** Takes the events of a stream one by one, and lets go of everything once there is too much. */
  method Collect(stream: seq<StreamEvent>, maximum: int) returns (outcome: Outcome, overrun: bool)
    requires maximum > 0
    ensures outcome == Outcomes(stream, maximum)
    ensures overrun == (|Concat(Chunks(stream))| > maximum)
  {
    hide Chunks, Concat, Collecting;
    outcome, overrun := Waiting, false;
    var chunks: seq<seq<Byte>> := [];
    var size: nat, ended := 0, false;
    CollectsNothing(stream, maximum);
    for i := 0 to |stream|
      invariant ended ==> outcome == Outcomes(stream, maximum) && overrun == (|Concat(Chunks(stream))| > maximum)
      invariant !ended ==> outcome == Waiting && !overrun && Collecting(stream, maximum, i, chunks, size)
    {
      match stream[i]
      case Data(chunk) =>
        if !ended {
          ChunkComes(stream, maximum, i, chunks, size);
          if size + |chunk| > maximum {
            ended, chunks, outcome, overrun := true, [], Nothing, true;
          } else {
            chunks := chunks + [chunk];
            size := size + |chunk|;
          }
        }
      case Failure =>
        if !ended {
          StreamStops(stream, maximum, i, chunks, size);
          Ends(stream, i, maximum, chunks, size);
          ended, outcome := true, Nothing;
        }
      case End =>
        if !ended {
          StreamStops(stream, maximum, i, chunks, size);
          Ends(stream, i, maximum, chunks, size);
          var joined := Join(chunks, size);
          ended, outcome := true, Whole(joined[..]);
        }
    }
    if !ended {
      StreamStops(stream, maximum, |stream|, chunks, size);
      Ends(stream, |stream|, maximum, chunks, size);
    }
  }

  lemma CollectsNothing(stream: seq<StreamEvent>, maximum: int)
    requires maximum > 0
    ensures Collecting(stream, maximum, 0, [], 0)
  {}

  lemma Ends(stream: seq<StreamEvent>, i: nat, maximum: int, chunks: seq<seq<Byte>>, size: nat)
    requires Collecting(stream, maximum, i, chunks, size) && (i < |stream| ==> !stream[i].Data?) && i <= |stream|
    ensures size == |Concat(chunks)|
    ensures Outcomes(stream, maximum) ==
      if i == |stream| then Waiting else if stream[i] == Failure then Nothing else Whole(Concat(chunks))
  {
    StreamStops(stream, maximum, i, chunks, size);
    ChunksSplit(stream, i);
  }

  // ---- the file's parts, within one budget ----

  datatype Entry = Entry(claimed: Option<nat>, stream: seq<StreamEvent>)

  datatype Notice = ExceedsLimit | OverranLimit | UnreadableSlides | ExceededMarkup | OnlyFirstSlides

  /** What a slide is drawn from besides its own part. */
  datatype Request = Document(path: string) | Picture(path: string)

  /** An archive, and how what is in it is understood: whether some bytes, decoded, are a document; where
      the slides are that the presentation and its links name; what a slide asks for next, given what it
      was given so far, `steps` times at most; and how its section goes on. */
  datatype File = File(
    zip: map<string, Entry>,
    isDocument: seq<Byte> -> bool,
    slides: (seq<Byte>, Outcome) -> seq<string>,
    needs: (nat, seq<Byte>, seq<Outcome>) -> Option<Request>,
    steps: nat,
    draw: (nat, seq<Byte>, seq<Outcome>) -> Text)

  /** The documents read so far, and the bytes kept. */
  datatype Budget = Budget(cache: map<string, Outcome>, used: nat, kept: seq<seq<Byte>>)

  const UNUSED: Budget := Budget(map[], 0, [])

  function Total(kept: seq<seq<Byte>>): nat {
    if kept == [] then 0 else Total(kept[..|kept| - 1]) + |kept[|kept| - 1]|
  }

  lemma TotalAdds(kept: seq<seq<Byte>>, data: seq<Byte>)
    ensures Total(kept + [data]) == Total(kept) + |data|
  {
    assert (kept + [data])[..|kept|] == kept;
  }

  /** What is used is what is kept, and no more than there is. */
  ghost predicate Holds(b: Budget) {
    b.used == Total(b.kept) <= MAX_UNPACKED
  }

  /** What an archive gives for a path when `used` bytes are kept already. */
  function Fetched(zip: map<string, Entry>, path: string, limit: int, used: nat): Outcome {
    var maximum := Min(limit, MAX_UNPACKED - used);
    if path !in zip || maximum <= 0 then Nothing
    else if zip[path].claimed.Some? && zip[path].claimed.value > maximum then Nothing
    else Outcomes(zip[path].stream, maximum)
  }

  /** A part that is kept is the whole stream, within its own limit and what the budget leaves. */
  lemma FetchedFits(zip: map<string, Entry>, path: string, limit: int, used: nat)
    requires Fetched(zip, path, limit, used).Whole?
    ensures var data := Fetched(zip, path, limit, used).data;
      path in zip && data == Concat(Chunks(zip[path].stream)) && |data| <= limit && used + |data| <= MAX_UNPACKED
  {}

  /** A part is refused unpacked when it is missing, when nothing is left of either limit, or when it claims more
      than is left; else it is what its stream comes to within what is left. */
  lemma FetchedIs(zip: map<string, Entry>, path: string, limit: int, used: nat)
    ensures var left, fetched := if limit < 32 * 1024 * 1024 - used then limit else 32 * 1024 * 1024 - used, Fetched(zip, path, limit, used);
      && (path !in zip || left <= 0 ==> fetched == Nothing)
      && (path in zip && left > 0 ==>
            fetched == match zip[path].claimed
              case Some(size) => if size > left then Nothing else Outcomes(zip[path].stream, left)
              case None => Outcomes(zip[path].stream, left))
  {
    hide Outcomes;
  }

  /** A stream that does not fail comes to nothing only when it gives too much. */
  lemma WhyNothing(stream: seq<StreamEvent>, maximum: int)
    ensures Outcomes(stream, maximum) == Nothing && Failure !in stream ==> |Concat(Chunks(stream))| > maximum
    ensures Outcomes(stream, maximum).Whole? ==> |Outcomes(stream, maximum).data| <= maximum
  {
    hide Concat;
  }

  function Fetch(file: File, b: Budget, path: string, limit: int): (Outcome, Budget) {
    var outcome := Fetched(file.zip, path, limit, b.used);
    (outcome, if outcome.Whole? then b.(used := b.used + |outcome.data|, kept := b.kept + [outcome.data]) else b)
  }

  /** A part read as a document, unpacked no more than once. */
  function PartOf(file: File, b: Budget, path: string): (Outcome, Budget) {
    if path in b.cache then (b.cache[path], b)
    else
      var (fetched, after) := Fetch(file, b, path, MAX_PART);
      var part := if fetched.Whole? && !file.isDocument(fetched.data) then Nothing else fetched;
      (part, after.(cache := after.cache[path := part]))
  }

  function Given(file: File, b: Budget, request: Request): (Outcome, Budget) {
    match request
    case Document(path) => PartOf(file, b, path)
    case Picture(path) => Fetch(file, b, path, MAX_PICTURE)
  }

  /** All that a slide asks for, one part after the other; `None` while one of them is still to come. */
  function Gathered(file: File, b: Budget, at: nat, data: seq<Byte>, given: seq<Outcome>, steps: nat):
    (Option<seq<Outcome>>, Budget)
    decreases steps
  {
    if steps == 0 then (Some(given), b)
    else
      match file.needs(at, data, given)
      case None => (Some(given), b)
      case Some(request) =>
        var (outcome, after) := Given(file, b, request);
        if outcome == Waiting then (None, after) else Gathered(file, after, at, data, given + [outcome], steps - 1)
  }

  class Parts {
    const file: File
    var cache: map<string, Outcome>
    var used: nat
    var notices: set<Notice>
    ghost var kept: seq<seq<Byte>>

    ghost function Now(): Budget
      reads this
    {
      Budget(cache, used, kept)
    }

    ghost predicate Valid()
      reads this
    {
      Holds(Now())
    }

    constructor (file: File)
      ensures Valid() && Now() == UNUSED && notices == {} && this.file == file
    {
      this.file := file;
      cache, used, notices, kept := map[], 0, {}, [];
    }

    /** One file from the archive; one that claims or turns out to be too large is refused. */
    method Unpacked(path: string, limit: nat) returns (outcome: Outcome)
      requires Valid()
      modifies `used, `notices, `kept
      ensures Valid()
      ensures (outcome, Now()) == Fetch(file, old(Now()), path, limit)
      ensures outcome.Whole? ==> |outcome.data| <= limit
      ensures old(notices) <= notices <= old(notices) + {ExceedsLimit, OverranLimit}
      ensures outcome == Nothing && path in file.zip && Failure !in file.zip[path].stream ==>
        ExceedsLimit in notices || OverranLimit in notices
    {
      hide Outcomes, Chunks, Concat, Total;
      var maximum := Min(limit, MAX_UNPACKED - used);
      if path !in file.zip {
        return Nothing;
      }
      var entry := file.zip[path];
      if maximum <= 0 || (entry.claimed.Some? && entry.claimed.value > maximum) {
        notices := notices + {ExceedsLimit};
        return Nothing;
      }
      var overrun;
      outcome, overrun := Collect(entry.stream, maximum);
      WhyNothing(entry.stream, maximum);
      if overrun {
        notices := notices + {OverranLimit};
      }
      if outcome.Whole? {
        TotalAdds(kept, outcome.data);
        used := used + |outcome.data|;
        kept := kept + [outcome.data];
      }
    }

    /** A part read as a document, unpacked no more than once. */
    method Part(path: string) returns (outcome: Outcome)
      requires Valid()
      modifies this
      ensures Valid() && (outcome, Now()) == PartOf(file, old(Now()), path)
      ensures old(notices) <= notices <= old(notices) + {ExceedsLimit, OverranLimit}
    {
      if path in cache {
        return cache[path];
      }
      outcome := Unpacked(path, MAX_PART);
      if outcome.Whole? && !file.isDocument(outcome.data) {
        outcome := Nothing;
      }
      cache := cache[path := outcome];
    }

    /** What a slide is drawn from, one part after the other. */
    method Gather(at: nat, data: seq<Byte>) returns (given: Option<seq<Outcome>>)
      requires Valid()
      modifies this
      ensures Valid() && (given, Now()) == Gathered(file, old(Now()), at, data, [], file.steps)
      ensures old(notices) <= notices <= old(notices) + {ExceedsLimit, OverranLimit}
    {
      hide Fetch, PartOf, Holds;
      var outcomes: seq<Outcome> := [];
      var left := file.steps;
      while left > 0
        invariant Valid() && Gathered(file, Now(), at, data, outcomes, left) == Gathered(file, old(Now()), at, data, [], file.steps)
        invariant old(notices) <= notices <= old(notices) + {ExceedsLimit, OverranLimit}
      {
        var request := file.needs(at, data, outcomes);
        if request.None? {
          break;
        }
        var outcome;
        match request.value {
          case Document(path) => outcome := Part(path);
          case Picture(path) => outcome := Unpacked(path, MAX_PICTURE);
        }
        if outcome == Waiting {
          return None;
        }
        outcomes := outcomes + [outcome];
        left := left - 1;
      }
      return Some(outcomes);
    }
  }

  // ---- the slides, within the markup budget ----

  /** The page of a slide, from how its section goes on. */
  function Page(rest: Text): (page: Text)
    ensures Utf8Length(page) > 0
  {
    Units("<section") + rest
  }

  function Digits(n: nat): Text {
    if n < 10 then [ZERO + n as CodeUnit] else Digits(n / 10) + [ZERO + (n % 10) as CodeUnit]
  }

  function Placeholder(number: nat): Text {
    Units("<section><div class=\"missing\">Slide ") + Digits(number) +
    Units(" could not be previewed. ") + Units("Open the original presentation.") + Units("</div></section>")
  }

  /** What some digits read as. */
  function Number(digits: Text): int {
    if digits == [] then 0 else Number(digits[..|digits| - 1]) * 10 + (digits[|digits| - 1] as int - 48)
  }

  /** The number in a placeholder reads as the slide's, without leading zeros. */
  lemma {:induction false} DigitsRead(n: nat)
    ensures Number(Digits(n)) == n && Digits(n) != [] && (n > 0 ==> Digits(n)[0] != 48)
    ensures forall k :: 0 <= k < |Digits(n)| ==> 48 <= Digits(n)[k] <= 57
  {
    var last: Text := [ZERO + (n % 10) as CodeUnit];
    if n < 10 {
      assert Digits(n) == last && last[..0] == [];
    } else {
      DigitsRead(n / 10);
      assert (Digits(n / 10) + last)[..|Digits(n / 10)|] == Digits(n / 10);
    }
  }

  /** A placeholder names its slide, and a page is a section that goes on as drawn. */
  lemma PlaceholderNames(number: nat, rest: Text)
    ensures var p, open := Placeholder(number), Units("<section><div class=\"missing\">Slide ");
      && At(p, 0, open) && At(p, |open|, Digits(number))
      && At(p, |open| + |Digits(number)|, Units(" could not be previewed. "))
    ensures At(Page(rest), 0, Units("<section")) && Page(rest)[8..] == rest
  {
    hide Digits;
    ThreeStand(Units("<section><div class=\"missing\">Slide "), Digits(number), Units(" could not be previewed. "),
               Units("Open the original presentation."), Units("</div></section>"));
    assert Page(rest)[0..8] == Units("<section");
  }

  lemma ThreeStand(a: Text, b: Text, c: Text, d: Text, e: Text)
    ensures var p := a + b + c + d + e; At(p, 0, a) && At(p, |a|, b) && At(p, |a| + |b|, c)
  {
    var p := a + b + c + d + e;
    assert p[0..|a|] == a && p[|a|..|a| + |b|] == b && p[|a| + |b|..|a| + |b| + |c|] == c;
  }

  /** How many bytes the readable slides before the first `n` run up to, shown or not. */
  function Rendered(drawn: seq<Option<Text>>, n: nat): nat
    requires n <= |drawn|
  {
    if n == 0 then 0
    else Rendered(drawn, n - 1) + if drawn[n - 1].Some? then Utf8Length(Page(drawn[n - 1].value)) else 0
  }

  /** A slide is shown when it can be read and everything up to it fits the budget. */
  predicate Shown(drawn: seq<Option<Text>>, i: nat)
    requires i < |drawn|
  {
    drawn[i].Some? && Rendered(drawn, i + 1) <= MAX_MARKUP
  }

  function SlideAt(drawn: seq<Option<Text>>, i: nat): Text
    requires i < |drawn|
  {
    if Shown(drawn, i) then Page(drawn[i].value) else Placeholder(i + 1)
  }

  lemma {:induction false} RenderedGrows(drawn: seq<Option<Text>>, i: nat, j: nat)
    requires i <= j <= |drawn|
    ensures Rendered(drawn, i) <= Rendered(drawn, j)
    decreases j
  {
    if i < j {
      RenderedGrows(drawn, i, j - 1);
    }
  }

  /** Once a readable slide is refused for size, none after it is shown. */
  lemma RefusedIsLast(drawn: seq<Option<Text>>, i: nat, j: nat)
    requires i < j < |drawn| && drawn[i].Some? && !Shown(drawn, i)
    ensures !Shown(drawn, j) && SlideAt(drawn, j) == Placeholder(j + 1)
  {
    RenderedGrows(drawn, i + 1, j + 1);
  }

  /** What the slides that are shown take up together. */
  function ShownBytes(drawn: seq<Option<Text>>, n: nat): nat
    requires n <= |drawn|
  {
    if n == 0 then 0
    else ShownBytes(drawn, n - 1) + if Shown(drawn, n - 1) then Utf8Length(Page(drawn[n - 1].value)) else 0
  }

  /** The slides that are shown keep within the budget, and leave out none that would still fit. */
  lemma {:induction false} ShownFits(drawn: seq<Option<Text>>, n: nat)
    requires n <= |drawn|
    ensures ShownBytes(drawn, n) <= MAX_MARKUP
    ensures Rendered(drawn, n) <= MAX_MARKUP ==> ShownBytes(drawn, n) == Rendered(drawn, n)
    ensures Rendered(drawn, n) > MAX_MARKUP ==>
      exists i: nat :: i < n && drawn[i].Some? && !Shown(drawn, i) && ShownBytes(drawn, n) == Rendered(drawn, i)
  {
    if n > 0 {
      ShownFits(drawn, n - 1);
      if Rendered(drawn, n) > MAX_MARKUP && Rendered(drawn, n - 1) <= MAX_MARKUP {
        assert drawn[n - 1].Some? && !Shown(drawn, n - 1);
      }
    }
  }

  /** The readable slide that the budget runs out on. */
  predicate RunsOver(drawn: seq<Option<Text>>, i: nat)
    requires i < |drawn|
  {
    Rendered(drawn, i) < MAX_MARKUP < Rendered(drawn, i + 1)
  }

  /** A slide that is read though it cannot be. */
  predicate ReadInVain(drawn: seq<Option<Text>>, i: nat)
    requires i < |drawn|
  {
    drawn[i].None? && Rendered(drawn, i) < MAX_MARKUP
  }

  /** What the loop knows after `at` slides. */
  ghost predicate SlidesKept(drawn: seq<Option<Text>>, at: nat, kept: seq<Text>, markup: nat) {
    && |kept| == at <= |drawn|
    && (forall i :: 0 <= i < at ==> kept[i] == SlideAt(drawn, i))
    && if Rendered(drawn, at) < MAX_MARKUP then markup == Rendered(drawn, at) else markup >= MAX_MARKUP
  }

  /** What the next slide adds. */
  lemma SlideComes(drawn: seq<Option<Text>>, at: nat, kept: seq<Text>, markup: nat)
    requires SlidesKept(drawn, at, kept, markup) && at < |drawn|
    ensures markup < MAX_MARKUP <==> Rendered(drawn, at) < MAX_MARKUP
    ensures markup >= MAX_MARKUP || drawn[at] == None ==> SlidesKept(drawn, at + 1, kept + [Placeholder(at + 1)], markup)
    ensures ReadInVain(drawn, at) <==> markup < MAX_MARKUP && drawn[at].None?
    ensures RunsOver(drawn, at) <==>
      markup < MAX_MARKUP && drawn[at].Some? && markup + Utf8Length(Page(drawn[at].value)) > MAX_MARKUP
    ensures markup < MAX_MARKUP && drawn[at].Some? ==>
      var more := markup + Utf8Length(Page(drawn[at].value));
      SlidesKept(drawn, at + 1, kept + [if more > MAX_MARKUP then Placeholder(at + 1) else Page(drawn[at].value)], more)
  {
    hide Utf8Length, Page, Placeholder;
  }

  lemma RenderedSame(drawn: seq<Option<Text>>, next: Option<Text>, n: nat)
    requires n <= |drawn|
    ensures Rendered(drawn + [next], n) == Rendered(drawn, n)
    decreases n
  {}

  /** What is known of the slides before does not change with the next one. */
  lemma KeptBefore(drawn: seq<Option<Text>>, next: Option<Text>, kept: seq<Text>, markup: nat)
    requires SlidesKept(drawn, |drawn|, kept, markup)
    ensures SlidesKept(drawn + [next], |drawn|, kept, markup)
    ensures forall i :: 0 <= i < |drawn| ==> RunsOver(drawn + [next], i) == RunsOver(drawn, i)
    ensures forall i :: 0 <= i < |drawn| ==> ReadInVain(drawn + [next], i) == ReadInVain(drawn, i)
  {
    var more := drawn + [next];
    forall n: nat | n <= |drawn| ensures Rendered(more, n) == Rendered(drawn, n) {
      RenderedSame(drawn, next, n);
    }
    hide Rendered, Page, Placeholder;
    forall i | 0 <= i < |drawn| ensures SlideAt(more, i) == SlideAt(drawn, i) {
      assert more[i] == drawn[i] && Rendered(more, i + 1) == Rendered(drawn, i + 1);
    }
  }

  // ---- the whole deck, within both budgets ----

  datatype Drawing = Still | Unreadable | Drawn(rest: Text)

  /** One slide, read and drawn. */
  function DrawnAt(file: File, b: Budget, at: nat, path: string): (Drawing, Budget) {
    var (part, read) := PartOf(file, b, path);
    match part
    case Waiting => (Still, read)
    case Nothing => (Unreadable, read)
    case Whole(data) =>
      var (given, after) := Gathered(file, read, at, data, [], file.steps);
      (if given.None? then Still else Drawn(file.draw(at, data, given.value)), after)
  }

  /** The first slides, drawn in order; what the markup budget leaves no room for is not read. */
  function DrawnFirst(file: File, b: Budget, paths: seq<string>): Option<(Budget, seq<Option<Text>>)> {
    if paths == [] then Some((b, []))
    else
      var last := |paths| - 1;
      match DrawnFirst(file, b, paths[..last])
      case None => None
      case Some((before, drawn)) =>
        if Rendered(drawn, |drawn|) >= MAX_MARKUP then Some((before, drawn + [None]))
        else
          var (drawing, after) := DrawnAt(file, before, last, paths[last]);
          match drawing
          case Still => None
          case Unreadable => Some((after, drawn + [None]))
          case Drawn(rest) => Some((after, drawn + [Some(rest)]))
  }

  datatype Deck = Pending | TooManyEntries | NotPowerPoint | NoSlides | Slides(slides: seq<Text>, total: nat)

  const PRESENTATION := "ppt/presentation.xml"
  const LINKS := "ppt/_rels/presentation.xml.rels"
  const MAX_ENTRIES := 20_000

  /** The presentation and its links, as far as they can be read: where its slides are. */
  function Listed(file: File): (Option<Option<seq<string>>>, Budget) {
    var (show, b) := PartOf(file, UNUSED, PRESENTATION);
    match show
    case Waiting => (None, b)
    case Nothing => (Some(None), b)
    case Whole(data) =>
      var (links, after) := PartOf(file, b, LINKS);
      (if links == Waiting then None else Some(Some(file.slides(data, links))), after)
  }

  function FirstSlides(paths: seq<string>): seq<string> {
    paths[..Min(|paths|, MAX_SLIDES)]
  }

  /** What drawing the slides of a file comes to. */
  function DrawnOf(file: File): Option<(Budget, seq<Option<Text>>)> {
    var (paths, b) := Listed(file);
    if paths.None? || paths.value.None? then None else DrawnFirst(file, b, FirstSlides(paths.value.value))
  }

  function DeckOf(file: File): Deck {
    var paths := Listed(file).0;
    if |file.zip| > MAX_ENTRIES then TooManyEntries
    else if paths.None? then Pending
    else if paths.value.None? then NotPowerPoint
    else
      match DrawnOf(file)
      case None => Pending
      case Some((_, drawn)) =>
        if drawn == [] then NoSlides
        else Slides(seq(|drawn|, i requires 0 <= i < |drawn| => SlideAt(drawn, i)), |paths.value.value|)
  }

  // What holds of every file.

  lemma FetchHolds(file: File, b: Budget, path: string, limit: nat)
    requires Holds(b)
    ensures Holds(Fetch(file, b, path, limit).1) && Fetch(file, b, path, limit).1.cache == b.cache
    ensures b.used <= Fetch(file, b, path, limit).1.used
  {
    var after := Fetch(file, b, path, limit).1;
    if after != b {
      assert after.kept[..|after.kept| - 1] == b.kept;
    }
  }

  /** What was read once stays as it was read. */
  predicate Remembers(before: Budget, after: Budget) {
    before.used <= after.used &&
    forall path :: path in before.cache ==> path in after.cache && after.cache[path] == before.cache[path]
  }

  lemma PartHolds(file: File, b: Budget, path: string)
    requires Holds(b)
    ensures var (part, after) := PartOf(file, b, path);
      Holds(after) && Remembers(b, after) && path in after.cache && after.cache[path] == part
  {
    hide Fetch;
    FetchHolds(file, b, path, MAX_PART);
  }

  lemma {:induction false} GatheredHolds(file: File, b: Budget, at: nat, data: seq<Byte>, given: seq<Outcome>, steps: nat)
    requires Holds(b)
    ensures var after := Gathered(file, b, at, data, given, steps).1;
      Holds(after) && Remembers(b, after)
    decreases steps
  {
    hide Fetch, Holds, PartOf;
    if steps > 0 && file.needs(at, data, given).Some? {
      match file.needs(at, data, given).value
      case Document(path) =>
        PartHolds(file, b, path);
        var (outcome, after) := PartOf(file, b, path);
        GatheredHolds(file, after, at, data, given + [outcome], steps - 1);
      case Picture(path) =>
        FetchHolds(file, b, path, MAX_PICTURE);
        var (outcome, after) := Fetch(file, b, path, MAX_PICTURE);
        GatheredHolds(file, after, at, data, given + [outcome], steps - 1);
    }
  }

  // What is read of a part.

  /** The part is what the archive gave for it, at its limit and what was left of the budget, if that is a
      document. */
  ghost predicate PartIs(file: File, b: Budget, path: string, part: Outcome) {
    exists used: nat :: used <= b.used && part ==
      var fetched := Fetched(file.zip, path, MAX_PART, used);
      if fetched.Whole? && !file.isDocument(fetched.data) then Nothing else fetched
  }

  ghost predicate PartsAre(file: File, b: Budget) {
    forall path :: path in b.cache ==> PartIs(file, b, path, b.cache[path])
  }

  lemma PartsStill(file: File, before: Budget, after: Budget)
    requires PartsAre(file, before) && after.cache == before.cache && before.used <= after.used
    ensures PartsAre(file, after)
  {
    hide Fetched;
    forall path | path in after.cache ensures PartIs(file, after, path, after.cache[path]) {
      assert PartIs(file, before, path, before.cache[path]);
    }
  }

  lemma PartOfIs(file: File, b: Budget, path: string)
    requires Holds(b) && PartsAre(file, b)
    ensures PartsAre(file, PartOf(file, b, path).1)
  {
    hide Fetched, Holds, PartsAre, PartIs;
    if path !in b.cache {
      var (fetched, after) := Fetch(file, b, path, MAX_PART);
      FetchHolds(file, b, path, MAX_PART);
      PartsStill(file, b, after);
      PartComes(file, after, b.used, path);
    }
  }

  lemma PartComes(file: File, b: Budget, used: nat, path: string)
    requires PartsAre(file, b) && used <= b.used
    ensures var fetched := Fetched(file.zip, path, MAX_PART, used);
      PartsAre(file, b.(cache := b.cache[path := if fetched.Whole? && !file.isDocument(fetched.data) then Nothing else fetched]))
  {
    hide Fetched;
  }

  lemma {:induction false} GatheredAre(file: File, b: Budget, at: nat, data: seq<Byte>, given: seq<Outcome>, steps: nat)
    requires Holds(b) && PartsAre(file, b)
    ensures PartsAre(file, Gathered(file, b, at, data, given, steps).1)
    decreases steps
  {
    hide Fetch, Holds, PartOf, PartsAre;
    if steps > 0 && file.needs(at, data, given).Some? {
      var request := file.needs(at, data, given).value;
      GivenHolds(file, b, request);
      var (outcome, after) := Given(file, b, request);
      if outcome != Waiting {
        GatheredAre(file, after, at, data, given + [outcome], steps - 1);
      }
    }
  }

  lemma GivenHolds(file: File, b: Budget, request: Request)
    requires Holds(b) && PartsAre(file, b)
    ensures Holds(Given(file, b, request).1) && PartsAre(file, Given(file, b, request).1)
  {
    hide Fetch, Holds, PartOf, PartsAre;
    match request
    case Document(path) =>
      PartHolds(file, b, path);
      PartOfIs(file, b, path);
    case Picture(path) =>
      FetchHolds(file, b, path, MAX_PICTURE);
      PartsStill(file, b, Fetch(file, b, path, MAX_PICTURE).1);
  }

  lemma DrawnAtAre(file: File, b: Budget, at: nat, path: string)
    requires Holds(b) && PartsAre(file, b)
    ensures PartsAre(file, DrawnAt(file, b, at, path).1)
  {
    hide Holds, PartOf, Gathered, PartsAre;
    PartHolds(file, b, path);
    PartOfIs(file, b, path);
    var (part, read) := PartOf(file, b, path);
    if part.Whole? {
      GatheredAre(file, read, at, part.data, [], file.steps);
    }
  }

  lemma {:induction false} DrawnFirstAre(file: File, b: Budget, paths: seq<string>)
    requires Holds(b) && PartsAre(file, b) && DrawnFirst(file, b, paths).Some?
    ensures PartsAre(file, DrawnFirst(file, b, paths).value.0)
    decreases |paths|
  {
    hide Holds, DrawnAt, Rendered, PartsAre;
    if paths != [] {
      var last := |paths| - 1;
      DrawnFirstAre(file, b, paths[..last]);
      DrawnFirstHolds(file, b, paths[..last]);
      DrawnAtAre(file, DrawnFirst(file, b, paths[..last]).value.0, last, paths[last]);
    }
  }

  lemma ListedAre(file: File)
    ensures PartsAre(file, Listed(file).1)
  {
    hide Holds, PartOf;
    UnusedHolds();
    PartHolds(file, UNUSED, PRESENTATION);
    PartOfIs(file, UNUSED, PRESENTATION);
    PartOfIs(file, PartOf(file, UNUSED, PRESENTATION).1, LINKS);
  }

  // What a slide is drawn from.

  /** What is given for a request: a document as it is read for good, or a picture as it was when asked for. */
  ghost predicate GivenFor(file: File, b: Budget, request: Request, outcome: Outcome) {
    match request
    case Document(path) => path in b.cache && b.cache[path] == outcome
    case Picture(path) => exists used: nat :: used <= b.used && outcome == Fetched(file.zip, path, MAX_PICTURE, used)
  }

  /** Each was asked for, given what came before it, and was not still to come. */
  ghost predicate Answered(file: File, b: Budget, at: nat, data: seq<Byte>, given: seq<Outcome>) {
    forall k :: 0 <= k < |given| ==>
      var request := file.needs(at, data, given[..k]);
      given[k] != Waiting && request.Some? && GivenFor(file, b, request.value, given[k])
  }

  lemma StillAnswered(file: File, before: Budget, after: Budget, at: nat, data: seq<Byte>, given: seq<Outcome>)
    requires Answered(file, before, at, data, given) && Remembers(before, after)
    ensures Answered(file, after, at, data, given)
  {
    hide Fetched;
    forall k | 0 <= k < |given| ensures GivenFor(file, after, file.needs(at, data, given[..k]).value, given[k]) {
      var request := file.needs(at, data, given[..k]).value;
      assert GivenFor(file, before, request, given[k]);
    }
  }

  lemma AnsweredNext(file: File, b: Budget, at: nat, data: seq<Byte>, given: seq<Outcome>, outcome: Outcome)
    requires Answered(file, b, at, data, given) && outcome != Waiting
    requires file.needs(at, data, given).Some? && GivenFor(file, b, file.needs(at, data, given).value, outcome)
    ensures Answered(file, b, at, data, given + [outcome])
  {
    hide GivenFor;
    var more := given + [outcome];
    assert more[..|given|] == given;
    assert forall k :: 0 <= k < |given| ==> more[..k] == given[..k];
  }

  lemma GivenIs(file: File, b: Budget, request: Request)
    requires Holds(b)
    ensures var (outcome, after) := Given(file, b, request);
      Holds(after) && Remembers(b, after) && GivenFor(file, after, request, outcome)
  {
    hide Fetched, Holds;
    match request
    case Document(path) => PartHolds(file, b, path);
    case Picture(path) => FetchHolds(file, b, path, MAX_PICTURE);
  }

  lemma {:induction false} GatheredIs(file: File, b: Budget, at: nat, data: seq<Byte>, given: seq<Outcome>, steps: nat)
    requires Holds(b) && Answered(file, b, at, data, given)
    ensures var (all, after) := Gathered(file, b, at, data, given, steps);
      && (all.Some? ==> Answered(file, after, at, data, all.value) && |all.value| <= |given| + steps)
      && (all.Some? && |all.value| < |given| + steps ==> file.needs(at, data, all.value).None?)
    decreases steps
  {
    hide Given, Holds, GivenFor, Answered, Remembers;
    if steps > 0 && file.needs(at, data, given).Some? {
      var request := file.needs(at, data, given).value;
      GivenIs(file, b, request);
      var (outcome, after) := Given(file, b, request);
      if outcome != Waiting {
        StillAnswered(file, b, after, at, data, given);
        AnsweredNext(file, after, at, data, given, outcome);
        GatheredIs(file, after, at, data, given + [outcome], steps - 1);
      }
    }
  }

  /** The slide is drawn from its own part and from all it asks for. */
  ghost predicate DrawnFrom(file: File, b: Budget, path: string, at: nat, rest: Text) {
    path in b.cache && b.cache[path].Whole? &&
    exists given :: AskedAll(file, b, at, b.cache[path].data, given) && rest == file.draw(at, b.cache[path].data, given)
  }

  ghost predicate AskedAll(file: File, b: Budget, at: nat, data: seq<Byte>, given: seq<Outcome>) {
    && Answered(file, b, at, data, given) && |given| <= file.steps
    && (|given| < file.steps ==> file.needs(at, data, given).None?)
  }

  lemma StillDrawn(file: File, before: Budget, after: Budget, path: string, at: nat, rest: Text)
    requires DrawnFrom(file, before, path, at, rest) && Remembers(before, after)
    ensures DrawnFrom(file, after, path, at, rest)
  {
    hide Answered;
    var data := before.cache[path].data;
    var given :| AskedAll(file, before, at, data, given) && rest == file.draw(at, data, given);
    StillAnswered(file, before, after, at, data, given);
    assert AskedAll(file, after, at, data, given);
  }

  lemma DrawnAtIs(file: File, b: Budget, at: nat, path: string)
    requires Holds(b)
    ensures var (drawing, after) := DrawnAt(file, b, at, path);
      drawing.Drawn? ==> DrawnFrom(file, after, path, at, drawing.rest)
  {
    hide Holds, PartOf, Gathered, Answered;
    PartHolds(file, b, path);
    var (part, read) := PartOf(file, b, path);
    if part.Whole? {
      NothingAnswered(file, read, at, part.data);
      GatheredIs(file, read, at, part.data, [], file.steps);
      GatheredHolds(file, read, at, part.data, [], file.steps);
      var (given, after) := Gathered(file, read, at, part.data, [], file.steps);
      if given.Some? {
        assert AskedAll(file, after, at, part.data, given.value);
      }
    }
  }

  lemma NothingAnswered(file: File, b: Budget, at: nat, data: seq<Byte>)
    ensures Answered(file, b, at, data, [])
  {}

  lemma DrawnAtHolds(file: File, b: Budget, at: nat, path: string)
    requires Holds(b)
    ensures var (drawing, after) := DrawnAt(file, b, at, path);
      && Holds(after) && Remembers(b, after) && path in after.cache
      && (drawing.Drawn? ==> after.cache[path].Whole?)
      && (drawing.Unreadable? ==> after.cache[path] == Nothing)
  {
    hide Holds, PartOf, Gathered;
    PartHolds(file, b, path);
    var (part, read) := PartOf(file, b, path);
    if part.Whole? {
      GatheredHolds(file, read, at, part.data, [], file.steps);
    }
  }

  /** Whether a slide that there was room for could be read is what the archive and its budget say. */
  predicate ReadAsTold(b: Budget, path: string, drawn: seq<Option<Text>>, i: nat)
    requires i < |drawn|
  {
    if Rendered(drawn, i) >= MAX_MARKUP then drawn[i] == None
    else path in b.cache && b.cache[path] != Waiting && (drawn[i].Some? <==> b.cache[path].Whole?)
  }

  /** Drawing keeps the unpacking budget, one entry for each slide, and reads just the slides there is
      room for. */
  lemma {:induction false} DrawnFirstHolds(file: File, b: Budget, paths: seq<string>)
    requires Holds(b) && DrawnFirst(file, b, paths).Some?
    ensures var (after, drawn) := DrawnFirst(file, b, paths).value;
      && Holds(after) && |drawn| == |paths|
      && forall i :: 0 <= i < |paths| ==> ReadAsTold(after, paths[i], drawn, i)
    ensures var (after, drawn) := DrawnFirst(file, b, paths).value;
      forall i :: 0 <= i < |paths| && drawn[i].Some? ==> DrawnFrom(file, after, paths[i], i, drawn[i].value)
    decreases |paths|
  {
    hide Holds, DrawnAt, ReadAsTold, Rendered, Remembers, DrawnFrom;
    if paths != [] {
      var last := |paths| - 1;
      DrawnFirstHolds(file, b, paths[..last]);
      var (before, drawn) := DrawnFirst(file, b, paths[..last]).value;
      var (after, more) := DrawnFirst(file, b, paths).value;
      DrawnAtHolds(file, before, last, paths[last]);
      DrawnAtIs(file, before, last, paths[last]);
      if Rendered(drawn, last) >= MAX_MARKUP {
        NotRead(after, paths[last], drawn);
        SameRemembers(before);
      } else {
        var drawing := DrawnAt(file, before, last, paths[last]).0;
        var next := if drawing.Drawn? then Some(drawing.rest) else None;
        assert more == drawn + [next];
        JustRead(after, paths[last], drawn, next);
      }
      forall i | 0 <= i < last ensures ReadAsTold(after, paths[i], more, i) {
        assert paths[..last][i] == paths[i];
        StillTold(before, after, paths[i], drawn, more[last], i);
      }
      forall i | 0 <= i < last && more[i].Some? ensures DrawnFrom(file, after, paths[i], i, more[i].value) {
        assert paths[..last][i] == paths[i] && more[i] == drawn[i];
        StillDrawn(file, before, after, paths[i], i, more[i].value);
      }
    }
  }

  lemma SameRemembers(b: Budget)
    ensures Remembers(b, b)
  {}

  lemma NotRead(b: Budget, path: string, drawn: seq<Option<Text>>)
    requires Rendered(drawn, |drawn|) >= MAX_MARKUP
    ensures ReadAsTold(b, path, drawn + [None], |drawn|)
  {
    RenderedSame(drawn, None, |drawn|);
  }

  lemma JustRead(b: Budget, path: string, drawn: seq<Option<Text>>, next: Option<Text>)
    requires Rendered(drawn, |drawn|) < MAX_MARKUP && path in b.cache
    requires if next.Some? then b.cache[path].Whole? else b.cache[path] == Nothing
    ensures ReadAsTold(b, path, drawn + [next], |drawn|)
  {
    RenderedSame(drawn, next, |drawn|);
  }

  lemma StillTold(before: Budget, after: Budget, path: string, drawn: seq<Option<Text>>, next: Option<Text>, i: nat)
    requires i < |drawn| && ReadAsTold(before, path, drawn, i) && Remembers(before, after)
    ensures ReadAsTold(after, path, drawn + [next], i)
  {
    RenderedSame(drawn, next, i);
  }

  /** Whatever the file, a deck read from it shows as many slides as it declares, at most 200, each in its
      own place; a slide is shown when its part could be read within the 32 MiB and all that were drawn up
      to it fit the 16 MiB, and what is kept never goes over either. */
  lemma DeckFits(file: File)
    requires DeckOf(file).Slides?
    ensures DrawnOf(file).Some? && Listed(file).0.Some? && Listed(file).0.value.Some?
    ensures var deck, paths, (b, drawn) := DeckOf(file), Listed(file).0.value.value, DrawnOf(file).value;
      && deck.total == |paths| && |deck.slides| == |drawn| == Min(|paths|, MAX_SLIDES)
      && (forall i :: 0 <= i < |drawn| ==> deck.slides[i] == SlideAt(drawn, i) && ReadAsTold(b, paths[i], drawn, i))
      && (forall i :: 0 <= i < |drawn| && drawn[i].Some? ==> DrawnFrom(file, b, paths[i], i, drawn[i].value))
      && PartsAre(file, b) && b.used == Total(b.kept) <= MAX_UNPACKED && ShownBytes(drawn, |drawn|) <= MAX_MARKUP
  {
    hide Rendered, ReadAsTold, DrawnFrom, DrawnFirst, SlideAt, ShownBytes, PartsAre;
    var paths := Listed(file).0.value.value;
    var (b, drawn) := DrawnOf(file).value;
    ListedHolds(file);
    DrawnFirstHolds(file, Listed(file).1, FirstSlides(paths));
    ListedAre(file);
    DrawnFirstAre(file, Listed(file).1, FirstSlides(paths));
    ShownFits(drawn, |drawn|);
    assert Holds(b);
    assert forall i :: 0 <= i < |drawn| ==> FirstSlides(paths)[i] == paths[i];
  }

  lemma ListedHolds(file: File)
    ensures Holds(Listed(file).1)
  {
    hide Holds, PartOf;
    UnusedHolds();
    PartHolds(file, UNUSED, PRESENTATION);
    PartHolds(file, PartOf(file, UNUSED, PRESENTATION).1, LINKS);
  }

  lemma UnusedHolds()
    ensures Holds(UNUSED)
  {}

  // Nothing is waited for in vain.

  /** Every stream ends or fails. */
  predicate AllEnd(zip: map<string, Entry>) {
    forall path :: path in zip ==> exists k :: 0 <= k < |zip[path].stream| && !zip[path].stream[k].Data?
  }

  predicate NoneWaits(b: Budget) {
    forall path :: path in b.cache ==> b.cache[path] != Waiting
  }

  lemma StreamEnds(stream: seq<StreamEvent>, maximum: int, k: nat)
    requires k < |stream| && !stream[k].Data?
    ensures Outcomes(stream, maximum) != Waiting
  {
    assert |Chunks(stream)| < |stream|;
  }

  lemma FetchEnds(zip: map<string, Entry>, path: string, limit: int, used: nat)
    requires AllEnd(zip)
    ensures Fetched(zip, path, limit, used) != Waiting
  {
    hide Outcomes;
    if path in zip {
      var k :| 0 <= k < |zip[path].stream| && !zip[path].stream[k].Data?;
      StreamEnds(zip[path].stream, Min(limit, MAX_UNPACKED - used), k);
    }
  }

  lemma PartEnds(file: File, b: Budget, path: string)
    requires AllEnd(file.zip) && NoneWaits(b)
    ensures PartOf(file, b, path).0 != Waiting && NoneWaits(PartOf(file, b, path).1)
  {
    hide Fetched, AllEnd;
    FetchEnds(file.zip, path, MAX_PART, b.used);
  }

  lemma {:induction false} GatheringEnds(file: File, b: Budget, at: nat, data: seq<Byte>, given: seq<Outcome>, steps: nat)
    requires AllEnd(file.zip) && NoneWaits(b)
    ensures var (all, after) := Gathered(file, b, at, data, given, steps); all.Some? && NoneWaits(after)
    decreases steps
  {
    hide Fetched, AllEnd, PartOf;
    if steps > 0 && file.needs(at, data, given).Some? {
      var request := file.needs(at, data, given).value;
      match request {
        case Document(path) => PartEnds(file, b, path);
        case Picture(path) => FetchEnds(file.zip, path, MAX_PICTURE, b.used);
      }
      var (outcome, after) := Given(file, b, request);
      GatheringEnds(file, after, at, data, given + [outcome], steps - 1);
    }
  }

  lemma DrawingEnds(file: File, b: Budget, at: nat, path: string)
    requires AllEnd(file.zip) && NoneWaits(b)
    ensures var (drawing, after) := DrawnAt(file, b, at, path); drawing != Still && NoneWaits(after)
  {
    hide AllEnd, PartOf, Gathered, NoneWaits;
    PartEnds(file, b, path);
    var (part, read) := PartOf(file, b, path);
    if part.Whole? {
      GatheringEnds(file, read, at, part.data, [], file.steps);
    }
  }

  lemma {:induction false} AllAreDrawn(file: File, b: Budget, paths: seq<string>)
    requires AllEnd(file.zip) && NoneWaits(b)
    ensures DrawnFirst(file, b, paths).Some? && NoneWaits(DrawnFirst(file, b, paths).value.0)
    decreases |paths|
  {
    hide AllEnd, NoneWaits, DrawnAt, Rendered;
    if paths != [] {
      var last := |paths| - 1;
      AllAreDrawn(file, b, paths[..last]);
      DrawingEnds(file, DrawnFirst(file, b, paths[..last]).value.0, last, paths[last]);
    }
  }

  /** When every stream of the archive ends, reading it does: with a deck or with the reason there is none. */
  lemma ReadingEnds(file: File)
    requires AllEnd(file.zip)
    ensures DeckOf(file) != Pending
  {
    hide AllEnd, PartOf, DrawnFirst, SlideAt;
    PartEnds(file, UNUSED, PRESENTATION);
    var (show, b) := PartOf(file, UNUSED, PRESENTATION);
    PartEnds(file, b, LINKS);
    var (paths, listed) := Listed(file);
    if paths.Some? && paths.value.Some? {
      AllAreDrawn(file, listed, FirstSlides(paths.value.value));
    }
  }

  /** Why there is no deck: the archive has too many entries, the presentation cannot be read, or it names no
      slide. */
  lemma WhyNoDeck(file: File)
    ensures var show := Fetched(file.zip, PRESENTATION, MAX_PART, 0);
      var read := show.Whole? && file.isDocument(show.data);
      && (DeckOf(file) == TooManyEntries <==> |file.zip| > 20000)
      && (DeckOf(file) == NotPowerPoint <==> |file.zip| <= 20000 && show != Waiting && !read)
      && (DeckOf(file) == NoSlides <==> |file.zip| <= 20000 && Listed(file).0 == Some(Some([])))
      && (DeckOf(file).Slides? ==> |file.zip| <= 20000 && read && DeckOf(file).slides != [])
  {
    hide DrawnFirst, Fetched, SlideAt;
    var paths := Listed(file).0;
    NothingDrawn(file, Listed(file).1);
    if DeckOf(file) == NoSlides {
      UnusedHolds();
      ListedHolds(file);
      DrawnFirstHolds(file, Listed(file).1, FirstSlides(paths.value.value));
    }
  }

  lemma NothingDrawn(file: File, b: Budget)
    ensures DrawnFirst(file, b, []) == Some((b, []))
  {}

  /** One slide of the loop. */
  method DrawSlide(parts: Parts, at: nat, path: string) returns (drawing: Drawing)
    requires parts.Valid()
    modifies parts
    ensures parts.Valid() && (drawing, parts.Now()) == DrawnAt(parts.file, old(parts.Now()), at, path)
    ensures old(parts.notices) <= parts.notices <= old(parts.notices) + {ExceedsLimit, OverranLimit}
  {
    hide Holds, PartOf, Gathered;
    var slide := parts.Part(path);
    match slide
    case Waiting => return Still;
    case Nothing => return Unreadable;
    case Whole(data) =>
      var given := parts.Gather(at, data);
      return if given.None? then Still else Drawn(parts.file.draw(at, data, given.value));
  }

  /** What the loop over the slides knows: what it keeps is what drawing the slides so far comes to. */
  ghost predicate Reading(file: File, listed: Budget, now: Budget, paths: seq<string>, at: nat, kept: seq<Text>,
                          markup: nat, drawn: seq<Option<Text>>)
  {
    at <= |paths| && DrawnFirst(file, listed, paths[..at]) == Some((now, drawn)) && |drawn| == at &&
    SlidesKept(drawn, at, kept, markup)
  }

  ghost predicate Noticed(notices: set<Notice>, tooMany: bool, drawn: seq<Option<Text>>) {
    && (OnlyFirstSlides in notices <==> tooMany)
    && (ExceededMarkup in notices <==> exists i: nat :: i < |drawn| && RunsOver(drawn, i))
    && (UnreadableSlides in notices <==> exists i: nat :: i < |drawn| && ReadInVain(drawn, i))
  }

  lemma ReadsNone(file: File, listed: Budget, paths: seq<string>)
    ensures Reading(file, listed, listed, paths, 0, [], 0, [])
  {}

  /** The notices after one more slide. */
  lemma NoticedNext(notices: set<Notice>, more: set<Notice>, tooMany: bool, drawn: seq<Option<Text>>, next: Option<Text>)
    requires Noticed(notices, tooMany, drawn)
    requires forall i :: 0 <= i < |drawn| ==> RunsOver(drawn + [next], i) == RunsOver(drawn, i)
    requires forall i :: 0 <= i < |drawn| ==> ReadInVain(drawn + [next], i) == ReadInVain(drawn, i)
    requires OnlyFirstSlides in more <==> OnlyFirstSlides in notices
    requires ExceededMarkup in more <==> ExceededMarkup in notices || RunsOver(drawn + [next], |drawn|)
    requires UnreadableSlides in more <==> UnreadableSlides in notices || ReadInVain(drawn + [next], |drawn|)
    ensures Noticed(more, tooMany, drawn + [next])
  {
    hide RunsOver, ReadInVain;
  }

  lemma ReadsOn(file: File, listed: Budget, before: Budget, after: Budget, paths: seq<string>, at: nat, kept: seq<Text>,
                markup: nat, drawn: seq<Option<Text>>, next: Option<Text>)
    requires Reading(file, listed, before, paths, at, kept, markup, drawn) && at < |paths|
    requires if markup >= MAX_MARKUP then after == before && next == None
             else DrawnAt(file, before, at, paths[at]) == (if next.Some? then Drawn(next.value) else Unreadable, after)
    ensures SlidesKept(drawn + [next], at, kept, markup)
    ensures DrawnFirst(file, listed, paths[..at + 1]) == Some((after, drawn + [next]))
    ensures forall i :: 0 <= i < |drawn| ==> RunsOver(drawn + [next], i) == RunsOver(drawn, i)
    ensures forall i :: 0 <= i < |drawn| ==> ReadInVain(drawn + [next], i) == ReadInVain(drawn, i)
  {
    hide DrawnAt, RunsOver, ReadInVain, Rendered;
    KeptBefore(drawn, next, kept, markup);
    assert paths[..at + 1][..at] == paths[..at];
    assert markup >= MAX_MARKUP <==> Rendered(drawn, at) >= MAX_MARKUP;
  }

  /** The loop after one more slide. */
  lemma SlideRead(file: File, listed: Budget, before: Budget, after: Budget, paths: seq<string>, at: nat, kept: seq<Text>,
                  markup: nat, drawn: seq<Option<Text>>, next: Option<Text>)
    requires Reading(file, listed, before, paths, at, kept, markup, drawn) && at < |paths|
    requires if markup >= MAX_MARKUP then after == before && next == None
             else DrawnAt(file, before, at, paths[at]) == (if next.Some? then Drawn(next.value) else Unreadable, after)
    ensures next == None ==>
      Reading(file, listed, after, paths, at + 1, kept + [Placeholder(at + 1)], markup, drawn + [next])
    ensures next.Some? ==>
      var more := markup + Utf8Length(Page(next.value));
      Reading(file, listed, after, paths, at + 1,
              kept + [if more > MAX_MARKUP then Placeholder(at + 1) else Page(next.value)], more, drawn + [next])
    ensures RunsOver(drawn + [next], at) <==> next.Some? && markup + Utf8Length(Page(next.value)) > MAX_MARKUP
    ensures ReadInVain(drawn + [next], at) <==> markup < MAX_MARKUP && next == None
    ensures |drawn| == at
    ensures forall i :: 0 <= i < |drawn| ==> RunsOver(drawn + [next], i) == RunsOver(drawn, i)
    ensures forall i :: 0 <= i < |drawn| ==> ReadInVain(drawn + [next], i) == ReadInVain(drawn, i)
  {
    hide DrawnAt, RunsOver, ReadInVain, SlidesKept, DrawnFirst, Page, Placeholder, Utf8Length;
    ReadsOn(file, listed, before, after, paths, at, kept, markup, drawn, next);
    SlideComes(drawn + [next], at, kept, markup);
  }

  lemma ReadsStill(file: File, listed: Budget, before: Budget, paths: seq<string>, at: nat, kept: seq<Text>,
                   markup: nat, drawn: seq<Option<Text>>)
    requires Reading(file, listed, before, paths, at, kept, markup, drawn) && at < |paths| && markup < MAX_MARKUP
    requires DrawnAt(file, before, at, paths[at]).0 == Still
    ensures DrawnFirst(file, listed, paths[..at + 1]) == None
  {
    hide DrawnAt, Rendered;
    assert paths[..at + 1][..at] == paths[..at];
    assert Rendered(drawn, at) < MAX_MARKUP;
  }

  lemma {:induction false} StillStays(file: File, b: Budget, paths: seq<string>, at: nat)
    requires at <= |paths| && DrawnFirst(file, b, paths[..at]) == None
    ensures DrawnFirst(file, b, paths) == None
    decreases |paths|
  {
    hide DrawnAt;
    if at < |paths| {
      assert paths[..|paths| - 1][..at] == paths[..at];
      StillStays(file, b, paths[..|paths| - 1], at);
    } else {
      assert paths[..at] == paths;
    }
  }

  /** The slides of a file: what is shown of them, and what is told about the rest. */
  method ReadSlides(parts: Parts, paths: seq<string>) returns (slides: Option<seq<Text>>)
    requires parts.Valid() && parts.notices <= {ExceedsLimit, OverranLimit}
    modifies parts
    ensures parts.Valid()
    ensures slides.None? <==> DrawnFirst(parts.file, old(parts.Now()), FirstSlides(paths)).None?
    ensures slides.Some? ==>
      var (b, drawn) := DrawnFirst(parts.file, old(parts.Now()), FirstSlides(paths)).value;
      && parts.Now() == b && |slides.value| == |drawn|
      && (forall i :: 0 <= i < |drawn| ==> slides.value[i] == SlideAt(drawn, i))
      && Noticed(parts.notices, |paths| > MAX_SLIDES, drawn)
  {
    hide Rendered, SlidesKept, RunsOver, ReadInVain, SlideAt, Placeholder, Page, Utf8Length, DrawnFirst, DrawnAt, Holds,
      Reading, Noticed;
    var order := FirstSlides(paths);
    ghost var listed := parts.Now();
    if |paths| > MAX_SLIDES {
      parts.notices := parts.notices + {OnlyFirstSlides};
    }
    var kept: seq<Text> := [];
    var markup: nat := 0;
    ghost var drawn: seq<Option<Text>> := [];
    ReadsNone(parts.file, listed, order);
    NoticedNone(parts.notices, |paths| > MAX_SLIDES);
    for at := 0 to |order|
      invariant parts.Valid()
      invariant Reading(parts.file, listed, parts.Now(), order, at, kept, markup, drawn)
      invariant Noticed(parts.notices, |paths| > MAX_SLIDES, drawn)
    {
      ghost var before, known := parts.Now(), parts.notices;
      if markup >= MAX_MARKUP {
        SlideRead(parts.file, listed, before, before, order, at, kept, markup, drawn, None);
        NoticedNext(known, parts.notices, |paths| > MAX_SLIDES, drawn, None);
        kept, drawn := kept + [Placeholder(at + 1)], drawn + [None];
        continue;
      }
      var drawing := DrawSlide(parts, at, order[at]);
      match drawing
      case Still =>
        ReadsStill(parts.file, listed, before, order, at, kept, markup, drawn);
        StillStays(parts.file, listed, order, at + 1);
        return None;
      case Unreadable =>
        parts.notices := parts.notices + {UnreadableSlides};
        SlideRead(parts.file, listed, before, parts.Now(), order, at, kept, markup, drawn, None);
        NoticedNext(known, parts.notices, |paths| > MAX_SLIDES, drawn, None);
        kept, drawn := kept + [Placeholder(at + 1)], drawn + [None];
      case Drawn(rest) =>
        SlideRead(parts.file, listed, before, parts.Now(), order, at, kept, markup, drawn, Some(rest));
        var page := Page(rest);
        markup := markup + Utf8Length(page);
        if markup > MAX_MARKUP {
          parts.notices := parts.notices + {ExceededMarkup};
          kept := kept + [Placeholder(at + 1)];
        } else {
          kept := kept + [page];
        }
        NoticedNext(known, parts.notices, |paths| > MAX_SLIDES, drawn, Some(rest));
        drawn := drawn + [Some(rest)];
    }
    AllRead(parts.file, listed, parts.Now(), order, kept, markup, drawn);
    slides := Some(kept);
  }

  lemma NoticedNone(notices: set<Notice>, tooMany: bool)
    requires notices <= {ExceedsLimit, OverranLimit, OnlyFirstSlides} && (OnlyFirstSlides in notices <==> tooMany)
    ensures Noticed(notices, tooMany, [])
  {}

  lemma AllRead(file: File, listed: Budget, now: Budget, paths: seq<string>, kept: seq<Text>, markup: nat,
                drawn: seq<Option<Text>>)
    requires Reading(file, listed, now, paths, |paths|, kept, markup, drawn)
    ensures DrawnFirst(file, listed, paths) == Some((now, drawn)) && |kept| == |drawn|
    ensures forall i :: 0 <= i < |drawn| ==> kept[i] == SlideAt(drawn, i)
  {
    hide SlideAt;
    assert paths[..|paths|] == paths;
  }

  /** A presentation from its parts: the deck, and the reader's state when it is done. */
  method ReadDeck(file: File) returns (deck: Deck, parts: Parts)
    ensures deck == DeckOf(file) && fresh(parts) && parts.Valid()
    ensures deck.Slides? ==>
      DrawnOf(file).Some? && parts.Now() == DrawnOf(file).value.0 &&
      Noticed(parts.notices, deck.total > MAX_SLIDES, DrawnOf(file).value.1)
  {
    hide DrawnFirst, Holds, PartOf, SlideAt, Noticed;
    parts := new Parts(file);
    if |file.zip| > MAX_ENTRIES {
      return TooManyEntries, parts;
    }
    var show := parts.Part(PRESENTATION);
    if show == Waiting {
      return Pending, parts;
    }
    if show == Nothing {
      return NotPowerPoint, parts;
    }
    var links := parts.Part(LINKS);
    if links == Waiting {
      return Pending, parts;
    }
    var paths := file.slides(show.data, links);
    var slides := ReadSlides(parts, paths);
    if slides.None? {
      return Pending, parts;
    }
    if slides.value == [] {
      return NoSlides, parts;
    }
    deck := Slides(slides.value, |paths|);
  }
}
