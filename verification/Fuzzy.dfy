/** How well one typed word fits a name (fuzzy.ts). */
module Fuzzy {
  import opened Basics
  import opened Markup

  /** A word may be matched from a place where a new word of the name begins. */
  predicate Boundary(text: string, at: nat)
    requires at <= |text|
  {
    at == 0 || IsBlankChar(text[at - 1]) || text[at - 1] in {'/', ':', '.', '_', '-'}
  }

  // What is searched for: the letters of a word in order.

  /** `places` are places of the letters of `word` in `text`, in order. */
  ghost predicate Embeds(text: string, word: string, places: seq<nat>) {
    && |places| == |word|
    && (forall k :: 0 <= k < |places| ==> places[k] < |text| && text[places[k]] == word[k])
    && (forall j, k :: 0 <= j < k < |places| ==> places[j] < places[k])
  }

  /** The window of that length from `start` holds the letters of the word in order, its first
      and last letters among them. */
  ghost predicate Window(text: string, word: string, start: nat, length: nat)
    requires word != ""
  {
    exists places :: Embeds(text, word, places) && places[0] == start && places[|places| - 1] - start + 1 == length
  }

  ghost predicate HasWindow(text: string, word: string, length: nat)
    requires word != ""
  {
    exists start: nat :: Window(text, word, start, length)
  }

  ghost predicate Shortest(text: string, word: string, length: nat)
    requires word != ""
  {
    HasWindow(text, word, length) && forall other: nat :: HasWindow(text, word, other) ==> length <= other
  }

  /** Where the greedy run over the rest of a word ends, its last letter taken at `last`; -1 when
      a letter is not found. */
  function Greedy(text: string, rest: string, last: nat): (end: int)
    requires last < |text|
    ensures -1 <= end < |text|
    decreases |rest|
  {
    if rest == "" then last
    else
      var next := FindChar(text, rest[0], last + 1);
      if next == |text| then -1 else Greedy(text, rest[1..], next)
  }

  ghost predicate Before(places: seq<nat>, limit: nat) {
    forall k :: 0 <= k < |places| ==> limit < places[k]
  }

  /** The greedy run is no later than any other way through the rest of the word. */
  lemma {:induction false} GreedyIsFirst(text: string, rest: string, last: nat, places: seq<nat>)
    requires last < |text| && Embeds(text, rest, places) && Before(places, last)
    ensures Greedy(text, rest, last) >= 0
    ensures Greedy(text, rest, last) <= if places == [] then last else places[|places| - 1]
    decreases |rest|
  {
    if rest != "" {
      var next := FindChar(text, rest[0], last + 1);
      assert next <= places[0];
      GreedyLater(text, rest[1..], next, places[1..], places[0]);
    }
  }

  lemma {:induction false} GreedyLater(text: string, rest: string, last: nat, places: seq<nat>, first: nat)
    requires last <= first < |text| && Embeds(text, rest, places) && Before(places, first)
    ensures Greedy(text, rest, last) >= 0
    ensures Greedy(text, rest, last) <= if places == [] then first else places[|places| - 1]
    decreases |rest|
  {
    if rest != "" {
      var next := FindChar(text, rest[0], last + 1);
      assert next <= places[0];
      GreedyLater(text, rest[1..], next, places[1..], places[0]);
    }
  }

  /** The places the greedy run takes. */
  lemma {:induction false} GreedyEmbeds(text: string, rest: string, last: nat) returns (places: seq<nat>)
    requires last < |text| && Greedy(text, rest, last) >= 0
    ensures Embeds(text, rest, places) && Before(places, last)
    ensures Greedy(text, rest, last) == if places == [] then last else places[|places| - 1]
    decreases |rest|
  {
    places := [];
    if rest != "" {
      var next := FindChar(text, rest[0], last + 1);
      var more := GreedyEmbeds(text, rest[1..], next);
      places := [next] + more;
    }
  }

  /** What is known when every start before `from` has been tried. */
  ghost predicate Tried(text: string, word: string, from: nat, tightest: Option<nat>)
    requires word != ""
  {
    && (tightest.Some? ==> HasWindow(text, word, tightest.value))
    && forall start: nat, length: nat :: Window(text, word, start, length) && start < from ==>
         tightest.Some? && tightest.value <= length
  }

  /** The run from one start is the tightest from there. */
  lemma TightestFrom(text: string, word: string, start: nat, length: nat)
    requires word != "" && Window(text, word, start, length)
    ensures start < |text| && text[start] == word[0] && 0 <= Greedy(text, word[1..], start) < start + length
  {
    var places :| Embeds(text, word, places) && places[0] == start && places[|places| - 1] - start + 1 == length;
    assert Embeds(text, word[1..], places[1..]);
    assert Before(places[1..], start);
    GreedyIsFirst(text, word[1..], start, places[1..]);
  }

  lemma RunWindow(text: string, word: string, first: nat)
    requires word != "" && first < |text| && text[first] == word[0] && Greedy(text, word[1..], first) >= 0
    ensures first <= Greedy(text, word[1..], first)
    ensures Window(text, word, first, Greedy(text, word[1..], first) - first + 1)
  {
    hide Greedy;
    var rest := GreedyEmbeds(text, word[1..], first);
    var run := [first] + rest;
    assert Embeds(text, word, run);
  }

  /** A start that does not reach the end of the word leaves nothing for any later start. */
  lemma NoneLater(text: string, word: string, first: nat)
    requires word != "" && first < |text| && Greedy(text, word[1..], first) < 0
    ensures forall start: nat, length: nat :: Window(text, word, start, length) ==> start < first
  {
    forall start: nat, length: nat | Window(text, word, start, length) ensures start < first {
      var places :| Embeds(text, word, places) && places[0] == start && places[|places| - 1] - start + 1 == length;
      if start >= first {
        assert Embeds(text, word[1..], places[1..]);
        assert Before(places[1..], start);
        GreedyLater(text, word[1..], first, places[1..], start);
        assert false;
      }
    }
  }

  /** One start tried. */
  lemma TryStart(text: string, word: string, first: nat, tightest: Option<nat>)
    requires word != "" && first < |text| && text[first] == word[0] && Tried(text, word, first, tightest)
    requires Greedy(text, word[1..], first) >= 0
    ensures first <= Greedy(text, word[1..], first)
    ensures Tried(text, word, first + 1, Some(Least(tightest, Greedy(text, word[1..], first) - first + 1)))
  {
    hide Greedy, Window;
    RunWindow(text, word, first);
    var last := Greedy(text, word[1..], first);
    forall start: nat, length: nat | Window(text, word, start, length) && start < first + 1
      ensures Least(tightest, last - first + 1) <= length
    {
      if start == first {
        TightestFrom(text, word, first, length);
      }
    }
  }

  function Least(tightest: Option<nat>, length: nat): nat {
    if tightest.Some? && tightest.value <= length then tightest.value else length
  }

  lemma Finished(text: string, word: string, from: nat, tightest: Option<nat>)
    requires word != "" && Tried(text, word, from, tightest)
    requires forall start: nat, length: nat :: Window(text, word, start, length) ==> start < from
    ensures tightest.Some? <==> exists length: nat :: HasWindow(text, word, length)
    ensures tightest.Some? ==> Shortest(text, word, tightest.value)
  {
    hide Window;
    forall length: nat | HasWindow(text, word, length) ensures tightest.Some? && tightest.value <= length {
      var start: nat :| Window(text, word, start, length);
    }
  }

  /** Nothing starts between one place of the first letter and the next. */
  lemma NextStart(text: string, word: string, from: nat, tightest: Option<nat>)
    requires word != "" && from <= |text| && Tried(text, word, from, tightest)
    ensures Tried(text, word, FindChar(text, word[0], from), tightest)
  {
    hide Window, Greedy;
    forall start: nat, length: nat | Window(text, word, start, length) && start < FindChar(text, word[0], from)
      ensures tightest.Some? && tightest.value <= length
    {
      TightestFrom(text, word, start, length);
    }
  }

  lemma StartsInside(text: string, word: string)
    requires word != ""
    ensures forall start: nat, length: nat :: Window(text, word, start, length) ==> start < |text|
  {
    hide Window, Greedy;
    forall start: nat, length: nat | Window(text, word, start, length) ensures start < |text| {
      TightestFrom(text, word, start, length);
    }
  }

  /** The length of the shortest run, found start by start; the search ends at the first start
      from which the word is not found. */
  method Tightest(text: string, word: string) returns (tightest: Option<nat>)
    requires word != ""
    ensures tightest.Some? <==> exists length: nat :: HasWindow(text, word, length)
    ensures tightest.Some? ==> Shortest(text, word, tightest.value)
  {
    hide Window;
    tightest := None;
    StartsInside(text, word);
    NextStart(text, word, 0, None);
    var first := FindChar(text, word[0], 0);
    while first < |text|
      invariant 0 <= first <= |text| && (first < |text| ==> text[first] == word[0])
      invariant Tried(text, word, first, tightest)
      decreases |text| - first
    {
      var last: int := first;
      var at := 1;
      while at < |word|
        invariant 1 <= at <= |word| && first <= last < |text|
        invariant Greedy(text, word[1..], first) == Greedy(text, word[at..], last)
      {
        assert word[at..][1..] == word[at + 1..];
        var next := FindChar(text, word[at], last + 1);
        if next == |text| {
          last := -1;
          break;
        }
        last := next;
        at := at + 1;
      }
      if last < 0 {
        NoneLater(text, word, first);
        break;
      }
      TryStart(text, word, first, tightest);
      tightest := Some(Least(tightest, last - first + 1));
      NextStart(text, word, first + 1, tightest);
      first := FindChar(text, word[0], first + 1);
    }
    Finished(text, word, first, tightest);
  }

  // The whole of `fit`.

  ghost predicate Occurs(text: string, word: string) {
    exists at: nat :: At(text, at, word)
  }

  ghost predicate FirstAtBoundary(text: string, word: string, at: nat) {
    && At(text, at, word) && Boundary(text, at)
    && forall k: nat :: k < at && At(text, k, word) ==> !Boundary(text, k)
  }

  ghost predicate First(text: string, word: string, at: nat) {
    At(text, at, word) && forall k: nat :: k < at ==> !At(text, k, word)
  }

  /** The score of a word: lower is closer, `None` is no fit. */
  method Fit(text: string, word: string) returns (score: Option<real>)
    requires word != ""
    ensures forall at: nat :: FirstAtBoundary(text, word, at) ==> score == Some(at as real / 1000.0)
    ensures (forall at: nat :: !FirstAtBoundary(text, word, at)) ==>
      forall at: nat :: First(text, word, at) ==> score == Some(10.0 + at as real / 1000.0)
    ensures !Occurs(text, word) ==>
      forall length: nat :: Shortest(text, word, length) ==>
        score == if length <= 2 * |word| + 1 then Some(100.0 + length as real) else None
    ensures !Occurs(text, word) && (forall length: nat :: !HasWindow(text, word, length)) ==> score == None
  {
    var whole := Find(text, word, 0);
    if whole.Some? {
      var at := whole;
      while at.Some? && !Boundary(text, at.value)
        invariant at.Some? ==> At(text, at.value, word)
        invariant forall k: nat :: (at.Some? ==> k < at.value) && At(text, k, word) ==> !Boundary(text, k)
        decreases if at.Some? then |text| + 1 - at.value else 0
      {
        at := Find(text, word, at.value + 1);
      }
      if at.Some? {
        assert FirstAtBoundary(text, word, at.value);
        return Some(at.value as real / 1000.0);
      }
      assert First(text, word, whole.value);
      return Some(10.0 + whole.value as real / 1000.0);
    }
    var tightest := Tightest(text, word);
    if tightest.Some? && tightest.value <= 2 * |word| + 1 {
      return Some(100.0 + tightest.value as real);
    }
    return None;
  }
}
