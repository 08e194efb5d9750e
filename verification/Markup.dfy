/** Finding fixed texts in markup, with or without regard to case. */
module Markup {
  import opened Basics

  /** The first place from `from` on where `pattern` stands. */
  function Find(text: string, pattern: string, from: nat): (at: Option<nat>)
    requires from <= |text|
    ensures at.Some? ==> from <= at.value && At(text, at.value, pattern)
    ensures at.Some? ==> forall k: nat :: from <= k < at.value ==> !At(text, k, pattern)
    ensures at.None? ==> forall k: nat :: from <= k ==> !At(text, k, pattern)
    decreases |text| - from
  {
    if At(text, from, pattern) then Some(from)
    else if from == |text| then None
    else Find(text, pattern, from + 1)
  }

  /** The first place from `from` on where `c` stands, or the end. */
  function FindChar(text: string, c: char, from: nat): (at: nat)
    requires from <= |text|
    ensures from <= at <= |text|
    ensures forall k :: from <= k < at ==> text[k] != c
    ensures at < |text| ==> text[at] == c
    decreases |text| - from
  {
    if from < |text| && text[from] != c then FindChar(text, c, from + 1) else from
  }

  function Lower(c: char): char {
    LowerCode(c as int) as char
  }

  /** `pattern`, given in lower case, stands in `text` at `i` in any case. */
  predicate AtAnyCase(text: string, i: nat, pattern: string) {
    i + |pattern| <= |text| && forall k :: 0 <= k < |pattern| ==> Lower(text[i + k]) == pattern[k]
  }

  function FindAnyCase(text: string, pattern: string, from: nat): (at: Option<nat>)
    requires from <= |text|
    ensures at.Some? ==> from <= at.value && AtAnyCase(text, at.value, pattern)
    ensures at.Some? ==> forall k: nat :: from <= k < at.value ==> !AtAnyCase(text, k, pattern)
    ensures at.None? ==> forall k: nat :: from <= k ==> !AtAnyCase(text, k, pattern)
    decreases |text| - from
  {
    if AtAnyCase(text, from, pattern) then Some(from)
    else if from == |text| then None
    else FindAnyCase(text, pattern, from + 1)
  }

  predicate IsBlankChar(c: char) {
    IsBlankCode(c as int)
  }

  predicate IsBlank(text: string) {
    forall k :: 0 <= k < |text| ==> IsBlankChar(text[k])
  }

  predicate IsWordChar(c: char) {
    'a' <= Lower(c) <= 'z' || '0' <= c <= '9' || c == '_'
  }

  lemma AtChar(text: string, i: nat, pattern: string, k: nat)
    requires At(text, i, pattern) && k < |pattern|
    ensures text[i + k] == pattern[k]
  {
    assert text[i..i + |pattern|][k] == text[i + k];
  }

  lemma AtWhole(text: string)
    ensures At(text, 0, text)
  {
    assert text[0..|text|] == text;
  }

  /** What stands inside a part stands there in the whole. */
  lemma AtInside(text: string, i: nat, part: string, k: nat, pattern: string)
    requires At(text, i, part) && k + |pattern| <= |part|
    ensures At(text, i + k, pattern) == At(part, k, pattern)
  {
    var here, there := text[i + k..i + k + |pattern|], part[k..k + |pattern|];
    forall j | 0 <= j < |pattern| ensures here[j] == there[j] {
      AtChar(text, i, part, k + j);
    }
    assert here == there;
  }

  lemma {:induction false} FindCharAt(text: string, c: char, from: nat, at: nat)
    requires from <= at < |text| && text[at] == c && forall k :: from <= k < at ==> text[k] != c
    ensures FindChar(text, c, from) == at
    decreases at - from
  {
    if from < at {
      FindCharAt(text, c, from + 1, at);
    }
  }

  lemma {:induction false} FindAt(text: string, pattern: string, from: nat, at: nat)
    requires from <= at <= |text| && At(text, at, pattern) && forall k: nat :: from <= k < at ==> !At(text, k, pattern)
    ensures Find(text, pattern, from) == Some(at)
    decreases at - from
  {
    if from < at {
      FindAt(text, pattern, from + 1, at);
    }
  }
}
