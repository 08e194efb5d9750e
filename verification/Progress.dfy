/** What the reader never falls short of: a string being written is shown as far as it goes, and what stood
    before the last comma between items stays. */
module Progress {
  import opened Basics
  import opened CodeUnits
  import opened Json
  import opened HalfWritten
  import opened Cuts
  import opened Truncation

  // A string being written.

  /** A value of the text that stands within the one at `i` starts at `at`. */
  predicate Stands(t: Text, i: nat, at: nat)
    requires i <= |t| && ParseValue(t, i).Got?
    ensures Stands(t, i, at) ==> i <= at < |t| && ParseValue(t, at).Got? && ParseValue(t, at).next <= ParseValue(t, i).next
    decreases |t| - i, 0
  {
    at == i || (t[i] == LBRACKET && StandsInArray(t, i + 1, at)) || (t[i] == LBRACE && StandsInObject(t, i + 1, at))
  }

  predicate StandsInArray(t: Text, i: nat, at: nat)
    requires i <= |t| && ParseArray(t, i).Got?
    ensures StandsInArray(t, i, at) ==> i <= at < |t| && ParseValue(t, at).Got? && ParseValue(t, at).next < ParseArray(t, i).next
    decreases |t| - i, 3
  {
    var opening := ParseOpening(t, i, RBRACKET);
    !opening.value && StandsInItems(t, opening.next, at)
  }

  predicate StandsInObject(t: Text, i: nat, at: nat)
    requires i <= |t| && ParseObject(t, i).Got?
    ensures StandsInObject(t, i, at) ==> i <= at < |t| && ParseValue(t, at).Got? && ParseValue(t, at).next < ParseObject(t, i).next
    decreases |t| - i, 3
  {
    var opening := ParseOpening(t, i, RBRACE);
    !opening.value && StandsInMembers(t, opening.next, at)
  }

  predicate StandsInItems(t: Text, i: nat, at: nat)
    requires i <= |t| && ParseItems(t, i).Got?
    ensures StandsInItems(t, i, at) ==> i <= at < |t| && ParseValue(t, at).Got? && ParseValue(t, at).next < ParseItems(t, i).next
    decreases |t| - i, 1
  {
    var separator := ParseSeparator(t, ParseValue(t, i).next, RBRACKET);
    Stands(t, i, at) || (!separator.value && StandsInItems(t, separator.next, at))
  }

  predicate StandsInMembers(t: Text, i: nat, at: nat)
    requires i <= |t| && ParseMembers(t, i).Got?
    ensures StandsInMembers(t, i, at) ==> i < at < |t| && ParseValue(t, at).Got? && ParseValue(t, at).next < ParseMembers(t, i).next
    decreases |t| - i, 1
  {
    var separator := ParseSeparator(t, ParseMember(t, i).next, RBRACE);
    Stands(t, ParseName(t, i).next, at) || (!separator.value && StandsInMembers(t, separator.next, at))
  }

  /** What comes last in the value. */
  function LastLeaf(v: Value): Value
    decreases v
  {
    match v
    case Arr(items) => if items == [] then v else LastLeaf(items[|items| - 1])
    case Obj(members) => if members == [] then v else LastLeaf(members[|members| - 1].value)
    case _ => v
  }

  /** `leaf` is what comes last in the last of these. */
  predicate EndsIn(items: Option<seq<Value>>, leaf: Value) {
    items.Some? && items.value != [] && LastLeaf(items.value[|items.value| - 1]) == leaf
  }

  predicate MembersEndIn(members: Option<seq<Member>>, leaf: Value) {
    members.Some? && members.value != [] && LastLeaf(members.value[|members.value| - 1].value) == leaf
  }

  /** Of a value that is cut, what stands comes last in all it is part of. */
  lemma {:induction false} CutComesLast(t: Text, i: nat, at: nat, n: nat, v: Value)
    requires i <= |t| && ParseValue(t, i).Got? && Stands(t, i, at) && at < n < ParseValue(t, at).next
    requires ValueTo(t, at, n) == Some(v)
    ensures ValueTo(t, i, n).Some? && LastLeaf(ValueTo(t, i, n).value) == LastLeaf(v)
    decreases |t| - i, 0
  {
    hide ParseArray, ParseObject, ArrayTo, ObjectTo, StandsInArray, StandsInObject, UnitsTo, ParseChars;
    if at != i {
      if t[i] == LBRACKET {
        ArrayCutLast(t, i + 1, at, n, v);
      } else {
        ObjectCutLast(t, i + 1, at, n, v);
      }
    }
  }

  lemma {:induction false} ArrayCutLast(t: Text, i: nat, at: nat, n: nat, v: Value)
    requires i <= |t| && ParseArray(t, i).Got? && StandsInArray(t, i, at) && at < n < ParseValue(t, at).next
    requires ValueTo(t, at, n) == Some(v)
    ensures EndsIn(ArrayTo(t, i, n), LastLeaf(v))
    decreases |t| - i, 3
  {
    hide ParseItems, ItemsTo, StandsInItems, ParseValue, ValueTo;
    ItemCutLast(t, ParseOpening(t, i, RBRACKET).next, at, n, v);
  }

  lemma {:induction false} ObjectCutLast(t: Text, i: nat, at: nat, n: nat, v: Value)
    requires i <= |t| && ParseObject(t, i).Got? && StandsInObject(t, i, at) && at < n < ParseValue(t, at).next
    requires ValueTo(t, at, n) == Some(v)
    ensures MembersEndIn(ObjectTo(t, i, n), LastLeaf(v))
    decreases |t| - i, 3
  {
    hide ParseMembers, MembersTo, StandsInMembers, ParseValue, ValueTo;
    MemberCutLast(t, ParseOpening(t, i, RBRACE).next, at, n, v);
  }

  lemma {:induction false} ItemCutLast(t: Text, i: nat, at: nat, n: nat, v: Value)
    requires i <= |t| && ParseItems(t, i).Got? && StandsInItems(t, i, at) && at < n < ParseValue(t, at).next
    requires ValueTo(t, at, n) == Some(v)
    ensures EndsIn(ItemsTo(t, i, n), LastLeaf(v))
    decreases |t| - i, 1
  {
    hide ParseValue, ValueTo, Stands, ParseSeparator, LastLeaf;
    if Stands(t, i, at) {
      CutComesLast(t, i, at, n, v);
    } else {
      var separator := ParseSeparator(t, ParseValue(t, i).next, RBRACKET);
      ValueWhole(t, i, n);
      ItemCutLast(t, separator.next, at, n, v);
    }
  }

  lemma {:induction false} MemberCutLast(t: Text, i: nat, at: nat, n: nat, v: Value)
    requires i <= |t| && ParseMembers(t, i).Got? && StandsInMembers(t, i, at) && at < n < ParseValue(t, at).next
    requires ValueTo(t, at, n) == Some(v)
    ensures MembersEndIn(MembersTo(t, i, n), LastLeaf(v))
    decreases |t| - i, 1
  {
    hide ParseValue, ValueTo, Stands, ParseName, ParseSeparator, LastLeaf;
    if Stands(t, ParseName(t, i).next, at) {
      CutComesLast(t, ParseName(t, i).next, at, n, v);
    } else {
      var separator := ParseSeparator(t, ParseMember(t, i).next, RBRACE);
      MemberWhole(t, i, n);
      MemberCutLast(t, separator.next, at, n, v);
    }
  }

  lemma {:induction false} UnitsKeepLex(t: Text, i: nat, n: nat)
    requires i <= n <= |t| && UnitsTo(t, i, n).Some? && ParseChars(t, i).Got? && n < ParseChars(t, i).next
    requires LexAt(t, i).inString && !LexAt(t, i).escaped
    ensures LexAt(t, n) == LexAt(t, i)
    decreases n - i
  {
    hide HexValue;
    if i < n {
      if t[i] == BACKSLASH {
        var next := Escape(t, i).next;
        EscapeBalance(t, i);
        UnitsKeepLex(t, next, n);
      } else {
        assert LexAt(t, i + 1) == LexAt(t, i);
        UnitsKeepLex(t, i + 1, n);
      }
    }
  }

  /** Every place in a string where the units so far make sense is whole, but after a high surrogate. */
  lemma StringIsWhole(t: Text, at: nat, n: nat)
    requires at + 1 < n <= |t| && t[at] == QUOTE && !LexAt(t, at).inString && ParseChars(t, at + 1).Got?
    requires n < ParseChars(t, at + 1).next && UnitsTo(t, at + 1, n).Some? && !IsHigh(t[n - 1])
    ensures IsWhole(t, n)
  {
    hide ParseChars, UnitsTo;
    assert LexAt(t, at + 1) == LexAt(t, at).(inString := true);
    UnitsKeepLex(t, at + 1, n);
    CharsInside(t, at + 1, n - 1);
  }

  /** Where a value stands the lexer is outside any string. */
  lemma {:induction false} StandsOutside(t: Text, i: nat, at: nat)
    requires i <= |t| && ParseValue(t, i).Got? && Stands(t, i, at) && !LexAt(t, i).inString
    ensures !LexAt(t, at).inString
    decreases |t| - i, 0
  {
    if at != i {
      if t[i] == LBRACKET {
        ArrayStandsOutside(t, i + 1, at);
      } else {
        ObjectStandsOutside(t, i + 1, at);
      }
    }
  }

  lemma {:induction false} ArrayStandsOutside(t: Text, i: nat, at: nat)
    requires i <= |t| && ParseArray(t, i).Got? && StandsInArray(t, i, at) && !LexAt(t, i).inString
    requires LexAt(t, i).closers != []
    ensures !LexAt(t, at).inString
    decreases |t| - i, 3
  {
    OpeningBalance(t, i, RBRACKET);
    ItemsStandOutside(t, ParseOpening(t, i, RBRACKET).next, at);
  }

  lemma {:induction false} ItemsStandOutside(t: Text, i: nat, at: nat)
    requires i <= |t| && ParseItems(t, i).Got? && StandsInItems(t, i, at) && !LexAt(t, i).inString
    requires LexAt(t, i).closers != []
    ensures !LexAt(t, at).inString
    decreases |t| - i, 1
  {
    if Stands(t, i, at) {
      StandsOutside(t, i, at);
    } else {
      ValueBalance(t, i);
      SeparatorBalance(t, ParseValue(t, i).next, RBRACKET);
      ItemsStandOutside(t, ParseSeparator(t, ParseValue(t, i).next, RBRACKET).next, at);
    }
  }

  lemma {:induction false} ObjectStandsOutside(t: Text, i: nat, at: nat)
    requires i <= |t| && ParseObject(t, i).Got? && StandsInObject(t, i, at) && !LexAt(t, i).inString
    requires LexAt(t, i).closers != []
    ensures !LexAt(t, at).inString
    decreases |t| - i, 3
  {
    OpeningBalance(t, i, RBRACE);
    MembersStandOutside(t, ParseOpening(t, i, RBRACE).next, at);
  }

  lemma {:induction false} MembersStandOutside(t: Text, i: nat, at: nat)
    requires i <= |t| && ParseMembers(t, i).Got? && StandsInMembers(t, i, at) && !LexAt(t, i).inString
    requires LexAt(t, i).closers != []
    ensures !LexAt(t, at).inString
    decreases |t| - i, 1
  {
    if Stands(t, ParseName(t, i).next, at) {
      NameBalance(t, i);
      StandsOutside(t, ParseName(t, i).next, at);
    } else {
      MemberBalance(t, i);
      SeparatorBalance(t, ParseMember(t, i).next, RBRACE);
      MembersStandOutside(t, ParseSeparator(t, ParseMember(t, i).next, RBRACE).next, at);
    }
  }

  /** A string that is being written is shown: cut inside a value string, where no escape or surrogate pair is
      split, every text reads as what stands of it, and what comes last there is the string so far. */
  lemma StringIsShown(t: Text, at: nat, n: nat)
    requires n <= |t| && Parse(t).Some? && Stands(t, SkipSpace(t, 0), at) && t[at] == QUOTE
    requires at + 1 < n < ParseValue(t, at).next && UnitsTo(t, at + 1, n).Some? && !IsHigh(t[n - 1])
    ensures TextTo(t, n).Some? && Read(t[..n]) == TextTo(t, n)
    ensures LastLeaf(Read(t[..n]).value) == Str(UnitsTo(t, at + 1, n).value)
  {
    hide ParseChars, UnitsTo, Stands, Read, IsWhole, LexAt;
    var start := SkipSpace(t, 0);
    StartsOutside(t);
    StandsOutside(t, start, at);
    StringIsWhole(t, at, n);
    CutComesLast(t, start, at, n, Str(UnitsTo(t, at + 1, n).value));
    WholeIsRead(t, n, n);
  }

  lemma StartsOutside(t: Text)
    ensures LexAt(t, SkipSpace(t, 0)) == START
  {
    PlainBalance(t, 0, SkipSpace(t, 0));
  }

  /** Where the last whole place is neither in a name nor in an escape, all that stands before it is read, and
      goes on being read until there is another. */
  lemma WholeIsRead(t: Text, n: nat, k: nat)
    requires 0 < k <= n <= |t| && Parse(t).Some? && LastWholeIs(t, n, k) && TextTo(t, k).Some?
    ensures Read(t[..n]) == TextTo(t, k)
  {
    hide Parse, Read, IsWhole, TextTo;
    var c := PrefixReads(t, n, k);
    assert Stop(t, k, k);
  }

  /** Right after a bracket that is no part of a string everything that stands is read. */
  lemma BracketIsRead(t: Text, n: nat)
    requires 0 < n <= |t| && Parse(t).Some? && !LexAt(t, n).inString && (IsOpener(t[n - 1]) || IsCloser(t[n - 1]))
    ensures TextTo(t, n).Some? && Read(t[..n]) == TextTo(t, n)
  {
    hide Parse, Read, TextTo;
    CompletionReads(t, n);
    WholeIsRead(t, n, n);
  }

  // Growing.

  /** The text before a comma between items completes to a JSON text. */
  lemma CommaReads(t: Text, n: nat)
    requires n < |t| && t[n] == COMMA && !LexAt(t, n).inString && Parse(t).Some?
    ensures Parse(Completed(t, n)).Some? && Parse(Completed(t, n)) == TextTo(t, n)
  {
    hide Parse, TextTo, Completed;
    CompletionReads(t, n);
  }

  lemma CompletedTwice(t: Text, cut: nat, n: nat)
    requires n <= cut <= |t|
    ensures Completed(Completed(t, cut), n) == Completed(t, n)
    ensures AtBoundary(t, n) && n < cut ==> AtBoundary(Completed(t, cut), n)
  {
    var s := Completed(t, cut);
    assert s[..n] == t[..n];
    LexPrefix(t, s, n);
  }

  /** What stands before an earlier place truncates what stands before a later one. */
  lemma TextGrows(t: Text, n: nat, cut: nat)
    requires n <= cut <= |t| && AtBoundary(t, n) && AtBoundary(t, cut) && Parse(t).Some?
    requires TextTo(t, n).Some? && TextTo(t, cut).Some?
    ensures Truncates(TextTo(t, n).value, TextTo(t, cut).value)
  {
    hide Parse, TextTo, Completed, AtBoundary;
    if n < cut {
      var s := Completed(t, cut);
      CompletedTwice(t, cut, n);
      CompletionReads(t, cut);
      CompletionReads(t, n);
      CutAgrees(t, cut, s);
      CompletionReads(s, n);
      TextToTruncates(s, n);
    }
  }

  lemma StopIsBoundary(t: Text, n: nat, k: nat, c: nat)
    requires k <= n <= |t| && LastWholeIs(t, n, k) && Stop(t, k, c)
    ensures AtBoundary(t, c)
  {
    if c == k {
      WholeIsBoundary(t, k);
    }
  }

  /** While the last whole place is neither in a name nor in an escape, what is read is never less than what was
      read before. */
  lemma ReadGrows(t: Text, m: nat, n: nat, k: nat)
    requires m <= n <= |t| && 0 < k <= n && Parse(t).Some? && LastWholeIs(t, n, k) && TextTo(t, k).Some?
    requires Read(t[..m]).Some?
    ensures Read(t[..n]).Some? && Truncates(Read(t[..m]).value, Read(t[..n]).value)
  {
    hide Parse, Read, TextTo, AtBoundary, IsWhole, LastStop;
    WholeIsRead(t, n, k);
    var whole := LastWholePlace(t, m);
    var c := PrefixReads(t, m, whole);
    NothingYet(t);
    StoppedAt(t, whole, c);
    StopIsBoundary(t, m, whole, c);
    StopIsBoundary(t, n, k, k);
    TextGrows(t, c, k);
  }

  lemma StoppedAt(t: Text, k: nat, c: nat)
    requires c <= |t| && k <= |t| && Parse(t).Some? && LastStop(t, k, c) && TextTo(t, c).Some?
    ensures Stop(t, k, c)
  {
    NothingYet(t);
  }

  /** Once a prefix holds a comma between items before the last place it is whole, something
      is read, and at least what stood before that comma. */
  lemma PrefixReadsUpToComma(t: Text, n: nat, comma: nat, k: nat)
    requires n <= |t| && Parse(t).Some? && comma < k <= n && LastWholeIs(t, n, k)
    requires t[comma] == COMMA && !LexAt(t, comma).inString
    ensures TextTo(t, comma).Some? && Read(t[..n]).Some?
    ensures Truncates(TextTo(t, comma).value, Read(t[..n]).value)
    ensures Truncates(Read(t[..n]).value, Parse(t).value)
  {
    hide Parse, Read, TextTo, LexAt, IsWhole;
    CommaReads(t, comma);
    NothingYet(t);
    var c := PrefixReads(t, n, k);
    assert Stop(t, k, comma);
    CommaIsBoundary(t, comma);
    StoppedAt(t, k, c);
    StopIsBoundary(t, n, k, c);
    TextGrows(t, comma, c);
    PrefixReadsAsTruncation(t, n);
  }

  // Within an escape a string is not shown: `["a\u0041"]`, cut before the escape and inside it.

  const SPELT: Text := [LBRACKET, QUOTE, 97, BACKSLASH, 117, 48, 48, 52, 49, QUOTE, RBRACKET]

  lemma SpeltString()
    ensures ParseChars(SPELT, 2) == Got([97, 65], 10) && UnitsTo(SPELT, 2, 3) == Some([97]) && UnitsTo(SPELT, 2, 6).None?
  {
    var a: Text, b: Text := [97], [65];
    assert IsHex(48) && HexValue(48) == 0 && HexValue(52) == 4 && HexValue(49) == 1;
    assert Escape(SPELT, 3) == Got(65, 9);
    assert ParseChars(SPELT, 9) == Got([], 10) && b + [] == b && a + b == [97, 65] && a + [] == a;
    assert ParseChars(SPELT, 3) == Got(b, 10);
    assert UnitsTo(SPELT, 3, 3) == Some([]) && UnitsTo(SPELT, 3, 6).None?;
  }

  lemma SpeltItems()
    ensures ParseItems(SPELT, 1) == Got([Str([97, 65])], 11) && ParseArray(SPELT, 1) == Got([Str([97, 65])], 11)
    ensures ParseValue(SPELT, 1) == Got(Str([97, 65]), 10) && ParseOpening(SPELT, 1, RBRACKET) == Got(false, 1)
  {
    SpeltString();
    hide ParseChars;
    assert SkipSpace(SPELT, 1) == 1 && SkipSpace(SPELT, 10) == 10;
    assert ParseValue(SPELT, 1) == Got(Str([97, 65]), 10);
    ItemsRead(SPELT, 1, ParseValue(SPELT, 1), ParseSeparator(SPELT, 10, RBRACKET));
  }

  lemma SpeltReads()
    ensures Parse(SPELT) == Some(Arr([Str([97, 65])])) && SkipSpace(SPELT, 0) == 0
    ensures TextTo(SPELT, 3) == Some(Arr([Str([97])])) && TextTo(SPELT, 6).None?
  {
    SpeltItems();
    SpeltString();
    hide ParseItems, ParseChars, UnitsTo, ParseArray;
    assert SkipSpace(SPELT, 0) == 0 && SkipSpace(SPELT, 11) == 11;
    ValueRead(SPELT, 0);
    FirstStands(3);
    FirstStands(6);
  }

  lemma FirstStands(n: nat)
    requires n == 3 || n == 6
    ensures ParseArray(SPELT, 1).Got? && ArrayTo(SPELT, 1, n) == if n == 3 then Some([Str([97])]) else None
  {
    SpeltItems();
    SpeltString();
    hide ParseItems, ParseArray, ParseChars, UnitsTo;
    ValueStands(SPELT, 1, n);
    ItemsStand(SPELT, 1, n);
    assert ParseArray(SPELT, 1).Got?;
    assert ArrayTo(SPELT, 1, n) == ItemsTo(SPELT, 1, n);
  }

  lemma SpeltLexed()
    ensures IsWhole(SPELT, 3) && IsWhole(SPELT, 6)
  {
    assert LexAt(SPELT, 1) == START.(closers := [RBRACKET]);
    assert LexAt(SPELT, 2) == Lex(true, false, [RBRACKET]);
    assert LexAt(SPELT, 3) == Lex(true, false, [RBRACKET]);
    assert LexAt(SPELT, 4) == Lex(true, true, [RBRACKET]);
    assert LexAt(SPELT, 5) == Lex(true, false, [RBRACKET]);
    assert LexAt(SPELT, 6) == Lex(true, false, [RBRACKET]);
  }

  /** The string is shown, and then, while the escape is written, nothing is. */
  lemma EscapeHidesString()
    ensures Read(SPELT[..3]) == Some(Arr([Str([97])])) && Read(SPELT[..6]) == None
  {
    SpeltReads();
    SpeltLexed();
    hide Parse, TextTo, Read, IsWhole;
    WholeIsRead(SPELT, 3, 3);
    var c := PrefixReads(SPELT, 6, 6);
    NothingYet(SPELT);
  }
}
