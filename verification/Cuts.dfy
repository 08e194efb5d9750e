/** What a JSON text cut short means: what stands of it before the cut, and that closing what is open there
    makes it a text that means just that. */
module Cuts {
  import opened Basics
  import opened CodeUnits
  import opened Json
  import opened HalfWritten

  // What stands before `n`, told from the grammar alone.

  /** The units of a string written from `i` up to `n`, or nothing where `n` falls into an escape. */
  function UnitsTo(t: Text, i: nat, n: nat): Option<Text>
    requires i <= n <= |t|
    decreases n - i
  {
    if i == n then Some([])
    else if t[i] == BACKSLASH then
      match Escape(t, i)
      case Bad => None
      case Got(unit, next) =>
        if n < next then None
        else
          match UnitsTo(t, next, n)
          case None => None
          case Some(rest) => Some([unit] + rest)
    else
      match UnitsTo(t, i + 1, n)
      case None => None
      case Some(rest) => Some([t[i]] + rest)
  }

  /** The value at `i` as far as it stands before `n`: a string so far, an array or an object with the entries
      so far. Nothing where `n` falls into a name or an escape: there what comes last has no meaning yet. */
  function ValueTo(t: Text, i: nat, n: nat): Option<Value>
    requires i < n <= |t| && ParseValue(t, i).Got?
    decreases n - i, 0
  {
    if ParseValue(t, i).next <= n then Some(ParseValue(t, i).value)
    else if t[i] == QUOTE then
      match UnitsTo(t, i + 1, n)
      case None => None
      case Some(units) => Some(Str(units))
    else if t[i] == LBRACKET then
      match ArrayTo(t, i + 1, n)
      case None => None
      case Some(items) => Some(Arr(items))
    else if t[i] == LBRACE then
      match ObjectTo(t, i + 1, n)
      case None => None
      case Some(members) => Some(Obj(members))
    else None
  }

  function ArrayTo(t: Text, i: nat, n: nat): Option<seq<Value>>
    requires i <= n <= |t| && ParseArray(t, i).Got?
    decreases n - i, 3
  {
    var opening := ParseOpening(t, i, RBRACKET);
    if opening.value || n <= opening.next then Some([]) else ItemsTo(t, opening.next, n)
  }

  /** The items from the one at `i` on. */
  function ItemsTo(t: Text, i: nat, n: nat): (items: Option<seq<Value>>)
    requires i < n <= |t| && ParseItems(t, i).Got?
    ensures items.Some? ==> items.value != []
    decreases n - i, 1
  {
    match ValueTo(t, i, n)
    case None => None
    case Some(v) =>
      var end := ParseValue(t, i).next;
      var separator := ParseSeparator(t, end, RBRACKET);
      if n < end || separator.value || n <= separator.next then Some([v])
      else
        match ItemsTo(t, separator.next, n)
        case None => None
        case Some(rest) => Some([v] + rest)
  }

  function ObjectTo(t: Text, i: nat, n: nat): Option<seq<Member>>
    requires i <= n <= |t| && ParseObject(t, i).Got?
    decreases n - i, 3
  {
    var opening := ParseOpening(t, i, RBRACE);
    if opening.value || n <= opening.next then Some([]) else MembersTo(t, opening.next, n)
  }

  function MemberTo(t: Text, i: nat, n: nat): Option<Member>
    requires i < n <= |t| && ParseMember(t, i).Got?
    decreases n - i, 1
  {
    var name := ParseName(t, i);
    if n <= name.next then None
    else
      match ValueTo(t, name.next, n)
      case None => None
      case Some(v) => Some(Member(name.value, v))
  }

  /** The members from the one at `i` on. */
  function MembersTo(t: Text, i: nat, n: nat): (members: Option<seq<Member>>)
    requires i < n <= |t| && ParseMembers(t, i).Got?
    ensures members.Some? ==> members.value != []
    decreases n - i, 2
  {
    match MemberTo(t, i, n)
    case None => None
    case Some(m) =>
      var end := ParseMember(t, i).next;
      var separator := ParseSeparator(t, end, RBRACE);
      if n < end || separator.value || n <= separator.next then Some([m])
      else
        match MembersTo(t, separator.next, n)
        case None => None
        case Some(rest) => Some([m] + rest)
  }

  /** What stands of the text before `n`. */
  function TextTo(t: Text, n: nat): Option<Value>
    requires n <= |t| && Parse(t).Some?
  {
    if SkipSpace(t, 0) < n then ValueTo(t, SkipSpace(t, 0), n) else None
  }

  predicate Agree(t: Text, s: Text, n: nat) {
    n <= |t| && n <= |s| && forall k :: 0 <= k < n ==> t[k] == s[k]
  }

  // Reading looks no further than it reads, but for the unit that ends a word.

  lemma {:induction false} SpaceLocal(t: Text, s: Text, n: nat, i: nat)
    requires Agree(t, s, n) && i <= |t| && SkipSpace(t, i) < n
    ensures SkipSpace(s, i) == SkipSpace(t, i)
    decreases |t| - i
  {
    if IsSpace(t[i]) {
      SpaceLocal(t, s, n, i + 1);
    }
  }

  lemma {:induction false} WordLocal(t: Text, s: Text, n: nat, i: nat)
    requires Agree(t, s, n) && i <= |t| && WordEnd(t, i) <= n
    requires n == |s| || !IsWordUnit(s[n])
    ensures WordEnd(s, i) == WordEnd(t, i)
    decreases |t| - i
  {
    if i < n && IsWordUnit(t[i]) {
      WordLocal(t, s, n, i + 1);
    }
  }

  lemma {:induction false} CharsLocal(t: Text, s: Text, n: nat, i: nat)
    requires Agree(t, s, n) && i <= |t| && ParseChars(t, i).Got? && ParseChars(t, i).next <= n
    ensures ParseChars(s, i) == ParseChars(t, i)
    decreases |t| - i
  {
    if t[i] == QUOTE {
    } else if t[i] == BACKSLASH {
      assert Escape(s, i) == Escape(t, i);
      CharsLocal(t, s, n, Escape(t, i).next);
    } else {
      CharsLocal(t, s, n, i + 1);
    }
  }

  /** The opening or separator read at `t` stays the same where only what is past `n` differs. */
  predicate Before(r: Parsed<bool>, n: nat) {
    r.Got? && if r.value then r.next <= n else r.next < n
  }

  lemma {:induction false} OpeningLocal(t: Text, s: Text, n: nat, i: nat, closer: CodeUnit)
    requires Agree(t, s, n) && i <= |t| && Before(ParseOpening(t, i, closer), n)
    ensures ParseOpening(s, i, closer) == ParseOpening(t, i, closer)
  {
    SpaceLocal(t, s, n, i);
  }

  lemma {:induction false} SeparatorLocal(t: Text, s: Text, n: nat, i: nat, closer: CodeUnit)
    requires Agree(t, s, n) && i <= |t| && Before(ParseSeparator(t, i, closer), n)
    ensures ParseSeparator(s, i, closer) == ParseSeparator(t, i, closer)
  {
    SpaceLocal(t, s, n, i);
    if t[SkipSpace(t, i)] != closer {
      SpaceLocal(t, s, n, SkipSpace(t, i) + 1);
    }
  }

  lemma {:induction false} NameLocal(t: Text, s: Text, n: nat, i: nat)
    requires Agree(t, s, n) && i <= |t| && ParseName(t, i).Got? && ParseName(t, i).next < n
    ensures ParseName(s, i) == ParseName(t, i)
  {
    CharsLocal(t, s, n, i + 1);
    var end := ParseChars(t, i + 1).next;
    SpaceLocal(t, s, n, end);
    SpaceLocal(t, s, n, SkipSpace(t, end) + 1);
  }

  lemma {:induction false} ValueLocal(t: Text, s: Text, n: nat, i: nat)
    requires Agree(t, s, n) && i <= |t| && ParseValue(t, i).Got? && ParseValue(t, i).next <= n
    requires n == |s| || !IsWordUnit(s[n])
    ensures ParseValue(s, i) == ParseValue(t, i)
    decreases |t| - i, 0
  {
    if t[i] == QUOTE {
      CharsLocal(t, s, n, i + 1);
    } else if t[i] == LBRACKET {
      ArrayLocal(t, s, n, i + 1);
    } else if t[i] == LBRACE {
      ObjectLocal(t, s, n, i + 1);
    } else {
      WordLocal(t, s, n, i);
      assert t[i..WordEnd(t, i)] == s[i..WordEnd(t, i)];
    }
  }

  lemma {:induction false} ArrayLocal(t: Text, s: Text, n: nat, i: nat)
    requires Agree(t, s, n) && i <= |t| && ParseArray(t, i).Got? && ParseArray(t, i).next <= n
    requires n == |s| || !IsWordUnit(s[n])
    ensures ParseArray(s, i) == ParseArray(t, i)
    decreases |t| - i, 3
  {
    OpeningLocal(t, s, n, i, RBRACKET);
    if !ParseOpening(t, i, RBRACKET).value {
      ItemsLocal(t, s, n, ParseOpening(t, i, RBRACKET).next);
    }
  }

  lemma {:induction false} ItemsLocal(t: Text, s: Text, n: nat, i: nat)
    requires Agree(t, s, n) && i <= |t| && ParseItems(t, i).Got? && ParseItems(t, i).next <= n
    requires n == |s| || !IsWordUnit(s[n])
    ensures ParseItems(s, i) == ParseItems(t, i)
    decreases |t| - i, 1
  {
    ValueLocal(t, s, n, i);
    var separator := ParseSeparator(t, ParseValue(t, i).next, RBRACKET);
    SeparatorLocal(t, s, n, ParseValue(t, i).next, RBRACKET);
    if !separator.value {
      ItemsLocal(t, s, n, separator.next);
    }
  }

  lemma {:induction false} ObjectLocal(t: Text, s: Text, n: nat, i: nat)
    requires Agree(t, s, n) && i <= |t| && ParseObject(t, i).Got? && ParseObject(t, i).next <= n
    requires n == |s| || !IsWordUnit(s[n])
    ensures ParseObject(s, i) == ParseObject(t, i)
    decreases |t| - i, 3
  {
    OpeningLocal(t, s, n, i, RBRACE);
    if !ParseOpening(t, i, RBRACE).value {
      MembersLocal(t, s, n, ParseOpening(t, i, RBRACE).next);
    }
  }

  lemma {:induction false} MemberLocal(t: Text, s: Text, n: nat, i: nat)
    requires Agree(t, s, n) && i <= |t| && ParseMember(t, i).Got? && ParseMember(t, i).next <= n
    requires n == |s| || !IsWordUnit(s[n])
    ensures ParseMember(s, i) == ParseMember(t, i)
    decreases |t| - i, 1
  {
    NameLocal(t, s, n, i);
    ValueLocal(t, s, n, ParseName(t, i).next);
  }

  lemma {:induction false} MembersLocal(t: Text, s: Text, n: nat, i: nat)
    requires Agree(t, s, n) && i <= |t| && ParseMembers(t, i).Got? && ParseMembers(t, i).next <= n
    requires n == |s| || !IsWordUnit(s[n])
    ensures ParseMembers(s, i) == ParseMembers(t, i)
    decreases |t| - i, 2
  {
    MemberLocal(t, s, n, i);
    var separator := ParseSeparator(t, ParseMember(t, i).next, RBRACE);
    SeparatorLocal(t, s, n, ParseMember(t, i).next, RBRACE);
    if !separator.value {
      MembersLocal(t, s, n, separator.next);
    }
  }

  // A cut of `t` at `n`, and the completion `s` of it.

  /** The cut does not split a number or a literal name. */
  predicate AtBoundary(t: Text, n: nat)
    requires n <= |t|
  {
    || LexAt(t, n).inString
    || (n < |t| && t[n] == COMMA)
    || (n > 0 && (IsOpener(t[n - 1]) || IsCloser(t[n - 1])))
  }

  predicate Cut(t: Text, n: nat, s: Text) {
    n <= |t| && AtBoundary(t, n) && s == Completed(t, n)
  }

  /** Where in the completion the closers begin. */
  function Tail(t: Text, n: nat): (at: nat)
    requires n <= |t|
    ensures n <= at
  {
    if LexAt(t, n).inString then n + 1 else n
  }

  lemma {:induction false} OnlyClosers(t: Text, n: nat)
    requires n <= |t|
    ensures forall k :: 0 <= k < |LexAt(t, n).closers| ==> IsCloser(LexAt(t, n).closers[k])
  {
    if n > 0 {
      OnlyClosers(t, n - 1);
    }
  }

  lemma CutAgrees(t: Text, n: nat, s: Text)
    requires Cut(t, n, s)
    ensures Agree(t, s, n) && Tail(t, n) <= |s| && (LexAt(t, n).inString ==> s[n] == QUOTE)
    ensures n == |s| || (!IsWordUnit(s[n]) && !IsSpace(s[n]))
    ensures |s| == Tail(t, n) + |LexAt(t, n).closers|
    ensures forall k :: Tail(t, n) <= k < |s| ==> s[k] == LexAt(t, n).closers[k - Tail(t, n)] && IsCloser(s[k])
  {
    OnlyClosers(t, n);
  }

  /** A prefix completes at a cut as the whole text does. */
  lemma CompletedInPrefix(t: Text, n: nat, cut: nat)
    requires cut <= n <= |t|
    ensures Completed(t[..n], cut) == Completed(t, cut)
  {
    assert t[..n][..cut] == t[..cut];
    LexPrefix(t, t[..n], cut);
  }

  /** Inside a string the lexer knows it, and nothing is opened or closed. */
  lemma {:induction false} CharsInside(t: Text, i: nat, n: nat)
    requires i <= n <= |t| && ParseChars(t, i).Got? && n < ParseChars(t, i).next
    requires LexAt(t, i).inString && !LexAt(t, i).escaped
    ensures LexAt(t, n).inString && LexAt(t, n).closers == LexAt(t, i).closers
    decreases |t| - i
  {
    hide Escape;
    if i < n {
      if t[i] == BACKSLASH {
        var next := Escape(t, i).next;
        EscapeBalance(t, i);
        if next <= n {
          CharsInside(t, next, n);
        }
      } else {
        assert LexAt(t, i + 1) == LexAt(t, i);
        CharsInside(t, i + 1, n);
      }
    }
  }

  lemma {:induction false} NoQuoteLeft(s: Text, i: nat)
    requires i <= |s| && forall k :: i <= k < |s| ==> IsCloser(s[k])
    ensures ParseChars(s, i).Bad?
    decreases |s| - i
  {
    if i < |s| {
      NoQuoteLeft(s, i + 1);
    }
  }

  /** What was read of something up to the place where all opened since is closed. */
  function Ending<T>(part: Option<T>, at: nat): Parsed<T> {
    match part
    case None => Bad
    case Some(value) => Got(value, at)
  }

  /** An escape that is cut does not read. */
  lemma EscapeCut(t: Text, n: nat, s: Text, i: nat)
    requires Cut(t, n, s) && i < n && LexAt(t, n).inString && t[i] == BACKSLASH
    requires Escape(t, i).Got? && n < Escape(t, i).next
    ensures ParseChars(s, i).Bad?
  {
    hide LexAt, HexValue;
    CutAgrees(t, n, s);
    if n == i + 1 {
      NoQuoteLeft(s, n + 1);
    }
  }

  lemma {:induction false} CharsCut(t: Text, n: nat, s: Text, i: nat, q: Parsed<Text>)
    requires Cut(t, n, s) && i <= n && ParseChars(t, i).Got? && n < ParseChars(t, i).next
    requires LexAt(t, n).inString && q == ParseChars(s, i)
    ensures q == Ending(UnitsTo(t, i, n), n + 1)
    decreases n - i
  {
    hide LexAt, HexValue, AtBoundary, Completed;
    CutAgrees(t, n, s);
    if i == n {
    } else if t[i] == BACKSLASH {
      var next := Escape(t, i).next;
      if n < next {
        EscapeCut(t, n, s, i);
      } else {
        assert Escape(s, i) == Escape(t, i);
        CharsCut(t, n, s, next, ParseChars(s, next));
      }
    } else {
      CharsCut(t, n, s, i + 1, ParseChars(s, i + 1));
    }
  }

  lemma {:induction false} SpaceEnds(t: Text, s: Text, n: nat, i: nat)
    requires Agree(t, s, n) && i <= n <= SkipSpace(t, i) && (n == |s| || !IsSpace(s[n]))
    ensures SkipSpace(s, i) == n
    decreases n - i
  {
    if i < n {
      SpaceEnds(t, s, n, i + 1);
    }
  }

  lemma NothingAtComma(t: Text, n: nat)
    requires n < |t| && t[n] == COMMA
    ensures ParseValue(t, n).Bad? && ParseItems(t, n).Bad? && ParseName(t, n).Bad? && ParseMembers(t, n).Bad?
  {
    assert WordEnd(t, n) == n;
    assert ParseMember(t, n).Bad?;
  }

  /** What is open at `i` is still open at `n`, under what was opened since. */
  predicate Within(t: Text, i: nat, n: nat)
    requires i <= n <= |t|
  {
    var outer, inner := LexAt(t, i).closers, LexAt(t, n).closers;
    |outer| <= |inner| && inner[|inner| - |outer|..] == outer
  }

  /** Where the completion has closed what was opened since `i`. */
  function Closed(t: Text, i: nat, n: nat): (at: nat)
    requires i <= n <= |t| && Within(t, i, n)
    ensures n <= at
  {
    Tail(t, n) + |LexAt(t, n).closers| - |LexAt(t, i).closers|
  }

  lemma Outwards(t: Text, i: nat, n: nat)
    requires i < n <= |t| && !LexAt(t, i).inString && IsOpener(t[i]) && Within(t, i + 1, n)
    ensures Within(t, i, n) && Closed(t, i, n) == Closed(t, i + 1, n) + 1
  {
    var outer, inner := LexAt(t, i).closers, LexAt(t, n).closers;
    assert inner[|inner| - |outer|..] == inner[|inner| - |outer| - 1..][1..];
  }

  lemma ClosesHere(t: Text, n: nat, s: Text, i: nat, closer: CodeUnit)
    requires Cut(t, n, s) && i <= n && Within(t, i, n)
    requires LexAt(t, i).closers != [] && LexAt(t, i).closers[0] == closer
    ensures Closed(t, i, n) < |s| && ParseSeparator(s, Closed(t, i, n), closer) == Got(true, Closed(t, i, n) + 1)
  {
    CutAgrees(t, n, s);
    var outer, inner, at := LexAt(t, i).closers, LexAt(t, n).closers, Closed(t, i, n);
    assert s[at] == inner[at - Tail(t, n)] == inner[|inner| - |outer|..][0] == closer;
    assert SkipSpace(s, at) == at;
  }

  lemma OpeningCut(t: Text, n: nat, s: Text, i: nat, closer: CodeUnit)
    requires Cut(t, n, s) && i <= n && !LexAt(t, i).inString
    requires LexAt(t, i).closers != [] && LexAt(t, i).closers[0] == closer && IsCloser(closer)
    requires var r := ParseOpening(t, i, closer); r.Got? && n <= r.next && (r.value ==> n < r.next)
    ensures ParseOpening(s, i, closer) == Got(true, n + 1) && LexAt(t, n) == LexAt(t, i)
  {
    CutAgrees(t, n, s);
    PlainBalance(t, i, n);
    SpaceEnds(t, s, n, i);
  }

  lemma SeparatorCut(t: Text, n: nat, s: Text, i: nat, closer: CodeUnit)
    requires Cut(t, n, s) && i <= n && !LexAt(t, i).inString
    requires LexAt(t, i).closers != [] && LexAt(t, i).closers[0] == closer && IsCloser(closer)
    requires var r := ParseSeparator(t, i, closer);
      r.Got? && n <= r.next && if r.value then n < r.next else r.next < |t| && t[r.next] != COMMA
    ensures ParseSeparator(s, i, closer) == Got(true, n + 1) && LexAt(t, n) == LexAt(t, i)
  {
    hide LexAt;
    CutAgrees(t, n, s);
    PlainBalance(t, i, n);
    var after := SkipSpace(t, i);
    if after < n {
      assert false;
    }
    SpaceEnds(t, s, n, i);
  }

  /** A cut in a member before its value is in its name. */
  lemma CutInName(t: Text, n: nat, i: nat)
    requires n <= |t| && AtBoundary(t, n) && i < n && !LexAt(t, i).inString
    requires ParseName(t, i).Got? && ParseValue(t, ParseName(t, i).next).Got? && n <= ParseName(t, i).next
    ensures n < ParseChars(t, i + 1).next
  {
    hide LexAt, ParseChars, ParseValue;
    var end := ParseChars(t, i + 1).next;
    if end <= n {
      Entered(t, i);
      CharsBalance(t, i + 1);
      NameSpaces(t, end, ParseName(t, i).next);
      PlainBalance(t, end, n);
      if n < |t| && t[n] == COMMA {
        NothingAtComma(t, n);
      }
      assert false;
    }
  }

  /** Between a name and its value. */
  lemma NameSpaces(t: Text, end: nat, start: nat)
    requires end <= |t| && ValueStart(t, end) == Some(start)
    ensures end <= start <= |t| && forall k :: end <= k < start ==> IsSpace(t[k]) || t[k] == COLON
  {}

  lemma NameCut(t: Text, n: nat, s: Text, i: nat)
    requires Cut(t, n, s) && i < n && !LexAt(t, i).inString
    requires ParseName(t, i).Got? && ParseValue(t, ParseName(t, i).next).Got? && n <= ParseName(t, i).next
    ensures ParseName(s, i).Bad? && Within(t, i, n) && LexAt(t, n).inString
  {
    hide LexAt, ParseChars, ParseValue, UnitsTo, Within, Closed;
    CutInName(t, n, i);
    StringCut(t, n, s, i);
    CutAgrees(t, n, s);
    NoColon(s, n);
  }

  lemma NoColon(s: Text, n: nat)
    requires n < |s| && forall k :: n < k < |s| ==> IsCloser(s[k])
    ensures ValueStart(s, n + 1).None?
  {}

  /** A word is not cut. */
  lemma WordUncut(t: Text, n: nat, i: nat)
    requires n <= |t| && AtBoundary(t, n) && i < n && !LexAt(t, i).inString
    requires ParseValue(t, i).Got? && t[i] != QUOTE && t[i] != LBRACKET && t[i] != LBRACE
    ensures ParseValue(t, i).next <= n
  {
    if ParseValue(t, i).next > n {
      PlainBalance(t, i, n);
      assert false;
    }
  }

  // The lists, one entry on.

  lemma ItemsRead(s: Text, i: nat, v: Parsed<Value>, separator: Parsed<bool>)
    requires i <= |s| && v == ParseValue(s, i) && (v.Got? ==> separator == ParseSeparator(s, v.next, RBRACKET))
    ensures ParseItems(s, i) ==
      if v.Bad? || separator.Bad? then Bad
      else if separator.value then Got([v.value], separator.next)
      else if ParseItems(s, separator.next).Bad? then Bad
      else Got([v.value] + ParseItems(s, separator.next).value, ParseItems(s, separator.next).next)
  {
    hide ParseValue, ParseSeparator;
  }

  lemma FirstItem(t: Text, i: nat)
    requires i <= |t| && ParseItems(t, i).Got?
    ensures ParseValue(t, i).Got? && ParseSeparator(t, ParseValue(t, i).next, RBRACKET).Got?
  {
    hide ParseValue, ParseSeparator;
  }

  lemma FirstMember(t: Text, i: nat)
    requires i <= |t| && ParseMembers(t, i).Got?
    ensures ParseMember(t, i).Got? && ParseSeparator(t, ParseMember(t, i).next, RBRACE).Got?
  {
    hide ParseMember, ParseSeparator;
  }

  lemma ItemsStand(t: Text, i: nat, n: nat)
    requires i < n <= |t| && ParseItems(t, i).Got?
    ensures var v, end := ValueTo(t, i, n), ParseValue(t, i).next;
      var separator := ParseSeparator(t, end, RBRACKET);
      ItemsTo(t, i, n) ==
        if v.None? then None
        else if n < end || separator.value || n <= separator.next then Some([v.value])
        else if ItemsTo(t, separator.next, n).None? then None
        else Some([v.value] + ItemsTo(t, separator.next, n).value)
  {
    hide ParseValue, ParseSeparator, ValueTo;
  }

  lemma MembersRead(s: Text, i: nat, m: Parsed<Member>, separator: Parsed<bool>)
    requires i <= |s| && m == ParseMember(s, i) && (m.Got? ==> separator == ParseSeparator(s, m.next, RBRACE))
    ensures ParseMembers(s, i) ==
      if m.Bad? || separator.Bad? then Bad
      else if separator.value then Got([m.value], separator.next)
      else if ParseMembers(s, separator.next).Bad? then Bad
      else Got([m.value] + ParseMembers(s, separator.next).value, ParseMembers(s, separator.next).next)
  {
    hide ParseMember, ParseSeparator;
  }

  lemma MembersStand(t: Text, i: nat, n: nat)
    requires i < n <= |t| && ParseMembers(t, i).Got?
    ensures var m, end := MemberTo(t, i, n), ParseMember(t, i).next;
      var separator := ParseSeparator(t, end, RBRACE);
      MembersTo(t, i, n) ==
        if m.None? then None
        else if n < end || separator.value || n <= separator.next then Some([m.value])
        else if MembersTo(t, separator.next, n).None? then None
        else Some([m.value] + MembersTo(t, separator.next, n).value)
  {
    hide ParseMember, ParseSeparator, MemberTo;
  }

  lemma ValueWhole(t: Text, i: nat, n: nat)
    requires i < n <= |t| && ParseValue(t, i).Got? && ParseValue(t, i).next <= n
    ensures ValueTo(t, i, n) == Some(ParseValue(t, i).value)
  {}

  lemma MemberWhole(t: Text, i: nat, n: nat)
    requires i < n <= |t| && ParseMember(t, i).Got? && ParseMember(t, i).next <= n
    ensures MemberTo(t, i, n) == Some(ParseMember(t, i).value)
  {}

  lemma {:induction false} ValueCut(t: Text, n: nat, s: Text, i: nat, q: Parsed<Value>)
    requires Cut(t, n, s) && i < n && !LexAt(t, i).inString
    requires ParseValue(t, i).Got? && n < ParseValue(t, i).next && q == ParseValue(s, i)
    ensures Within(t, i, n) && q == Ending(ValueTo(t, i, n), Closed(t, i, n))
    ensures ValueTo(t, i, n).None? ==> LexAt(t, n).inString
    decreases n - i, 0
  {
    hide LexAt, ParseValue, ValueTo, AtBoundary, Completed, Agree, Within, Closed;
    CutAgrees(t, n, s);
    Entered(t, i);
    ValueRead(t, i);
    ValueStands(t, i, n);
    if t[i] == QUOTE {
      StringCut(t, n, s, i);
      ValueRead(s, i);
    } else if t[i] == LBRACKET {
      ArrayCut(t, n, s, i + 1, ParseArray(s, i + 1));
      BracketedCut(t, n, s, i);
    } else if t[i] == LBRACE {
      ObjectCut(t, n, s, i + 1, ParseObject(s, i + 1));
      BracketedCut(t, n, s, i);
    } else {
      WordUncut(t, n, i);
    }
  }

  /** An array or object around what is cut. */
  lemma BracketedCut(t: Text, n: nat, s: Text, i: nat)
    requires Cut(t, n, s) && i < n && !LexAt(t, i).inString && IsOpener(t[i]) && ParseValue(t, i).Got? && n < ParseValue(t, i).next
    requires Within(t, i + 1, n)
    requires t[i] == LBRACKET ==>
      ParseArray(t, i + 1).Got? && ParseArray(s, i + 1) == Ending(ArrayTo(t, i + 1, n), Closed(t, i + 1, n) + 1)
    requires t[i] == LBRACE ==>
      ParseObject(t, i + 1).Got? && ParseObject(s, i + 1) == Ending(ObjectTo(t, i + 1, n), Closed(t, i + 1, n) + 1)
    ensures Within(t, i, n) && ParseValue(s, i) == Ending(ValueTo(t, i, n), Closed(t, i, n))
  {
    hide LexAt, ParseValue, ValueTo, Within, Closed, AtBoundary, Completed, ParseArray, ParseObject, ArrayTo, ObjectTo;
    CutAgrees(t, n, s);
    Agrees(t, s, n, i);
    Outwards(t, i, n);
    ValueRead(s, i);
    ValueStands(t, i, n);
  }

  /** A value by its first unit. */
  lemma ValueRead(s: Text, i: nat)
    requires i < |s|
    ensures s[i] == QUOTE ==>
      ParseValue(s, i) == if ParseChars(s, i + 1).Got? then Got(Str(ParseChars(s, i + 1).value), ParseChars(s, i + 1).next) else Bad
    ensures s[i] == LBRACKET ==>
      ParseValue(s, i) == if ParseArray(s, i + 1).Got? then Got(Arr(ParseArray(s, i + 1).value), ParseArray(s, i + 1).next) else Bad
    ensures s[i] == LBRACE ==>
      ParseValue(s, i) == if ParseObject(s, i + 1).Got? then Got(Obj(ParseObject(s, i + 1).value), ParseObject(s, i + 1).next) else Bad
  {
    hide ParseChars, ParseArray, ParseObject;
  }

  lemma ValueStands(t: Text, i: nat, n: nat)
    requires i < n <= |t| && ParseValue(t, i).Got? && n < ParseValue(t, i).next
    ensures t[i] == QUOTE ==>
      ValueTo(t, i, n) == if UnitsTo(t, i + 1, n).Some? then Some(Str(UnitsTo(t, i + 1, n).value)) else None
    ensures t[i] == LBRACKET ==>
      ParseArray(t, i + 1).Got? && ValueTo(t, i, n) == if ArrayTo(t, i + 1, n).Some? then Some(Arr(ArrayTo(t, i + 1, n).value)) else None
    ensures t[i] == LBRACE ==>
      ParseObject(t, i + 1).Got? && ValueTo(t, i, n) == if ObjectTo(t, i + 1, n).Some? then Some(Obj(ObjectTo(t, i + 1, n).value)) else None
  {
    hide ParseChars, ParseArray, ParseObject, UnitsTo, ArrayTo, ObjectTo;
  }

  lemma Agrees(t: Text, s: Text, n: nat, i: nat)
    requires Agree(t, s, n) && i < n
    ensures t[i] == s[i]
  {}

  /** The state after the first unit of a value. */
  lemma Entered(t: Text, i: nat)
    requires i < |t| && !LexAt(t, i).inString
    ensures t[i] == QUOTE ==> LexAt(t, i + 1).inString && !LexAt(t, i + 1).escaped && LexAt(t, i + 1).closers == LexAt(t, i).closers
    ensures t[i] == LBRACKET ==> !LexAt(t, i + 1).inString && LexAt(t, i + 1).closers == [RBRACKET] + LexAt(t, i).closers
    ensures t[i] == LBRACE ==> !LexAt(t, i + 1).inString && LexAt(t, i + 1).closers == [RBRACE] + LexAt(t, i).closers
  {}

  lemma StringCut(t: Text, n: nat, s: Text, i: nat)
    requires Cut(t, n, s) && i < n && !LexAt(t, i).inString && t[i] == QUOTE
    requires ParseChars(t, i + 1).Got? && n < ParseChars(t, i + 1).next
    ensures Within(t, i, n) && Closed(t, i, n) == n + 1 && LexAt(t, n).inString && i + 1 <= |s| && s[i] == QUOTE
    ensures ParseChars(s, i + 1) == Ending(UnitsTo(t, i + 1, n), n + 1)
  {
    hide ParseChars, UnitsTo, LexAt;
    Entered(t, i);
    CutAgrees(t, n, s);
    CharsInside(t, i + 1, n);
    CharsCut(t, n, s, i + 1, ParseChars(s, i + 1));
  }

  // Where the cut falls among the items of an array.

  lemma ItemsCutWithin(t: Text, n: nat, s: Text, i: nat)
    requires Cut(t, n, s) && i < n && ParseItems(t, i).Got? && n < ParseValue(t, i).next
    requires LexAt(t, i).closers != [] && LexAt(t, i).closers[0] == RBRACKET
    requires Within(t, i, n) && ParseValue(s, i) == Ending(ValueTo(t, i, n), Closed(t, i, n))
    ensures ParseItems(s, i) == Ending(ItemsTo(t, i, n), Closed(t, i, n) + 1)
    ensures ItemsTo(t, i, n).None? ==> ValueTo(t, i, n).None?
  {
    hide LexAt, ParseItems, ItemsTo, ParseValue, ValueTo, ParseSeparator, AtBoundary, Completed, Within, Closed;
    CutAgrees(t, n, s);
    ClosesHere(t, n, s, i, RBRACKET);
    var read := ParseValue(s, i);
    FirstItem(t, i);
    ItemsRead(s, i, read, if read.Got? then ParseSeparator(s, read.next, RBRACKET) else Bad);
    ItemsStand(t, i, n);
  }

  lemma ItemsCutBehind(t: Text, n: nat, s: Text, i: nat)
    requires Cut(t, n, s) && i < n && !LexAt(t, i).inString && ParseItems(t, i).Got? && n < ParseItems(t, i).next
    requires LexAt(t, i).closers != [] && LexAt(t, i).closers[0] == RBRACKET
    requires var end := ParseValue(t, i).next;
      end <= n && (ParseSeparator(t, end, RBRACKET).value || n <= ParseSeparator(t, end, RBRACKET).next)
    ensures Within(t, i, n) && ParseItems(s, i) == Ending(ItemsTo(t, i, n), Closed(t, i, n) + 1)
    ensures ItemsTo(t, i, n).Some?
  {
    hide LexAt, ParseItems, ItemsTo, ParseValue, ValueTo, ParseSeparator, AtBoundary, Completed, Agree;
    CutAgrees(t, n, s);
    FirstItem(t, i);
    var end := ParseValue(t, i).next;
    var separator := ParseSeparator(t, end, RBRACKET);
    ItemsRead(t, i, ParseValue(t, i), separator);
    ValueBalance(t, i);
    ValueLocal(t, s, n, i);
    ValueWhole(t, i, n);
    if !separator.value && t[separator.next] == COMMA {
      NothingAtComma(t, separator.next);
    }
    SeparatorCut(t, n, s, end, RBRACKET);
    ItemsRead(s, i, ParseValue(s, i), ParseSeparator(s, end, RBRACKET));
    ItemsStand(t, i, n);
  }

  lemma {:induction false} ItemsCut(t: Text, n: nat, s: Text, i: nat, q: Parsed<seq<Value>>)
    requires Cut(t, n, s) && i < n && !LexAt(t, i).inString
    requires LexAt(t, i).closers != [] && LexAt(t, i).closers[0] == RBRACKET
    requires ParseItems(t, i).Got? && n < ParseItems(t, i).next && q == ParseItems(s, i)
    ensures Within(t, i, n) && q == Ending(ItemsTo(t, i, n), Closed(t, i, n) + 1)
    ensures ItemsTo(t, i, n).None? ==> LexAt(t, n).inString
    decreases n - i, 2
  {
    hide LexAt, ParseItems, ItemsTo, ParseValue, ValueTo, ParseSeparator, AtBoundary, Completed, Agree;
    CutAgrees(t, n, s);
    FirstItem(t, i);
    var v := ParseValue(t, i);
    var separator := ParseSeparator(t, v.next, RBRACKET);
    if n < v.next {
      ValueCut(t, n, s, i, ParseValue(s, i));
      ItemsCutWithin(t, n, s, i);
    } else if separator.value || n <= separator.next {
      ItemsCutBehind(t, n, s, i);
    } else {
      ItemsRead(t, i, v, separator);
      ValueBalance(t, i);
      ValueLocal(t, s, n, i);
      ValueWhole(t, i, n);
      SeparatorLocal(t, s, n, v.next, RBRACKET);
      SeparatorBalance(t, v.next, RBRACKET);
      ItemsCut(t, n, s, separator.next, ParseItems(s, separator.next));
      ItemsRead(s, i, v, separator);
      ItemsStand(t, i, n);
    }
  }

  lemma {:induction false} ArrayCut(t: Text, n: nat, s: Text, i: nat, q: Parsed<seq<Value>>)
    requires Cut(t, n, s) && i <= n && !LexAt(t, i).inString
    requires LexAt(t, i).closers != [] && LexAt(t, i).closers[0] == RBRACKET
    requires ParseArray(t, i).Got? && n < ParseArray(t, i).next && q == ParseArray(s, i)
    ensures Within(t, i, n) && q == Ending(ArrayTo(t, i, n), Closed(t, i, n) + 1)
    ensures ArrayTo(t, i, n).None? ==> LexAt(t, n).inString
    decreases n - i, 3
  {
    hide LexAt, ParseItems, ItemsTo, ParseOpening, AtBoundary, Completed, Agree;
    var opening := ParseOpening(t, i, RBRACKET);
    if opening.value || n <= opening.next {
      OpeningCut(t, n, s, i, RBRACKET);
    } else {
      CutAgrees(t, n, s);
      OpeningLocal(t, s, n, i, RBRACKET);
      OpeningBalance(t, i, RBRACKET);
      ItemsCut(t, n, s, opening.next, q);
    }
  }

  lemma {:induction false} ObjectCut(t: Text, n: nat, s: Text, i: nat, q: Parsed<seq<Member>>)
    requires Cut(t, n, s) && i <= n && !LexAt(t, i).inString
    requires LexAt(t, i).closers != [] && LexAt(t, i).closers[0] == RBRACE
    requires ParseObject(t, i).Got? && n < ParseObject(t, i).next && q == ParseObject(s, i)
    ensures Within(t, i, n) && q == Ending(ObjectTo(t, i, n), Closed(t, i, n) + 1)
    ensures ObjectTo(t, i, n).None? ==> LexAt(t, n).inString
    decreases n - i, 3
  {
    hide LexAt, ParseMembers, MembersTo, ParseOpening, AtBoundary, Completed, Agree;
    var opening := ParseOpening(t, i, RBRACE);
    if opening.value || n <= opening.next {
      OpeningCut(t, n, s, i, RBRACE);
    } else {
      CutAgrees(t, n, s);
      OpeningLocal(t, s, n, i, RBRACE);
      OpeningBalance(t, i, RBRACE);
      MembersCut(t, n, s, opening.next, q);
    }
  }

  lemma {:induction false} MemberCut(t: Text, n: nat, s: Text, i: nat, q: Parsed<Member>)
    requires Cut(t, n, s) && i < n && !LexAt(t, i).inString
    requires ParseMember(t, i).Got? && n < ParseMember(t, i).next && q == ParseMember(s, i)
    ensures Within(t, i, n) && q == Ending(MemberTo(t, i, n), Closed(t, i, n))
    ensures MemberTo(t, i, n).None? ==> LexAt(t, n).inString
    decreases n - i, 1
  {
    hide LexAt, ParseName, ParseValue, ValueTo, AtBoundary, Completed, Agree;
    var start := ParseName(t, i).next;
    if n <= start {
      NameCut(t, n, s, i);
    } else {
      CutAgrees(t, n, s);
      NameLocal(t, s, n, i);
      NameBalance(t, i);
      ValueCut(t, n, s, start, ParseValue(s, start));
    }
  }

  // Where the cut falls among the members of an object.

  lemma MembersCutWithin(t: Text, n: nat, s: Text, i: nat)
    requires Cut(t, n, s) && i < n && ParseMembers(t, i).Got? && n < ParseMember(t, i).next
    requires LexAt(t, i).closers != [] && LexAt(t, i).closers[0] == RBRACE
    requires Within(t, i, n) && ParseMember(s, i) == Ending(MemberTo(t, i, n), Closed(t, i, n))
    ensures ParseMembers(s, i) == Ending(MembersTo(t, i, n), Closed(t, i, n) + 1)
    ensures MembersTo(t, i, n).None? ==> MemberTo(t, i, n).None?
  {
    hide LexAt, ParseMembers, MembersTo, ParseMember, MemberTo, ParseSeparator, AtBoundary, Completed, Within, Closed;
    CutAgrees(t, n, s);
    ClosesHere(t, n, s, i, RBRACE);
    var read := ParseMember(s, i);
    FirstMember(t, i);
    MembersRead(s, i, read, if read.Got? then ParseSeparator(s, read.next, RBRACE) else Bad);
    MembersStand(t, i, n);
  }

  lemma MembersCutBehind(t: Text, n: nat, s: Text, i: nat)
    requires Cut(t, n, s) && i < n && !LexAt(t, i).inString && ParseMembers(t, i).Got? && n < ParseMembers(t, i).next
    requires LexAt(t, i).closers != [] && LexAt(t, i).closers[0] == RBRACE
    requires var end := ParseMember(t, i).next;
      end <= n && (ParseSeparator(t, end, RBRACE).value || n <= ParseSeparator(t, end, RBRACE).next)
    ensures Within(t, i, n) && ParseMembers(s, i) == Ending(MembersTo(t, i, n), Closed(t, i, n) + 1)
    ensures MembersTo(t, i, n).Some?
  {
    hide LexAt, ParseMembers, MembersTo, ParseMember, MemberTo, ParseSeparator, AtBoundary, Completed, Agree;
    CutAgrees(t, n, s);
    FirstMember(t, i);
    var end := ParseMember(t, i).next;
    var separator := ParseSeparator(t, end, RBRACE);
    MembersRead(t, i, ParseMember(t, i), separator);
    MemberBalance(t, i);
    MemberLocal(t, s, n, i);
    MemberWhole(t, i, n);
    if !separator.value && t[separator.next] == COMMA {
      NothingAtComma(t, separator.next);
    }
    SeparatorCut(t, n, s, end, RBRACE);
    MembersRead(s, i, ParseMember(s, i), ParseSeparator(s, end, RBRACE));
    MembersStand(t, i, n);
  }

  lemma {:induction false} MembersCut(t: Text, n: nat, s: Text, i: nat, q: Parsed<seq<Member>>)
    requires Cut(t, n, s) && i < n && !LexAt(t, i).inString
    requires LexAt(t, i).closers != [] && LexAt(t, i).closers[0] == RBRACE
    requires ParseMembers(t, i).Got? && n < ParseMembers(t, i).next && q == ParseMembers(s, i)
    ensures Within(t, i, n) && q == Ending(MembersTo(t, i, n), Closed(t, i, n) + 1)
    ensures MembersTo(t, i, n).None? ==> LexAt(t, n).inString
    decreases n - i, 2
  {
    hide LexAt, ParseMembers, MembersTo, ParseMember, MemberTo, ParseSeparator, AtBoundary, Completed, Agree;
    CutAgrees(t, n, s);
    FirstMember(t, i);
    var v := ParseMember(t, i);
    var separator := ParseSeparator(t, v.next, RBRACE);
    if n < v.next {
      MemberCut(t, n, s, i, ParseMember(s, i));
      MembersCutWithin(t, n, s, i);
    } else if separator.value || n <= separator.next {
      MembersCutBehind(t, n, s, i);
    } else {
      MembersRead(t, i, v, separator);
      MemberBalance(t, i);
      MemberLocal(t, s, n, i);
      MemberWhole(t, i, n);
      SeparatorLocal(t, s, n, v.next, RBRACE);
      SeparatorBalance(t, v.next, RBRACE);
      MembersCut(t, n, s, separator.next, ParseMembers(s, separator.next));
      MembersRead(s, i, v, separator);
      MembersStand(t, i, n);
    }
  }

  /** Where something starts a cut, nothing of the text is before it. */
  lemma CutInside(t: Text, n: nat)
    requires n <= |t| && AtBoundary(t, n) && Parse(t).Some?
    ensures SkipSpace(t, 0) < n <= ParseValue(t, SkipSpace(t, 0)).next
  {
    var start := SkipSpace(t, 0);
    var end := ParseValue(t, start).next;
    PlainBalance(t, 0, start);
    ValueBalance(t, start);
    if n <= start {
      PlainBalance(t, 0, n);
      if n < |t| && t[n] == COMMA {
        NothingAtComma(t, n);
      }
      assert false;
    }
    if end < n {
      PlainBalance(t, end, n);
      assert false;
    }
  }

  /** A JSON text cut at any place but inside a word, and closed there, reads as just what stands of it. */
  lemma {:induction false} CompletionReads(t: Text, n: nat)
    requires n <= |t| && AtBoundary(t, n) && Parse(t).Some?
    ensures Parse(Completed(t, n)) == TextTo(t, n)
    ensures TextTo(t, n).None? ==> LexAt(t, n).inString
  {
    var s, start := Completed(t, n), SkipSpace(t, 0);
    CutInside(t, n);
    CutAgrees(t, n, s);
    PlainBalance(t, 0, start);
    SpaceLocal(t, s, n, 0);
    if n < ParseValue(t, start).next {
      ValueCut(t, n, s, start, ParseValue(s, start));
      assert ValueTo(t, start, n).Some? ==> Closed(t, start, n) == |s|;
    } else {
      ValueLocal(t, s, n, start);
      ValueBalance(t, start);
    }
  }
}
