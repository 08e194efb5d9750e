/** `JSON.stringify`, and the proof that `JSON.parse` undoes it. */
module JsonPrinter {
  import opened Basics
  import opened CodeUnits
  import opened Json

  /** Values `JSON.stringify` can be given: every number is one RFC 8259, section 6, allows. */
  predicate Printable(v: Value)
    decreases v
  {
    match v
    case Num(lexeme) => IsNumber(lexeme)
    case Arr(items) => forall k :: 0 <= k < |items| ==> Printable(items[k])
    case Obj(members) => forall k :: 0 <= k < |members| ==> Printable(members[k].value)
    case _ => true
  }

  function HexDigit(d: CodeUnit): (u: CodeUnit)
    requires d < 16
    ensures IsHex(u) && HexValue(u) == d && u > SPACE
  {
    if d < 10 then ZERO + d else d + 87
  }

  function PrintHex(u: CodeUnit): Text {
    [BACKSLASH, 117, HexDigit(u / 4096), HexDigit(u / 256 % 16), HexDigit(u / 16 % 16), HexDigit(u % 16)]
  }

  function PrintUnit(u: CodeUnit): Text {
    if u == QUOTE || u == BACKSLASH then [BACKSLASH, u]
    else if u == 8 then [BACKSLASH, 98]
    else if u == 9 then [BACKSLASH, 116]
    else if u == 10 then [BACKSLASH, 110]
    else if u == 12 then [BACKSLASH, 102]
    else if u == 13 then [BACKSLASH, 114]
    else if u < SPACE || IsHigh(u) || IsLow(u) then PrintHex(u)
    else [u]
  }

  /** A string from its first unit to its closing quote. A surrogate that stands alone is
      escaped, a pair is kept. */
  function PrintChars(units: Text): (p: Text)
    ensures p != []
  {
    if units == [] then [QUOTE]
    else if |units| > 1 && IsHigh(units[0]) && IsLow(units[1]) then [units[0]] + ([units[1]] + PrintChars(units[2..]))
    else PrintUnit(units[0]) + PrintChars(units[1..])
  }

  function PrintString(units: Text): Text {
    [QUOTE] + PrintChars(units)
  }

  function Print(v: Value): Text
    decreases v, 0
  {
    match v
    case Null => NULL
    case Bool(truth) => if truth then TRUE else FALSE
    case Num(lexeme) => lexeme
    case Str(units) => PrintString(units)
    case Arr(items) => [LBRACKET] + (if items == [] then [RBRACKET] else PrintItems(items))
    case Obj(members) => [LBRACE] + (if members == [] then [RBRACE] else PrintMembers(members))
  }

  function PrintItems(items: seq<Value>): Text
    requires items != []
    decreases items, 1
  {
    Print(items[0]) + (if |items| == 1 then [RBRACKET] else [COMMA] + PrintItems(items[1..]))
  }

  function PrintMembers(members: seq<Member>): Text
    requires members != []
    decreases members, 1
  {
    PrintString(members[0].name) + ([COLON] + (Print(members[0].value) +
    (if |members| == 1 then [RBRACE] else [COMMA] + PrintMembers(members[1..]))))
  }

  /** `p` stands in `s` at `i`. */
  lemma AtUnit(s: Text, i: nat, u: CodeUnit)
    requires At(s, i, [u])
    ensures i < |s| && s[i] == u
  {
    assert s[i..i + 1][0] == s[i];
  }

  lemma HexSum(u: CodeUnit)
    ensures (((u / 4096) * 16 + u / 256 % 16) * 16 + u / 16 % 16) * 16 + u % 16 == u
  {
  }

  lemma HexReads(s: Text, i: nat, u: CodeUnit)
    requires At(s, i, PrintHex(u))
    ensures Escape(s, i) == Got(u, i + 6)
  {
    var p := PrintHex(u);
    forall k | 0 <= k < 6 ensures s[i + k] == p[k] {
      assert s[i..i + 6][k] == s[i + k];
    }
    assert s[i + 1] == 117 && IsHex(s[i + 2]) && IsHex(s[i + 3]) && IsHex(s[i + 4]) && IsHex(s[i + 5]);
    HexSum(u);
  }

  /** A unit that is neither escaped nor a quote is read as itself. */
  lemma CharReads(s: Text, i: nat, u: CodeUnit, rest: Text, tail: Text)
    requires At(s, i, [u] + tail) && u >= SPACE && u != QUOTE && u != BACKSLASH
    requires ParseChars(s, i + 1).Got? && ParseChars(s, i + 1).value == rest
    ensures ParseChars(s, i) == Got([u] + rest, ParseChars(s, i + 1).next)
  {
    AtSplit(s, i, [u], tail);
    AtUnit(s, i, u);
  }

  /** One printed unit is one step of reading. */
  lemma UnitReads(s: Text, i: nat, u: CodeUnit)
    requires At(s, i, PrintUnit(u))
    ensures s[i] >= SPACE && s[i] != QUOTE
    ensures if s[i] == BACKSLASH then Escape(s, i) == Got(u, i + |PrintUnit(u)|) else s[i] == u && |PrintUnit(u)| == 1
  {
    var p := PrintUnit(u);
    assert forall k :: 0 <= k < |p| ==> s[i..i + |p|][k] == p[k] == s[i + k];
    if p == PrintHex(u) {
      HexReads(s, i, u);
    } else if |p| == 2 {
      assert s[i] == BACKSLASH && s[i + 1] == p[1];
    }
  }

  lemma UnitThenRest(s: Text, i: nat, u: CodeUnit, rest: Text)
    requires At(s, i, PrintUnit(u)) && ParseChars(s, i + |PrintUnit(u)|).Got?
    requires ParseChars(s, i + |PrintUnit(u)|).value == rest
    ensures ParseChars(s, i) == Got([u] + rest, ParseChars(s, i + |PrintUnit(u)|).next)
  {
    hide Escape, PrintUnit, At;
    UnitReads(s, i, u);
  }

  /** A surrogate pair stands as it is. */
  lemma PairThenRest(s: Text, i: nat, high: CodeUnit, low: CodeUnit, rest: Text, tail: Text)
    requires IsHigh(high) && IsLow(low) && At(s, i, [high] + ([low] + tail))
    requires ParseChars(s, i + 2).Got? && ParseChars(s, i + 2).value == rest
    ensures ParseChars(s, i) == Got([high] + ([low] + rest), ParseChars(s, i + 2).next)
  {
    hide ParseChars, At;
    AtSplit(s, i, [high], [low] + tail);
    CharReads(s, i + 1, low, rest, tail);
    CharReads(s, i, high, [low] + rest, [low] + tail);
  }

  lemma QuoteReads(s: Text, i: nat)
    requires At(s, i, [QUOTE])
    ensures ParseChars(s, i) == Got([], i + 1)
  {
    AtUnit(s, i, QUOTE);
  }

  lemma {:induction false} CharsRead(s: Text, i: nat, units: Text, p: Text)
    requires p == PrintChars(units) && At(s, i, p)
    ensures ParseChars(s, i) == Got(units, i + |p|)
    decreases |units|
  {
    hide PrintUnit, At, ParseChars;
    if units == [] {
      QuoteReads(s, i);
    } else if |units| > 1 && IsHigh(units[0]) && IsLow(units[1]) {
      var tail := PrintChars(units[2..]);
      AtSplit(s, i, [units[0]], [units[1]] + tail);
      AtSplit(s, i + 1, [units[1]], tail);
      CharsRead(s, i + 2, units[2..], tail);
      PairThenRest(s, i, units[0], units[1], units[2..], tail);
      assert units == [units[0]] + ([units[1]] + units[2..]);
    } else {
      var first, tail := PrintUnit(units[0]), PrintChars(units[1..]);
      AtSplit(s, i, first, tail);
      CharsRead(s, i + |first|, units[1..], tail);
      UnitThenRest(s, i, units[0], units[1..]);
      assert units == [units[0]] + units[1..];
    }
  }

  // A number is one word, and none of the literal names.

  lemma {:induction false} DigitsAreDigits(w: Text, i: nat)
    requires i <= |w|
    ensures forall k :: i <= k < DigitsEnd(w, i) ==> IsDigit(w[k])
    decreases |w| - i
  {
    if i < |w| && IsDigit(w[i]) {
      DigitsAreDigits(w, i + 1);
    }
  }

  lemma ExponentIsWord(w: Text, i: nat)
    requires i <= |w| && IsExponent(w, i)
    ensures forall k :: i <= k < |w| ==> IsWordUnit(w[k])
  {
    if i < |w| {
      DigitsAreDigits(w, if i + 1 < |w| && (w[i + 1] == PLUS || w[i + 1] == MINUS) then i + 2 else i + 1);
    }
  }

  lemma NumberIsWord(w: Text)
    requires IsNumber(w)
    ensures w != [] && Word(w) == Some(Num(w)) && forall k :: 0 <= k < |w| ==> IsWordUnit(w[k])
  {
    var from := if w[0] == MINUS then 1 else 0;
    var end := DigitsEnd(w, from);
    DigitsAreDigits(w, from);
    assert IsDigit(w[from]);
    if end < |w| && w[end] == DOT {
      DigitsAreDigits(w, end + 1);
      ExponentIsWord(w, DigitsEnd(w, end + 1));
    } else {
      ExponentIsWord(w, end);
    }
  }

  lemma {:induction false} WordReads(s: Text, i: nat, end: nat)
    requires i <= end <= |s| && (end == |s| || !IsWordUnit(s[end]))
    requires forall k :: i <= k < end ==> IsWordUnit(s[k])
    ensures WordEnd(s, i) == end
    decreases end - i
  {
    if i < end {
      WordReads(s, i + 1, end);
    }
  }

  /** A printed value starts with neither space nor closer. */
  lemma FirstUnit(v: Value)
    requires Printable(v)
    ensures Print(v) != [] && !IsSpace(Print(v)[0]) && Print(v)[0] != RBRACKET && Print(v)[0] != RBRACE
  {
    if v.Num? {
      NumberIsWord(v.lexeme);
    }
  }

  // Reading what was printed.

  lemma {:induction false} PrintedReads(s: Text, i: nat, v: Value, p: Text)
    requires Printable(v) && p == Print(v) && At(s, i, p)
    requires i + |p| == |s| || !IsWordUnit(s[i + |p|])
    ensures ParseValue(s, i) == Got(v, i + |p|)
    decreases v, 0
  {
    match v
    case Str(units) =>
      AtSplit(s, i, [QUOTE], PrintChars(units));
      AtUnit(s, i, QUOTE);
      CharsRead(s, i + 1, units, PrintChars(units));
    case Arr(items) =>
      ArrayReads(s, i, items, p);
    case Obj(members) =>
      ObjectReads(s, i, members, p);
    case _ =>
      WordIsRead(s, i, v, p);
  }

  lemma WordIsRead(s: Text, i: nat, v: Value, p: Text)
    requires Printable(v) && p == Print(v) && At(s, i, p) && (v.Null? || v.Bool? || v.Num?)
    requires i + |p| == |s| || !IsWordUnit(s[i + |p|])
    ensures ParseValue(s, i) == Got(v, i + |p|)
  {
    if v.Num? {
      NumberIsWord(v.lexeme);
    }
    assert p != [] && Word(p) == Some(v) && forall k :: 0 <= k < |p| ==> IsWordUnit(p[k]);
    forall k | i <= k < i + |p| ensures s[k] == p[k - i] {
      assert s[i..i + |p|][k - i] == s[k];
    }
    WordReads(s, i, i + |p|);
  }

  lemma ArrayOpens(s: Text, i: nat, items: seq<Value>, end: nat)
    requires i + 1 < |s| && s[i] == LBRACKET && !IsSpace(s[i + 1]) && s[i + 1] != RBRACKET
    requires ParseItems(s, i + 1) == Got(items, end)
    ensures ParseValue(s, i) == Got(Arr(items), end)
  {
    hide ParseItems;
    assert ParseArray(s, i + 1) == Got(items, end);
  }

  lemma EmptyArrayReads(s: Text, i: nat)
    requires At(s, i, [LBRACKET] + [RBRACKET])
    ensures ParseValue(s, i) == Got(Arr([]), i + 2)
  {
    AtSplit(s, i, [LBRACKET], [RBRACKET]);
    AtUnit(s, i, LBRACKET);
    AtUnit(s, i + 1, RBRACKET);
    assert ParseArray(s, i + 1) == Got([], i + 2);
  }

  lemma {:induction false} ArrayReads(s: Text, i: nat, items: seq<Value>, p: Text)
    requires Printable(Arr(items)) && p == Print(Arr(items)) && At(s, i, p)
    ensures ParseValue(s, i) == Got(Arr(items), i + |p|)
    decreases items, 2
  {
    hide ParseValue, At;
    if items == [] {
      EmptyArrayReads(s, i);
    } else {
      var rest := PrintItems(items);
      AtSplit(s, i, [LBRACKET], rest);
      AtUnit(s, i, LBRACKET);
      ItemsStart(items);
      AtFirst(s, i + 1, rest);
      ItemsRead(s, i + 1, items, rest);
      ArrayOpens(s, i, items, i + 1 + |rest|);
    }
  }

  lemma AtFirst(s: Text, i: nat, p: Text)
    requires At(s, i, p) && p != []
    ensures i < |s| && s[i] == p[0]
  {
    assert s[i..i + |p|][0] == s[i];
  }

  lemma SeparatorReads(s: Text, i: nat, closer: CodeUnit)
    requires i < |s| && IsCloser(closer)
    ensures s[i] == closer ==> ParseSeparator(s, i, closer) == Got(true, i + 1)
    ensures s[i] == COMMA && i + 1 < |s| && !IsSpace(s[i + 1]) ==> ParseSeparator(s, i, closer) == Got(false, i + 1)
  {
  }

  lemma ItemsGoOn(s: Text, i: nat, v: Value, end: nat, rest: seq<Value>, last: nat)
    requires i <= |s| && ParseValue(s, i) == Got(v, end)
    requires ParseSeparator(s, end, RBRACKET) == Got(false, end + 1) && ParseItems(s, end + 1) == Got(rest, last)
    ensures ParseItems(s, i) == Got([v] + rest, last)
  {
    hide ParseValue, ParseSeparator;
  }

  lemma ItemsStop(s: Text, i: nat, v: Value, end: nat)
    requires i <= |s| && ParseValue(s, i) == Got(v, end) && ParseSeparator(s, end, RBRACKET) == Got(true, end + 1)
    ensures ParseItems(s, i) == Got([v], end + 1)
  {
    hide ParseValue, ParseSeparator;
  }

  lemma ItemsText(items: seq<Value>)
    requires items != []
    ensures PrintItems(items) ==
      Print(items[0]) + (if |items| == 1 then [RBRACKET] else [COMMA] + PrintItems(items[1..]))
  {
  }

  lemma MembersText(members: seq<Member>)
    requires members != []
    ensures PrintMembers(members) == PrintString(members[0].name) + ([COLON] + (Print(members[0].value) +
      (if |members| == 1 then [RBRACE] else [COMMA] + PrintMembers(members[1..]))))
  {
  }

  /** What stands behind an item of a printed array. */
  lemma ItemThen(s: Text, i: nat, first: Text, rest: Text)
    requires rest != [] && !IsSpace(rest[0]) && At(s, i, first + ([COMMA] + rest))
    ensures At(s, i, first) && At(s, i + |first| + 1, rest) && i + |first| < |s| && s[i + |first|] == COMMA
    ensures ParseSeparator(s, i + |first|, RBRACKET) == Got(false, i + |first| + 1)
  {
    hide At, ParseSeparator;
    var end := i + |first|;
    AtSplit(s, i, first, [COMMA] + rest);
    AtSplit(s, end, [COMMA], rest);
    AtUnit(s, end, COMMA);
    AtFirst(s, end + 1, rest);
    SeparatorReads(s, end, RBRACKET);
  }

  lemma ItemLast(s: Text, i: nat, first: Text)
    requires At(s, i, first + [RBRACKET])
    ensures At(s, i, first) && i + |first| < |s| && s[i + |first|] == RBRACKET
    ensures ParseSeparator(s, i + |first|, RBRACKET) == Got(true, i + |first| + 1)
  {
    hide At, ParseSeparator;
    AtSplit(s, i, first, [RBRACKET]);
    AtUnit(s, i + |first|, RBRACKET);
    SeparatorReads(s, i + |first|, RBRACKET);
  }

  lemma {:induction false} ItemsRead(s: Text, i: nat, items: seq<Value>, p: Text)
    requires items != [] && Printable(Arr(items)) && p == PrintItems(items) && At(s, i, p)
    ensures ParseItems(s, i) == Got(items, i + |p|)
    decreases items, 1
  {
    hide ParseValue, ParseSeparator, ParseItems, Print, PrintItems, At;
    var first := Print(items[0]);
    var end := i + |first|;
    ItemsText(items);
    if |items| == 1 {
      ItemLast(s, i, first);
      PrintedReads(s, i, items[0], first);
      ItemsStop(s, i, items[0], end);
      assert items == [items[0]];
    } else {
      var rest := PrintItems(items[1..]);
      ItemsStart(items[1..]);
      ItemThen(s, i, first, rest);
      PrintedReads(s, i, items[0], first);
      ItemsRead(s, end + 1, items[1..], rest);
      ItemsGoOn(s, i, items[0], end, items[1..], end + 1 + |rest|);
      assert items == [items[0]] + items[1..];
    }
  }

  lemma ItemsStart(items: seq<Value>)
    requires items != [] && Printable(items[0])
    ensures var p := PrintItems(items); p != [] && !IsSpace(p[0]) && p[0] != RBRACKET
  {
    FirstUnit(items[0]);
  }

  lemma MembersStart(members: seq<Member>)
    requires members != []
    ensures PrintMembers(members) != [] && PrintMembers(members)[0] == QUOTE
  {
  }

  lemma ObjectOpens(s: Text, i: nat, members: seq<Member>, end: nat)
    requires i + 1 < |s| && s[i] == LBRACE && s[i + 1] == QUOTE && ParseMembers(s, i + 1) == Got(members, end)
    ensures ParseValue(s, i) == Got(Obj(members), end)
  {
    hide ParseMembers;
    assert ParseObject(s, i + 1) == Got(members, end);
  }

  lemma {:induction false} ObjectReads(s: Text, i: nat, members: seq<Member>, p: Text)
    requires Printable(Obj(members)) && p == Print(Obj(members)) && At(s, i, p)
    ensures ParseValue(s, i) == Got(Obj(members), i + |p|)
    decreases members, 3
  {
    hide ParseValue, At;
    if members == [] {
      EmptyObjectReads(s, i);
    } else {
      var rest := PrintMembers(members);
      AtSplit(s, i, [LBRACE], rest);
      AtUnit(s, i, LBRACE);
      MembersStart(members);
      AtFirst(s, i + 1, rest);
      MembersRead(s, i + 1, members, rest);
      ObjectOpens(s, i, members, i + 1 + |rest|);
    }
  }

  lemma EmptyObjectReads(s: Text, i: nat)
    requires At(s, i, [LBRACE] + [RBRACE])
    ensures ParseValue(s, i) == Got(Obj([]), i + 2)
  {
    AtSplit(s, i, [LBRACE], [RBRACE]);
    AtUnit(s, i, LBRACE);
    AtUnit(s, i + 1, RBRACE);
    assert ParseObject(s, i + 1) == Got([], i + 2);
  }

  lemma NameReads(s: Text, i: nat, name: Text, rest: Text)
    requires At(s, i, PrintString(name) + ([COLON] + rest)) && rest != [] && !IsSpace(rest[0])
    ensures ParseName(s, i) == Got(name, i + |PrintString(name)| + 1)
    ensures At(s, i + |PrintString(name)| + 1, rest)
  {
    hide At, ParseChars, PrintChars, PrintUnit;
    var p := PrintString(name);
    AtSplit(s, i, p, [COLON] + rest);
    AtSplit(s, i + |p|, [COLON], rest);
    AtUnit(s, i + |p|, COLON);
    AtFirst(s, i + |p| + 1, rest);
    AtSplit(s, i, [QUOTE], PrintChars(name));
    AtUnit(s, i, QUOTE);
    CharsRead(s, i + 1, name, PrintChars(name));
  }

  lemma MembersGoOn(s: Text, i: nat, m: Member, end: nat, rest: seq<Member>, last: nat)
    requires i <= |s| && ParseMember(s, i) == Got(m, end)
    requires ParseSeparator(s, end, RBRACE) == Got(false, end + 1) && ParseMembers(s, end + 1) == Got(rest, last)
    ensures ParseMembers(s, i) == Got([m] + rest, last)
  {
    hide ParseMember, ParseSeparator;
  }

  lemma MembersStop(s: Text, i: nat, m: Member, end: nat)
    requires i <= |s| && ParseMember(s, i) == Got(m, end) && ParseSeparator(s, end, RBRACE) == Got(true, end + 1)
    ensures ParseMembers(s, i) == Got([m], end + 1)
  {
    hide ParseMember, ParseSeparator;
  }

  lemma {:induction false} MemberReads(s: Text, i: nat, m: Member, tail: Text, end: nat)
    requires Printable(m.value) && At(s, i, PrintString(m.name) + ([COLON] + (Print(m.value) + tail)))
    requires end == i + |PrintString(m.name)| + 1 + |Print(m.value)|
    requires tail != [] && !IsWordUnit(tail[0])
    ensures ParseMember(s, i) == Got(m, end) && At(s, end, tail)
    decreases m, 1
  {
    hide ParseValue, ParseName, Print, PrintString, At;
    FirstUnit(m.value);
    NameReads(s, i, m.name, Print(m.value) + tail);
    var start := i + |PrintString(m.name)| + 1;
    AtSplit(s, start, Print(m.value), tail);
    AtFirst(s, end, tail);
    PrintedReads(s, start, m.value, Print(m.value));
  }

  lemma {:induction false} MembersRead(s: Text, i: nat, members: seq<Member>, p: Text)
    requires members != [] && Printable(Obj(members)) && p == PrintMembers(members) && At(s, i, p)
    ensures ParseMembers(s, i) == Got(members, i + |p|)
    decreases members, 2
  {
    hide ParseMember, ParseSeparator, ParseMembers, Print, PrintString, PrintMembers, At;
    var m := members[0];
    var end := i + |PrintString(m.name)| + 1 + |Print(m.value)|;
    MembersText(members);
    if |members| == 1 {
      MemberReads(s, i, m, [RBRACE], end);
      AtUnit(s, end, RBRACE);
      SeparatorReads(s, end, RBRACE);
      MembersStop(s, i, m, end);
      assert members == [m];
    } else {
      var rest := PrintMembers(members[1..]);
      MemberReads(s, i, m, [COMMA] + rest, end);
      AtSplit(s, end, [COMMA], rest);
      AtUnit(s, end, COMMA);
      MembersStart(members[1..]);
      AtFirst(s, end + 1, rest);
      SeparatorReads(s, end, RBRACE);
      MembersRead(s, end + 1, members[1..], rest);
      MembersGoOn(s, i, m, end, members[1..], end + 1 + |rest|);
      assert members == [m] + members[1..];
    }
  }

  /** `JSON.parse(JSON.stringify(v))` is `v`. */
  lemma PrintParse(v: Value)
    requires Printable(v)
    ensures Parse(Print(v)) == Some(v)
  {
    var s := Print(v);
    assert s[0..0 + |s|] == s;
    FirstUnit(v);
    PrintedReads(s, 0, v, s);
  }

  // Printed texts hold no control unit, so no line break (RFC 8259, section 7).

  predicate Plain(p: Text) {
    forall k :: 0 <= k < |p| ==> p[k] >= SPACE
  }

  lemma {:induction false} CharsPlain(units: Text)
    ensures Plain(PrintChars(units))
    decreases |units|
  {
    if units != [] {
      if |units| > 1 && IsHigh(units[0]) && IsLow(units[1]) {
        CharsPlain(units[2..]);
      } else {
        CharsPlain(units[1..]);
      }
    }
  }

  lemma {:induction false} PrintPlain(v: Value)
    requires Printable(v)
    ensures Plain(Print(v))
    decreases v, 0
  {
    match v
    case Num(lexeme) => NumberIsWord(lexeme);
    case Str(units) => CharsPlain(units);
    case Arr(items) => if items != [] { ItemsPlain(items); }
    case Obj(members) => if members != [] { MembersPlain(members); }
    case _ =>
  }

  lemma {:induction false} ItemsPlain(items: seq<Value>)
    requires items != [] && Printable(Arr(items))
    ensures Plain(PrintItems(items))
    decreases items, 1
  {
    PrintPlain(items[0]);
    if |items| > 1 {
      ItemsPlain(items[1..]);
    }
  }

  lemma {:induction false} MembersPlain(members: seq<Member>)
    requires members != [] && Printable(Obj(members))
    ensures Plain(PrintMembers(members))
    decreases members, 1
  {
    CharsPlain(members[0].name);
    PrintPlain(members[0].value);
    if |members| > 1 {
      MembersPlain(members[1..]);
    }
  }
}
