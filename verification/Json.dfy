/** JSON texts as RFC 8259 (sections 2 to 7) describes them, and the reader `JSON.parse` is. */
module Json {
  import opened Basics
  import opened CodeUnits

  /** A number is kept as written; an object keeps its members in written order. */
  datatype Value =
    | Null
    | Bool(truth: bool)
    | Num(lexeme: Text)
    | Str(units: Text)
    | Arr(items: seq<Value>)
    | Obj(members: seq<Member>)

  datatype Member = Member(name: Text, value: Value)

  /** What was read and where reading goes on. */
  datatype Parsed<+T> = Got(value: T, next: nat) | Bad

  predicate IsSpace(u: CodeUnit) {
    u == SPACE || u == TAB || u == NEWLINE || u == RETURN
  }

  predicate IsOpener(u: CodeUnit) {
    u == LBRACE || u == LBRACKET
  }

  predicate IsCloser(u: CodeUnit) {
    u == RBRACE || u == RBRACKET
  }

  function SkipSpace(s: Text, i: nat): (j: nat)
    requires i <= |s|
    ensures i <= j <= |s|
    ensures forall k :: i <= k < j ==> IsSpace(s[k])
    ensures j < |s| ==> !IsSpace(s[j])
    decreases |s| - i
  {
    if i < |s| && IsSpace(s[i]) then SkipSpace(s, i + 1) else i
  }

  // Numbers and the three literal names: maximal runs of these units.

  predicate IsWordUnit(u: CodeUnit) {
    IsDigit(u) || u == PLUS || u == MINUS || u == DOT || u == UPPER_E || LOWER_A <= u <= LOWER_Z
  }

  function WordEnd(s: Text, i: nat): (j: nat)
    requires i <= |s|
    ensures i <= j <= |s|
    ensures forall k :: i <= k < j ==> IsWordUnit(s[k])
    ensures j < |s| ==> !IsWordUnit(s[j])
    decreases |s| - i
  {
    if i < |s| && IsWordUnit(s[i]) then WordEnd(s, i + 1) else i
  }

  function DigitsEnd(w: Text, i: nat): (j: nat)
    requires i <= |w|
    ensures i <= j <= |w|
    decreases |w| - i
  {
    if i < |w| && IsDigit(w[i]) then DigitsEnd(w, i + 1) else i
  }

  predicate IsExponent(w: Text, i: nat)
    requires i <= |w|
  {
    i == |w| ||
    ((w[i] == UPPER_E || w[i] == 101) &&
     var from := if i + 1 < |w| && (w[i + 1] == PLUS || w[i + 1] == MINUS) then i + 2 else i + 1;
     from < DigitsEnd(w, from) == |w|)
  }

  predicate IsFraction(w: Text, i: nat)
    requires i <= |w|
  {
    if i < |w| && w[i] == DOT then
      i + 1 < DigitsEnd(w, i + 1) && IsExponent(w, DigitsEnd(w, i + 1))
    else IsExponent(w, i)
  }

  /** The number grammar of RFC 8259, section 6. */
  predicate IsNumber(w: Text) {
    var from := if w != [] && w[0] == MINUS then 1 else 0;
    var end := DigitsEnd(w, from);
    from < end && (w[from] == ZERO ==> end == from + 1) && IsFraction(w, end)
  }

  const NULL: Text := [110, 117, 108, 108]
  const TRUE: Text := [116, 114, 117, 101]
  const FALSE: Text := [102, 97, 108, 115, 101]

  function Word(w: Text): Option<Value> {
    if w == NULL then Some(Null)
    else if w == TRUE then Some(Bool(true))
    else if w == FALSE then Some(Bool(false))
    else if IsNumber(w) then Some(Num(w))
    else None
  }

  // Strings, section 7.

  predicate IsHex(u: CodeUnit) {
    IsDigit(u) || 97 <= u <= 102 || 65 <= u <= 70
  }

  function HexValue(u: CodeUnit): (v: CodeUnit)
    requires IsHex(u)
    ensures v < 16
  {
    if IsDigit(u) then u - ZERO else if 97 <= u then u - 87 else u - 55
  }

  /** What one escape stands for; it starts with the backslash at `i`. */
  function Escape(s: Text, i: nat): (r: Parsed<CodeUnit>)
    requires i < |s|
    ensures r.Got? ==> i + 2 <= r.next <= |s|
  {
    if i + 1 >= |s| then Bad
    else
      var u := s[i + 1];
      if u == QUOTE || u == BACKSLASH || u == SLASH then Got(u, i + 2)
      else if u == 98 then Got(8, i + 2)
      else if u == 102 then Got(12, i + 2)
      else if u == 110 then Got(10, i + 2)
      else if u == 114 then Got(13, i + 2)
      else if u == 116 then Got(9, i + 2)
      else if u == 117 && i + 6 <= |s| && IsHex(s[i + 2]) && IsHex(s[i + 3]) && IsHex(s[i + 4]) && IsHex(s[i + 5]) then
        Got(((HexValue(s[i + 2]) * 16 + HexValue(s[i + 3])) * 16 + HexValue(s[i + 4])) * 16 + HexValue(s[i + 5]), i + 6)
      else Bad
  }

  /** The rest of a string, up to and over its closing quote. */
  function ParseChars(s: Text, i: nat): (r: Parsed<Text>)
    requires i <= |s|
    ensures r.Got? ==> i < r.next <= |s| && s[r.next - 1] == QUOTE
    decreases |s| - i
  {
    if i == |s| || s[i] < SPACE then Bad
    else if s[i] == QUOTE then Got([], i + 1)
    else if s[i] == BACKSLASH then
      match Escape(s, i)
      case Bad => Bad
      case Got(unit, next) =>
        match ParseChars(s, next)
        case Bad => Bad
        case Got(rest, end) => Got([unit] + rest, end)
    else
      match ParseChars(s, i + 1)
      case Bad => Bad
      case Got(rest, end) => Got([s[i]] + rest, end)
  }

  /** What follows an opening bracket or brace: its closer (true) or the first entry (false). */
  function ParseOpening(s: Text, i: nat, closer: CodeUnit): (r: Parsed<bool>)
    requires i <= |s|
    ensures r.Got? ==> i <= r.next <= |s| && (r.value ==> i < r.next && s[r.next - 1] == closer)
  {
    var first := SkipSpace(s, i);
    if first == |s| then Bad
    else if s[first] == closer then Got(true, first + 1)
    else Got(false, first)
  }

  /** What follows an entry: the closer (true) or a comma and the next entry (false). */
  function ParseSeparator(s: Text, i: nat, closer: CodeUnit): (r: Parsed<bool>)
    requires i <= |s|
    ensures r.Got? ==> i < r.next <= |s| && (r.value ==> s[r.next - 1] == closer)
  {
    var after := SkipSpace(s, i);
    if after == |s| then Bad
    else if s[after] == closer then Got(true, after + 1)
    else if s[after] == COMMA then Got(false, SkipSpace(s, after + 1))
    else Bad
  }

  /** Where a member's value starts, `i` being right after its name. */
  function ValueStart(s: Text, i: nat): (r: Option<nat>)
    requires i <= |s|
    ensures r.Some? ==> i < r.value <= |s|
  {
    var colon := SkipSpace(s, i);
    if colon < |s| && s[colon] == COLON then Some(SkipSpace(s, colon + 1)) else None
  }

  /** A member's name and the place its value starts. */
  function ParseName(s: Text, i: nat): (r: Parsed<Text>)
    requires i <= |s|
    ensures r.Got? ==> i < r.next <= |s|
  {
    if i == |s| || s[i] != QUOTE then Bad
    else
      match ParseChars(s, i + 1)
      case Bad => Bad
      case Got(name, end) =>
        match ValueStart(s, end)
        case None => Bad
        case Some(start) => Got(name, start)
  }

  /** One value, which starts right at `i`. */
  function ParseValue(s: Text, i: nat): (r: Parsed<Value>)
    requires i <= |s|
    ensures r.Got? ==> i < r.next <= |s|
    decreases |s| - i, 0
  {
    if i == |s| then Bad
    else if s[i] == QUOTE then
      match ParseChars(s, i + 1)
      case Bad => Bad
      case Got(units, end) => Got(Str(units), end)
    else if s[i] == LBRACKET then
      match ParseArray(s, i + 1)
      case Bad => Bad
      case Got(items, end) => Got(Arr(items), end)
    else if s[i] == LBRACE then
      match ParseObject(s, i + 1)
      case Bad => Bad
      case Got(members, end) => Got(Obj(members), end)
    else
      var end := WordEnd(s, i);
      match Word(s[i..end])
      case None => Bad
      case Some(v) => Got(v, end)
  }

  /** The rest of an array after its opening bracket. */
  function ParseArray(s: Text, i: nat): (r: Parsed<seq<Value>>)
    requires i <= |s|
    ensures r.Got? ==> i < r.next <= |s|
    decreases |s| - i, 3
  {
    match ParseOpening(s, i, RBRACKET)
    case Bad => Bad
    case Got(closed, first) => if closed then Got([], first) else ParseItems(s, first)
  }

  /** The items of an array from the one at `i` on, up to and over the closing bracket. */
  function ParseItems(s: Text, i: nat): (r: Parsed<seq<Value>>)
    requires i <= |s|
    ensures r.Got? ==> i < r.next <= |s| && |r.value| > 0
    decreases |s| - i, 1
  {
    match ParseValue(s, i)
    case Bad => Bad
    case Got(v, end) =>
      match ParseSeparator(s, end, RBRACKET)
      case Bad => Bad
      case Got(closed, next) =>
        if closed then Got([v], next)
        else
          match ParseItems(s, next)
          case Bad => Bad
          case Got(rest, last) => Got([v] + rest, last)
  }

  /** The rest of an object after its opening brace. */
  function ParseObject(s: Text, i: nat): (r: Parsed<seq<Member>>)
    requires i <= |s|
    ensures r.Got? ==> i < r.next <= |s|
    decreases |s| - i, 3
  {
    match ParseOpening(s, i, RBRACE)
    case Bad => Bad
    case Got(closed, first) => if closed then Got([], first) else ParseMembers(s, first)
  }

  function ParseMember(s: Text, i: nat): (r: Parsed<Member>)
    requires i <= |s|
    ensures r.Got? ==> i < r.next <= |s|
    decreases |s| - i, 1
  {
    match ParseName(s, i)
    case Bad => Bad
    case Got(name, start) =>
      match ParseValue(s, start)
      case Bad => Bad
      case Got(v, end) => Got(Member(name, v), end)
  }

  /** The members of an object from the one at `i` on, up to and over the closing brace. */
  function ParseMembers(s: Text, i: nat): (r: Parsed<seq<Member>>)
    requires i <= |s|
    ensures r.Got? ==> i < r.next <= |s| && |r.value| > 0
    decreases |s| - i, 2
  {
    match ParseMember(s, i)
    case Bad => Bad
    case Got(m, end) =>
      match ParseSeparator(s, end, RBRACE)
      case Bad => Bad
      case Got(closed, next) =>
        if closed then Got([m], next)
        else
          match ParseMembers(s, next)
          case Bad => Bad
          case Got(rest, last) => Got([m] + rest, last)
  }

  /** `JSON.parse`, with `None` for the exception it throws. */
  function Parse(s: Text): Option<Value> {
    match ParseValue(s, SkipSpace(s, 0))
    case Bad => None
    case Got(v, end) => if SkipSpace(s, end) == |s| then Some(v) else None
  }

  /** The value of the last member of that name, which is the one `JSON.parse` keeps. */
  function Lookup(members: seq<Member>, name: Text): Option<Value> {
    if members == [] then None
    else if members[|members| - 1].name == name then Some(members[|members| - 1].value)
    else Lookup(members[..|members| - 1], name)
  }

  // The order the half-written reader is judged by.

  /** `cut` is `whole` with its end left off: a string cut to a prefix, an array or
      object cut to its leading items with only the last of them cut in turn. */
  predicate Truncates(cut: Value, whole: Value)
    decreases whole
  {
    || cut == whole
    || (cut.Str? && whole.Str? && cut.units <= whole.units)
    || (cut.Arr? && whole.Arr? && TruncatesItems(cut.items, whole.items))
    || (cut.Obj? && whole.Obj? && TruncatesMembers(cut.members, whole.members))
  }

  predicate TruncatesItems(cut: seq<Value>, whole: seq<Value>)
    decreases whole, 0
  {
    || cut == []
    || (var last := |cut| - 1;
        |cut| <= |whole| && cut[..last] == whole[..last] && Truncates(cut[last], whole[last]))
  }

  predicate TruncatesMembers(cut: seq<Member>, whole: seq<Member>)
    decreases whole, 0
  {
    || cut == []
    || (var last := |cut| - 1;
        |cut| <= |whole| && cut[..last] == whole[..last] &&
        cut[last].name == whole[last].name && Truncates(cut[last].value, whole[last].value))
  }
}
