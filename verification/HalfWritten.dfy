/** The reader of JSON that has only come in part (outputBridge.ts). */
module HalfWritten {
  import opened Basics
  import opened CodeUnits
  import opened Json

  // What the two loops of the reader keep track of.

  datatype Lex = Lex(inString: bool, escaped: bool, closers: Text)

  const START: Lex := Lex(false, false, [])

  function Step(st: Lex, u: CodeUnit): Lex {
    if st.inString then
      if st.escaped then st.(escaped := false)
      else if u == BACKSLASH then st.(escaped := true)
      else if u == QUOTE then st.(inString := false)
      else st
    else if u == QUOTE then st.(inString := true)
    else if u == LBRACE then st.(closers := [RBRACE] + st.closers)
    else if u == LBRACKET then st.(closers := [RBRACKET] + st.closers)
    else if IsCloser(u) && st.closers != [] then st.(closers := st.closers[1..])
    else st
  }

  function LexAt(text: Text, n: nat): (st: Lex)
    requires n <= |text|
    ensures st.escaped ==> st.inString
  {
    if n == 0 then START else Step(LexAt(text, n - 1), text[n - 1])
  }

  function ClosersOf(st: Lex): Text {
    (if st.inString then [QUOTE] else []) + st.closers
  }

  /** The text up to `n` with everything still open closed. */
  function Completed(text: Text, n: nat): Text
    requires n <= |text|
  {
    text[..n] + ClosersOf(LexAt(text, n))
  }

  /** Whether the text, cut right after its unit at `n - 1`, could be closed into something whole. */
  predicate IsWhole(text: Text, n: nat)
    requires 0 < n <= |text|
  {
    var before, after, u := LexAt(text, n - 1), LexAt(text, n), text[n - 1];
    if before.inString then after.inString && !after.escaped && !IsHigh(u)
    else IsOpener(u) || IsCloser(u)
  }

  /** The last such place in the first `n` units, or 0. */
  function LastWhole(text: Text, n: nat): (whole: nat)
    requires n <= |text|
    ensures whole <= n
    ensures whole > 0 ==> IsWhole(text, whole)
    ensures forall k :: whole < k <= n ==> !IsWhole(text, k)
  {
    if n == 0 then 0 else if IsWhole(text, n) then n else LastWhole(text, n - 1)
  }

  /** The first of `cut` and the commas before it, going back, whose completion reads. */
  function BackOff(text: Text, cut: int): Option<Value>
    requires cut <= |text|
    decreases cut
  {
    if cut <= 0 then None
    else
      match Parse(Completed(text, cut))
      case Some(v) => Some(v)
      case None => BackOff(text, LastBefore(text, COMMA, cut))
  }

  function Read(text: Text): Option<Value> {
    BackOff(text, LastWhole(text, |text|))
  }

  lemma {:induction false} LexPrefix(s: Text, t: Text, n: nat)
    requires n <= |s| && n <= |t| && s[..n] == t[..n]
    ensures LexAt(s, n) == LexAt(t, n)
  {
    if n > 0 {
      assert s[..n - 1] == s[..n][..n - 1] == t[..n][..n - 1] == t[..n - 1];
      assert s[n - 1] == s[..n][n - 1] == t[..n][n - 1];
      LexPrefix(s, t, n - 1);
    }
  }

  /** The closers of all that is open at the end of the text. */
  method Closing(text: Text) returns (closing: Text)
    ensures closing == ClosersOf(LexAt(text, |text|))
  {
    var closers: Text, inString, escaped := [], false, false;
    for at := 0 to |text|
      invariant LexAt(text, at) == Lex(inString, escaped, closers)
    {
      var unit := text[at];
      if inString {
        if escaped {
          escaped := false;
        } else if unit == BACKSLASH {
          escaped := true;
        } else if unit == QUOTE {
          inString := false;
        }
      } else if unit == QUOTE {
        inString := true;
      } else if unit == LBRACE {
        closers := [RBRACE] + closers;
      } else if unit == LBRACKET {
        closers := [RBRACKET] + closers;
      } else if unit == RBRACE || unit == RBRACKET {
        closers := if closers == [] then [] else closers[1..];
      }
    }
    return (if inString then [QUOTE] else []) + closers;
  }

  method HalfWritten(text: Text) returns (read: Option<Value>)
    ensures read == Read(text)
  {
    var closers: Text, inString, escaped := [], false, false;
    var whole, wholeClosers: Text := 0, [];
    for at := 0 to |text|
      invariant LexAt(text, at) == Lex(inString, escaped, closers)
      invariant whole == LastWhole(text, at)
      // The saved closers are what `Closing` would compute for the cut at `whole`.
      invariant wholeClosers == ClosersOf(LexAt(text, whole))
    {
      var unit := text[at];
      if inString {
        if escaped {
          escaped := false;
        } else if unit == BACKSLASH {
          escaped := true;
        } else if unit == QUOTE {
          inString := false;
        }
        if inString && !escaped && !IsHigh(unit) {
          whole := at + 1;
          wholeClosers := [QUOTE] + closers;
        }
        continue;
      }
      if unit == QUOTE {
        inString := true;
      } else if unit == LBRACE {
        closers := [RBRACE] + closers;
      } else if unit == LBRACKET {
        closers := [RBRACKET] + closers;
      } else if unit == RBRACE || unit == RBRACKET {
        closers := if closers == [] then [] else closers[1..];
      } else {
        continue;
      }
      if !inString {
        whole := at + 1;
        wholeClosers := closers;
      }
    }
    var cut: int := whole;
    while cut > 0
      invariant cut <= whole
      invariant BackOff(text, cut) == Read(text)
      decreases cut
    {
      var closing := wholeClosers;
      if cut != whole {
        closing := Closing(text[..cut]);
        LexPrefix(text, text[..cut], cut);
      }
      var parsed := Parse(text[..cut] + closing);
      assert parsed == Parse(Completed(text, cut));
      if parsed.Some? {
        return parsed;
      }
      cut := LastBefore(text, COMMA, cut);
    }
    return None;
  }

  // Reading a value leaves the lexical state as it was: everything it opens it closes.

  lemma EscapeBalance(s: Text, i: nat)
    requires i < |s| && s[i] == BACKSLASH && Escape(s, i).Got? && LexAt(s, i).inString && !LexAt(s, i).escaped
    ensures LexAt(s, Escape(s, i).next) == LexAt(s, i)
    ensures forall k :: i <= k <= Escape(s, i).next ==> LexAt(s, k).inString && LexAt(s, k).closers == LexAt(s, i).closers
  {
    hide HexValue;
    assert LexAt(s, i + 1) == LexAt(s, i).(escaped := true);
    assert LexAt(s, i + 2) == LexAt(s, i);
    if Escape(s, i).next == i + 6 {
      assert forall k :: i + 2 <= k < i + 6 ==> IsHex(s[k]);
      assert LexAt(s, i + 3) == LexAt(s, i);
      assert LexAt(s, i + 4) == LexAt(s, i);
      assert LexAt(s, i + 5) == LexAt(s, i);
    }
  }

  lemma {:induction false} CharsBalance(s: Text, i: nat)
    requires i <= |s| && ParseChars(s, i).Got?
    requires LexAt(s, i).inString && !LexAt(s, i).escaped
    ensures LexAt(s, ParseChars(s, i).next) == LexAt(s, i).(inString := false)
    decreases |s| - i
  {
    hide Escape;
    if s[i] == QUOTE {
    } else if s[i] == BACKSLASH {
      EscapeBalance(s, i);
      CharsBalance(s, Escape(s, i).next);
    } else {
      assert LexAt(s, i + 1) == LexAt(s, i);
      CharsBalance(s, i + 1);
    }
  }

  /** Units that mean nothing to the lexer leave its state alone. */
  lemma {:induction false} PlainBalance(s: Text, i: nat, j: nat)
    requires i <= j <= |s| && !LexAt(s, i).inString
    requires forall k :: i <= k < j ==> IsSpace(s[k]) || IsWordUnit(s[k]) || s[k] == COMMA || s[k] == COLON
    ensures LexAt(s, j) == LexAt(s, i)
  {
    if i < j {
      PlainBalance(s, i, j - 1);
    }
  }

  lemma OpeningBalance(s: Text, i: nat, closer: CodeUnit)
    requires i <= |s| && ParseOpening(s, i, closer).Got? && IsCloser(closer)
    requires !LexAt(s, i).inString && LexAt(s, i).closers != []
    ensures var st, r := LexAt(s, i), ParseOpening(s, i, closer);
      LexAt(s, r.next) == if r.value then st.(closers := st.closers[1..]) else st
  {
    PlainBalance(s, i, SkipSpace(s, i));
  }

  lemma SeparatorBalance(s: Text, i: nat, closer: CodeUnit)
    requires i <= |s| && ParseSeparator(s, i, closer).Got? && IsCloser(closer)
    requires !LexAt(s, i).inString && LexAt(s, i).closers != []
    ensures var st, r := LexAt(s, i), ParseSeparator(s, i, closer);
      LexAt(s, r.next) == if r.value then st.(closers := st.closers[1..]) else st
  {
    var after := SkipSpace(s, i);
    PlainBalance(s, i, after);
    if s[after] != closer {
      PlainBalance(s, after, SkipSpace(s, after + 1));
    }
  }

  lemma {:induction false} NameBalance(s: Text, i: nat)
    requires i <= |s| && ParseName(s, i).Got? && !LexAt(s, i).inString
    ensures LexAt(s, ParseName(s, i).next) == LexAt(s, i)
  {
    CharsBalance(s, i + 1);
    PlainBalance(s, ParseChars(s, i + 1).next, ParseName(s, i).next);
  }

  lemma {:induction false} ValueBalance(s: Text, i: nat)
    requires i <= |s| && ParseValue(s, i).Got? && !LexAt(s, i).inString
    ensures LexAt(s, ParseValue(s, i).next) == LexAt(s, i)
    decreases |s| - i, 0
  {
    if s[i] == QUOTE {
      CharsBalance(s, i + 1);
    } else if s[i] == LBRACKET {
      ArrayBalance(s, i + 1);
    } else if s[i] == LBRACE {
      ObjectBalance(s, i + 1);
    } else {
      PlainBalance(s, i, WordEnd(s, i));
    }
  }

  lemma {:induction false} ArrayBalance(s: Text, i: nat)
    requires i <= |s| && ParseArray(s, i).Got?
    requires !LexAt(s, i).inString && LexAt(s, i).closers != []
    ensures LexAt(s, ParseArray(s, i).next) == LexAt(s, i).(closers := LexAt(s, i).closers[1..])
    decreases |s| - i, 3
  {
    OpeningBalance(s, i, RBRACKET);
    if !ParseOpening(s, i, RBRACKET).value {
      ItemsBalance(s, ParseOpening(s, i, RBRACKET).next);
    }
  }

  lemma {:induction false} ItemsBalance(s: Text, i: nat)
    requires i <= |s| && ParseItems(s, i).Got?
    requires !LexAt(s, i).inString && LexAt(s, i).closers != []
    ensures LexAt(s, ParseItems(s, i).next) == LexAt(s, i).(closers := LexAt(s, i).closers[1..])
    decreases |s| - i, 1
  {
    ValueBalance(s, i);
    var end := ParseValue(s, i).next;
    SeparatorBalance(s, end, RBRACKET);
    if !ParseSeparator(s, end, RBRACKET).value {
      ItemsBalance(s, ParseSeparator(s, end, RBRACKET).next);
    }
  }

  lemma {:induction false} ObjectBalance(s: Text, i: nat)
    requires i <= |s| && ParseObject(s, i).Got?
    requires !LexAt(s, i).inString && LexAt(s, i).closers != []
    ensures LexAt(s, ParseObject(s, i).next) == LexAt(s, i).(closers := LexAt(s, i).closers[1..])
    decreases |s| - i, 3
  {
    OpeningBalance(s, i, RBRACE);
    if !ParseOpening(s, i, RBRACE).value {
      MembersBalance(s, ParseOpening(s, i, RBRACE).next);
    }
  }

  lemma {:induction false} MemberBalance(s: Text, i: nat)
    requires i <= |s| && ParseMember(s, i).Got? && !LexAt(s, i).inString
    ensures LexAt(s, ParseMember(s, i).next) == LexAt(s, i)
    decreases |s| - i, 0
  {
    NameBalance(s, i);
    ValueBalance(s, ParseName(s, i).next);
  }

  lemma {:induction false} MembersBalance(s: Text, i: nat)
    requires i <= |s| && ParseMembers(s, i).Got?
    requires !LexAt(s, i).inString && LexAt(s, i).closers != []
    ensures LexAt(s, ParseMembers(s, i).next) == LexAt(s, i).(closers := LexAt(s, i).closers[1..])
    decreases |s| - i, 1
  {
    MemberBalance(s, i);
    var end := ParseMember(s, i).next;
    SeparatorBalance(s, end, RBRACE);
    if !ParseSeparator(s, end, RBRACE).value {
      MembersBalance(s, ParseSeparator(s, end, RBRACE).next);
    }
  }
}
