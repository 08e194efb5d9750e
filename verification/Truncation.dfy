/** Whatever a prefix of a JSON text reads as is a truncation of what the text means. */
module Truncation {
  import opened Basics
  import opened CodeUnits
  import opened Json
  import opened HalfWritten
  import opened Cuts

  // Truncations put together item by item.

  lemma OneItem(w: Value, v: Value, rest: seq<Value>)
    requires Truncates(w, v)
    ensures TruncatesItems([w], [v] + rest)
  {
    assert [w][..0] == ([v] + rest)[..0];
  }

  lemma MoreItems(v: Value, ws: seq<Value>, vs: seq<Value>)
    requires TruncatesItems(ws, vs) && ws != []
    ensures TruncatesItems([v] + ws, [v] + vs)
  {
    var last := |ws| - 1;
    assert ([v] + ws)[..last + 1] == [v] + ws[..last] == [v] + vs[..last] == ([v] + vs)[..last + 1];
  }

  lemma OneMember(w: Member, v: Member, rest: seq<Member>)
    requires w.name == v.name && Truncates(w.value, v.value)
    ensures TruncatesMembers([w], [v] + rest)
  {
    assert [w][..0] == ([v] + rest)[..0];
  }

  lemma MoreMembers(v: Member, ws: seq<Member>, vs: seq<Member>)
    requires TruncatesMembers(ws, vs) && ws != []
    ensures TruncatesMembers([v] + ws, [v] + vs)
  {
    var last := |ws| - 1;
    assert ([v] + ws)[..last + 1] == [v] + ws[..last] == [v] + vs[..last] == ([v] + vs)[..last + 1];
  }

  // What stands before a cut truncates the whole.

  lemma {:induction false} UnitsToTruncate(t: Text, i: nat, n: nat)
    requires i <= n <= |t| && ParseChars(t, i).Got? && n < ParseChars(t, i).next && UnitsTo(t, i, n).Some?
    ensures UnitsTo(t, i, n).value <= ParseChars(t, i).value
    decreases n - i
  {
    hide HexValue;
    if i < n {
      UnitsToTruncate(t, if t[i] == BACKSLASH then Escape(t, i).next else i + 1, n);
    }
  }

  lemma {:induction false} ValueToTruncates(t: Text, i: nat, n: nat)
    requires i < n <= |t| && ParseValue(t, i).Got? && ValueTo(t, i, n).Some?
    ensures Truncates(ValueTo(t, i, n).value, ParseValue(t, i).value)
    decreases n - i, 0
  {
    hide ParseChars, UnitsTo, ParseArray, ParseObject, ArrayTo, ObjectTo;
    if n < ParseValue(t, i).next {
      if t[i] == QUOTE {
        UnitsToTruncate(t, i + 1, n);
      } else if t[i] == LBRACKET {
        ArrayToTruncates(t, i + 1, n);
      } else if t[i] == LBRACE {
        ObjectToTruncates(t, i + 1, n);
      }
    }
  }

  lemma {:induction false} ArrayToTruncates(t: Text, i: nat, n: nat)
    requires i <= n <= |t| && ParseArray(t, i).Got? && ArrayTo(t, i, n).Some?
    ensures TruncatesItems(ArrayTo(t, i, n).value, ParseArray(t, i).value)
    decreases n - i, 3
  {
    hide ParseItems, ItemsTo;
    var opening := ParseOpening(t, i, RBRACKET);
    if !opening.value && opening.next < n {
      ItemsToTruncate(t, opening.next, n);
    }
  }

  lemma {:induction false} ItemsToTruncate(t: Text, i: nat, n: nat)
    requires i < n <= |t| && ParseItems(t, i).Got? && ItemsTo(t, i, n).Some?
    ensures TruncatesItems(ItemsTo(t, i, n).value, ParseItems(t, i).value)
    decreases n - i, 1
  {
    hide ParseValue, ValueTo, Truncates, ParseSeparator;
    ValueToTruncates(t, i, n);
    var v, all := ParseValue(t, i), ParseItems(t, i).value;
    assert all == [v.value] + all[1..];
    OneItem(ValueTo(t, i, n).value, v.value, all[1..]);
    var separator := ParseSeparator(t, v.next, RBRACKET);
    if v.next <= n && !separator.value && separator.next < n {
      ValueWhole(t, i, n);
      ItemsToTruncate(t, separator.next, n);
      MoreItems(v.value, ItemsTo(t, separator.next, n).value, ParseItems(t, separator.next).value);
    }
  }

  lemma {:induction false} ObjectToTruncates(t: Text, i: nat, n: nat)
    requires i <= n <= |t| && ParseObject(t, i).Got? && ObjectTo(t, i, n).Some?
    ensures TruncatesMembers(ObjectTo(t, i, n).value, ParseObject(t, i).value)
    decreases n - i, 3
  {
    hide ParseMembers, MembersTo;
    var opening := ParseOpening(t, i, RBRACE);
    if !opening.value && opening.next < n {
      MembersToTruncate(t, opening.next, n);
    }
  }

  /** A member has its whole name and a truncated value. */
  lemma {:induction false} MemberToTruncates(t: Text, i: nat, n: nat)
    requires i < n <= |t| && ParseMember(t, i).Got? && MemberTo(t, i, n).Some?
    ensures MemberTo(t, i, n).value.name == ParseMember(t, i).value.name
    ensures Truncates(MemberTo(t, i, n).value.value, ParseMember(t, i).value.value)
    decreases n - i, 1
  {
    hide ParseName, ParseValue, ValueTo, Truncates;
    ValueToTruncates(t, ParseName(t, i).next, n);
  }

  lemma {:induction false} MembersToTruncate(t: Text, i: nat, n: nat)
    requires i < n <= |t| && ParseMembers(t, i).Got? && MembersTo(t, i, n).Some?
    ensures TruncatesMembers(MembersTo(t, i, n).value, ParseMembers(t, i).value)
    decreases n - i, 2
  {
    hide ParseMember, MemberTo, Truncates, ParseSeparator;
    MemberToTruncates(t, i, n);
    var v, all := ParseMember(t, i), ParseMembers(t, i).value;
    assert all == [v.value] + all[1..];
    OneMember(MemberTo(t, i, n).value, v.value, all[1..]);
    var separator := ParseSeparator(t, v.next, RBRACE);
    if v.next <= n && !separator.value && separator.next < n {
      MemberWhole(t, i, n);
      MembersToTruncate(t, separator.next, n);
      MoreMembers(v.value, MembersTo(t, separator.next, n).value, ParseMembers(t, separator.next).value);
    }
  }

  lemma TextToTruncates(t: Text, n: nat)
    requires n <= |t| && Parse(t).Some? && TextTo(t, n).Some?
    ensures Truncates(TextTo(t, n).value, Parse(t).value)
  {
    ValueToTruncates(t, SkipSpace(t, 0), n);
  }

  // What the reader comes to.

  lemma WholeIsBoundary(t: Text, n: nat)
    requires 0 < n <= |t| && IsWhole(t, n)
    ensures AtBoundary(t, n)
  {
  }

  /** Where reading may stop, going back from `k`: there or at a comma before it. */
  predicate Stop(t: Text, k: int, c: int)
    requires k <= |t|
  {
    0 < c <= k && (c == k || t[c] == COMMA)
  }

  /** The last of these up to which the text means something, or 0 when it does up to none. */
  predicate LastStop(t: Text, k: int, c: nat)
    requires c <= |t| && k <= |t| && Parse(t).Some?
  {
    && (c == 0 || (Stop(t, k, c) && TextTo(t, c).Some?))
    && (forall d :: c < d <= k && Stop(t, k, d) ==> TextTo(t, d).None?)
  }

  lemma {:induction false} BackOffStops(t: Text, n: nat, cut: int) returns (c: nat)
    requires cut <= n <= |t| && Parse(t).Some? && (0 < cut ==> AtBoundary(t, cut))
    ensures c <= n && LastStop(t, cut, c) && BackOff(t[..n], cut) == TextTo(t, c)
    decreases cut
  {
    hide Parse, TextTo, Completed, AtBoundary;
    c := 0;
    NothingYet(t);
    if 0 < cut {
      CompletedInPrefix(t, n, cut);
      CompletionReads(t, cut);
      if TextTo(t, cut).Some? {
        c := cut;
      } else {
        var before := LastBefore(t[..n], COMMA, cut);
        if 0 < before {
          CommaIsBoundary(t, before);
        }
        c := BackOffStops(t, n, before);
      }
    }
  }

  lemma NothingYet(t: Text)
    requires Parse(t).Some?
    ensures TextTo(t, 0).None?
  {}

  lemma CommaIsBoundary(t: Text, n: nat)
    requires n < |t| && t[n] == COMMA
    ensures AtBoundary(t, n)
  {}

  /** The last place in the first `n` units where the text is whole, or 0. */
  predicate LastWholeIs(t: Text, n: nat, k: nat)
    requires k <= n <= |t|
  {
    (k == 0 || IsWhole(t, k)) && forall j :: k < j <= n ==> !IsWhole(t, j)
  }

  lemma WholeInPrefix(t: Text, n: nat, k: nat)
    requires 0 < k <= n <= |t|
    ensures IsWhole(t[..n], k) == IsWhole(t, k)
  {
    assert t[..n][..k] == t[..k] && t[..n][..k - 1] == t[..k - 1];
    LexPrefix(t, t[..n], k);
    LexPrefix(t, t[..n], k - 1);
  }

  lemma LastWholeFound(t: Text, n: nat, k: nat)
    requires k <= n <= |t| && LastWholeIs(t, n, k)
    ensures LastWhole(t[..n], n) == k && (0 < k ==> AtBoundary(t, k))
  {
    hide IsWhole;
    var found := LastWhole(t[..n], n);
    if found > 0 {
      WholeInPrefix(t, n, found);
    }
    if k > 0 {
      WholeInPrefix(t, n, k);
      WholeIsBoundary(t, k);
    }
  }

  /** What a prefix reads as, for every text and every prefix: what stands of the text before the last place
      where the prefix is whole, or, when that falls into a name or an escape, before the last comma that
      does not; and nothing when there is none. */
  lemma PrefixReads(t: Text, n: nat, k: nat) returns (c: nat)
    requires n <= |t| && Parse(t).Some? && k <= n && LastWholeIs(t, n, k)
    ensures c <= k && LastStop(t, k, c) && Read(t[..n]) == TextTo(t, c)
  {
    hide Parse, BackOff, LastWhole, IsWhole;
    LastWholeFound(t, n, k);
    c := BackOffStops(t, n, k);
  }

  /** There is one such place. */
  lemma {:induction false} LastWholePlace(t: Text, n: nat) returns (k: nat)
    requires n <= |t|
    ensures k <= n && LastWholeIs(t, n, k)
  {
    hide IsWhole;
    k := n;
    if 0 < n && !IsWhole(t, n) {
      k := LastWholePlace(t, n - 1);
    }
  }

  /** Whatever a prefix of a JSON text reads as is a truncation of what the text means. */
  lemma PrefixReadsAsTruncation(t: Text, n: nat)
    requires n <= |t| && Parse(t).Some? && Read(t[..n]).Some?
    ensures Truncates(Read(t[..n]).value, Parse(t).value)
  {
    hide Parse, Read, IsWhole, TextTo;
    var k := LastWholePlace(t, n);
    var c := PrefixReads(t, n, k);
    TextToTruncates(t, c);
  }

  lemma {:induction false} ItemsEnd(s: Text, i: nat, r: Parsed<seq<Value>>)
    requires i <= |s| && r == ParseItems(s, i) && r.Got?
    ensures s[r.next - 1] == RBRACKET
    decreases |s| - i
  {
    hide ParseValue, ParseChars, WordEnd;
    var separator := ParseSeparator(s, ParseValue(s, i).next, RBRACKET);
    if !separator.value {
      ItemsEnd(s, separator.next, ParseItems(s, separator.next));
    }
  }

  lemma {:induction false} MembersEnd(s: Text, i: nat, r: Parsed<seq<Member>>)
    requires i <= |s| && r == ParseMembers(s, i) && r.Got?
    ensures s[r.next - 1] == RBRACE
    decreases |s| - i
  {
    hide ParseMember;
    var separator := ParseSeparator(s, ParseMember(s, i).next, RBRACE);
    if !separator.value {
      MembersEnd(s, separator.next, ParseMembers(s, separator.next));
    }
  }

  lemma BracketedEnd(s: Text, i: nat, r: Parsed<Value>)
    requires i <= |s| && r == ParseValue(s, i) && r.Got? && (r.value.Arr? || r.value.Obj?)
    ensures IsCloser(s[r.next - 1])
  {
    hide ParseItems, ParseMembers, ParseChars, WordEnd;
    if s[i] == LBRACKET {
      var opening := ParseOpening(s, i + 1, RBRACKET);
      if !opening.value {
        ItemsEnd(s, opening.next, ParseArray(s, i + 1));
      }
    } else {
      var opening := ParseOpening(s, i + 1, RBRACE);
      if !opening.value {
        MembersEnd(s, opening.next, ParseObject(s, i + 1));
      }
    }
  }

  /** The last place a complete array or object is whole is its own end. */
  lemma WholeAtEnd(t: Text, start: nat)
    requires start <= |t| && ParseValue(t, start).Got? && LexAt(t, start) == START
    requires ParseValue(t, start).value.Arr? || ParseValue(t, start).value.Obj?
    requires SkipSpace(t, ParseValue(t, start).next) == |t|
    ensures LastWhole(t, |t|) == ParseValue(t, start).next
    ensures LexAt(t, ParseValue(t, start).next) == START
  {
    hide ParseValue;
    var end := ParseValue(t, start).next;
    ValueBalance(t, start);
    var last := LastWhole(t, |t|);
    BracketedEnd(t, start, ParseValue(t, start));
    assert IsWhole(t, end);
    if end < last {
      PlainBalance(t, end, last - 1);
      assert false;
    }
  }

  /** A complete object or array is read exactly. */
  lemma CompleteReadsExactly(t: Text)
    requires Parse(t).Some? && (Parse(t).value.Arr? || Parse(t).value.Obj?)
    ensures Read(t) == Parse(t)
  {
    var start := SkipSpace(t, 0);
    var end := ParseValue(t, start).next;
    PlainBalance(t, 0, start);
    WholeAtEnd(t, start);
    assert Completed(t, end) == t[..end];
    SpaceLocal(t, t[..end], end, 0);
    ValueLocal(t, t[..end], end, start);
    assert Parse(t[..end]) == Parse(t);
  }

  lemma {:induction false} ClosersClose(s: Text, from: nat)
    requires from <= |s| && LexAt(s, from) == Lex(false, false, s[from..])
    requires forall k :: from <= k < |s| ==> IsCloser(s[k])
    ensures LexAt(s, |s|) == START
    decreases |s| - from
  {
    if from < |s| {
      ClosersClose(s, from + 1);
    }
  }

  /** A completion closes everything and ends outside any string. */
  lemma CompletionBalances(t: Text, n: nat)
    requires n <= |t| && !LexAt(t, n).escaped
    ensures LexAt(Completed(t, n), |Completed(t, n)|) == START
  {
    var st := LexAt(t, n);
    var open := if st.inString then t[..n] + [QUOTE] else t[..n];
    var s := open + st.closers;
    assert s == Completed(t, n);
    OnlyClosers(t, n);
    assert s[|open|..] == st.closers;
    assert LexAt(s, |open|) == st.(inString := false) by {
      LexPrefix(s, t, n);
    }
    ClosersClose(s, |open|);
  }
}
