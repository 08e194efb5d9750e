/** What a prefix of an object reads as under each name. What `JSON.parse` keeps of the members of one
    name is the last, and a prefix may end before it. */
module Fields {
  import opened Basics
  import opened CodeUnits
  import opened Json
  import opened HalfWritten
  import opened Cuts
  import opened Truncation
  import opened Progress

  predicate NamesDiffer(members: seq<Member>) {
    forall i, j :: 0 <= i < j < |members| ==> members[i].name != members[j].name
  }

  /** No object in the value names two members alike. */
  predicate NoRepeats(v: Value) {
    match v
    case Arr(items) => forall k :: 0 <= k < |items| ==> NoRepeats(items[k])
    case Obj(members) => NamesDiffer(members) && forall k :: 0 <= k < |members| ==> NoRepeats(members[k].value)
    case _ => true
  }

  /** Where no name is repeated none is in a truncation. */
  lemma {:induction false} TruncatedNoRepeats(cut: Value, whole: Value)
    requires Truncates(cut, whole) && NoRepeats(whole)
    ensures NoRepeats(cut)
    decreases whole
  {
    if cut != whole && cut.Arr? && cut.items != [] {
      var last := |cut.items| - 1;
      TruncatedNoRepeats(cut.items[last], whole.items[last]);
      forall k | 0 <= k < |cut.items| ensures NoRepeats(cut.items[k]) {
        assert k < last ==> cut.items[k] == cut.items[..last][k] == whole.items[..last][k] == whole.items[k];
      }
    } else if cut != whole && cut.Obj? && cut.members != [] {
      var last := |cut.members| - 1;
      TruncatedNoRepeats(cut.members[last].value, whole.members[last].value);
      forall k | 0 <= k < |cut.members| ensures cut.members[k].name == whole.members[k].name && NoRepeats(cut.members[k].value) {
        assert k < last ==> cut.members[k] == cut.members[..last][k] == whole.members[..last][k] == whole.members[k];
      }
    }
  }

  lemma {:induction false} LookupAt(members: seq<Member>, k: nat)
    requires k < |members| && NamesDiffer(members)
    ensures Lookup(members, members[k].name) == Some(members[k].value)
  {
    var last := |members| - 1;
    if k < last {
      assert members[..last][k] == members[k];
      LookupAt(members[..last], k);
    }
  }

  // When the fields come out right.

  /** Every value of that name is a truncation of the last one. */
  predicate LastCovers(members: seq<Member>, name: Text) {
    forall k :: 0 <= k < |members| && members[k].name == name ==>
      Lookup(members, name).Some? && Truncates(members[k].value, Lookup(members, name).value)
  }

  lemma {:induction false} TruncatesTwice(a: Value, b: Value, c: Value)
    requires Truncates(a, b) && Truncates(b, c)
    ensures Truncates(a, c)
    decreases c
  {
    if a != b && b != c {
      if a.Arr? && a.items != [] {
        var last, further := |a.items| - 1, |b.items| - 1;
        assert forall k :: 0 <= k < last ==> a.items[k] == a.items[..last][k] == b.items[..last][k] == b.items[k];
        assert forall k :: 0 <= k < further ==> b.items[k] == b.items[..further][k] == c.items[..further][k] == c.items[k];
        if last == further {
          TruncatesTwice(a.items[last], b.items[last], c.items[last]);
        }
        assert a.items[..last] == c.items[..last];
      } else if a.Obj? && a.members != [] {
        var last, further := |a.members| - 1, |b.members| - 1;
        assert forall k :: 0 <= k < last ==> a.members[k] == a.members[..last][k] == b.members[..last][k] == b.members[k];
        assert forall k :: 0 <= k < further ==>
          b.members[k] == b.members[..further][k] == c.members[..further][k] == c.members[k];
        if last == further {
          TruncatesTwice(a.members[last].value, b.members[last].value, c.members[last].value);
        }
        assert a.members[..last] == c.members[..last];
      }
    }
  }

  /** The place of the last member of a name. */
  lemma {:induction false} LookupPlace(members: seq<Member>, name: Text) returns (k: nat)
    requires Lookup(members, name).Some?
    ensures k < |members| && members[k].name == name && Lookup(members, name) == Some(members[k].value)
    ensures forall j :: k < j < |members| ==> members[j].name != name
  {
    k := |members| - 1;
    if members[k].name != name {
      k := LookupPlace(members[..k], name);
    }
  }

  lemma {:induction false} LastOfName(members: seq<Member>, k: nat)
    requires k < |members| && forall j :: k < j < |members| ==> members[j].name != members[k].name
    ensures Lookup(members, members[k].name) == Some(members[k].value)
  {
    var last := |members| - 1;
    if k < last {
      assert members[..last][k] == members[k];
      LastOfName(members[..last], k);
    }
  }

  lemma {:induction false} LookupThere(members: seq<Member>, name: Text, k: nat)
    requires k < |members| && members[k].name == name
    ensures Lookup(members, name).Some?
  {
    var last := |members| - 1;
    if members[last].name != name {
      assert members[..last][k] == members[k];
      LookupThere(members[..last], name, k);
    }
  }

  /** Where the last value covers the others of its name, what is read under it is a truncation of it. */
  lemma FieldsTruncate(cut: seq<Member>, whole: seq<Member>, name: Text)
    requires TruncatesMembers(cut, whole) && LastCovers(whole, name) && Lookup(cut, name).Some?
    ensures Lookup(whole, name).Some? && Truncates(Lookup(cut, name).value, Lookup(whole, name).value)
  {
    var k := LookupPlace(cut, name);
    var last := |cut| - 1;
    if k < last {
      assert cut[k] == cut[..last][k] == whole[..last][k] == whole[k];
    }
    assert whole[k].name == name && Truncates(cut[k].value, whole[k].value);
    TruncatesTwice(cut[k].value, whole[k].value, Lookup(whole, name).value);
  }

  /** Names that differ are covered. */
  lemma DifferingCovers(members: seq<Member>, name: Text)
    requires NamesDiffer(members)
    ensures LastCovers(members, name)
  {
    forall k | 0 <= k < |members| && members[k].name == name
      ensures Lookup(members, name).Some? && Truncates(members[k].value, Lookup(members, name).value)
    {
      LookupAt(members, k);
    }
  }

  /** For a text without repeated names, the object read from a prefix has under each of its names a
      truncation of what the text means there. */
  lemma PrefixReadsFields(t: Text, n: nat, name: Text)
    requires n <= |t| && Parse(t).Some? && Read(t[..n]).Some? && NoRepeats(Parse(t).value)
    requires Read(t[..n]).value.Obj? && Lookup(Read(t[..n]).value.members, name).Some?
    ensures Parse(t).value.Obj? && Lookup(Parse(t).value.members, name).Some?
    ensures Truncates(Lookup(Read(t[..n]).value.members, name).value, Lookup(Parse(t).value.members, name).value)
    ensures NoRepeats(Read(t[..n]).value)
  {
    PrefixReadsAsTruncation(t, n);
    hide Parse, Read;
    var cut, whole := Read(t[..n]).value, Parse(t).value;
    TruncatedNoRepeats(cut, whole);
    if cut != whole {
      DifferingCovers(whole.members, name);
      FieldsTruncate(cut.members, whole.members, name);
    }
  }

  // A prefix that ends inside the name of a member reads the members before it.

  /** The comma after the first of some members. */
  function CommaAfter(t: Text, i: nat): (comma: nat)
    requires i <= |t| && ParseMembers(t, i).Got? && |ParseMembers(t, i).value| > 1
    ensures ParseMember(t, i).Got? && ParseMember(t, i).next <= comma < |t|
    ensures comma == SkipSpace(t, ParseMember(t, i).next) && t[comma] == COMMA
  {
    SkipSpace(t, ParseMember(t, i).next)
  }

  /** Where the next one starts. */
  function NextStart(t: Text, i: nat): (next: nat)
    requires i <= |t| && ParseMembers(t, i).Got? && |ParseMembers(t, i).value| > 1
    ensures CommaAfter(t, i) < next <= |t| && next == SkipSpace(t, CommaAfter(t, i) + 1)
    ensures ParseSeparator(t, ParseMember(t, i).next, RBRACE) == Got(false, next) && ParseMembers(t, next).Got?
    ensures ParseMembers(t, i).value == [ParseMember(t, i).value] + ParseMembers(t, next).value
  {
    SkipSpace(t, CommaAfter(t, i) + 1)
  }

  /** Where a member starts. */
  function StartOf(t: Text, i: nat, j: nat): (at: nat)
    requires i <= |t| && ParseMembers(t, i).Got? && j < |ParseMembers(t, i).value|
    ensures i <= at <= |t| && ParseMembers(t, at).Got? && (j > 0 ==> i < at)
    decreases j
  {
    if j == 0 then i else StartOf(t, NextStart(t, i), j - 1)
  }

  /** The comma before it. */
  function CommaOf(t: Text, i: nat, j: nat): (comma: nat)
    requires i <= |t| && ParseMembers(t, i).Got? && 0 < j < |ParseMembers(t, i).value|
    ensures i < comma < |t|
    decreases j
  {
    if j == 1 then CommaAfter(t, i) else CommaOf(t, NextStart(t, i), j - 1)
  }

  lemma FirstOf(t: Text, i: nat)
    requires i <= |t| && ParseMembers(t, i).Got?
    ensures ParseMember(t, i).Got? && ParseMember(t, i).value == ParseMembers(t, i).value[0]
  {}

  lemma {:induction false} StartIs(t: Text, i: nat, j: nat)
    requires i <= |t| && ParseMembers(t, i).Got? && j < |ParseMembers(t, i).value|
    ensures var at := StartOf(t, i, j); ParseMember(t, at).Got? && ParseMember(t, at).value == ParseMembers(t, i).value[j]
    ensures j > 0 ==> t[CommaOf(t, i, j)] == COMMA && SkipSpace(t, CommaOf(t, i, j) + 1) == StartOf(t, i, j)
    decreases j
  {
    hide ParseMembers, ParseMember, CommaAfter, NextStart;
    FirstOf(t, i);
    if j > 0 {
      var next := NextStart(t, i);
      assert ParseMembers(t, i).value[j] == ParseMembers(t, next).value[j - 1];
      StartIs(t, next, j - 1);
    }
  }

  /** Before the comma stand the members before it. */
  lemma {:induction false} MembersToComma(t: Text, i: nat, j: nat)
    requires i <= |t| && ParseMembers(t, i).Got? && 0 < j < |ParseMembers(t, i).value|
    ensures MembersTo(t, i, CommaOf(t, i, j)) == Some(ParseMembers(t, i).value[..j])
    decreases j
  {
    hide ParseMembers, ParseMember, MemberTo, NextStart, ParseSeparator;
    var comma, m, next := CommaOf(t, i, j), ParseMember(t, i), NextStart(t, i);
    var all, rest := ParseMembers(t, i).value, ParseMembers(t, next).value;
    assert CommaAfter(t, i) <= comma && (j > 1 ==> next < comma);
    MemberWhole(t, i, comma);
    if j > 1 {
      MembersToComma(t, next, j - 1);
      assert all[..j] == [m.value] + rest[..j - 1];
    } else {
      assert all[..1] == [m.value];
    }
  }

  /** Inside a name the members mean nothing. */
  lemma {:induction false} MembersInName(t: Text, i: nat, j: nat, n: nat)
    requires i <= |t| && ParseMembers(t, i).Got? && j < |ParseMembers(t, i).value|
    requires InName(t, StartOf(t, i, j), n) && ParseMember(t, StartOf(t, i, j)).Got?
    ensures MembersTo(t, i, n).None?
    decreases j
  {
    hide ParseMembers, ParseMember, MemberTo, ParseSeparator, NextStart, ParseChars, InName;
    assert StartOf(t, i, j) < n < |t| by { InNameIs(t, StartOf(t, i, j), n); }
    if j > 0 {
      var next := NextStart(t, i);
      MemberWhole(t, i, n);
      MembersInName(t, next, j - 1, n);
    } else {
      FirstInName(t, i, n);
    }
  }

  lemma InNameIs(t: Text, at: nat, n: nat)
    requires InName(t, at, n)
    ensures at < n < |t|
  {}

  lemma FirstInName(t: Text, i: nat, n: nat)
    requires i <= |t| && ParseMember(t, i).Got? && InName(t, i, n)
    ensures MemberTo(t, i, n).None?
  {
    hide ParseChars, ParseValue;
    NameEnds(t, i);
  }

  lemma NameEnds(t: Text, i: nat)
    requires i <= |t| && ParseName(t, i).Got?
    ensures i < |t| && ParseChars(t, i + 1).Got? && ParseChars(t, i + 1).next < ParseName(t, i).next
  {
    hide ParseChars;
  }

  /** A unit after which a string may be cut. */
  predicate Cuttable(name: Text) {
    exists k :: 0 <= k < |name| && !IsHigh(name[k])
  }

  /** A string that holds such a unit has a place where it is whole if closed there. */
  lemma {:induction false} CharsWhole(t: Text, i: nat) returns (n: nat)
    requires i <= |t| && ParseChars(t, i).Got? && LexAt(t, i).inString && !LexAt(t, i).escaped
    requires Cuttable(ParseChars(t, i).value)
    ensures i < n < ParseChars(t, i).next && IsWhole(t, n) && LexAt(t, n).inString
    decreases |t| - i
  {
    hide HexValue;
    if t[i] == BACKSLASH {
      assert LexAt(t, i + 1) == LexAt(t, i).(escaped := true);
      assert LexAt(t, i + 2) == LexAt(t, i);
      n := i + 2;
    } else if !IsHigh(t[i]) {
      assert LexAt(t, i + 1) == LexAt(t, i);
      n := i + 1;
    } else {
      assert LexAt(t, i + 1) == LexAt(t, i);
      var rest := ParseChars(t, i + 1).value;
      var k :| 0 <= k < |rest| + 1 && !IsHigh(([t[i]] + rest)[k]);
      assert !IsHigh(rest[k - 1]);
      n := CharsWhole(t, i + 1);
    }
  }

  /** `n` is inside the name that starts at `at`. */
  predicate InName(t: Text, at: nat, n: nat) {
    at < n < |t| && ParseChars(t, at + 1).Got? && n < ParseChars(t, at + 1).next
  }

  /** The text opens as an object at `start`, the first member of which is to stand at `i`. */
  predicate Opens(t: Text, start: nat, i: nat) {
    start == SkipSpace(t, 0) && start < i <= |t| && t[start] == LBRACE && ParseOpening(t, start + 1, RBRACE) == Got(false, i)
  }

  lemma ParsesAs(t: Text, start: nat, i: nat)
    requires Opens(t, start, i)
    ensures Parse(t) == match ParseMembers(t, i)
      case Bad => None
      case Got(members, end) => if SkipSpace(t, end) == |t| then Some(Obj(members)) else None
  {
    hide ParseMembers, ParseOpening, SkipSpace;
    assert ParseObject(t, start + 1) == ParseMembers(t, i);
  }

  /** As far as such a text stands its members do. */
  lemma ObjectStands(t: Text, start: nat, i: nat, n: nat)
    requires Opens(t, start, i) && Parse(t).Some? && i < n < ParseValue(t, start).next
    ensures ParseMembers(t, i).Got?
    ensures TextTo(t, n) == match MembersTo(t, i, n) case None => None case Some(members) => Some(Obj(members))
  {
    hide ParseMembers, MembersTo, ParseOpening, SkipSpace;
    assert ParseObject(t, start + 1) == ParseMembers(t, i);
    assert ObjectTo(t, start + 1, n) == MembersTo(t, i, n);
  }

  /** The members of a text that is an object. */
  ghost predicate HasMembers(t: Text, start: nat, i: nat, members: seq<Member>) {
    && Opens(t, start, i) && ParseMembers(t, i).Got? && ParseMembers(t, i).value == members
    && LexAt(t, i) == START.(closers := [RBRACE])
  }

  lemma OpensAt(t: Text) returns (start: nat, i: nat)
    requires Parse(t).Some? && Parse(t).value.Obj? && Parse(t).value.members != []
    ensures HasMembers(t, start, i, Parse(t).value.members)
  {
    start := SkipSpace(t, 0);
    assert t[start] == LBRACE;
    assert ParseObject(t, start + 1).Got?;
    i := ParseOpening(t, start + 1, RBRACE).next;
    PlainBalance(t, 0, start);
    assert LexAt(t, start + 1) == START.(closers := [RBRACE]);
    OpeningBalance(t, start + 1, RBRACE);
  }

  lemma {:induction false} StartBalance(t: Text, i: nat, j: nat)
    requires i <= |t| && ParseMembers(t, i).Got? && j < |ParseMembers(t, i).value|
    requires !LexAt(t, i).inString && LexAt(t, i).closers != []
    ensures LexAt(t, StartOf(t, i, j)) == LexAt(t, i)
    ensures j > 0 ==> LexAt(t, CommaOf(t, i, j)) == LexAt(t, i)
    decreases j
  {
    hide ParseMembers, ParseMember, CommaAfter, NextStart, ParseSeparator, LexAt;
    if j > 0 {
      var m, next := ParseMember(t, i), NextStart(t, i);
      MemberBalance(t, i);
      SeparatorBalance(t, m.next, RBRACE);
      PlainBalance(t, m.next, CommaAfter(t, i));
      StartBalance(t, next, j - 1);
    }
  }

  /** All before the last member stands in the object. */
  lemma {:induction false} BeforeEnd(t: Text, i: nat, j: nat)
    requires i <= |t| && ParseMembers(t, i).Got? && j < |ParseMembers(t, i).value|
    ensures ParseMember(t, StartOf(t, i, j)).Got? && ParseMember(t, StartOf(t, i, j)).next < ParseMembers(t, i).next
    ensures j > 0 ==> CommaOf(t, i, j) < StartOf(t, i, j) && i < CommaOf(t, i, j)
    decreases j
  {
    hide ParseMember, ParseSeparator;
    if j > 0 {
      BeforeEnd(t, NextStart(t, i), j - 1);
    }
  }

  predicate NameIsAt(t: Text, comma: nat, at: nat, name: Text) {
    && comma < at < |t| && t[comma] == COMMA && t[at] == QUOTE
    && ParseChars(t, at + 1).Got? && ParseChars(t, at + 1).value == name
    && forall k :: comma < k <= at ==> t[k] != COMMA
  }

  /** Where a name starts and ends, and that no comma stands between it and the one before the member. */
  lemma NameStands(t: Text, i: nat, j: nat)
    requires i <= |t| && ParseMembers(t, i).Got? && 0 < j < |ParseMembers(t, i).value|
    ensures NameIsAt(t, CommaOf(t, i, j), StartOf(t, i, j), ParseMembers(t, i).value[j].name)
  {
    hide ParseMembers, StartOf, CommaOf, ParseChars;
    StartIs(t, i, j);
  }

  lemma MembersEndInText(t: Text, start: nat, i: nat, members: seq<Member>)
    requires HasMembers(t, start, i, members) && Parse(t).Some?
    ensures ParseMembers(t, i).next == ParseValue(t, start).next
  {
    hide ParseMembers, ParseOpening, SkipSpace;
    assert ParseObject(t, start + 1) == ParseMembers(t, i);
  }

  /** A prefix that ends inside the name of a later member, where its string can be closed, reads as just
      the members before it. */
  lemma NameReadsBefore(t: Text, start: nat, i: nat, members: seq<Member>, j: nat, n: nat)
    requires HasMembers(t, start, i, members) && 0 < j < |members| && Parse(t).Some?
    requires InName(t, StartOf(t, i, j), n) && IsWhole(t, n)
    ensures Read(t[..n]) == Some(Obj(members[..j]))
  {
    hide ParseMembers, ParseMember, MembersTo, MemberTo, Opens, StartOf, CommaOf, Parse, ParseValue, ParseChars, IsWhole;
    hide Read, TextTo, LexAt, NextStart, CommaAfter;
    var comma, at := CommaOf(t, i, j), StartOf(t, i, j);
    NameStands(t, i, j);
    BeforeEnd(t, i, j);
    NameInMember(t, at);
    MembersEndInText(t, start, i, members);
    MembersToComma(t, i, j);
    ObjectStands(t, start, i, comma);
    var c := PrefixReads(t, n, n);
    assert Stop(t, n, comma);
    if comma < c {
      assert Stop(t, n, c);
      assert at < c;
      MembersInName(t, i, j, c);
      ObjectStands(t, start, i, c);
      assert false;
    }
  }

  lemma NameInMember(t: Text, at: nat)
    requires at <= |t| && ParseMember(t, at).Got?
    ensures at < |t| && ParseChars(t, at + 1).Got? && ParseChars(t, at + 1).next < ParseMember(t, at).next
  {
    hide ParseChars;
  }

  /** A name that can be cut holds a place where its string can be closed. */
  lemma NameHasWhole(t: Text, at: nat, name: Text) returns (n: nat)
    requires at < |t| && t[at] == QUOTE && !LexAt(t, at).inString && Cuttable(name)
    requires ParseChars(t, at + 1).Got? && ParseChars(t, at + 1).value == name
    ensures InName(t, at, n) && IsWhole(t, n)
  {
    hide ParseChars, Cuttable, IsWhole;
    assert LexAt(t, at + 1) == LexAt(t, at).(inString := true);
    n := CharsWhole(t, at + 1);
  }

  /** Before every member whose name can be cut there is a prefix that reads as just the members before it. */
  lemma MembersAreRead(t: Text, j: nat) returns (n: nat)
    requires Parse(t).Some? && Parse(t).value.Obj? && 0 < j < |Parse(t).value.members|
    requires Cuttable(Parse(t).value.members[j].name)
    ensures n <= |t| && Read(t[..n]) == Some(Obj(Parse(t).value.members[..j]))
  {
    hide ParseMembers, Opens, StartOf, CommaOf, Parse, ParseChars, IsWhole, Cuttable, LexAt, Read;
    var start, i := OpensAt(t);
    var members := Parse(t).value.members;
    StartBalance(t, i, j);
    NameStands(t, i, j);
    n := NameHasWhole(t, StartOf(t, i, j), members[j].name);
    NameReadsBefore(t, start, i, members, j, n);
  }

  // Which names come out right.

  /** Whatever the prefix of that length reads under the name is a truncation of what the text means there. */
  ghost predicate FieldRight(t: Text, n: nat, name: Text)
    requires n <= |t| && Parse(t).Some? && Parse(t).value.Obj?
  {
    Read(t[..n]).Some? && Read(t[..n]).value.Obj? && Lookup(Read(t[..n]).value.members, name).Some? ==>
      var whole := Lookup(Parse(t).value.members, name);
      whole.Some? && Truncates(Lookup(Read(t[..n]).value.members, name).value, whole.value)
  }

  /** Where the last value covers the others of its name, every prefix reads right under that name. */
  lemma CoveredReadsRight(t: Text, n: nat, name: Text)
    requires n <= |t| && Parse(t).Some? && Parse(t).value.Obj? && LastCovers(Parse(t).value.members, name)
    ensures FieldRight(t, n, name)
  {
    if Read(t[..n]).Some? && Read(t[..n]).value.Obj? && Lookup(Read(t[..n]).value.members, name).Some? {
      PrefixReadsAsTruncation(t, n);
      hide Parse, Read;
      var cut, whole := Read(t[..n]).value, Parse(t).value;
      SameTruncates(cut, whole);
      FieldsTruncate(cut.members, whole.members, name);
    }
  }

  lemma SameTruncates(cut: Value, whole: Value)
    requires Truncates(cut, whole) && cut.Obj? && whole.Obj?
    ensures TruncatesMembers(cut.members, whole.members)
  {
    if cut.members == whole.members && cut.members != [] {
      assert Truncates(cut.members[|cut.members| - 1].value, whole.members[|whole.members| - 1].value);
    }
  }

  /** An earlier value is read by some prefix when a later member before the next of that name, or that one
      itself, has a name that can be cut. */
  lemma EarlierIsRead(t: Text, k: nat, j: nat) returns (n: nat)
    requires Parse(t).Some? && Parse(t).value.Obj? && k < j < |Parse(t).value.members|
    requires var members := Parse(t).value.members;
      Cuttable(members[j].name) && forall i :: k < i < j ==> members[i].name != members[k].name
    ensures n <= |t| && Read(t[..n]) == Some(Obj(Parse(t).value.members[..j]))
    ensures Lookup(Parse(t).value.members[..j], Parse(t).value.members[k].name) == Some(Parse(t).value.members[k].value)
  {
    n := MembersAreRead(t, j);
    hide Parse, Read;
    var members := Parse(t).value.members;
    assert members[..j][k] == members[k] && forall i :: k < i < j ==> members[..j][i] == members[i];
    LastOfName(members[..j], k);
  }

  /** The next member of the same name. */
  lemma {:induction false} NextOfName(members: seq<Member>, k: nat, later: nat) returns (j: nat)
    requires k < later < |members| && members[later].name == members[k].name
    ensures k < j <= later && members[j].name == members[k].name
    ensures forall i :: k < i < j ==> members[i].name != members[k].name
    decreases later
  {
    j := later;
    if i :| k < i < later && members[i].name == members[k].name {
      j := NextOfName(members, k, i);
    }
  }

  /** Under a name that can be cut every prefix reads right exactly when each of the values of that name is a
      truncation of the last. */
  lemma FieldsComeRight(t: Text, name: Text)
    requires Parse(t).Some? && Parse(t).value.Obj? && Cuttable(name)
    ensures (forall n: nat :: n <= |t| ==> FieldRight(t, n, name)) <==> LastCovers(Parse(t).value.members, name)
  {
    hide Parse, Read, Cuttable, FieldRight;
    var members := Parse(t).value.members;
    if LastCovers(members, name) {
      forall n: nat | n <= |t| ensures FieldRight(t, n, name) {
        CoveredReadsRight(t, n, name);
      }
    } else {
      var k :| 0 <= k < |members| && members[k].name == name &&
        !(Lookup(members, name).Some? && Truncates(members[k].value, Lookup(members, name).value));
      LookupThere(members, name, k);
      var last := LookupPlace(members, name);
      assert last > k;
      var j := NextOfName(members, k, last);
      var n := EarlierIsRead(t, k, j);
      ReadWrong(t, n, name, members[..j], members[k].value);
    }
  }

  lemma ReadWrong(t: Text, n: nat, name: Text, members: seq<Member>, value: Value)
    requires n <= |t| && Parse(t).Some? && Parse(t).value.Obj? && Read(t[..n]) == Some(Obj(members))
    requires Lookup(members, name) == Some(value) && Lookup(Parse(t).value.members, name).Some?
    requires !Truncates(value, Lookup(Parse(t).value.members, name).value)
    ensures !FieldRight(t, n, name)
  {
    hide Parse, Read;
  }

  // A text whose prefix reads wrong: `{"a":true,"a":null}`, cut inside the second name.

  const TWICE: Text := [LBRACE, QUOTE, 97, QUOTE, COLON, 116, 114, 117, 101, COMMA, QUOTE, 97, QUOTE, COLON, 110, 117, 108, 108, RBRACE]

  lemma TwiceNames()
    ensures ParseChars(TWICE, 2) == Got([97], 4) && ParseChars(TWICE, 11) == Got([97], 13)
    ensures ParseName(TWICE, 1) == Got([97], 5) && ParseName(TWICE, 10) == Got([97], 14)
  {
    var a: Text := [97];
    assert ParseChars(TWICE, 3) == Got([], 4) && ParseChars(TWICE, 12) == Got([], 13) && a + [] == a;
    assert SkipSpace(TWICE, 4) == 4 && SkipSpace(TWICE, 5) == 5 && SkipSpace(TWICE, 13) == 13 && SkipSpace(TWICE, 14) == 14;
  }

  lemma TwiceValues()
    ensures ParseValue(TWICE, 5) == Got(Bool(true), 9) && ParseValue(TWICE, 14) == Got(Null, 18)
  {
    assert WordEnd(TWICE, 9) == 9 && WordEnd(TWICE, 8) == 9 && WordEnd(TWICE, 7) == 9 && WordEnd(TWICE, 6) == 9;
    assert WordEnd(TWICE, 18) == 18 && WordEnd(TWICE, 17) == 18 && WordEnd(TWICE, 16) == 18 && WordEnd(TWICE, 15) == 18;
    assert TWICE[5..9] == TRUE && TWICE[14..18] == NULL;
  }

  lemma TwiceMembers()
    ensures ParseMembers(TWICE, 1) == Got([Member([97], Bool(true)), Member([97], Null)], 19)
    ensures StartOf(TWICE, 1, 1) == 10
  {
    TwiceNames();
    TwiceValues();
    hide ParseName, ParseValue;
    assert SkipSpace(TWICE, 9) == 9 && SkipSpace(TWICE, 10) == 10 && SkipSpace(TWICE, 18) == 18;
    assert ParseMember(TWICE, 1) == Got(Member([97], Bool(true)), 9);
    assert ParseMember(TWICE, 10) == Got(Member([97], Null), 18);
    assert ParseMembers(TWICE, 10) == Got([Member([97], Null)], 19);
    assert [Member([97], Bool(true))] + [Member([97], Null)] == [Member([97], Bool(true)), Member([97], Null)];
    MembersRead(TWICE, 1, ParseMember(TWICE, 1), ParseSeparator(TWICE, 9, RBRACE));
    assert CommaAfter(TWICE, 1) == 9 && NextStart(TWICE, 1) == 10;
    assert StartOf(TWICE, 10, 0) == 10;
  }

  lemma TwiceLexed()
    ensures LexAt(TWICE, 1) == START.(closers := [RBRACE]) && IsWhole(TWICE, 3) && IsWhole(TWICE, 12)
  {
    assert LexAt(TWICE, 0) == START && LexAt(TWICE, 1) == START.(closers := [RBRACE]);
    PlainName(TWICE, 1);
    PlainBalance(TWICE, 4, 10);
    PlainName(TWICE, 10);
  }

  /** A name of one plain unit. */
  lemma PlainName(t: Text, i: nat)
    requires i + 3 <= |t| && t[i] == QUOTE && t[i + 1] == 97 && t[i + 2] == QUOTE && !LexAt(t, i).inString
    ensures LexAt(t, i + 3) == LexAt(t, i) && IsWhole(t, i + 2)
  {
    assert LexAt(t, i + 1) == LexAt(t, i).(inString := true);
    assert LexAt(t, i + 2) == LexAt(t, i).(inString := true);
  }

  lemma TwiceReads()
    ensures Parse(TWICE) == Some(Obj([Member([97], Bool(true)), Member([97], Null)])) && ParseValue(TWICE, 0).Got?
    ensures HasMembers(TWICE, 0, 1, [Member([97], Bool(true)), Member([97], Null)])
  {
    TwiceMembers();
    TwiceLexed();
    hide ParseMembers, LexAt;
    assert SkipSpace(TWICE, 0) == 0 && SkipSpace(TWICE, 1) == 1 && SkipSpace(TWICE, 19) == 19;
    assert Opens(TWICE, 0, 1);
    ParsesAs(TWICE, 0, 1);
  }

  /** The prefix reads the first of the two values, which is no truncation of the last. */
  lemma RepeatedNameReadsEarlier()
    ensures var first, last := Member([97], Bool(true)), Member([97], Null);
      && Parse(TWICE) == Some(Obj([first, last])) && Read(TWICE[..12]) == Some(Obj([first]))
      && !FieldRight(TWICE, 12, [97])
  {
    var first, last := Member([97], Bool(true)), Member([97], Null);
    var members := [first, last];
    TwiceMembers();
    TwiceLexed();
    TwiceNames();
    TwiceReads();
    hide ParseMembers, StartOf, LexAt, ParseChars, IsWhole, Read, FieldRight, Parse, HasMembers;
    NameReadsBefore(TWICE, 0, 1, members, 1, 12);
    assert members[..1] == [first];
    LastOfName(members, 1);
    LastOfName([first], 0);
    ReadWrong(TWICE, 12, [97], [first], Bool(true));
  }

  /** What is shown can go away again: the empty object does while its first name is written. */
  lemma FirstNameHidesObject()
    ensures Parse(TWICE).Some? && Read(TWICE[..1]) == Some(Obj([])) && Read(TWICE[..3]) == None
  {
    TwiceReads();
    TwiceLexed();
    TwiceMembers();
    TwiceNames();
    hide ParseMembers, LexAt, ParseChars, Read, Parse, MembersTo;
    MembersEndInText(TWICE, 0, 1, Parse(TWICE).value.members);
    assert LexAt(TWICE, 1) == START.(closers := [RBRACE]);
    BracketIsRead(TWICE, 1);
    assert ObjectTo(TWICE, 1, 1) == Some([]);
    assert TextTo(TWICE, 1) == Some(Obj([]));
    var c := PrefixReads(TWICE, 3, 3);
    if c > 0 {
      assert Stop(TWICE, 3, c);
      assert c == 3;
      MembersInName(TWICE, 1, 0, 3);
      ObjectStands(TWICE, 0, 1, 3);
      assert false;
    }
    NothingYet(TWICE);
  }
}
