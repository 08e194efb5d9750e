/** The size-bounded cache of highlighted code (Markdown.tsx, `codeHtml`). */
module CodeCache {

  const CACHE_LIMIT: nat := 1_000_000
  const NUL: char := '\0'

  datatype Entry = Entry(key: string, html: string)

  function Key(text: string, language: string): string {
    language + ([NUL] + text)
  }

  /** The longer name starts with the shorter one and a NUL. */
  predicate Extends(shorter: string, longer: string) {
    |shorter| < |longer| && longer[..|shorter| + 1] == shorter + [NUL]
  }

  /** Language names none of which so extends another. */
  ghost predicate ToldApart(languages: iset<string>) {
    forall a, b :: a in languages && b in languages ==> !Extends(a, b)
  }

  lemma KeyParts(text: string, language: string)
    ensures var key := Key(text, language);
      |key| == |language| + 1 + |text| && key[..|language|] == language && key[|language|] == NUL && key[|language| + 1..] == text
  {}

  /** A name can only be confused with one that extends it. */
  lemma SharedExtends(text: string, language: string, text': string, language': string)
    requires Key(text, language) == Key(text', language') && |language| <= |language'|
    ensures (language == language' && text == text') || Extends(language, language')
  {
    hide Key;
    KeyParts(text, language);
    KeyParts(text', language');
    var key := Key(text, language);
    if |language| < |language'| {
      assert key[..|language'|][..|language| + 1] == key[..|language|] + [key[|language|]];
    }
  }

  /** The text that makes the shorter name share a key with the longer one. */
  function Disguised(text: string, shorter: string, longer: string): string
    requires Extends(shorter, longer)
  {
    longer[|shorter| + 1..] + ([NUL] + text)
  }

  lemma DisguisedShares(text: string, shorter: string, longer: string)
    requires Extends(shorter, longer)
    ensures Key(Disguised(text, shorter, longer), shorter) == Key(text, longer)
  {
    assert longer == shorter + [NUL] + longer[|shorter| + 1..];
  }

  /** Two language names can be confused exactly when one extends the other by a NUL. */
  lemma NamesShareKeys(language: string, language': string)
    requires language != language'
    ensures (exists text, text' :: Key(text, language) == Key(text', language')) <==>
      Extends(language, language') || Extends(language', language)
  {
    if text, text' :| Key(text, language) == Key(text', language') {
      if |language| <= |language'| {
        SharedExtends(text, language, text', language');
      } else {
        SharedExtends(text', language', text, language);
      }
    }
    if Extends(language, language') {
      DisguisedShares("", language, language');
    }
    if Extends(language', language) {
      DisguisedShares("", language', language);
    }
  }

  /** Names told apart cannot be confused. */
  lemma KeysTell(text: string, language: string, text': string, language': string, languages: iset<string>)
    requires ToldApart(languages) && language in languages && language' in languages
    requires Key(text, language) == Key(text', language')
    ensures text == text' && language == language'
  {
    if |language| <= |language'| {
      SharedExtends(text, language, text', language');
    } else {
      SharedExtends(text', language', text, language);
    }
  }

  /** Names without NUL are told apart. */
  lemma NulFreeToldApart(languages: iset<string>)
    requires forall l :: l in languages ==> NUL !in l
    ensures ToldApart(languages)
  {
    forall a, b | a in languages && b in languages ensures !Extends(a, b) {
      assert |a| < |b| ==> b[|a|] != NUL;
    }
  }

  function SizeOf(entry: Entry): nat {
    |entry.key| + |entry.html|
  }

  function Total(entries: seq<Entry>): nat {
    if entries == [] then 0 else SizeOf(entries[0]) + Total(entries[1..])
  }

  lemma {:induction false} TotalSum(a: seq<Entry>, b: seq<Entry>)
    ensures Total(a + b) == Total(a) + Total(b)
    ensures |b| == 1 ==> Total(b) == SizeOf(b[0])
  {
    if a == [] {
      assert a + b == b;
    } else {
      assert (a + b)[1..] == a[1..] + b;
      TotalSum(a[1..], b);
    }
  }

  /** Where the key stands, oldest first, or -1. */
  function PlaceOf(entries: seq<Entry>, key: string): (at: int)
    ensures -1 <= at < |entries|
    ensures at >= 0 ==> entries[at].key == key
    ensures at < 0 ==> forall k :: 0 <= k < |entries| ==> entries[k].key != key
  {
    if entries == [] then -1
    else if entries[|entries| - 1].key == key then |entries| - 1
    else PlaceOf(entries[..|entries| - 1], key)
  }

  /** The entries left when the oldest are dropped until they fit in `room`. */
  function Evicted(entries: seq<Entry>, room: nat): (left: seq<Entry>)
    ensures forall e :: e in left ==> e in entries
  {
    if Total(entries) <= room then entries else Evicted(entries[1..], room)
  }

  /** Only the oldest are dropped, and not one more than needed. */
  lemma {:induction false} EvictsNoMore(entries: seq<Entry>, room: nat) returns (dropped: nat)
    ensures dropped <= |entries| && Evicted(entries, room) == entries[dropped..] && Total(entries[dropped..]) <= room
    ensures dropped > 0 ==> Total(entries[dropped - 1..]) > room
  {
    dropped := 0;
    if Total(entries) > room {
      dropped := EvictsNoMore(entries[1..], room);
      assert entries[1..][dropped..] == entries[dropped + 1..];
      if dropped > 0 {
        assert entries[1..][dropped - 1..] == entries[dropped..];
      }
      dropped := dropped + 1;
    } else {
      assert entries[0..] == entries;
    }
  }

  /** The entries after a code block is asked for, its html being `html` when it is not held. */
  function Asked(entries: seq<Entry>, key: string, html: string): (asked: seq<Entry>)
    ensures forall e :: e in asked ==> e in entries || e == Entry(key, html)
  {
    var at := PlaceOf(entries, key);
    if at >= 0 then entries[..at] + entries[at + 1..] + [entries[at]]
    else if |key| + |html| > CACHE_LIMIT then entries
    else Evicted(entries, CACHE_LIMIT - (|key| + |html|)) + [Entry(key, html)]
  }

  function Answer(entries: seq<Entry>, key: string, html: string): string {
    var at := PlaceOf(entries, key);
    if at >= 0 then entries[at].html else html
  }

  ghost predicate Distinct(entries: seq<Entry>) {
    forall i, j :: 0 <= i < j < |entries| ==> entries[i].key != entries[j].key
  }

  /** The entry holds what highlighting gives, for every block in those languages its key can stand for. */
  ghost predicate IsFaithful(entry: Entry, highlight: (string, string) -> string, languages: iset<string>) {
    forall text, language :: language in languages && entry.key == Key(text, language) ==>
      entry.html == highlight(text, language)
  }

  ghost predicate Faithful(entries: seq<Entry>, highlight: (string, string) -> string, languages: iset<string>) {
    forall e :: e in entries ==> IsFaithful(e, highlight, languages)
  }

  function Keys(entries: seq<Entry>): (keys: seq<string>)
    ensures |keys| == |entries| && forall k :: 0 <= k < |keys| ==> keys[k] == entries[k].key
  {
    seq(|entries|, k requires 0 <= k < |entries| => entries[k].key)
  }

  /** The keys ever held, the one used last at the end. */
  function Used(recent: seq<string>, key: string): seq<string> {
    Others(recent, key) + [key]
  }

  function Others(recent: seq<string>, key: string): seq<string> {
    if recent == [] then []
    else if recent[0] == key then Others(recent[1..], key)
    else [recent[0]] + Others(recent[1..], key)
  }

  predicate IsSuffix(part: seq<string>, whole: seq<string>) {
    |part| <= |whole| && whole[|whole| - |part|..] == part
  }

  lemma {:induction false} OthersSum(a: seq<string>, b: seq<string>, key: string)
    ensures Others(a + b, key) == Others(a, key) + Others(b, key)
  {
    if a == [] {
      assert a + b == b;
    } else {
      assert (a + b)[1..] == a[1..] + b;
      OthersSum(a[1..], b, key);
    }
  }

  lemma {:induction false} OthersSame(keys: seq<string>, key: string)
    requires key !in keys
    ensures Others(keys, key) == keys
  {
    if keys != [] {
      OthersSame(keys[1..], key);
    }
  }

  /** Moving a key to the end keeps what follows it in step. */
  lemma UsedSuffix(recent: seq<string>, before: seq<string>, after: seq<string>, key: string)
    requires key !in before && key !in after
    ensures IsSuffix(before + after, recent) ==> IsSuffix(before + after + [key], Used(recent, key))
    ensures IsSuffix(before + [key] + after, recent) ==> IsSuffix(before + after + [key], Used(recent, key))
  {
    OthersSame(before, key);
    OthersSame(after, key);
    OthersSum(before, after, key);
    OthersSum(before + [key], after, key);
    OthersSum(before, [key], key);
    assert Others([key], key) == [];
    if IsSuffix(before + after, recent) {
      Behind(recent, before + after, before + after, key);
    }
    if IsSuffix(before + [key] + after, recent) {
      Behind(recent, before + [key] + after, before + after, key);
    }
  }

  lemma Behind(recent: seq<string>, part: seq<string>, others: seq<string>, key: string)
    requires IsSuffix(part, recent) && Others(part, key) == others
    ensures IsSuffix(others + [key], Used(recent, key))
  {
    var front := recent[..|recent| - |part|];
    assert recent == front + part;
    OthersSum(front, part, key);
    assert Used(recent, key) == Others(front, key) + (others + [key]);
  }

  lemma SuffixOfSuffix(part: seq<string>, whole: seq<string>, dropped: nat)
    requires IsSuffix(part, whole) && dropped <= |part|
    ensures IsSuffix(part[dropped..], whole)
  {
    assert whole[|whole| - |part| + dropped..] == whole[|whole| - |part|..][dropped..];
  }

  lemma MovedTotal(before: seq<Entry>, e: Entry, after: seq<Entry>)
    ensures Total(before + after + [e]) == Total(before + [e] + after)
  {
    TotalSum(before + [e], after);
    TotalSum(before, [e]);
    TotalSum(before + after, [e]);
    TotalSum(before, after);
  }

  lemma MovedDistinct(entries: seq<Entry>, at: nat)
    requires Distinct(entries) && at < |entries|
    ensures Distinct(entries[..at] + entries[at + 1..] + [entries[at]])
  {
  }

  lemma KeysMoved(before: seq<Entry>, e: Entry, after: seq<Entry>)
    ensures Keys(before + [e] + after) == Keys(before) + [e.key] + Keys(after)
    ensures Keys(before + after + [e]) == Keys(before) + Keys(after) + [e.key]
  {
  }

  lemma OneKey(entries: seq<Entry>, at: nat)
    requires Distinct(entries) && at < |entries|
    ensures entries[at].key !in Keys(entries[..at]) && entries[at].key !in Keys(entries[at + 1..])
  {
  }

  lemma HitKeeps(entries: seq<Entry>, recent: seq<string>, at: nat)
    requires Distinct(entries) && IsSuffix(Keys(entries), recent) && at < |entries|
    ensures var moved := entries[..at] + entries[at + 1..] + [entries[at]];
      && Distinct(moved) && Total(moved) == Total(entries)
      && IsSuffix(Keys(moved), Used(recent, entries[at].key))
  {
    var before, after, e := entries[..at], entries[at + 1..], entries[at];
    assert entries == before + [e] + after;
    hide Total, Used, IsSuffix, Distinct;
    OneKey(entries, at);
    MovedTotal(before, e, after);
    MovedDistinct(entries, at);
    KeysMoved(before, e, after);
    UsedSuffix(recent, Keys(before), Keys(after), e.key);
  }

  lemma KeptDistinct(entries: seq<Entry>, dropped: nat, entry: Entry)
    requires Distinct(entries) && dropped <= |entries|
    requires forall k :: 0 <= k < |entries| ==> entries[k].key != entry.key
    ensures Distinct(entries[dropped..] + [entry]) && entry.key !in Keys(entries[dropped..])
    ensures Keys(entries[dropped..]) == Keys(entries)[dropped..]
  {
  }

  lemma MissKeeps(entries: seq<Entry>, recent: seq<string>, entry: Entry)
    requires Distinct(entries) && IsSuffix(Keys(entries), recent) && SizeOf(entry) <= CACHE_LIMIT
    requires forall k :: 0 <= k < |entries| ==> entries[k].key != entry.key
    ensures var held := Evicted(entries, CACHE_LIMIT - SizeOf(entry)) + [entry];
      Distinct(held) && Total(held) <= CACHE_LIMIT && IsSuffix(Keys(held), Used(recent, entry.key))
  {
    hide Distinct, Total, IsSuffix, Used, Evicted;
    var room := CACHE_LIMIT - SizeOf(entry);
    var dropped := EvictsNoMore(entries, room);
    var kept := entries[dropped..];
    TotalSum(kept, [entry]);
    KeptDistinct(entries, dropped, entry);
    SuffixOfSuffix(Keys(entries), recent, dropped);
    KeysMoved(kept, entry, []);
    assert kept + [] == kept && Keys([]) == [] && Keys(kept) + [] == Keys(kept);
    UsedSuffix(recent, Keys(kept), [], entry.key);
  }

  lemma AskedKeeps(entries: seq<Entry>, recent: seq<string>, key: string, made: string)
    requires Distinct(entries) && Total(entries) <= CACHE_LIMIT && IsSuffix(Keys(entries), recent)
    ensures var asked := Asked(entries, key, made);
      && Distinct(asked) && Total(asked) <= CACHE_LIMIT
      && (PlaceOf(entries, key) >= 0 ==> Total(asked) == Total(entries))
      && IsSuffix(Keys(asked), if PlaceOf(asked, key) >= 0 then Used(recent, key) else recent)
  {
    hide Distinct, Used, Total, Evicted, IsSuffix;
    var at := PlaceOf(entries, key);
    var asked := Asked(entries, key, made);
    if at >= 0 {
      HitKeeps(entries, recent, at);
      assert asked[|asked| - 1].key == key;
    } else if |key| + |made| <= CACHE_LIMIT {
      MissKeeps(entries, recent, Entry(key, made));
      assert asked[|asked| - 1].key == key;
    }
  }

  /** What is held stays faithful when a faithful entry is asked for, whatever is dropped for it. */
  lemma AskedFaithful(entries: seq<Entry>, entry: Entry, highlight: (string, string) -> string, languages: iset<string>)
    requires Faithful(entries, highlight, languages) && IsFaithful(entry, highlight, languages)
    ensures Faithful(Asked(entries, entry.key, entry.html), highlight, languages)
  {
    hide Asked, IsFaithful;
  }

  /** A cache that is faithful answers what highlighting gives. */
  lemma AnswersFaithfully(entries: seq<Entry>, text: string, language: string, highlight: (string, string) -> string,
                          languages: iset<string>)
    requires Faithful(entries, highlight, languages) && language in languages
    ensures Answer(entries, Key(text, language), highlight(text, language)) == highlight(text, language)
  {
    hide Key, IsFaithful;
    var at := PlaceOf(entries, Key(text, language));
    if at >= 0 {
      FaithfulEntry(entries[at], text, language, highlight, languages);
    }
  }

  lemma MadeIsFaithful(text: string, language: string, highlight: (string, string) -> string, languages: iset<string>)
    requires ToldApart(languages) && language in languages
    ensures IsFaithful(Entry(Key(text, language), highlight(text, language)), highlight, languages)
  {
    hide Key, ToldApart;
    forall text', language' | language' in languages && Key(text, language) == Key(text', language')
      ensures highlight(text, language) == highlight(text', language')
    {
      KeysTell(text, language, text', language', languages);
    }
  }

  lemma FaithfulEntry(entry: Entry, text: string, language: string, highlight: (string, string) -> string,
                      languages: iset<string>)
    requires IsFaithful(entry, highlight, languages) && language in languages && entry.key == Key(text, language)
    ensures entry.html == highlight(text, language)
  {
    hide Key;
  }

  /** The cache after a sequence of blocks. */
  function AskedAll(blocks: seq<(string, string)>, highlight: (string, string) -> string): seq<Entry> {
    if blocks == [] then []
    else
      var (text, language) := blocks[|blocks| - 1];
      Asked(AskedAll(blocks[..|blocks| - 1], highlight), Key(text, language), highlight(text, language))
  }

  /** Over every run in languages told apart, every block is shown what highlighting gives. */
  lemma {:induction false} RunIsFaithful(blocks: seq<(string, string)>, text: string, language: string,
                                         highlight: (string, string) -> string, languages: iset<string>)
    requires ToldApart(languages) && language in languages
    requires forall k :: 0 <= k < |blocks| ==> blocks[k].1 in languages
    ensures Faithful(AskedAll(blocks, highlight), highlight, languages)
    ensures Answer(AskedAll(blocks, highlight), Key(text, language), highlight(text, language)) == highlight(text, language)
  {
    hide Key, ToldApart, IsFaithful, Faithful, Asked, Answer;
    if blocks == [] {
      NothingIsFaithful(highlight, languages);
    } else {
      var (text', language') := blocks[|blocks| - 1];
      RunIsFaithful(blocks[..|blocks| - 1], text, language, highlight, languages);
      MadeIsFaithful(text', language', highlight, languages);
      AskedFaithful(AskedAll(blocks[..|blocks| - 1], highlight), Entry(Key(text', language'), highlight(text', language')),
                    highlight, languages);
    }
    AnswersFaithfully(AskedAll(blocks, highlight), text, language, highlight, languages);
  }

  lemma NothingIsFaithful(highlight: (string, string) -> string, languages: iset<string>)
    ensures Faithful([], highlight, languages)
  {}

  lemma SecondIsFirst(key: string, html: string, html': string)
    ensures |key| + |html| <= CACHE_LIMIT ==> Answer(Asked([], key, html), key, html') == html
  {
    if |key| + |html| <= CACHE_LIMIT {
      assert Evicted([], CACHE_LIMIT - (|key| + |html|)) == [];
      assert Asked([], key, html) == [Entry(key, html)];
    }
  }

  /** Names not told apart confuse every text: of the two blocks whichever comes first, if it is held,
      is shown for the other, which is wrong exactly when highlighting tells them apart. */
  lemma NulConfuses(text: string, shorter: string, longer: string, highlight: (string, string) -> string)
    requires Extends(shorter, longer)
    ensures var other := Disguised(text, shorter, longer);
      var key, html, html' := Key(text, longer), highlight(text, longer), highlight(other, shorter);
      && key == Key(other, shorter)
      && (|key| + |html| <= CACHE_LIMIT ==>
            (Answer(Asked([], key, html), Key(other, shorter), html') != highlight(other, shorter) <==> html != html'))
      && (|key| + |html'| <= CACHE_LIMIT ==>
            (Answer(Asked([], key, html'), Key(text, longer), html) != highlight(text, longer) <==> html != html'))
  {
    hide Asked, Answer, Key;
    var other := Disguised(text, shorter, longer);
    var key, html, html' := Key(text, longer), highlight(text, longer), highlight(other, shorter);
    DisguisedShares(text, shorter, longer);
    SecondIsFirst(key, html, html');
    SecondIsFirst(key, html', html);
  }

  /** Such names: `b` and `b` with a NUL and more behind it. */
  lemma NulExtends()
    ensures Extends("b", "b\0c") && Disguised("a", "b", "b\0c") == "c\0a" && Key("c\0a", "b") == Key("a", "b\0c")
  {
    assert "b\0c"[..2] == "b" + [NUL];
    assert "b\0c"[2..] == "c";
    DisguisedShares("a", "b", "b\0c");
  }

  class Cache {
    const highlight: (string, string) -> string
    var highlighted: seq<Entry>
    var cacheSize: nat
    /** Every key held at some time, the one asked for last at the end. */
    ghost var recent: seq<string>

    ghost predicate Valid()
      reads this
    {
      && Distinct(highlighted)
      && cacheSize == Total(highlighted) <= CACHE_LIMIT
      && IsSuffix(Keys(highlighted), recent)
    }

    constructor (highlight: (string, string) -> string)
      ensures Valid() && this.highlight == highlight && highlighted == [] && recent == []
    {
      this.highlight := highlight;
      highlighted, cacheSize, recent := [], 0, [];
    }

    /** Drops the oldest entries until `size` more units fit. */
    method MakeRoom(size: nat)
      requires cacheSize == Total(highlighted) && size <= CACHE_LIMIT
      modifies this`highlighted, this`cacheSize
      ensures highlighted == Evicted(old(highlighted), CACHE_LIMIT - size)
      ensures cacheSize == Total(highlighted) && cacheSize + size <= CACHE_LIMIT
    {
      while cacheSize + size > CACHE_LIMIT
        invariant cacheSize == Total(highlighted)
        invariant Evicted(highlighted, CACHE_LIMIT - size) == Evicted(old(highlighted), CACHE_LIMIT - size)
        decreases |highlighted|
      {
        var oldest := highlighted[0];
        cacheSize := cacheSize - SizeOf(oldest);
        highlighted := highlighted[1..];
      }
    }

    /** What is asked for again becomes the newest. */
    method Renew(at: nat)
      requires at < |highlighted|
      modifies this`highlighted
      ensures |highlighted| == old(|highlighted|) && highlighted[|highlighted| - 1] == old(highlighted[at])
      ensures forall k :: 0 <= k < at ==> highlighted[k] == old(highlighted[k])
      ensures forall k :: at <= k < |highlighted| - 1 ==> highlighted[k] == old(highlighted)[k + 1]
      ensures Total(highlighted) == old(Total(highlighted))
      ensures old(Distinct(highlighted)) ==> Distinct(highlighted)
    {
      hide Total, Distinct;
      assert highlighted == highlighted[..at] + [highlighted[at]] + highlighted[at + 1..];
      MovedTotal(highlighted[..at], highlighted[at], highlighted[at + 1..]);
      if Distinct(highlighted) {
        MovedDistinct(highlighted, at);
      }
      highlighted := highlighted[..at] + highlighted[at + 1..] + [highlighted[at]];
    }

    method Hold(key: string, html: string)
      requires cacheSize == Total(highlighted) && |key| + |html| <= CACHE_LIMIT
      modifies this`highlighted, this`cacheSize
      ensures highlighted == Evicted(old(highlighted), CACHE_LIMIT - (|key| + |html|)) + [Entry(key, html)]
      ensures cacheSize == Total(highlighted)
    {
      MakeRoom(|key| + |html|);
      TotalSum(highlighted, [Entry(key, html)]);
      highlighted := highlighted + [Entry(key, html)];
      cacheSize := cacheSize + |key| + |html|;
    }

    /** The variables after a request, and what it answers. */
    method Ask(key: string, made: string) returns (html: string)
      requires cacheSize == Total(highlighted)
      modifies this`highlighted, this`cacheSize
      ensures html == Answer(old(highlighted), key, made)
      ensures highlighted == Asked(old(highlighted), key, made)
      ensures cacheSize == if PlaceOf(old(highlighted), key) >= 0 then old(cacheSize) else Total(highlighted)
    {
      hide Total, Evicted;
      var at := PlaceOf(highlighted, key);
      if at >= 0 {
        html := highlighted[at].html;
        ghost var before := highlighted;
        Renew(at);
        assert highlighted == before[..at] + before[at + 1..] + [before[at]];
      } else {
        html := made;
        if |key| + |html| <= CACHE_LIMIT {
          Hold(key, html);
        }
      }
    }

    /** `language` is empty where the block names none; highlighting makes no difference between the two.
        `languages` are those in use. */
    method CodeHtml(text: string, language: string, ghost languages: iset<string>) returns (html: string)
      requires Valid()
      modifies this
      ensures Valid()
      ensures var key, made := Key(text, language), highlight(text, language);
        && html == Answer(old(highlighted), key, made)
        && highlighted == Asked(old(highlighted), key, made)
        && recent == if PlaceOf(highlighted, key) >= 0 then Used(old(recent), key) else old(recent)
      // The keys held are the ones used last, in the order they were last used.
      ensures IsSuffix(Keys(highlighted), recent)
      ensures old(Faithful(highlighted, highlight, languages)) && ToldApart(languages) && language in languages ==>
        html == highlight(text, language) && Faithful(highlighted, highlight, languages)
    {
      hide Distinct, IsSuffix, Used, Faithful, Key, PlaceOf, ToldApart, Evicted, Total, Asked, Answer;
      var key := Key(text, language);
      AskedKeeps(highlighted, recent, key, highlight(text, language));
      if Faithful(highlighted, highlight, languages) && ToldApart(languages) && language in languages {
        AnswersFaithfully(highlighted, text, language, highlight, languages);
        MadeIsFaithful(text, language, highlight, languages);
        AskedFaithful(highlighted, Entry(key, highlight(text, language)), highlight, languages);
      }
      html := Ask(key, highlight(text, language));
      recent := if PlaceOf(highlighted, key) >= 0 then Used(recent, key) else recent;
    }
  }
}
