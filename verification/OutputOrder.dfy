/** The order of the outputs of a chat, and which version is the last (OutputScope.tsx, `versionsOf` of
    outputBlocks.ts). */
module OutputOrder {
  import opened Basics
  import opened OutputScope

  // Sorting.

  predicate Ascending(list: seq<Entry>) {
    forall i, j :: 0 <= i < j < |list| ==> list[i].order <= list[j].order
  }

  /** The entries of one time, in order. */
  function AtTime(list: seq<Entry>, order: int): seq<Entry> {
    if list == [] then []
    else AtTime(list[..|list| - 1], order) + if list[|list| - 1].order == order then [list[|list| - 1]] else []
  }

  lemma AtTimeMore(list: seq<Entry>, entry: Entry, order: int)
    ensures AtTime(list + [entry], order) == AtTime(list, order) + if entry.order == order then [entry] else []
  {
    assert (list + [entry])[..|list|] == list;
  }

  predicate AtMost(list: seq<Entry>, order: int) {
    forall k :: 0 <= k < |list| ==> list[k].order <= order
  }

  lemma {:induction false} InsertAtMost(list: seq<Entry>, entry: Entry, order: int)
    requires AtMost(list, order) && entry.order <= order
    ensures AtMost(Insert(list, entry), order)
  {
    if list != [] && list[|list| - 1].order > entry.order {
      InsertAtMost(list[..|list| - 1], entry, order);
    }
  }

  lemma {:induction false} InsertAscends(list: seq<Entry>, entry: Entry)
    requires Ascending(list)
    ensures Ascending(Insert(list, entry))
  {
    if list != [] && list[|list| - 1].order > entry.order {
      var rest, last := list[..|list| - 1], list[|list| - 1];
      InsertAscends(rest, entry);
      InsertAtMost(rest, entry, last.order);
    }
  }

  /** The entry comes after those of its own time. */
  lemma {:induction false} InsertIsStable(list: seq<Entry>, entry: Entry, order: int)
    requires Ascending(list)
    ensures AtTime(Insert(list, entry), order) == AtTime(list, order) + if entry.order == order then [entry] else []
  {
    if list == [] || list[|list| - 1].order <= entry.order {
      AtTimeMore(list, entry, order);
      assert list + [entry] == Insert(list, entry);
    } else {
      var rest, last := list[..|list| - 1], list[|list| - 1];
      InsertIsStable(rest, entry, order);
      AtTimeMore(Insert(rest, entry), last, order);
      if last.order == order {
        assert entry.order != order;
      }
    }
  }

  /** Sorting puts the entries in order of time and leaves those of one time in the order they had. */
  lemma {:induction false} SortedInOrder(list: seq<Entry>)
    ensures Ascending(Sorted(list)) && multiset(Sorted(list)) == multiset(list)
    ensures forall order :: AtTime(Sorted(list), order) == AtTime(list, order)
  {
    if list != [] {
      var rest, last := list[..|list| - 1], list[|list| - 1];
      SortedInOrder(rest);
      InsertAscends(Sorted(rest), last);
      forall order ensures AtTime(Sorted(list), order) == AtTime(list, order) {
        InsertIsStable(Sorted(rest), last, order);
      }
    }
  }

  // The list kept by anchor.

  /** An entry takes the place of the one of its anchor, or comes last when there is none. */
  lemma {:induction false} PutInPlace(held: seq<Entry>, entry: Entry) returns (k: nat)
    ensures forall j :: 0 <= j < k <= |held| ==> held[j].output.anchor != entry.output.anchor
    ensures k <= |held| && if k == |held| then Put(held, entry) == held + [entry]
      else held[k].output.anchor == entry.output.anchor && Put(held, entry) == held[k := entry]
  {
    k := 0;
    if held != [] {
      assert held == [held[0]] + held[1..];
      if held[0].output.anchor != entry.output.anchor {
        k := PutInPlace(held[1..], entry);
        k := k + 1;
      }
    }
  }

  /** The last saved entry of the anchor is at `k`. */
  predicate SavedAt(saved: seq<Entry>, anchor: string, k: nat) {
    k < |saved| && saved[k].output.anchor == anchor && forall j :: k < j < |saved| ==> saved[j].output.anchor != anchor
  }

  lemma {:induction false} SavedFound(saved: seq<Entry>, anchor: string, k: nat)
    requires SavedAt(saved, anchor, k)
    ensures ByAnchor(saved, anchor) == Some(saved[k])
  {
    if k < |saved| - 1 {
      SavedFound(saved[..|saved| - 1], anchor, k);
    }
  }

  /** The last saved entry of the source is at `k`. */
  predicate SourceAt(saved: seq<Entry>, source: Option<string>, k: nat) {
    && k < |saved| && source.Some? && saved[k].output.source == source
    && forall j :: k < j < |saved| ==> saved[j].output.source != source
  }

  predicate NoAnchor(saved: seq<Entry>, anchor: string) {
    forall k :: 0 <= k < |saved| ==> saved[k].output.anchor != anchor
  }

  predicate NoSource(saved: seq<Entry>, source: Option<string>) {
    source.None? || forall k :: 0 <= k < |saved| ==> saved[k].output.source != source
  }

  lemma {:induction false} SourceFound(saved: seq<Entry>, source: Option<string>, k: nat)
    requires SourceAt(saved, source, k)
    ensures BySource(saved, source) == Some(saved[k])
  {
    if k < |saved| - 1 {
      SourceFound(saved[..|saved| - 1], source, k);
    }
  }

  /** An output is taken for the last saved one of its anchor, else for the last made by the same source, else for
      itself. */
  lemma ResolvesTo(saved: seq<Entry>, output: Output)
    ensures forall k: nat :: SavedAt(saved, output.anchor, k) ==> Resolve(saved, output) == saved[k].output
    ensures NoAnchor(saved, output.anchor) ==>
      forall k: nat :: SourceAt(saved, output.source, k) ==> Resolve(saved, output) == saved[k].output
    ensures NoAnchor(saved, output.anchor) && NoSource(saved, output.source) ==> Resolve(saved, output) == output
  {
    forall k: nat | SavedAt(saved, output.anchor, k) ensures Resolve(saved, output) == saved[k].output {
      SavedFound(saved, output.anchor, k);
    }
    forall k: nat | SourceAt(saved, output.source, k) ensures BySource(saved, output.source) == Some(saved[k]) {
      SourceFound(saved, output.source, k);
    }
  }

  /** The time of a listed output: of its saved record when there is one, else of the entry it was made from,
      the last that resolves to its anchor. */
  ghost predicate Timed(saved: seq<Entry>, entries: seq<Entry>, durable: bool, e: Entry) {
    && (forall k: nat :: SavedAt(saved, e.output.anchor, k) ==> e.order == saved[k].order)
    && exists k: nat :: MadeFrom(saved, entries, durable, e, k)
  }

  ghost predicate MadeFrom(saved: seq<Entry>, entries: seq<Entry>, durable: bool, e: Entry, k: nat) {
    && k < |entries| && Resolve(saved, entries[k].output) == e.output && (durable ==> e.output.revision.Some?)
    && (e.order == entries[k].order || exists j: nat :: SavedAt(saved, e.output.anchor, j))
    && forall j :: k < j < |entries| && Resolve(saved, entries[j].output).anchor == e.output.anchor ==>
         durable && Resolve(saved, entries[j].output).revision.None?
  }

  lemma {:induction false} SavedPlace(saved: seq<Entry>, anchor: string) returns (k: nat)
    requires ByAnchor(saved, anchor).Some?
    ensures SavedAt(saved, anchor, k) && ByAnchor(saved, anchor) == Some(saved[k])
  {
    k := |saved| - 1;
    if saved[k].output.anchor != anchor {
      k := SavedPlace(saved[..k], anchor);
    }
  }

  lemma NewIsTimed(saved: seq<Entry>, entries: seq<Entry>, durable: bool, e: Entry)
    requires entries != [] && e.output == Resolve(saved, entries[|entries| - 1].output) && (durable ==> e.output.revision.Some?)
    requires var found := ByAnchor(saved, e.output.anchor);
      e.order == if found.Some? then found.value.order else entries[|entries| - 1].order
    ensures Timed(saved, entries, durable, e)
  {
    hide Resolve;
    forall k: nat | SavedAt(saved, e.output.anchor, k) ensures e.order == saved[k].order {
      SavedFound(saved, e.output.anchor, k);
    }
    if ByAnchor(saved, e.output.anchor).Some? {
      var k := SavedPlace(saved, e.output.anchor);
    }
    assert MadeFrom(saved, entries, durable, e, |entries| - 1);
  }

  lemma StillTimed(saved: seq<Entry>, entries: seq<Entry>, durable: bool, e: Entry)
    requires entries != [] && Timed(saved, entries[..|entries| - 1], durable, e)
    requires var output := Resolve(saved, entries[|entries| - 1].output);
      output.anchor != e.output.anchor || (durable && output.revision.None?)
    ensures Timed(saved, entries, durable, e)
  {
    hide Resolve;
    var rest := entries[..|entries| - 1];
    var k: nat :| MadeFrom(saved, rest, durable, e, k);
    assert forall j :: 0 <= j < |rest| ==> rest[j] == entries[j];
    assert MadeFrom(saved, entries, durable, e, k);
  }

  lemma {:induction false} MergedIsTimed(saved: seq<Entry>, entries: seq<Entry>, durable: bool)
    requires Recorded(saved) && NamedByRevision(entries)
    ensures forall e :: e in Merged(saved, entries, durable) ==> Timed(saved, entries, durable, e)
  {
    hide Resolve, Timed, Put, Recorded, NamedByRevision;
    if entries != [] {
      var rest, entry := entries[..|entries| - 1], entries[|entries| - 1];
      NamedBefore(entries);
      MergedIsTimed(saved, rest, durable);
      MergedIs(saved, rest, durable);
      var held, output := Merged(saved, rest, durable), Resolve(saved, entry.output);
      var found := ByAnchor(saved, output.anchor);
      var put := Entry(output, if found.Some? then found.value.order else entry.order);
      var dropped := durable && output.revision.None?;
      if !dropped {
        NewIsTimed(saved, entries, durable, put);
      }
      forall e | e in Merged(saved, entries, durable) ensures Timed(saved, entries, durable, e) {
        if dropped {
          StillTimed(saved, entries, durable, e);
        } else if e != put {
          PutOthers(held, put, e);
          StillTimed(saved, entries, durable, e);
        }
      }
    }
  }

  lemma NamedBefore(entries: seq<Entry>)
    requires entries != [] && NamedByRevision(entries)
    ensures NamedByRevision(entries[..|entries| - 1])
  {}

  lemma PutOthers(held: seq<Entry>, entry: Entry, e: Entry)
    requires OneEach(held) && e in Put(held, entry) && e != entry
    ensures e in held && e.output.anchor != entry.output.anchor
  {
    hide Put;
    var k := PutInPlace(held, entry);
    var i :| 0 <= i < |Put(held, entry)| && Put(held, entry)[i] == e;
    assert i != k && held[i] == e;
  }

  // The list of all outputs.

  /** The entries behind the list of all outputs, which is in the order of their times. */
  lemma AllInOrder(saved: seq<Entry>, entries: seq<Entry>, durable: bool) returns (sorted: seq<Entry>)
    requires Recorded(saved) && NamedByRevision(entries)
    ensures Outputs(sorted) == AllOf(saved, entries, durable) && Ascending(sorted) && OneEach(sorted)
    ensures forall e :: e in sorted ==> Timed(saved, saved + entries, durable, e)
    ensures forall order :: AtTime(sorted, order) == AtTime(Merged(saved, saved + entries, durable), order)
  {
    hide Timed, Recorded;
    var merged := Merged(saved, saved + entries, durable);
    NamedAlong(saved, entries);
    sorted := Sorted(merged);
    SortedInOrder(merged);
    MergedIs(saved, saved + entries, durable);
    SameEach(merged, sorted);
    MergedIsTimed(saved, saved + entries, durable);
    forall e | e in sorted ensures Timed(saved, saved + entries, durable, e) {
      SortedIn(merged, e);
    }
  }

  /** The last version of a listed output is one of its versions, and none of them is later. */
  lemma LastIsNewest(saved: seq<Entry>, entries: seq<Entry>, durable: bool, output: Output)
    returns (sorted: seq<Entry>, at: nat)
    requires Recorded(saved) && NamedByRevision(entries) && HasAnchor(AllOf(saved, entries, durable), output.anchor)
    ensures Outputs(sorted) == AllOf(saved, entries, durable) && at < |sorted|
    ensures sorted[at].output == LastOf(AllOf(saved, entries, durable), output) && OneOf(sorted[at].output, output)
    ensures forall k :: 0 <= k < |sorted| && OneOf(sorted[k].output, output) ==> sorted[k].order <= sorted[at].order
    ensures forall e :: e in sorted ==> Timed(saved, saved + entries, durable, e)
  {
    hide Timed, Recorded, LastVersion, Merged, AllOf, OneEach;
    var all := AllOf(saved, entries, durable);
    sorted := AllInOrder(saved, entries, durable);
    var k :| 0 <= k < |all| && all[k].anchor == output.anchor;
    assert IsVersion(all[k], output);
    at := LastVersion(all, output);
    forall k | 0 <= k < |sorted| && OneOf(sorted[k].output, output) ensures sorted[k].order <= sorted[at].order {
      assert IsVersion(all[k], output);
    }
  }

  /** The two are versions of one output: they share an anchor or the id of an artifact. */
  predicate OneOf(a: Output, b: Output) {
    a.anchor == b.anchor || (a.artifact == b.artifact && a.artifact.Some? && a.artifact != Some(""))
  }
}
