/** Which version of an output is open beside the chat (OutputScope.tsx, `versionsOf` of
    outputBlocks.ts). The effect is taken as run to completion after each event. */
module OutputScope {
  import opened Basics

  /** An output: `ref` tells one object from another with the same contents, `source` is the event,
      index and kind it was made by. */
  datatype Output = Output(anchor: string, revision: Option<string>, artifact: Option<string>, source: Option<string>, ref: int)

  datatype Entry = Entry(output: Output, order: int)

  /** What is saved of the chat and the list of all outputs made of it. */
  datatype View = View(saved: seq<Entry>, all: seq<Output>)

  // Finding the saved output a live one was written as.

  function ByAnchor(saved: seq<Entry>, anchor: string): (e: Option<Entry>)
    ensures e.Some? ==> e.value in saved && e.value.output.anchor == anchor
    ensures e.None? ==> forall k :: 0 <= k < |saved| ==> saved[k].output.anchor != anchor
  {
    if saved == [] then None
    else if saved[|saved| - 1].output.anchor == anchor then Some(saved[|saved| - 1])
    else ByAnchor(saved[..|saved| - 1], anchor)
  }

  function BySource(saved: seq<Entry>, source: Option<string>): (e: Option<Entry>)
    ensures e.Some? ==> e.value in saved && e.value.output.source == source && source.Some?
  {
    if saved == [] || source.None? then None
    else if saved[|saved| - 1].output.source == source then Some(saved[|saved| - 1])
    else BySource(saved[..|saved| - 1], source)
  }

  function Resolve(saved: seq<Entry>, output: Output): Output {
    match ByAnchor(saved, output.anchor)
    case Some(e) => e.output
    case None =>
      match BySource(saved, output.source)
      case Some(e) => e.output
      case None => output
  }

  /** One entry put into the list kept by anchor. */
  function Put(held: seq<Entry>, entry: Entry): (list: seq<Entry>)
    ensures |held| <= |list| <= |held| + 1
    ensures forall e :: e in list ==> e in held || e == entry
    ensures entry in list
  {
    if held == [] then [entry]
    else if held[0].output.anchor == entry.output.anchor then [entry] + held[1..]
    else [held[0]] + Put(held[1..], entry)
  }

  /** The entries of a chat resolved and kept by anchor; once outputs are saved, only saved ones. */
  function Merged(saved: seq<Entry>, entries: seq<Entry>, durable: bool): seq<Entry> {
    if entries == [] then []
    else
      var held := Merged(saved, entries[..|entries| - 1], durable);
      var entry := entries[|entries| - 1];
      var output := Resolve(saved, entry.output);
      if durable && output.revision.None? then held
      else
        var found := ByAnchor(saved, output.anchor);
        Put(held, Entry(output, if found.Some? then found.value.order else entry.order))
  }

  // The versions of one output.

  predicate Truthy(id: Option<string>) {
    id.Some? && id.value != ""
  }

  predicate Same(a: Output, b: Output) {
    a.anchor == b.anchor || (Truthy(a.revision) && a.revision == b.revision)
  }

  predicate IsVersion(other: Output, output: Output) {
    other.anchor == output.anchor || (Truthy(output.artifact) && other.artifact == output.artifact)
  }

  /** The last of the list that is a version of an output, or -1. */
  function LastVersion(all: seq<Output>, output: Output): (at: int)
    ensures -1 <= at < |all|
    ensures at >= 0 ==> IsVersion(all[at], output)
    ensures forall k :: at < k < |all| ==> !IsVersion(all[k], output)
  {
    if all == [] then -1
    else if IsVersion(all[|all| - 1], output) then |all| - 1
    else LastVersion(all[..|all| - 1], output)
  }

  predicate HasAnchor(all: seq<Output>, anchor: string) {
    exists k :: 0 <= k < |all| && all[k].anchor == anchor
  }

  /** The last of the versions of an output: the output itself when the list does not hold it. */
  function LastOf(all: seq<Output>, output: Output): Output {
    if HasAnchor(all, output.anchor) then all[LastVersion(all, output)] else output
  }

  /** The first of the list that is the same output. */
  function Here(all: seq<Output>, output: Output): (here: Option<Output>)
    ensures here.Some? ==> here.value in all && Same(here.value, output)
    ensures here.None? ==> forall k :: 0 <= k < |all| ==> !Same(all[k], output)
  {
    if all == [] then None
    else if Same(all[0], output) then Some(all[0])
    else Here(all[1..], output)
  }

  // The effect.

  datatype Open = Open(open: Option<Output>, newest: bool, chosen: bool)

  /** One run of the effect: the state after it, and whether it opened another object. */
  function Effect(st: Open, view: View): (Open, bool) {
    if st.open.None? then (st, false)
    else
      var open := st.open.value;
      var bound := Resolve(view.saved, open);
      var last, here := LastOf(view.all, bound), Here(view.all, bound);
      if st.chosen then (st.(chosen := false, newest := last.anchor == open.anchor), false)
      else if here.Some? && here.value.ref != open.ref then (st.(open := here), true)
      else if st.newest && last.anchor != open.anchor then (st.(open := Some(last)), true)
      else (st.(newest := last.anchor == open.anchor), false)
  }

  /** The list holds each output once, every saved one among them, and what it holds is resolved already. */
  ghost predicate Proper(view: View) {
    && (forall k :: 0 <= k < |view.saved| ==> HasAnchor(view.all, view.saved[k].output.anchor))
    && (forall i, j :: 0 <= i < j < |view.all| ==> !Same(view.all[i], view.all[j]) && !Same(view.all[j], view.all[i]))
    && (forall k :: 0 <= k < |view.all| ==>
          var r := Resolve(view.saved, view.all[k]);
          r.anchor == view.all[k].anchor && r.revision == view.all[k].revision && r.artifact == view.all[k].artifact)
  }

  lemma HereIsIt(view: View, k: nat)
    requires Proper(view) && k < |view.all|
    ensures Here(view.all, Resolve(view.saved, view.all[k])) == Some(view.all[k])
  {
    FirstSame(view.all, k, Resolve(view.saved, view.all[k]));
  }

  lemma {:induction false} FirstSame(all: seq<Output>, k: nat, output: Output)
    requires k < |all| && output.anchor == all[k].anchor && output.revision == all[k].revision
    requires forall i, j :: 0 <= i < j < |all| ==> !Same(all[i], all[j]) && !Same(all[j], all[i])
    ensures Here(all, output) == Some(all[k])
  {
    if k > 0 {
      assert Same(all[0], output) == Same(all[0], all[k]);
      FirstSame(all[1..], k - 1, output);
    }
  }

  /** What stands in the list is itself; as the last of its versions it stays open. */
  lemma ListedSettles(st: Open, view: View, k: nat)
    requires Proper(view) && k < |view.all| && st.open == Some(view.all[k]) && !st.chosen
    ensures var last := LastOf(view.all, view.all[k]);
      && (Effect(st, view).1 <==> st.newest && last.anchor != view.all[k].anchor)
      && (Effect(st, view).1 ==> Effect(st, view).0 == st.(open := Some(last)))
  {
    HereIsIt(view, k);
    SameVersions(view.all, Resolve(view.saved, view.all[k]), view.all[k]);
  }

  lemma {:induction false} SameVersions(all: seq<Output>, a: Output, b: Output)
    requires a.anchor == b.anchor && a.artifact == b.artifact
    ensures LastVersion(all, a) == LastVersion(all, b)
  {
    if all != [] {
      SameVersions(all[..|all| - 1], a, b);
    }
  }

  /** The last of the versions of what stands in the list has no later version. */
  lemma LastIsLast(view: View, k: nat)
    requires Proper(view) && k < |view.all|
    ensures var at := LastVersion(view.all, view.all[k]);
      at >= k && LastOf(view.all, view.all[k]) == view.all[at] && LastOf(view.all, view.all[at]).anchor == view.all[at].anchor
  {
    var at := LastVersion(view.all, view.all[k]);
    assert IsVersion(view.all[k], view.all[k]);
    var again := LastVersion(view.all, view.all[at]);
    assert IsVersion(view.all[at], view.all[at]);
    assert again <= at;
  }

  /** With the outputs as they are the effect comes to rest in at most three runs. */
  lemma RestsInThree(st: Open, view: View)
    requires Proper(view)
    ensures var (st1, again1) := Effect(st, view);
      var (st2, again2) := Effect(st1, view);
      var (st3, again3) := Effect(st2, view);
      && (again1 && again2 ==> !again3)
      && Rest(st, view) == if !again1 then st1 else if !again2 then st2 else st3
  {
    var (st1, again1) := Effect(st, view);
    if again1 {
      OpensListed(st, view);
      var k :| 0 <= k < |view.all| && st1.open == Some(view.all[k]);
      ListedSettles(st1, view, k);
      LastIsLast(view, k);
      var at := LastVersion(view.all, view.all[k]);
      var (st2, again2) := Effect(st1, view);
      if again2 {
        ListedSettles(st2, view, at);
      }
    }
  }

  /** What the effect opens stands in the list. */
  lemma OpensListed(st: Open, view: View)
    requires Proper(view) && Effect(st, view).1
    ensures exists k :: 0 <= k < |view.all| && Effect(st, view).0.open == Some(view.all[k])
    ensures !Effect(st, view).0.chosen
  {
    var open := st.open.value;
    var bound := Resolve(view.saved, open);
    if !HasAnchor(view.all, bound.anchor) {
      assert bound == open;
    }
  }

  function Rest(st: Open, view: View): Open {
    var (st1, again1) := Effect(st, view);
    if !again1 then st1
    else
      var (st2, again2) := Effect(st1, view);
      if !again2 then st2 else Effect(st2, view).0
  }

  datatype Event =
    | Show(output: Output)
    | Made(output: Output, free: bool)
    | Browse
    | ChatChanges
    | Arrive(view: View)

  /** One event, the effect not yet run: `made` opens what was made unless the person is elsewhere,
      on an older version or on another output. */
  function Happen(st: Open, event: Event): Open {
    match event
    case Show(output) => st.(open := Some(output), chosen := true)
    case Made(output, free) =>
      if (st.open.Some? &&
          (!st.newest || (Truthy(st.open.value.artifact) && Truthy(output.artifact) && st.open.value.artifact != output.artifact)))
         || !free
      then st
      else st.(open := Some(output))
    case Browse => st.(open := None)
    case ChatChanges => Open(None, true, false)
    case Arrive(_) => st
  }

  function ViewAfter(view: View, event: Event): View {
    if event.Arrive? then event.view else view
  }

  function Next(st: Open, view: View, event: Event): Open {
    Rest(Happen(st, event), ViewAfter(view, event))
  }

  /** A new chat shows nothing, and what is made in it opens. */
  lemma NewChatOpensMade(st: Open, view: View, output: Output)
    ensures var empty := Next(st, view, ChatChanges);
      empty.open.None? && Happen(empty, Made(output, true)).open == Some(output)
  {}

  /** What was made opens unless the person is on an older version, looks at another artifact, or it may not. */
  lemma MadeOpens(st: Open, output: Output, free: bool)
    requires st.open != Some(output)
    ensures Happen(st, Made(output, free)).open == Some(output) <==>
      free && (st.open.None? || (st.newest && !Elsewhere(st.open.value, output)))
  {}

  /** The two are known to be of different artifacts. */
  predicate Elsewhere(a: Output, b: Output) {
    a.artifact.Some? && b.artifact.Some? && a.artifact != Some("") && b.artifact != Some("") && a.artifact != b.artifact
  }

  // A version the person picked.

  /** A saved version after which a later one stands in the list. */
  ghost predicate Older(view: View, anchor: string) {
    ByAnchor(view.saved, anchor).Some? &&
    exists k :: 0 <= k < |view.all| && view.all[k].anchor == anchor && LastOf(view.all, view.all[k]).anchor != anchor
  }

  /** The person is on that version and it is not the newest. */
  ghost predicate Pinned(st: Open, anchor: string) {
    st.open.Some? && st.open.value.anchor == anchor && !st.newest && !st.chosen
  }

  lemma OlderResolves(view: View, open: Output)
    requires Proper(view) && Older(view, open.anchor)
    ensures var bound := Resolve(view.saved, open);
      && bound.anchor == open.anchor
      && LastOf(view.all, bound).anchor != open.anchor
      && Here(view.all, bound).Some? && Here(view.all, bound).value.anchor == open.anchor
  {
    var k :| 0 <= k < |view.all| && view.all[k].anchor == open.anchor && LastOf(view.all, view.all[k]).anchor != open.anchor;
    HereIsIt(view, k);
    var bound, listed := Resolve(view.saved, open), Resolve(view.saved, view.all[k]);
    assert bound == listed;
    SameVersions(view.all, bound, view.all[k]);
  }

  /** The effect leaves the person on the version they picked. */
  lemma EffectKeepsPinned(st: Open, view: View, anchor: string)
    requires Proper(view) && Older(view, anchor) && Pinned(st, anchor)
    ensures Pinned(Effect(st, view).0, anchor)
  {
    OlderResolves(view, st.open.value);
  }

  lemma RestKeepsPinned(st: Open, view: View, anchor: string)
    requires Proper(view) && Older(view, anchor) && Pinned(st, anchor)
    ensures Pinned(Rest(st, view), anchor)
  {
    hide Proper, Older, Pinned, Effect;
    EffectKeepsPinned(st, view, anchor);
    EffectKeepsPinned(Effect(st, view).0, view, anchor);
    EffectKeepsPinned(Effect(Effect(st, view).0, view).0, view, anchor);
  }

  /** Picking an older version puts the person on it. */
  lemma ShowPins(st: Open, view: View, output: Output)
    requires Proper(view) && Older(view, output.anchor)
    ensures Pinned(Next(st, view, Show(output)), output.anchor)
  {
    OlderResolves(view, output);
  }

  predicate Moves(event: Event) {
    event.Show? || event.Browse? || event.ChatChanges?
  }

  function Run(st: Open, view: View, events: seq<Event>): Open
    decreases |events|
  {
    if events == [] then st
    else Run(Next(st, view, events[0]), ViewAfter(view, events[0]), events[1..])
  }

  /** What is listed after each of the events. */
  function Views(view: View, events: seq<Event>): (views: seq<View>)
    ensures |views| == |events|
    decreases |events|
  {
    if events == [] then []
    else [ViewAfter(view, events[0])] + Views(ViewAfter(view, events[0]), events[1..])
  }

  /** A version that stays saved, though a later one may come and go. */
  ghost predicate StaysSaved(views: seq<View>, anchor: string) {
    forall k :: 0 <= k < |views| ==> Proper(views[k]) && ByAnchor(views[k].saved, anchor).Some?
  }

  ghost predicate AllOlder(views: seq<View>, anchor: string) {
    forall k :: 0 <= k < |views| ==> Older(views[k], anchor)
  }

  /** Following the newest version, and not just picked. */
  predicate Following(st: Open) {
    st.newest && !st.chosen
  }

  /** A list without a later version makes the person count as being on the newest one. */
  lemma NotOlderForgets(st: Open, view: View, anchor: string)
    requires Proper(view) && ByAnchor(view.saved, anchor).Some? && !Older(view, anchor) && Pinned(st, anchor)
    ensures Following(Rest(st, view))
  {
    var j :| 0 <= j < |view.saved| && view.saved[j] == ByAnchor(view.saved, anchor).value;
    var k :| 0 <= k < |view.all| && view.all[k].anchor == anchor;
    var bound := Resolve(view.saved, st.open.value);
    assert bound == Resolve(view.saved, view.all[k]);
    SameVersions(view.all, bound, view.all[k]);
    HereIsIt(view, k);
  }

  lemma EffectFollows(st: Open, view: View)
    requires Following(st)
    ensures st.open.Some? ==> Effect(st, view).0.open.Some?
    ensures Following(Effect(st, view).0)
    ensures !Effect(st, view).1 ==> Effect(st, view).0.open == st.open
  {}

  /** Who follows the newest version goes on following it. */
  lemma RestFollows(st: Open, view: View)
    requires Following(st)
    ensures Following(Rest(st, view))
  {
    hide Effect, Following;
    EffectFollows(st, view);
    EffectFollows(Effect(st, view).0, view);
    EffectFollows(Effect(Effect(st, view).0, view).0, view);
  }

  lemma {:induction false} FollowingStays(st: Open, view: View, events: seq<Event>)
    requires Following(st) && forall k :: 0 <= k < |events| ==> !Moves(events[k]) && Proper(Views(view, events)[k])
    ensures Following(Run(st, view, events))
    decreases |events|
  {
    if events != [] {
      hide Proper, Rest;
      var view', rest := ViewAfter(view, events[0]), events[1..];
      assert !Moves(events[0]) && Proper(Views(view, events)[0]);
      RestFollows(Happen(st, events[0]), view');
      forall k | 0 <= k < |rest| ensures !Moves(rest[k]) && Proper(Views(view', rest)[k]) {
        assert rest[k] == events[k + 1] && Views(view', rest)[k] == Views(view, events)[k + 1];
      }
      FollowingStays(Next(st, view, events[0]), view', rest);
    }
  }

  lemma ViewsSplit(view: View, events: seq<Event>)
    requires events != []
    ensures Views(view, events) == [ViewAfter(view, events[0])] + Views(ViewAfter(view, events[0]), events[1..])
  {}

  lemma OlderFrom(first: View, rest: seq<View>, anchor: string)
    ensures AllOlder([first] + rest, anchor) <==> Older(first, anchor) && AllOlder(rest, anchor)
  {
    hide Older;
    var views := [first] + rest;
    assert views[0] == first && forall k :: 0 <= k < |rest| ==> rest[k] == views[k + 1];
  }

  lemma SavedFrom(first: View, rest: seq<View>, anchor: string)
    requires StaysSaved([first] + rest, anchor)
    ensures Proper(first) && ByAnchor(first.saved, anchor).Some? && StaysSaved(rest, anchor)
  {
    hide Proper, ByAnchor;
    var views := [first] + rest;
    assert views[0] == first && forall k :: 0 <= k < |rest| ==> rest[k] == views[k + 1];
  }

  /** Once the person has picked an older version, and until they pick again, browse or change chat,
      it stays theirs exactly when every list that comes still holds a later version. */
  lemma {:induction false} PickedStays(st: Open, view: View, events: seq<Event>, anchor: string)
    requires Pinned(st, anchor) && StaysSaved(Views(view, events), anchor)
    requires forall k :: 0 <= k < |events| ==> !Moves(events[k])
    ensures Pinned(Run(st, view, events), anchor) <==> AllOlder(Views(view, events), anchor)
    decreases |events|
  {
    hide Older, Rest, Resolve, AllOlder, StaysSaved, Proper;
    if events == [] {
      NoneOlder(anchor);
    } else {
      var event, view', rest := events[0], ViewAfter(view, events[0]), events[1..];
      assert !Moves(event) && Happen(st, event) == st;
      ViewsSplit(view, events);
      OlderFrom(view', Views(view', rest), anchor);
      SavedFrom(view', Views(view', rest), anchor);
      if Older(view', anchor) {
        RestKeepsPinned(st, view', anchor);
        PickedStays(Next(st, view, event), view', rest, anchor);
      } else {
        NotOlderForgets(st, view', anchor);
        AllProper(view', rest, anchor);
        FollowingStays(Next(st, view, event), view', rest);
      }
    }
  }

  lemma NoneOlder(anchor: string)
    ensures AllOlder([], anchor)
  {}

  lemma AllProper(view: View, events: seq<Event>, anchor: string)
    requires StaysSaved(Views(view, events), anchor)
    ensures forall k :: 0 <= k < |events| ==> Proper(Views(view, events)[k])
  {}

  /** The effect does not rest on an older version while the newest is followed. */
  lemma NoRestOnOlder(st: Open, view: View, anchor: string)
    requires Proper(view) && Older(view, anchor) && Following(st) && st.open.Some? && st.open.value.anchor == anchor
    ensures Effect(st, view).1
  {
    OlderResolves(view, st.open.value);
  }

  /** Who follows the newest version is moved off an older one as soon as a later one is listed. */
  lemma FollowingMoves(st: Open, view: View, anchor: string)
    requires Proper(view) && Older(view, anchor) && Following(st) && st.open.Some?
    ensures Rest(st, view).open.Some? && Rest(st, view).open.value.anchor != anchor
  {
    hide Effect, Proper, Older, Following;
    RestsInThree(st, view);
    var st1, st2 := Effect(st, view).0, Effect(Effect(st, view).0, view).0;
    EffectFollows(st, view);
    if st.open.value.anchor == anchor {
      NoRestOnOlder(st, view, anchor);
    }
    if Effect(st, view).1 {
      EffectFollows(st1, view);
      if st1.open.value.anchor == anchor {
        NoRestOnOlder(st1, view, anchor);
      }
      if Effect(st1, view).1 {
        EffectFollows(st2, view);
        if st2.open.value.anchor == anchor {
          NoRestOnOlder(st2, view, anchor);
        }
      }
    }
  }

  /** A version that drops out of what is saved and listed is not kept: another takes its place, or the person
      counts as following the newest. An object is one output. */
  lemma DroppedIsLost(st: Open, view: View, anchor: string)
    requires Proper(view) && !HasAnchor(view.all, anchor) && Pinned(st, anchor)
    requires forall k :: 0 <= k < |view.all| ==> view.all[k].ref != st.open.value.ref
    ensures !Pinned(Rest(st, view), anchor)
    ensures Here(view.all, Resolve(view.saved, st.open.value)).None? ==> Following(Rest(st, view))
  {
    var open := st.open.value;
    var bound := Resolve(view.saved, open);
    if Here(view.all, bound).None? {
      DroppedFollows(st, view, anchor);
    } else {
      StaysListed(Effect(st, view).0, view);
      StaysListed(Effect(Effect(st, view).0, view).0, view);
    }
  }

  /** What is open once the effect has opened something stands in the list. */
  lemma StaysListed(st: Open, view: View)
    requires Proper(view) && exists k :: 0 <= k < |view.all| && st.open == Some(view.all[k])
    ensures exists k :: 0 <= k < |view.all| && Effect(st, view).0.open == Some(view.all[k])
  {
    if Effect(st, view).1 {
      OpensListed(st, view);
    }
  }

  /** When nothing takes its place, it is not the person's pick again, though it may come back. */
  lemma DroppedForGood(st: Open, view: View, events: seq<Event>, anchor: string)
    requires Proper(view) && !HasAnchor(view.all, anchor) && Pinned(st, anchor)
    requires Here(view.all, Resolve(view.saved, st.open.value)).None?
    requires forall k :: 0 <= k < |events| ==> !Moves(events[k]) && Proper(Views(view, events)[k])
    ensures Following(Run(Rest(st, view), view, events)) && !Pinned(Run(Rest(st, view), view, events), anchor)
  {
    hide Rest, Here, Resolve, Proper;
    DroppedFollows(st, view, anchor);
    FollowingStays(Rest(st, view), view, events);
  }

  lemma DroppedFollows(st: Open, view: View, anchor: string)
    requires Proper(view) && !HasAnchor(view.all, anchor) && Pinned(st, anchor)
    requires Here(view.all, Resolve(view.saved, st.open.value)).None?
    ensures Following(Rest(st, view))
  {
    var open := st.open.value;
    var bound := Resolve(view.saved, open);
    assert !HasAnchor(view.all, bound.anchor);
    assert bound == open;
  }

  const OLDER: Output := Output("1", Some("1"), Some("a"), None, 1)
  const NEWER: Output := Output("2", Some("2"), Some("a"), None, 2)
  const BOTH: View := View([Entry(OLDER, 1), Entry(NEWER, 2)], [OLDER, NEWER])
  const ONE: View := View([Entry(OLDER, 1)], [OLDER])

  lemma BothAreProper()
    ensures Proper(BOTH) && Proper(ONE) && Older(BOTH, "1") && !Older(ONE, "1")
  {
    assert BOTH.all[0] == OLDER && BOTH.all[1] == NEWER && ONE.all[0] == OLDER;
    assert ByAnchor(BOTH.saved[..1], "1") == Some(Entry(OLDER, 1));
    assert ByAnchor(BOTH.saved, "1").Some? && ByAnchor(BOTH.saved, "2").Some? && ByAnchor(ONE.saved, "1").Some?;
    assert LastOf(BOTH.all, BOTH.all[0]) == NEWER;
  }

  /** A list that loses the later version and gets it back takes the person off the version they picked. */
  lemma PickIsReplaced(before: Open)
    ensures var picked, replaced := [Show(OLDER.(ref := 3))], [Show(OLDER.(ref := 3)), Arrive(ONE), Arrive(BOTH)];
      && Pinned(Run(before, BOTH, picked), "1")
      && Run(before, BOTH, replaced).open.Some? && Run(before, BOTH, replaced).open.value.anchor != "1"
  {
    hide Rest, Proper, Older;
    BothAreProper();
    var show := Show(OLDER.(ref := 3));
    ShowPins(before, BOTH, OLDER.(ref := 3));
    var st := Next(before, BOTH, show);
    assert [show][1..] == [];
    assert Run(before, BOTH, [show]) == Run(st, BOTH, []) == st;
    NotOlderForgets(st, ONE, "1") by { assert ByAnchor(ONE.saved, "1").Some?; }
    var st' := Rest(st, ONE);
    OpenStays(st, ONE);
    FollowingMoves(st', BOTH, "1");
    var events := [show, Arrive(ONE), Arrive(BOTH)];
    assert events[1..] == [Arrive(ONE), Arrive(BOTH)] && events[1..][1..] == [Arrive(BOTH)] && events[1..][1..][1..] == [];
    assert Run(before, BOTH, events) == Run(st, BOTH, events[1..]) == Run(st', ONE, [Arrive(BOTH)]) == Rest(st', BOTH);
  }

  lemma OpenStays(st: Open, view: View)
    requires st.open.Some?
    ensures Rest(st, view).open.Some?
  {
    hide Resolve, Here, LastOf;
  }

  /** On the listed version itself nothing but the choice changes. */
  lemma LastForgets(st: Open, view: View, k: nat)
    requires Proper(view) && k < |view.all| && Pinned(st, view.all[k].anchor) && st.open == Some(view.all[k])
    requires LastOf(view.all, view.all[k]).anchor == view.all[k].anchor
    ensures Rest(st, view) == st.(newest := true)
  {
    HereIsIt(view, k);
    SameVersions(view.all, Resolve(view.saved, view.all[k]), view.all[k]);
  }

  // Lists only grow: what was older stays older.

  /** Every saved output is still saved, and what was listed is listed in the same order. */
  ghost predicate Grows(view: View, later: View) {
    && (forall anchor :: ByAnchor(view.saved, anchor).Some? ==> ByAnchor(later.saved, anchor).Some?)
    && forall i, j :: 0 <= i < j < |view.all| ==> InOrder(later.all, view.all[i], view.all[j])
  }

  ghost predicate InOrder(all: seq<Output>, a: Output, b: Output) {
    exists i, j :: 0 <= i < j < |all| && all[i].anchor == a.anchor && all[i].artifact == a.artifact &&
      all[j].anchor == b.anchor && all[j].artifact == b.artifact
  }

  /** A version listed after another is what makes that one older. */
  lemma LaterIsNewer(view: View, i: nat, j: nat)
    requires Proper(view) && i < j < |view.all| && IsVersion(view.all[j], view.all[i])
    ensures LastOf(view.all, view.all[i]).anchor != view.all[i].anchor
  {
    var last := LastVersion(view.all, view.all[i]);
    assert last >= j;
    assert !Same(view.all[i], view.all[last]);
  }

  lemma OlderHasLater(view: View, anchor: string) returns (i: nat, j: nat)
    requires Proper(view) && Older(view, anchor)
    ensures i < j < |view.all| && view.all[i].anchor == anchor && IsVersion(view.all[j], view.all[i])
  {
    var k :| 0 <= k < |view.all| && view.all[k].anchor == anchor && LastOf(view.all, view.all[k]).anchor != anchor;
    assert IsVersion(view.all[k], view.all[k]);
    i, j := k, LastVersion(view.all, view.all[k]);
  }

  lemma GrowingKeepsOlder(view: View, later: View, anchor: string)
    requires Proper(view) && Proper(later) && Older(view, anchor) && Grows(view, later)
    ensures Older(later, anchor)
  {
    hide Proper;
    var i, j := OlderHasLater(view, anchor);
    assert InOrder(later.all, view.all[i], view.all[j]);
    var i', j' :| 0 <= i' < j' < |later.all| &&
      later.all[i'].anchor == anchor && later.all[i'].artifact == view.all[i].artifact &&
      later.all[j'].anchor == view.all[j].anchor && later.all[j'].artifact == view.all[j].artifact;
    LaterIsNewer(later, i', j');
  }

  // The list made of what is saved and what is live is proper.

  /** Saved records are named by their revision, and one revision is one output; an output that has
      a revision is named by it. */
  predicate Recorded(saved: seq<Entry>) {
    && (forall k :: 0 <= k < |saved| ==> saved[k].output.revision == Some(saved[k].output.anchor) && saved[k].output.anchor != "")
    && (forall i, j :: 0 <= i < |saved| && 0 <= j < |saved| && saved[i].output.anchor == saved[j].output.anchor ==>
          saved[i].output.artifact == saved[j].output.artifact)
  }

  predicate NamedByRevision(entries: seq<Entry>) {
    forall k :: 0 <= k < |entries| && Truthy(entries[k].output.revision) ==>
      entries[k].output.revision == Some(entries[k].output.anchor)
  }

  ghost predicate OneEach(list: seq<Entry>) {
    forall i, j :: 0 <= i < j < |list| ==> list[i].output.anchor != list[j].output.anchor
  }

  lemma {:induction false} PutKeeps(held: seq<Entry>, entry: Entry)
    requires OneEach(held)
    ensures OneEach(Put(held, entry))
    ensures forall e :: e in held ==> exists f :: f in Put(held, entry) && f.output.anchor == e.output.anchor
  {
    if held != [] {
      if held[0].output.anchor == entry.output.anchor {
        assert entry in Put(held, entry);
      } else {
        assert held == [held[0]] + held[1..];
        PutKeeps(held[1..], entry);
        var rest := Put(held[1..], entry);
        forall e | e in rest ensures e.output.anchor != held[0].output.anchor {
          if e != entry {
            var k :| 0 <= k < |held[1..]| && held[1..][k] == e;
          }
        }
        forall e | e in held ensures exists f :: f in Put(held, entry) && f.output.anchor == e.output.anchor {
          if e in held[1..] {
            var f :| f in rest && f.output.anchor == e.output.anchor;
            assert f in Put(held, entry);
          } else {
            assert held[0] in Put(held, entry);
          }
        }
      }
    }
  }

  ghost predicate Resolved(saved: seq<Entry>, output: Output) {
    && (var r := Resolve(saved, output);
        r.anchor == output.anchor && r.revision == output.revision && r.artifact == output.artifact)
    && (Truthy(output.revision) ==> output.revision == Some(output.anchor))
  }

  lemma ResolveTwice(saved: seq<Entry>, output: Output)
    requires Recorded(saved) && (Truthy(output.revision) ==> output.revision == Some(output.anchor))
    ensures Resolved(saved, Resolve(saved, output))
  {
    var r := Resolve(saved, output);
    if r != output {
      var k :| 0 <= k < |saved| && saved[k].output == r;
      var e := ByAnchor(saved, r.anchor);
      assert e.Some?;
      var j :| 0 <= j < |saved| && saved[j] == e.value;
    } else if ByAnchor(saved, output.anchor).Some? {
      var j :| 0 <= j < |saved| && saved[j] == ByAnchor(saved, output.anchor).value;
    }
  }

  ghost predicate Lists(list: seq<Entry>, anchor: string) {
    exists e :: e in list && e.output.anchor == anchor
  }

  lemma PutLists(held: seq<Entry>, entry: Entry)
    requires OneEach(held)
    ensures OneEach(Put(held, entry)) && Lists(Put(held, entry), entry.output.anchor)
    ensures forall anchor :: Lists(held, anchor) ==> Lists(Put(held, entry), anchor)
  {
    PutKeeps(held, entry);
    forall anchor | Lists(held, anchor) ensures Lists(Put(held, entry), anchor) {
      var e :| e in held && e.output.anchor == anchor;
    }
  }

  lemma {:induction false} MergedIs(saved: seq<Entry>, entries: seq<Entry>, durable: bool)
    requires Recorded(saved) && NamedByRevision(entries)
    ensures OneEach(Merged(saved, entries, durable))
    ensures forall e :: e in Merged(saved, entries, durable) ==> Resolved(saved, e.output)
  {
    hide Resolve, Put, Resolved, Recorded, OneEach;
    if entries != [] {
      var last := |entries| - 1;
      MergedIs(saved, entries[..last], durable);
      ResolveTwice(saved, entries[last].output);
      var output := Resolve(saved, entries[last].output);
      if !(durable && output.revision.None?) {
        var found := ByAnchor(saved, output.anchor);
        PutLists(Merged(saved, entries[..last], durable),
                 Entry(output, if found.Some? then found.value.order else entries[last].order));
      }
    } else {
      NoneTwice();
    }
  }

  lemma NoneTwice()
    ensures OneEach([])
  {
  }

  lemma {:induction false} MergedLists(saved: seq<Entry>, entries: seq<Entry>, durable: bool, k: nat)
    requires Recorded(saved) && NamedByRevision(entries) && k < |entries|
    requires Resolve(saved, entries[k].output).revision.Some?
    ensures Lists(Merged(saved, entries, durable), Resolve(saved, entries[k].output).anchor)
  {
    hide Resolve, Put, Recorded, OneEach, Lists;
    var last := |entries| - 1;
    MergedIs(saved, entries[..last], durable);
    if k < last {
      MergedLists(saved, entries[..last], durable, k);
    }
    var output := Resolve(saved, entries[last].output);
    if !(durable && output.revision.None?) {
      var found := ByAnchor(saved, output.anchor);
      PutLists(Merged(saved, entries[..last], durable),
               Entry(output, if found.Some? then found.value.order else entries[last].order));
    }
  }

  /** In order of time, the earlier put first of two made at one time. */
  function Insert(list: seq<Entry>, entry: Entry): (sorted: seq<Entry>)
    ensures multiset(sorted) == multiset(list) + multiset{entry}
  {
    if list == [] then [entry]
    else if list[|list| - 1].order <= entry.order then list + [entry]
    else
      assert list == list[..|list| - 1] + [list[|list| - 1]];
      Insert(list[..|list| - 1], entry) + [list[|list| - 1]]
  }

  function Sorted(list: seq<Entry>): (sorted: seq<Entry>)
    ensures multiset(sorted) == multiset(list)
  {
    if list == [] then []
    else
      assert list == list[..|list| - 1] + [list[|list| - 1]];
      Insert(Sorted(list[..|list| - 1]), list[|list| - 1])
  }

  function Outputs(list: seq<Entry>): (all: seq<Output>)
    ensures |all| == |list| && forall k :: 0 <= k < |all| ==> all[k] == list[k].output
  {
    seq(|list|, k requires 0 <= k < |list| => list[k].output)
  }

  function AllOf(saved: seq<Entry>, entries: seq<Entry>, durable: bool): seq<Output> {
    Outputs(Sorted(Merged(saved, saved + entries, durable)))
  }

  lemma SameEach(a: seq<Entry>, b: seq<Entry>)
    requires OneEach(a) && multiset(a) == multiset(b)
    ensures OneEach(b)
  {
    forall i, j | 0 <= i < j < |b| ensures b[i].output.anchor != b[j].output.anchor {
      if b[i].output.anchor == b[j].output.anchor {
        assert b[i] in multiset(b) && b[j] in multiset(b);
        assert b[i] in a && b[j] in a;
        assert b[i] == b[j];
        TwiceIn(b, i, j);
        OnceIn(a, b[i]);
        assert false;
      }
    }
  }

  lemma TwiceIn(list: seq<Entry>, i: nat, j: nat)
    requires i < j < |list| && list[i] == list[j]
    ensures multiset(list)[list[i]] >= 2
  {
    assert list == list[..i] + [list[i]] + list[i + 1..j] + [list[j]] + list[j + 1..];
  }

  lemma {:induction false} OnceIn(list: seq<Entry>, entry: Entry)
    requires OneEach(list)
    ensures multiset(list)[entry] <= 1
  {
    if list != [] {
      assert list == [list[0]] + list[1..];
      OnceIn(list[1..], entry);
      assert list[0] == entry ==> entry !in list[1..];
    }
  }

  lemma SavedResolves(saved: seq<Entry>, k: nat)
    requires Recorded(saved) && k < |saved|
    ensures var r := Resolve(saved, saved[k].output);
      r.anchor == saved[k].output.anchor && r.revision.Some?
  {
    var e := ByAnchor(saved, saved[k].output.anchor);
    assert e.Some?;
    var j :| 0 <= j < |saved| && saved[j] == e.value;
  }

  lemma SortedIn(list: seq<Entry>, e: Entry)
    ensures e in Sorted(list) <==> e in list
  {
    assert e in multiset(Sorted(list)) <==> e in multiset(list);
  }

  lemma NamedAlong(saved: seq<Entry>, entries: seq<Entry>)
    requires Recorded(saved) && NamedByRevision(entries)
    ensures NamedByRevision(saved + entries)
  {}

  lemma SavedIsListed(saved: seq<Entry>, entries: seq<Entry>, durable: bool, k: nat)
    requires Recorded(saved) && NamedByRevision(saved + entries) && k < |saved|
    ensures HasAnchor(AllOf(saved, entries, durable), saved[k].output.anchor)
  {
    hide Resolve, Recorded;
    var list := Merged(saved, saved + entries, durable);
    assert (saved + entries)[k] == saved[k];
    assert ByAnchor(saved, saved[k].output.anchor).Some?;
    SavedResolves(saved, k);
    MergedLists(saved, saved + entries, durable, k);
    var e :| e in list && e.output.anchor == saved[k].output.anchor;
    SortedIn(list, e);
    var j :| 0 <= j < |Sorted(list)| && Sorted(list)[j] == e;
    assert AllOf(saved, entries, durable)[j].anchor == saved[k].output.anchor;
  }

  lemma ProperOf(view: View, sorted: seq<Entry>)
    requires view.all == Outputs(sorted) && OneEach(sorted)
    requires forall k :: 0 <= k < |sorted| ==> Resolved(view.saved, sorted[k].output)
    requires forall k :: 0 <= k < |view.saved| ==> HasAnchor(view.all, view.saved[k].output.anchor)
    ensures Proper(view)
  {
    hide Resolve, HasAnchor;
  }

  lemma AllIsProper(saved: seq<Entry>, entries: seq<Entry>, durable: bool)
    requires Recorded(saved) && NamedByRevision(entries)
    ensures Proper(View(saved, AllOf(saved, entries, durable)))
  {
    hide Resolve, Merged, Recorded, NamedByRevision, ByAnchor, HasAnchor, Proper, Resolved, OneEach;
    var list := Merged(saved, saved + entries, durable);
    var sorted := Sorted(list);
    NamedAlong(saved, entries);
    MergedIs(saved, saved + entries, durable);
    SameEach(list, sorted);
    forall k | 0 <= k < |sorted| ensures Resolved(saved, sorted[k].output) {
      SortedIn(list, sorted[k]);
    }
    forall k | 0 <= k < |saved| ensures HasAnchor(AllOf(saved, entries, durable), saved[k].output.anchor) {
      SavedIsListed(saved, entries, durable, k);
    }
    ProperOf(View(saved, AllOf(saved, entries, durable)), sorted);
  }

  /** The state the component keeps in refs, and the calls that change it. */
  class Scope {
    var open: Option<Output>
    var newest: bool
    var chosen: bool

    ghost function Now(): Open
      reads this
    {
      Open(open, newest, chosen)
    }

    constructor ()
      ensures Now() == Open(None, true, false)
    {
      open, newest, chosen := None, true, false;
    }

    /** One run of the effect; `again` when it opened another object. */
    method RunEffect(view: View) returns (again: bool)
      modifies this
      ensures (Now(), again) == Effect(old(Now()), view)
    {
      if open.None? {
        return false;
      }
      var bound := Resolve(view.saved, open.value);
      var last, here := LastOf(view.all, bound), Here(view.all, bound);
      if chosen {
        chosen := false;
      } else if here.Some? && here.value.ref != open.value.ref {
        open := here;
        return true;
      } else if newest && last.anchor != open.value.anchor {
        open := Some(last);
        return true;
      }
      newest := last.anchor == open.value.anchor;
      return false;
    }

    /** The effect run again for as long as it opens another object. */
    method Settle(view: View)
      requires Proper(view)
      modifies this
      ensures Now() == Rest(old(Now()), view)
    {
      hide Effect, Proper;
      RestsInThree(Now(), view);
      ghost var st1 := Effect(Now(), view).0;
      ghost var st2 := Effect(st1, view).0;
      ghost var runs := 1;
      var again := RunEffect(view);
      while again
        invariant 1 <= runs <= 3 && (runs == 3 ==> !again)
        invariant runs == 1 ==> (Now(), again) == Effect(old(Now()), view)
        invariant runs == 2 ==> (Now(), again) == Effect(st1, view) && Effect(old(Now()), view).1
        invariant runs == 3 ==> Now() == Effect(st2, view).0 && Effect(old(Now()), view).1 && Effect(st1, view).1
        decreases 3 - runs
      {
        again := RunEffect(view);
        runs := runs + 1;
      }
    }

    method Show(output: Output, view: View)
      requires Proper(view)
      modifies this
      ensures Now() == Next(old(Now()), view, Event.Show(output))
    {
      chosen := true;
      open := Some(output);
      Settle(view);
    }

    /** `free` is whether the person is not busy elsewhere. */
    method Made(output: Output, free: bool, view: View)
      requires Proper(view)
      modifies this
      ensures Now() == Next(old(Now()), view, Event.Made(output, free))
    {
      var elsewhere := open.Some? &&
        (!newest || (Truthy(open.value.artifact) && Truthy(output.artifact) && open.value.artifact != output.artifact));
      if !elsewhere && free {
        open := Some(output);
      }
      Settle(view);
    }

    method Browse(view: View)
      requires Proper(view)
      modifies this
      ensures Now() == Next(old(Now()), view, Event.Browse)
    {
      open := None;
      Settle(view);
    }

    method ChangeChat(view: View)
      requires Proper(view)
      modifies this
      ensures Now() == Next(old(Now()), view, Event.ChatChanges)
    {
      open := None;
      chosen := false;
      newest := true;
      Settle(view);
    }

    method Arrive(view: View)
      requires Proper(view)
      modifies this
      ensures Now() == Next(old(Now()), view, Event.Arrive(view))
    {
      Settle(view);
    }
  }
}
