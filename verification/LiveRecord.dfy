/** What the view of a chat records: every word written, every step as it was called and as it ended, every
    message in its place (live.ts). */
module LiveRecord {
  import opened Basics
  import opened Live
  import opened LiveMessages
  import opened LiveSteps

  // What is written.

  /** All prose, in order. */
  function ProseText(items: seq<Item>): string {
    if items == [] then ""
    else ProseText(items[..|items| - 1]) + if items[|items| - 1].Prose? then items[|items| - 1].text else ""
  }

  /** All reasoning, in order. */
  function ReasoningText(items: seq<Item>): string {
    if items == [] then ""
    else ReasoningText(items[..|items| - 1]) + if items[|items| - 1].Reasoning? then items[|items| - 1].text else ""
  }

  predicate SameWords(a: Item, b: Item) {
    && a.Prose? == b.Prose? && a.Reasoning? == b.Reasoning?
    && (a.Prose? ==> a.text == b.text) && (a.Reasoning? ==> a.text == b.text)
  }

  /** The same words, and then those of other items without any. */
  ghost predicate Rewords(a: seq<Item>, b: seq<Item>) {
    && |a| <= |b| && (forall k :: 0 <= k < |a| ==> SameWords(a[k], b[k]))
    && forall k :: |a| <= k < |b| && (b[k].Prose? || b[k].Reasoning?) ==> b[k].text == ""
  }

  lemma {:induction false} WordsKept(a: seq<Item>, b: seq<Item>)
    requires Rewords(a, b)
    ensures ProseText(b) == ProseText(a) && ReasoningText(b) == ReasoningText(a)
    decreases |b|
  {
    if b != [] {
      WordsKept(if |a| == |b| then a[..|a| - 1] else a, b[..|b| - 1]);
      if |a| == |b| {
        assert SameWords(a[|a| - 1], b[|b| - 1]);
      }
    }
  }

  lemma WordsMore(items: seq<Item>, item: Item)
    ensures ProseText(items + [item]) == ProseText(items) + if item.Prose? then item.text else ""
    ensures ReasoningText(items + [item]) == ReasoningText(items) + if item.Reasoning? then item.text else ""
  {
    assert (items + [item])[..|items|] == items;
  }

  /** The last item put in the place of another. */
  lemma WordsLast(items: seq<Item>, item: Item)
    requires items != []
    ensures var last := |items| - 1;
      && items == items[..last] + [items[last]] && items[last := item] == items[..last] + [item]
      && ProseText(items[last := item]) == ProseText(items[..last]) + (if item.Prose? then item.text else "")
      && ReasoningText(items[last := item]) == ReasoningText(items[..last]) + (if item.Reasoning? then item.text else "")
  {
    WordsMore(items[..|items| - 1], item);
  }

  /** A piece of the reply goes to the end of the last prose, or begins one behind everything else. */
  lemma PieceIsWritten(st: State, delta: string, html: Option<string>, sourceEvent: Option<string>, now: int)
    requires delta != ""
    ensures var before, after := st.items, Reduce(st, ModelText(delta, html, sourceEvent), now).items;
      && ProseText(after) == ProseText(before) + delta && ReasoningText(after) == ReasoningText(before)
      && after != [] && after[|after| - 1].Prose?
      && |after| == |before| + (if before != [] && before[|before| - 1].Prose? then 0 else 1)
      && (html.Some? ==> after[|after| - 1].html == html)
      && (sourceEvent.Some? ==> after[|after| - 1].sourceEvent == sourceEvent)
  {
    hide ProseText, ReasoningText;
    var before, closed := st.items, CloseReasoning(st.items, now);
    var after := Write(st, delta, html, sourceEvent, now).items;
    WordsKept(before, closed);
    if closed != [] && closed[|closed| - 1].Prose? {
      LastGrows(closed, after[|closed| - 1], delta);
    } else {
      WordsMore(closed, after[|closed|]);
    }
  }

  /** The last item with more words. */
  lemma LastGrows(items: seq<Item>, item: Item, more: string)
    requires items != [] && items[|items| - 1].Prose? == item.Prose? && items[|items| - 1].Reasoning? == item.Reasoning?
    requires item.Prose? || item.Reasoning?
    requires item.text == items[|items| - 1].text + more
    ensures ProseText(items[|items| - 1 := item]) == ProseText(items) + if item.Prose? then more else ""
    ensures ReasoningText(items[|items| - 1 := item]) == ReasoningText(items) + if item.Reasoning? then more else ""
  {
    var last := |items| - 1;
    assert items[last := items[last]] == items;
    WordsLast(items, items[last]);
    WordsLast(items, item);
  }

  /** A piece without words that names its source gives it to the last prose. */
  lemma SourceIsNoted(st: State, html: Option<string>, source: string, now: int)
    requires source != ""
    ensures var before, after := st.items, Reduce(st, ModelText("", html, Some(source)), now).items;
      |after| == |before| && forall k :: 0 <= k < |before| ==>
        if before[k].Prose? && (forall j :: k < j < |before| ==> !before[j].Prose?) then
          after[k] == before[k].(sourceEvent := Some(source))
        else after[k] == before[k]
  {}

  /** A piece of reasoning goes to the end of the reasoning that is open, or begins one. */
  lemma ThoughtIsWritten(st: State, delta: string, now: int)
    ensures var before, after := st.items, Reduce(st, ModelReasoning(delta), now).items;
      && ReasoningText(after) == ReasoningText(before) + delta && ProseText(after) == ProseText(before)
      && after != [] && after[|after| - 1].Reasoning? && after[|after| - 1].ended.None?
      && (|after| > |before| ==> after[..|before|] == before && after[|after| - 1].started == now)
  {
    var before, after := st.items, Reason(st, delta, now).items;
    hide ProseText, ReasoningText;
    if before != [] && before[|before| - 1].Reasoning? && before[|before| - 1].ended.None? {
      LastGrows(before, after[|before| - 1], delta);
    } else {
      WordsMore(before, after[|before|]);
    }
  }

  /** The words a frame brings, in prose and in reasoning. */
  function Prose(frame: Frame): string {
    if frame.ModelText? then frame.delta else ""
  }

  function Thought(frame: Frame): string {
    if frame.ModelReasoning? then frame.delta else ""
  }

  /** The same words and steps, and behind them items with neither. */
  ghost predicate Adds(a: seq<Item>, b: seq<Item>) {
    && |a| <= |b| && (forall k :: 0 <= k < |a| ==> SameWords(a[k], b[k]) && StepsOf(a[k]) == StepsOf(b[k]))
    && forall k :: |a| <= k < |b| ==> !b[k].Prose? && !b[k].Reasoning? && !b[k].Tools?
  }

  lemma AcceptAdds(st: State, content: string, images: seq<string>, about: Option<string>, now: int)
    ensures Adds(st.items, Accept(st, content, images, about, now).items)
  {
    hide AlreadyShown;
  }

  lemma SteerAdds(st: State, said: Option<string>, now: int)
    ensures Adds(st.items, Steer(st, said, now).items)
  {
    hide Unshown, WithText;
  }

  lemma CallWords(st: State, given: Option<Id>, tool: string, plan: bool, now: int)
    ensures Rewords(st.items, Call(st, given, tool, plan, now).items)
  {
    hide HasRunning;
  }

  lemma ScreenWords(st: State, id: Option<Id>, source: Option<string>, resource: string)
    ensures Rewords(st.items, Screen(st, id, source, resource).items)
  {}

  lemma SettledWords(items: seq<Item>, messages: seq<Message>, now: int)
    ensures Rewords(items, CloseAll(items, now) + AsItems(messages))
  {}

  lemma WriteSteps(st: State, delta: string, html: Option<string>, sourceEvent: Option<string>, now: int)
    ensures AllSteps(Write(st, delta, html, sourceEvent, now).items) == AllSteps(st.items)
  {
    hide AllSteps;
    StepsSame(st.items, Write(st, delta, html, sourceEvent, now).items);
  }

  lemma ReasonSteps(st: State, delta: string, now: int)
    ensures AllSteps(Reason(st, delta, now).items) == AllSteps(st.items)
  {
    hide AllSteps;
    StepsSame(st.items, Reason(st, delta, now).items);
  }

  lemma OthersKeepWords(st: State, frame: Frame, now: int)
    requires !StartsOver(frame) && !frame.Restarted? && !frame.ModelText? && !frame.ModelReasoning?
    ensures Rewords(st.items, Reduce(st, frame, now).items)
  {
    hide Unshown, Observe, Input, Without, Return, FirstObserved, Accept, Steer, Call, Screen, CloseAll, Remove;
    match frame
    case Observation(id, of, ok, sourceEvent, output) =>
      var found, g, k := ObservedItems(st.items, id, of, Report(ok, sourceEvent, output, now));
      FoundIsGroup(st.items, id, of, found, g, k);
    case Accepted(content, images, about) => AcceptAdds(st, content, images, about, now);
    case Steered(said) => SteerAdds(st, said, now);
    case ToolCall(id, tool, plan) => CallWords(st, id, tool, plan, now);
    case ToolScreen(id, source, resource) => ScreenWords(st, id, source, resource);
    case Exit => SettledWords(st.items, Queued(st), now);
    case TurnDone => SettledWords(st.items, Queued(st), now);
    case TurnCancelled => SettledWords(st.items, Queued(st), now);
    case TurnError => SettledWords(st.items, Queued(st), now);
    case Returned(contents) => ReturnedKeeps(st, contents);
    case _ =>
  }

  lemma ReturnedKeeps(st: State, contents: seq<string>)
    ensures Return(st, contents).items == st.items
  {
    hide Unread, Unshown;
  }

  lemma FoundIsGroup(items: seq<Item>, id: Option<Id>, of: Option<string>, found: bool, g: nat, k: nat)
    requires found ==> FirstObserved(items, id, of, g, k)
    ensures found ==> g < |items| && items[g].Tools?
  {}

  lemma NothingWritten(st: State, html: Option<string>, sourceEvent: Option<string>, now: int)
    ensures Rewords(st.items, Reduce(st, ModelText("", html, sourceEvent), now).items)
  {}

  lemma FrameWords(st: State, frame: Frame, now: int)
    requires !StartsOver(frame) && !frame.Restarted?
    ensures var before, after := st.items, Reduce(st, frame, now).items;
      ProseText(after) == ProseText(before) + Prose(frame) && ReasoningText(after) == ReasoningText(before) + Thought(frame)
  {
    hide Reduce, ProseText, ReasoningText, Rewords;
    match frame
    case ModelText(delta, html, sourceEvent) =>
      if delta == "" {
        NothingWritten(st, html, sourceEvent, now);
        WordsKept(st.items, Reduce(st, frame, now).items);
      } else {
        PieceIsWritten(st, delta, html, sourceEvent, now);
      }
    case ModelReasoning(delta) => ThoughtIsWritten(st, delta, now);
    case _ =>
      OthersKeepWords(st, frame, now);
      WordsKept(st.items, Reduce(st, frame, now).items);
  }

  function AllProse(events: seq<Event>): string {
    if events == [] then ""
    else
      AllProse(events[..|events| - 1]) +
      match events[|events| - 1] case Record(_) => "" case Fold(frame, _) => Prose(frame)
  }

  function AllThought(events: seq<Event>): string {
    if events == [] then ""
    else
      AllThought(events[..|events| - 1]) +
      match events[|events| - 1] case Record(_) => "" case Fold(frame, _) => Thought(frame)
  }

  /** Over every run without a retry, the prose shown is the pieces of the reply in order, none lost and none
      twice, and so is the reasoning. */
  lemma {:induction false} WordsConserved(events: seq<Event>)
    requires forall k :: 0 <= k < |events| && events[k].Fold? ==> !StartsOver(events[k].frame) && !events[k].frame.Restarted?
    ensures ProseText(Play(events).items) == AllProse(events) && ReasoningText(Play(events).items) == AllThought(events)
  {
    hide Reduce;
    if events != [] {
      var before, last := events[..|events| - 1], events[|events| - 1];
      WordsConserved(before);
      var st := Play(before);
      if last.Fold? {
        FrameWords(st, last.frame, last.now);
      } else {
        assert Rewords(st.items, RecordSent(st, last.message).items);
        WordsKept(st.items, RecordSent(st, last.message).items);
      }
    }
  }

  // Every step.

  function StepsOf(item: Item): seq<Step> {
    if item.Tools? then item.steps else []
  }

  /** All steps, in order. */
  function AllSteps(items: seq<Item>): seq<Step> {
    if items == [] then [] else StepsOf(items[0]) + AllSteps(items[1..])
  }

  lemma {:induction false} StepsJoin(a: seq<Item>, b: seq<Item>)
    ensures AllSteps(a + b) == AllSteps(a) + AllSteps(b)
  {
    if a == [] {
      assert a + b == b;
    } else {
      assert (a + b)[1..] == a[1..] + b;
      StepsJoin(a[1..], b);
    }
  }

  lemma StepsMore(items: seq<Item>, item: Item)
    ensures AllSteps(items + [item]) == AllSteps(items) + StepsOf(item)
  {
    StepsJoin(items, [item]);
    assert [item][1..] == [];
  }

  lemma {:induction false} StepsSame(a: seq<Item>, b: seq<Item>)
    requires |a| <= |b| && (forall k :: 0 <= k < |a| ==> StepsOf(a[k]) == StepsOf(b[k]))
    requires forall k :: |a| <= k < |b| ==> StepsOf(b[k]) == []
    ensures AllSteps(a) == AllSteps(b)
    decreases |b|
  {
    if b != [] {
      StepsSame(if a == [] then a else a[1..], b[1..]);
    }
  }

  /** The step a call begins; it stands behind all others, in the last group if that comes last. */
  lemma CallIsRecorded(st: State, id: Id, tool: string, now: int)
    ensures var before, after := st.items, Reduce(st, ToolCall(Some(id), tool, false), now).items;
      if id in RunningIds(before) then after == before
      else
        && AllSteps(after) == AllSteps(before) + [Step(id, tool, Running, None, None, None, None)]
        && |after| == |before| + (if before != [] && before[|before| - 1].Tools? then 0 else 1)
        && after[|after| - 1].Tools?
  {
    hide AllSteps;
    RunsOrNot(st.items, id);
    hide RunningIds;
    if !HasRunning(st.items, id) {
      var closed, after := CloseReasoning(st.items, now), Call(st, Some(id), tool, false, now).items;
      var step, last := Step(id, tool, Running, None, None, None, None), |closed| - 1;
      StepsSame(st.items, closed);
      if closed != [] && closed[last].Tools? {
        assert closed == closed[..last] + [closed[last]] && after == closed[..last] + [after[last]];
        StepsMore(closed[..last], closed[last]);
        StepsMore(closed[..last], after[last]);
      } else {
        StepsMore(closed, after[|closed|]);
      }
    }
  }

  lemma RunsOrNot(items: seq<Item>, id: Id)
    ensures HasRunning(items, id) <==> id in RunningIds(items)
  {
    if id in RunningIds(items) {
      RunningIsSomewhere(items, id);
    }
    if HasRunning(items, id) {
      var g, k :| 0 <= g < |items| && items[g].Tools? && 0 <= k < |items[g].steps| &&
        items[g].steps[k].id == id && items[g].steps[k].status == Running;
      StepIsRunning(items[g].steps, k);
      RunningAt(items, g, items[g]);
    }
  }

  /** The step is one an observation of that id, or without one of that tool, is about. */
  predicate IsAbout(step: Step, id: Option<Id>, of: Option<string>) {
    step.status == Running && if id.None? || id == Some(Given("")) then of == Some(step.tool) else id == Some(step.id)
  }

  /** An observation ends the first running step it is about: as succeeded or failed, with what it brings, now.
      No other step changes, and no other item. */
  lemma ObservationIsRecorded(st: State, id: Option<Id>, of: Option<string>, ok: bool, sourceEvent: Option<string>,
                              output: Option<string>, now: int) returns (found: bool, k: nat)
    ensures var before, after := st.items, Reduce(st, Observation(id, of, ok, sourceEvent, output), now).items;
      && |after| == |before|
      && (forall g :: 0 <= g < |before| ==> if before[g].Tools? then after[g].Tools? && after[g].id == before[g].id else after[g] == before[g])
    ensures var before, after := AllSteps(st.items), AllSteps(Reduce(st, Observation(id, of, ok, sourceEvent, output), now).items);
      if found then
        && k < |before| && IsAbout(before[k], id, of) && (forall j :: 0 <= j < k ==> !IsAbout(before[j], id, of))
        && after == before[k := Step(before[k].id, before[k].tool, if ok then Succeeded else Failed, sourceEvent, output,
                                     before[k].screen, Some(now))]
      else after == before && forall j :: 0 <= j < |before| ==> !IsAbout(before[j], id, of)
  {
    hide AllSteps, Observe, EndStep, FirstObserved, AnyObserved, IsAbout;
    var report, items := Report(ok, sourceEvent, output, now), st.items;
    var g, i;
    k := 0;
    found, g, i := ObservedItems(items, id, of, report);
    if found {
      FirstIsAbout(items, g, i, id, of);
      var ended := items[g].(steps := items[g].steps[i := EndStep(items[g].steps[i], report)]);
      StepPlace(items, g, ended);
      k := |AllSteps(items[..g])| + i;
      assert AllSteps(items)[k] == items[g].steps[i];
      assert EndStep(items[g].steps[i], report) ==
        Step(items[g].steps[i].id, items[g].steps[i].tool, if ok then Succeeded else Failed, sourceEvent, output,
             items[g].steps[i].screen, Some(now)) by {
        EndsAs(items[g].steps[i], report);
      }
    } else {
      NoneIsAbout(items, id, of);
    }
  }

  lemma EndsAs(step: Step, report: Report)
    ensures EndStep(step, report) == Step(step.id, step.tool, if report.ok then Succeeded else Failed, report.sourceEvent,
                                          report.output, step.screen, Some(report.now))
  {}

  lemma FirstIsAbout(items: seq<Item>, g: nat, k: nat, id: Option<Id>, of: Option<string>)
    requires FirstObserved(items, id, of, g, k)
    ensures g < |items| && items[g].Tools? && k < |items[g].steps| && IsAbout(items[g].steps[k], id, of)
    ensures forall j :: 0 <= j < k ==> !IsAbout(items[g].steps[j], id, of)
    ensures forall j :: 0 <= j < |AllSteps(items[..g])| ==> !IsAbout(AllSteps(items[..g])[j], id, of)
  {
    NoneBefore(items[..g], id, of);
  }

  lemma NoneIsAbout(items: seq<Item>, id: Option<Id>, of: Option<string>)
    requires forall h :: 0 <= h < |items| && items[h].Tools? ==> !AnyObserved(items[h].steps, id, of)
    ensures forall j :: 0 <= j < |AllSteps(items)| ==> !IsAbout(AllSteps(items)[j], id, of)
  {
    NoneBefore(items, id, of);
  }

  lemma StepPlace(items: seq<Item>, g: nat, item: Item)
    requires g < |items|
    ensures AllSteps(items) == AllSteps(items[..g]) + (StepsOf(items[g]) + AllSteps(items[g + 1..]))
    ensures AllSteps(items[g := item]) == AllSteps(items[..g]) + (StepsOf(item) + AllSteps(items[g + 1..]))
  {
    var a, b := items[..g], items[g + 1..];
    assert items == a + ([items[g]] + b) && items[g := item] == a + ([item] + b);
    StepsJoin(a, [items[g]] + b);
    StepsJoin(a, [item] + b);
    assert ([items[g]] + b)[1..] == b && ([item] + b)[1..] == b;
  }

  lemma {:induction false} NoneBefore(items: seq<Item>, id: Option<Id>, of: Option<string>)
    requires forall h, j :: 0 <= h < |items| && items[h].Tools? && 0 <= j < |items[h].steps| ==> !Observes(items[h].steps[j], id, of)
    ensures forall j :: 0 <= j < |AllSteps(items)| ==> !IsAbout(AllSteps(items)[j], id, of)
  {
    if items != [] {
      NoneBefore(items[1..], id, of);
    }
  }

  /** When a turn ends or the chat is gone the steps that run are stopped, now, and no other changes. */
  lemma EndingIsRecorded(st: State, frame: Frame, now: int)
    requires frame.TurnDone? || frame.TurnCancelled? || frame.TurnError? || frame.Exit?
    ensures var before, after := AllSteps(st.items), AllSteps(Reduce(st, frame, now).items);
      |after| == |before| && forall k :: 0 <= k < |before| ==>
        if before[k].status != Running then after[k] == before[k]
        else after[k] == before[k].(status := Stopped, ended := if before[k].ended.Some? then before[k].ended else Some(now))
    ensures forall k :: 0 <= k < |st.items| && st.items[k].Reasoning? ==>
      Reduce(st, frame, now).items[k] == if st.items[k].ended.Some? then st.items[k] else st.items[k].(ended := Some(now))
  {
    hide Unshown, AllSteps;
    var closed := CloseAll(st.items, now);
    StoppedAll(st.items, closed, now);
    StepsSame(closed, closed + AsItems(Queued(st)));
  }

  lemma {:induction false} StoppedAll(items: seq<Item>, closed: seq<Item>, now: int)
    requires |closed| == |items| && forall k :: 0 <= k < |items| ==> closed[k] == CloseItem(items[k], now)
    ensures |AllSteps(closed)| == |AllSteps(items)|
    ensures forall k :: 0 <= k < |AllSteps(items)| ==> AllSteps(closed)[k] == Stop(AllSteps(items)[k], now)
  {
    hide Stop;
    if items != [] {
      StoppedAll(items[1..], closed[1..], now);
    }
  }

  /** A screen goes to the steps of its id, and source if it names one, in the last group that holds such a
      step; to none if there is none. */
  lemma ScreenIsRecorded(st: State, id: Option<Id>, source: Option<string>, resource: string, now: int)
    ensures var before, after := st.items, Reduce(st, ToolScreen(id, source, resource), now).items;
      |after| == |before| && forall g :: 0 <= g < |before| ==>
        if IsLastWith(before, g, id, source) then ShowsScreen(before[g], after[g], id, source, resource) else after[g] == before[g]
  {
    var at := LastDrawn(st.items, id, source);
  }

  predicate ShowsScreen(a: Item, b: Item, id: Option<Id>, source: Option<string>, resource: string)
    requires a.Tools?
  {
    b.Tools? && b.id == a.id && |b.steps| == |a.steps| &&
    forall k :: 0 <= k < |a.steps| ==>
      b.steps[k] == if IsFor(a.steps[k], id, source) then a.steps[k].(screen := Some(resource)) else a.steps[k]
  }

  predicate IsFor(step: Step, id: Option<Id>, source: Option<string>) {
    id == Some(step.id) && (source.None? || source == Some("") || step.sourceEvent == source)
  }

  ghost predicate IsLastWith(items: seq<Item>, g: nat, id: Option<Id>, source: Option<string>) {
    && g < |items| && items[g].Tools? && (exists k :: 0 <= k < |items[g].steps| && IsFor(items[g].steps[k], id, source))
    && forall h, k :: g < h < |items| && items[h].Tools? && 0 <= k < |items[h].steps| ==> !IsFor(items[h].steps[k], id, source)
  }

  /** No other frame touches a step. */
  lemma OthersKeepSteps(st: State, frame: Frame, now: int)
    requires !StartsOver(frame) && !frame.ToolCall? && !frame.Observation? && !frame.ToolScreen?
    requires !frame.TurnDone? && !frame.TurnCancelled? && !frame.TurnError? && !frame.Exit?
    ensures AllSteps(Reduce(st, frame, now).items) == AllSteps(st.items)
  {
    hide AllSteps, Restart, Accept, Steer, Write, Reason, Return, Remove, Input;
    var after := Reduce(st, frame, now).items;
    match frame
    case Restarted =>
      RestartTrims(st.items);
      StepsSame(after, st.items);
    case Accepted(content, images, about) =>
      AcceptAdds(st, content, images, about, now);
      StepsSame(st.items, after);
    case Steered(said) =>
      SteerAdds(st, said, now);
      StepsSame(st.items, after);
    case ModelText(delta, html, sourceEvent) => WriteSteps(st, delta, html, sourceEvent, now);
    case ModelReasoning(delta) => ReasonSteps(st, delta, now);
    case Returned(contents) => ReturnedKeeps(st, contents);
    case _ =>
  }

  // Messages in their place.

  /** The reasoning that is open is ended now; nothing else changes. */
  ghost predicate Shut(a: seq<Item>, b: seq<Item>, now: int) {
    |b| == |a| && forall k :: 0 <= k < |a| ==>
      b[k] == if a[k].Reasoning? && a[k].ended.None? then a[k].(ended := Some(now)) else a[k]
  }

  /** What the person sends in an idle chat is shown at once; while a turn runs it waits behind what waits already. */
  lemma SentWaitsWhileRunning(st: State, message: Message)
    requires TimesShown(st.items, message.id) == 0
    ensures var waits := st.status == Active || (st.status == Starting && st.sent != []);
      var next := RecordSent(st, message);
      && next.sent == st.sent + [message]
      && (waits ==> next.items == st.items && Queued(next) == Queued(st) + [message])
      && (!waits ==> next.items == st.items + [User(message)] && message !in Queued(next))
  {
    var next := RecordSent(st, message);
    if next.items == st.items {
      QueueMore(st.sent, st.items, message);
    } else {
      assert next.items[..|st.items|] == st.items;
      assert TimesShown(next.items, message.id) == 1;
    }
  }

  lemma {:induction false} QueueMore(sent: seq<Message>, items: seq<Item>, message: Message)
    requires TimesShown(items, message.id) == 0
    ensures Unshown(sent + [message], items) == Unshown(sent, items) + [message]
  {
    if sent != [] {
      assert (sent + [message])[1..] == sent[1..] + [message];
      QueueMore(sent[1..], items, message);
    }
  }

  /** What is steered in is the first waiting message of that text, or a new one when none waits; it is shown
      last. */
  lemma SteeredIsShown(st: State, said: Option<string>, now: int)
    ensures var next, queued := Reduce(st, Steered(said), now), Queued(st);
      && |next.items| == |st.items| + 1 && Shut(st.items, next.items[..|st.items|], now) && next.items[|st.items|].User?
      && var shown := next.items[|st.items|].message;
      if said.Some? && exists k :: 0 <= k < |queued| && queued[k].text == said.value then
        exists k :: 0 <= k < |queued| && shown == queued[k] && shown.text == said.value &&
          forall j :: 0 <= j < k ==> queued[j].text != said.value
      else shown.id.Made? && shown.text == if said.Some? then said.value else ""
  {
    hide Unshown;
    if said.Some? {
      FirstWithText(Queued(st), said.value);
    }
  }

  lemma {:induction false} FirstWithText(messages: seq<Message>, text: string)
    ensures WithText(messages, text).Some? ==>
      exists k :: 0 <= k < |messages| && WithText(messages, text).value == messages[k] && messages[k].text == text &&
                  forall j :: 0 <= j < k ==> messages[j].text != text
  {
    if messages != [] && messages[0].text != text {
      FirstWithText(messages[1..], text);
      if WithText(messages, text).Some? {
        var k :| 0 <= k < |messages[1..]| && WithText(messages[1..], text).value == messages[1..][k] &&
          messages[1..][k].text == text && forall j :: 0 <= j < k ==> messages[1..][j].text != text;
        assert messages[k + 1] == messages[1..][k];
        forall j | 0 <= j < k + 1 ensures messages[j].text != text {
          if j > 0 {
            assert messages[j] == messages[1..][j - 1];
          }
        }
      }
    }
  }

  /** Of the messages sent, the one at `k` is the first of that text that is shown. */
  predicate FirstShown(sent: seq<Message>, items: seq<Item>, content: string, k: nat) {
    && k < |sent| && sent[k].text == content && TimesShown(items, sent[k].id) > 0
    && forall j :: 0 <= j < k ==> sent[j].text != content || TimesShown(items, sent[j].id) == 0
  }

  /** An accepted message is the first sent one of that text that is shown already, which gets what came with it,
      or, in an idle chat or when there is none, a new one shown last. */
  lemma AcceptedIsShown(st: State, content: string, images: seq<string>, about: Option<string>, now: int)
    ensures var next := Reduce(st, Accepted(content, images, about), now);
      if st.status != Idle && exists k: nat :: FirstShown(st.sent, st.items, content, k) then
        exists k: nat :: FirstShown(st.sent, st.items, content, k) && Enriched(st.items, next.items, st.sent[k].id, images, about)
      else
        && |next.items| == |st.items| + 1 && Shut(st.items, next.items[..|st.items|], now)
        && next.items[|st.items|] == User(Message(Made("user", st.serial + 1), content, images, about))
  {
    hide TimesShown, FirstShown;
    IsAlreadyShown(st.sent, st.items, content);
  }

  ghost predicate Enriched(a: seq<Item>, b: seq<Item>, id: Id, images: seq<string>, about: Option<string>) {
    |b| == |a| && forall k :: 0 <= k < |a| ==>
      if a[k].User? && a[k].message.id == id then
        b[k] == User(Message(id, a[k].message.text, if images == [] then a[k].message.images else images, about))
      else b[k] == a[k]
  }

  lemma {:induction false} IsAlreadyShown(sent: seq<Message>, items: seq<Item>, content: string)
    ensures AlreadyShown(sent, items, content).None? ==> forall k: nat :: !FirstShown(sent, items, content, k)
    ensures AlreadyShown(sent, items, content).Some? ==>
      exists k: nat :: FirstShown(sent, items, content, k) && AlreadyShown(sent, items, content).value == sent[k]
  {
    if sent == [] {
    } else if sent[0].text == content && TimesShown(items, sent[0].id) > 0 {
      assert FirstShown(sent, items, content, 0);
    } else {
      IsAlreadyShown(sent[1..], items, content);
      if AlreadyShown(sent, items, content).Some? {
        var k: nat :| FirstShown(sent[1..], items, content, k) && AlreadyShown(sent[1..], items, content).value == sent[1..][k];
        assert forall j :: 0 < j < |sent| ==> sent[j] == sent[1..][j - 1];
        assert FirstShown(sent, items, content, k + 1);
      } else if k: nat :| FirstShown(sent, items, content, k) {
        assert forall j :: 0 < j < |sent| ==> sent[j] == sent[1..][j - 1];
        assert FirstShown(sent[1..], items, content, k - 1);
      }
    }
  }

  // What is open and whether a turn runs.

  /** The frame asks, or settles what was asked, of an approval or a question. */
  predicate Asks(frame: Frame, gate: int) {
    frame == Approval(gate)
  }

  predicate Settles(frame: Frame, gate: int) {
    frame == ApprovalResolved(gate) || Ends(frame)
  }

  predicate AsksForm(frame: Frame, form: int) {
    frame == Question(form)
  }

  predicate SettlesForm(frame: Frame, form: int) {
    frame == QuestionAnswered(form) || Ends(frame)
  }

  predicate Ends(frame: Frame) {
    frame.TurnDone? || frame.TurnCancelled? || frame.TurnError? || frame.Exit?
  }

  lemma {:induction false} Removed(numbers: seq<int>, n: int)
    ensures forall x :: x in Remove(numbers, n) <==> x in numbers && x != n
  {
    if numbers != [] {
      Removed(numbers[1..], n);
    }
  }

  lemma GateStep(st: State, frame: Frame, now: int, x: int)
    requires !StartsOver(frame)
    ensures x in Reduce(st, frame, now).approvals <==> Asks(frame, x) || (x in st.approvals && !Settles(frame, x))
  {
    hide Unshown, AlreadyShown, HasRunning, HasDrawn, WithText, Observe, Input, Restart, Remove, Unread, Dropped;
    if frame.ApprovalResolved? {
      Removed(st.approvals, frame.gate);
    }
  }

  lemma FormStep(st: State, frame: Frame, now: int, x: int)
    requires !StartsOver(frame)
    ensures x in Reduce(st, frame, now).questions <==> AsksForm(frame, x) || (x in st.questions && !SettlesForm(frame, x))
  {
    hide Unshown, AlreadyShown, HasRunning, HasDrawn, WithText, Observe, Input, Restart, Remove, Unread, Dropped;
    if frame.QuestionAnswered? {
      Removed(st.questions, frame.form);
    }
  }

  /** The event at `k` asks, and nothing after it settles. */
  ghost predicate StillAsked(events: seq<Event>, asks: Frame -> bool, settles: Frame -> bool) {
    exists k :: 0 <= k < |events| && events[k].Fold? && asks(events[k].frame) &&
      forall j :: k < j < |events| && events[j].Fold? ==> !settles(events[j].frame)
  }

  lemma AskedMore(events: seq<Event>, event: Event, asks: Frame -> bool, settles: Frame -> bool)
    ensures StillAsked(events + [event], asks, settles) <==>
      (event.Fold? && asks(event.frame)) || (StillAsked(events, asks, settles) && !(event.Fold? && settles(event.frame)))
  {
    var more := events + [event];
    assert more[|events|] == event && forall k :: 0 <= k < |events| ==> more[k] == events[k];
    if StillAsked(events, asks, settles) && !(event.Fold? && settles(event.frame)) {
      var k :| 0 <= k < |events| && events[k].Fold? && asks(events[k].frame) &&
        forall j :: k < j < |events| && events[j].Fold? ==> !settles(events[j].frame);
      assert more[k].Fold? && asks(more[k].frame);
    }
    if event.Fold? && asks(event.frame) {
      assert more[|events|].Fold? && asks(more[|events|].frame);
    }
    if StillAsked(more, asks, settles) && !(event.Fold? && asks(event.frame)) {
      var k :| 0 <= k < |more| && more[k].Fold? && asks(more[k].frame) &&
        forall j :: k < j < |more| && more[j].Fold? ==> !settles(more[j].frame);
      assert k < |events| && events[k].Fold? && asks(events[k].frame);
      assert forall j :: k < j < |events| && events[j].Fold? ==> !settles(more[j].frame);
    }
  }

  /** Over every run, what waits for the person is what was asked and neither settled nor ended since. */
  lemma {:induction false} OpenIsAsked(events: seq<Event>, x: int)
    requires forall k :: 0 <= k < |events| && events[k].Fold? ==> !StartsOver(events[k].frame)
    ensures x in Play(events).approvals <==> StillAsked(events, f => Asks(f, x), f => Settles(f, x))
    ensures x in Play(events).questions <==> StillAsked(events, f => AsksForm(f, x), f => SettlesForm(f, x))
  {
    hide Reduce, StillAsked;
    if events == [] {
      NoneAsked(f => Asks(f, x), f => Settles(f, x));
      NoneAsked(f => AsksForm(f, x), f => SettlesForm(f, x));
    } else {
      var before, last := events[..|events| - 1], events[|events| - 1];
      assert events == before + [last];
      OpenIsAsked(before, x);
      AskedMore(before, last, f => Asks(f, x), f => Settles(f, x));
      AskedMore(before, last, f => AsksForm(f, x), f => SettlesForm(f, x));
      if last.Fold? {
        GateStep(Play(before), last.frame, last.now, x);
        FormStep(Play(before), last.frame, last.now, x);
      }
    }
  }

  lemma NoneAsked(asks: Frame -> bool, settles: Frame -> bool)
    ensures !StillAsked([], asks, settles)
  {}

  /** A frame that shows a turn at work. */
  predicate Works(st: State, frame: Frame) {
    match frame
    case TurnStarted => true
    case Accepted(_, _, _) => true
    case ModelReasoning(_) => true
    case ModelText(delta, _, sourceEvent) => delta != "" || sourceEvent.None? || sourceEvent == Some("")
    case ToolStarted(tool) => tool != ""
    case ToolCall(id, _, _) => (if id.Some? then id.value else Made("step", st.serial + 1)) !in RunningIds(st.items)
    case _ => false
  }

  /** The view is active after every frame that shows work, idle after a turn has ended, gone after an exit; no
      other frame but a start or a recovery says anything of it. */
  lemma StatusFollows(st: State, frame: Frame, now: int)
    ensures Works(st, frame) ==> Reduce(st, frame, now).status == Active
    ensures frame.TurnDone? || frame.TurnCancelled? || frame.TurnError? ==> Reduce(st, frame, now).status == Idle
    ensures frame.Exit? ==> Reduce(st, frame, now).status == Exited
    ensures frame.Ready? ==> Reduce(st, frame, now).status == if st.sent == [] then Idle else Active
    ensures frame.Presentation? ==> Reduce(st, frame, now).status == if frame.running then Active else Idle
    ensures frame.Rewound? && !frame.codeOnly ==> Reduce(st, frame, now).status == Idle
    ensures !Works(st, frame) && !Ends(frame) && !frame.Ready? && !StartsOver(frame) ==> Reduce(st, frame, now).status == st.status
  {
    hide Unshown, AlreadyShown, HasDrawn, WithText, Observe, Input, Restart, RunningIds, HasRunning;
    if frame.ToolCall? {
      RunsOrNot(st.items, if frame.id.Some? then frame.id.value else Made("step", st.serial + 1));
    }
  }

  /** The cue to load the durable transcript comes with the end of every turn and every rewind, and with nothing
      else. */
  lemma CueFollows(st: State, frame: Frame, now: int)
    requires !frame.Presentation?
    ensures Reduce(st, frame, now).settled ==
      st.settled + if frame.TurnDone? || frame.TurnCancelled? || frame.TurnError? || frame.Rewound? then 1 else 0
  {
    hide Unshown, AlreadyShown, HasDrawn, WithText, Observe, Input, Restart, HasRunning;
  }

  // Calls being written.

  /** What is written goes away when a turn ends or is tried again, and of one call when it fails or its screen has
      come; a call that worked keeps it until then. */
  lemma WrittenUntilDrawn(st: State, frame: Frame, now: int)
    requires !StartsOver(frame) && !frame.ToolInput?
    ensures Reduce(st, frame, now).writing ==
      if frame.TurnDone? || frame.TurnCancelled? || frame.TurnError? || frame.Restarted? then []
      else if (frame.Observation? && !frame.ok) || frame.ToolScreen? then Without(st.writing, frame.id)
      else st.writing
  {
    hide Unshown, AlreadyShown, HasDrawn, WithText, Observe, Input, Restart, HasRunning, Without;
  }

  lemma {:induction false} WithoutJoin(a: seq<WritingCall>, b: seq<WritingCall>, id: Option<Id>)
    ensures Without(a + b, id) == Without(a, id) + Without(b, id)
  {
    if a == [] {
      assert a + b == b;
    } else {
      assert (a + b)[1..] == a[1..] + b;
      WithoutJoin(a[1..], b, id);
    }
  }

  /** What is written of a call so far. */
  function Written(calls: seq<WritingCall>, id: Id): string {
    if calls == [] then "" else if calls[0].id == id then calls[0].text else Written(calls[1..], id)
  }

  lemma {:induction false} WrittenIs(calls: seq<WritingCall>, id: Id)
    ensures Written(calls, id) == if CallOf(calls, id).Some? then CallOf(calls, id).value.text else ""
    ensures CallOf(calls, id).Some? ==> CallOf(calls, id).value.id == id
  {
    if calls != [] {
      WrittenIs(calls[1..], id);
    }
  }

  lemma {:induction false} WrittenLast(calls: seq<WritingCall>, call: WritingCall)
    requires forall k :: 0 <= k < |calls| ==> calls[k].id != call.id
    ensures Written(calls + [call], call.id) == call.text
  {
    if calls != [] {
      assert (calls + [call])[1..] == calls[1..] + [call];
      WrittenLast(calls[1..], call);
    }
  }

  /** A piece of a call's input goes to the end of what is written of it, unless that would pass the limit; the
      call is then the latest, and of the others the latest three are kept. */
  lemma InputIsWritten(st: State, id: Id, tool: string, delta: string, now: int)
    requires id != Given("") && tool != "" && delta != ""
    ensures var before, after := st.writing, Reduce(st, ToolInput(id, tool, delta), now).writing;
      var rest := Without(before, Some(id));
      if |Written(before, id)| + |delta| > 1024 * 1024 then after == before
      else
        && Written(after, id) == Written(before, id) + delta && after != [] && after[|after| - 1].id == id
        && after[..|after| - 1] == if |rest| <= 3 then rest else rest[|rest| - 3..]
  {
    hide Without, CallOf, Written;
    var before, after := st.writing, Input(st.writing, id, tool, delta);
    WrittenIs(before, id);
    if |Written(before, id)| + |delta| <= 1024 * 1024 {
      var last := |after| - 1;
      forall k | 0 <= k < last ensures after[k].id != id {
        assert after[k] in Without(before, Some(id));
      }
      WrittenLast(after[..last], after[last]);
      assert after == after[..last] + [after[last]];
    }
  }
}
