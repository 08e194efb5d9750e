/** The ids the view of a chat makes for itself are never used twice (live.ts, `nextId`). */
module LiveIds {
  import opened Basics
  import opened Live
  import opened LiveMessages
  import opened LiveSteps

  function ItemId(item: Item): Id {
    if item.User? then item.message.id else item.id
  }

  function StepIds(steps: seq<Step>): (ids: seq<Id>)
    ensures |ids| == |steps| && forall k :: 0 <= k < |ids| ==> ids[k] == steps[k].id
  {
    seq(|steps|, k requires 0 <= k < |steps| => steps[k].id)
  }

  function IdsOf(item: Item): seq<Id> {
    [ItemId(item)] + if item.Tools? then StepIds(item.steps) else []
  }

  /** Every id in the timeline, those of the steps among them. */
  function AllIds(items: seq<Item>): seq<Id> {
    if items == [] then [] else AllIds(items[..|items| - 1]) + IdsOf(items[|items| - 1])
  }

  /** No id the view made stands twice, nor one it has not made yet. */
  ghost predicate Fresh(ids: seq<Id>, serial: nat) {
    && (forall k :: 0 <= k < |ids| && ids[k].Made? ==> ids[k].serial <= serial)
    && (forall i, j :: 0 <= i < j < |ids| && ids[i].Made? ==> ids[i] != ids[j])
  }

  predicate AreGiven(messages: seq<Message>) {
    forall k :: 0 <= k < |messages| ==> messages[k].id.Given?
  }

  ghost predicate Numbered(st: State) {
    Fresh(AllIds(st.items), st.serial) && AreGiven(st.sent)
  }

  /** The ids a frame gives are given ones. */
  predicate Named(frame: Frame)
    decreases frame
  {
    match frame
    case Presentation(frames, _, _, _) => forall k :: 0 <= k < |frames| ==> Named(frames[k])
    case ToolCall(id, _, _) => id.Some? ==> id.value.Given?
    case _ => true
  }

  lemma {:induction false} IdsSame(a: seq<Item>, b: seq<Item>)
    requires |a| == |b| && forall k :: 0 <= k < |a| ==> IdsOf(a[k]) == IdsOf(b[k])
    ensures AllIds(a) == AllIds(b)
  {
    if a != [] {
      IdsSame(a[..|a| - 1], b[..|b| - 1]);
    }
  }

  lemma IdsMore(items: seq<Item>, item: Item)
    ensures AllIds(items + [item]) == AllIds(items) + IdsOf(item)
  {
    assert (items + [item])[..|items|] == items;
  }

  /** The last item in place of another. */
  lemma IdsLast(items: seq<Item>, item: Item)
    requires items != []
    ensures AllIds(items) == AllIds(items[..|items| - 1]) + IdsOf(items[|items| - 1])
    ensures AllIds(items[|items| - 1 := item]) == AllIds(items[..|items| - 1]) + IdsOf(item)
  {
    assert items[|items| - 1 := item][..|items| - 1] == items[..|items| - 1];
  }

  lemma UserIds(message: Message)
    ensures IdsOf(User(message)) == [message.id]
  {}

  lemma {:induction false} IdsShow(items: seq<Item>, messages: seq<Message>, serial: nat)
    requires Fresh(AllIds(items), serial) && AreGiven(messages)
    ensures Fresh(AllIds(items + AsItems(messages)), serial)
    decreases |messages|
  {
    hide Fresh, AllIds, IdsOf;
    if messages == [] {
      assert items + AsItems(messages) == items;
    } else {
      var last := |messages| - 1;
      var shown := items + AsItems(messages[..last]);
      IdsShow(items, messages[..last], serial);
      assert items + AsItems(messages) == shown + [User(messages[last])];
      IdsMore(shown, User(messages[last]));
      UserIds(messages[last]);
      OneMore(AllIds(shown), serial, messages[last].id);
    }
  }

  /** One id more, given or the next one made. */
  lemma OneMore(ids: seq<Id>, serial: nat, id: Id)
    requires Fresh(ids, serial)
    ensures id.Given? ==> Fresh(ids + [id], serial)
    ensures id.Made? && id.serial == serial + 1 ==> Fresh(ids + [id], serial + 1)
  {}

  lemma FewerIds(ids: seq<Id>, fewer: seq<Id>, serial: nat)
    requires Fresh(ids, serial) && fewer <= ids
    ensures Fresh(fewer, serial)
  {}

  lemma {:induction false} RestartIds(items: seq<Item>, serial: nat)
    requires Fresh(AllIds(items), serial)
    ensures Fresh(AllIds(Restart(items)), serial)
  {
    hide Fresh;
    if items != [] && (items[|items| - 1].Prose? || items[|items| - 1].Reasoning?) {
      FewerIds(AllIds(items), AllIds(items[..|items| - 1]), serial);
      RestartIds(items[..|items| - 1], serial);
    }
  }

  lemma SingleId(item: Item)
    requires !item.Tools?
    ensures IdsOf(item) == [ItemId(item)]
  {
    hide ItemId;
  }

  /** The items end with one more. */
  lemma Appended(st: State, items: seq<Item>, item: Item, serial: nat)
    requires Numbered(st) && |items| == |st.items| && (forall k :: 0 <= k < |items| ==> IdsOf(items[k]) == IdsOf(st.items[k]))
    requires !item.Tools?
    requires if ItemId(item).Given? then serial == st.serial else serial == st.serial + 1 == ItemId(item).serial
    ensures Fresh(AllIds(items + [item]), serial)
  {
    hide Fresh, ItemId, IdsOf, AllIds;
    IdsSame(st.items, items);
    IdsMore(items, item);
    OneMore(AllIds(items), st.serial, ItemId(item));
    SingleId(item);
  }

  lemma SameIds(st: State, next: State)
    requires Numbered(st) && |next.items| == |st.items| && next.serial == st.serial && next.sent == st.sent
    requires forall k :: 0 <= k < |st.items| ==> IdsOf(next.items[k]) == IdsOf(st.items[k])
    ensures Numbered(next)
  {
    IdsSame(st.items, next.items);
  }

  lemma ShutIds(items: seq<Item>, now: int)
    ensures forall k :: 0 <= k < |items| ==> IdsOf(CloseReasoning(items, now)[k]) == IdsOf(items[k])
    ensures forall k :: 0 <= k < |items| ==> IdsOf(CloseAll(items, now)[k]) == IdsOf(items[k])
  {
    forall k | 0 <= k < |items| ensures IdsOf(CloseAll(items, now)[k]) == IdsOf(items[k]) {
      if items[k].Tools? {
        assert StepIds(StopAll(items[k].steps, now)) == StepIds(items[k].steps);
      }
    }
  }

  lemma AcceptNumbers(st: State, content: string, images: seq<string>, about: Option<string>, now: int)
    requires Numbered(st)
    ensures Numbered(Accept(st, content, images, about, now))
  {
    hide Numbered, AllIds, AlreadyShown;
    var next := Accept(st, content, images, about, now);
    ShutIds(st.items, now);
    if |next.items| == |st.items| {
      SameIds(st, next);
    } else {
      Appended(st, CloseReasoning(st.items, now), next.items[|st.items|], next.serial);
      Sent(st, next);
    }
  }

  lemma Sent(st: State, next: State)
    requires Numbered(st) && next.sent == st.sent && Fresh(AllIds(next.items), next.serial)
    ensures Numbered(next)
  {}

  lemma WriteNumbers(st: State, delta: string, html: Option<string>, sourceEvent: Option<string>, now: int)
    requires Numbered(st)
    ensures Numbered(Write(st, delta, html, sourceEvent, now))
  {
    hide Numbered, AllIds;
    var next := Write(st, delta, html, sourceEvent, now);
    ShutIds(st.items, now);
    if |next.items| == |st.items| {
      SameIds(st, next);
    } else {
      Appended(st, CloseReasoning(st.items, now), next.items[|st.items|], next.serial);
      Sent(st, next);
    }
  }

  lemma ReasonNumbers(st: State, delta: string, now: int)
    requires Numbered(st)
    ensures Numbered(Reason(st, delta, now))
  {
    hide Numbered, AllIds;
    var next := Reason(st, delta, now);
    if |next.items| == |st.items| {
      SameIds(st, next);
    } else {
      Appended(st, st.items, next.items[|st.items|], next.serial);
      Sent(st, next);
    }
  }

  lemma SteerNumbers(st: State, said: Option<string>, now: int)
    requires Numbered(st)
    ensures Numbered(Steer(st, said, now))
  {
    GivenQueue(st);
    hide Numbered, AllIds, Unshown, WithText;
    var next := Steer(st, said, now);
    ShutIds(st.items, now);
    Appended(st, CloseReasoning(st.items, now), next.items[|st.items|], next.serial);
    Sent(st, next);
  }

  lemma GivenQueue(st: State)
    requires Numbered(st)
    ensures AreGiven(Queued(st)) && forall m :: m in Queued(st) ==> m.id.Given?
  {}

  /** A call: one id more behind all others, or those of a new group and its step. */
  lemma CallNumbers(st: State, given: Option<Id>, tool: string, plan: bool, now: int)
    requires Numbered(st) && (given.Some? ==> given.value.Given?)
    ensures Numbered(Call(st, given, tool, plan, now))
  {
    hide AllIds, HasRunning, Fresh, IdsOf;
    var next, closed := Call(st, given, tool, plan, now), CloseReasoning(st.items, now);
    var id := if given.Some? then given.value else Made("step", st.serial + 1);
    var serial := if given.Some? then st.serial else st.serial + 1;
    ShutIds(st.items, now);
    IdsSame(st.items, closed);
    var ids := AllIds(closed);
    OneMore(ids, st.serial, id);
    MoreSerials(ids, st.serial, serial);
    if HasRunning(st.items, id) {
    } else if plan {
      IdsMore(closed, Plan(id));
      assert IdsOf(Plan(id)) == [id] by { PlanIds(id); }
    } else if closed != [] && closed[|closed| - 1].Tools? {
      var last := |closed| - 1;
      IdsLast(closed, next.items[last]);
      GroupGrows(closed[last], Step(id, tool, Running, None, None, None, None));
      assert AllIds(next.items) == ids + [id];
    } else {
      var group := next.items[|closed|];
      IdsMore(closed, group);
      NotYetMade(ids, st.serial, id);
      TwoMore(ids, serial, group.id, id);
      assert IdsOf(group) == [group.id, id] by { GroupIds(group.id, group.steps[0]); }
      assert AllIds(next.items) == ids + [group.id] + [id];
    }
  }

  lemma PlanIds(id: Id)
    ensures IdsOf(Plan(id)) == [id]
  {}

  lemma GroupIds(id: Id, step: Step)
    ensures IdsOf(Tools(id, [step])) == [id, step.id]
  {}

  lemma GroupGrows(group: Item, step: Step)
    requires group.Tools?
    ensures IdsOf(group.(steps := group.steps + [step])) == IdsOf(group) + [step.id]
  {
    assert StepIds(group.steps + [step]) == StepIds(group.steps) + [step.id];
  }

  lemma NotYetMade(ids: seq<Id>, serial: nat, id: Id)
    requires Fresh(ids, serial)
    ensures id.Made? && id.serial > serial ==> id !in ids
  {}

  lemma MoreSerials(ids: seq<Id>, serial: nat, more: nat)
    requires Fresh(ids, serial) && serial <= more
    ensures Fresh(ids, more)
  {}

  lemma TwoMore(ids: seq<Id>, serial: nat, group: Id, step: Id)
    requires Fresh(ids, serial) && group == Made("tools", serial + 1)
    requires step.Made? ==> step == Made("step", serial) && step !in ids
    ensures Fresh(ids + [group] + [step], serial + 1)
  {}

  lemma ObserveNumbers(st: State, id: Option<Id>, of: Option<string>, report: Report)
    requires Numbered(st)
    ensures Fresh(AllIds(Observe(st.items, id, of, report)), st.serial)
  {
    hide AllIds, Fresh;
    var found, g, k := ObservedItems(st.items, id, of, report);
    var items := Observe(st.items, id, of, report);
    forall i | 0 <= i < |items| ensures IdsOf(items[i]) == IdsOf(st.items[i]) {
      if found && i == g {
        assert StepIds(items[g].steps) == StepIds(st.items[g].steps);
      }
    }
    IdsSame(st.items, items);
  }

  lemma ScreenNumbers(st: State, id: Option<Id>, source: Option<string>, resource: string)
    requires Numbered(st)
    ensures Numbered(Screen(st, id, source, resource))
  {
    hide Numbered, AllIds;
    var next, at := Screen(st, id, source, resource), LastDrawn(st.items, id, source);
    forall i | 0 <= i < |st.items| ensures IdsOf(next.items[i]) == IdsOf(st.items[i]) {
      if i == at {
        assert StepIds(next.items[i].steps) == StepIds(st.items[i].steps);
      }
    }
    SameIds(st, next);
  }

  lemma SettledNumbers(st: State, now: int)
    requires Numbered(st)
    ensures Fresh(AllIds(CloseAll(st.items, now) + AsItems(Queued(st))), st.serial)
  {
    GivenQueue(st);
    ShutIds(st.items, now);
    IdsSame(st.items, CloseAll(st.items, now));
    IdsShow(CloseAll(st.items, now), Queued(st), st.serial);
  }

  lemma {:induction false} FrameNumbers(st: State, frame: Frame, now: int)
    requires Numbered(st) && Named(frame)
    ensures Numbered(Reduce(st, frame, now))
    decreases frame, 1
  {
    hide AllIds, Fresh, Unshown, Accept, Write, Reason, Steer, Call, Screen, Observe, Restart, Return, CloseAll, Remove, Without, Input;
    match frame
    case Presentation(frames, gates, forms, running) =>
      NoIds(st.serial);
      FramesNumber(st.(items := [], approvals := [], questions := []), frames, now);
    case Rewound(_) => NoIds(st.serial);
    case Accepted(content, images, about) => AcceptNumbers(st, content, images, about, now);
    case ModelText(delta, html, sourceEvent) => WriteNumbers(st, delta, html, sourceEvent, now);
    case ModelReasoning(delta) => ReasonNumbers(st, delta, now);
    case ToolCall(id, tool, plan) => CallNumbers(st, id, tool, plan, now);
    case Observation(id, of, ok, sourceEvent, output) =>
      ObserveNumbers(st, id, of, Report(ok, sourceEvent, output, now));
    case ToolScreen(id, source, resource) => ScreenNumbers(st, id, source, resource);
    case Steered(said) => SteerNumbers(st, said, now);
    case Restarted => RestartIds(st.items, st.serial);
    case Exit => SettledNumbers(st, now);
    case TurnDone => SettledNumbers(st, now);
    case TurnCancelled => SettledNumbers(st, now);
    case TurnError => SettledNumbers(st, now);
    case Returned(contents) => ReturnedGiven(st, contents);
    case _ =>
  }

  lemma NoIds(serial: nat)
    ensures Fresh(AllIds([]), serial)
  {}

  lemma ReturnedGiven(st: State, contents: seq<string>)
    requires AreGiven(st.sent)
    ensures AreGiven(Return(st, contents).sent)
    ensures Return(st, contents).items == st.items && Return(st, contents).serial == st.serial
  {
    hide Unread;
    forall m | m in Return(st, contents).sent ensures m.id.Given? {
      assert m in st.sent;
    }
  }

  lemma {:induction false} FramesNumber(st: State, frames: seq<Frame>, now: int)
    requires Numbered(st) && forall k :: 0 <= k < |frames| ==> Named(frames[k])
    ensures Numbered(ReduceAll(st, frames, now))
    decreases frames, 0
  {
    hide Numbered, Named;
    if frames != [] {
      FramesNumber(st, frames[..|frames| - 1], now);
      FrameNumbers(ReduceAll(st, frames[..|frames| - 1], now), frames[|frames| - 1], now);
    }
  }

  /** Over every run, recoveries included: no two items or steps of a timeline share an id the view made. */
  lemma {:induction false} MadeIdsDiffer(events: seq<Event>)
    requires forall k :: 0 <= k < |events| ==>
      match events[k] case Record(message) => message.id.Given? case Fold(frame, _) => Named(frame)
    ensures Numbered(Play(events))
  {
    hide AllIds, Fresh, Named;
    if events == [] {
      NoIds(0);
    } else {
      var before, last := Play(events[..|events| - 1]), events[|events| - 1];
      MadeIdsDiffer(events[..|events| - 1]);
      match last
      case Record(message) =>
        IdsMore(before.items, User(message));
        UserIds(message);
        OneMore(AllIds(before.items), before.serial, message.id);
      case Fold(frame, now) => FrameNumbers(before, frame, now);
    }
  }
}
