/** Tool steps run once, end once and stay ended (live.ts). */
module LiveSteps {
  import opened Basics
  import opened Live
  import opened LiveMessages

  function RunningSteps(steps: seq<Step>): seq<Id> {
    if steps == [] then []
    else if steps[0].status == Running then [steps[0].id] + RunningSteps(steps[1..])
    else RunningSteps(steps[1..])
  }

  function RunningOf(item: Item): seq<Id> {
    if item.Tools? then RunningSteps(item.steps) else []
  }

  /** The ids of the steps that are running, in order. */
  function RunningIds(items: seq<Item>): seq<Id> {
    if items == [] then [] else RunningOf(items[0]) + RunningIds(items[1..])
  }

  predicate NoRepeats(ids: seq<Id>) {
    forall i, j :: 0 <= i < j < |ids| ==> ids[i] != ids[j]
  }

  lemma {:induction false} StepsSum(a: seq<Step>, b: seq<Step>)
    ensures RunningSteps(a + b) == RunningSteps(a) + RunningSteps(b)
  {
    if a == [] {
      assert a + b == b;
    } else {
      assert (a + b)[1..] == a[1..] + b;
      StepsSum(a[1..], b);
    }
  }

  lemma {:induction false} RunningSum(a: seq<Item>, b: seq<Item>)
    ensures RunningIds(a + b) == RunningIds(a) + RunningIds(b)
  {
    if a == [] {
      assert a + b == b;
    } else {
      assert (a + b)[1..] == a[1..] + b;
      RunningSum(a[1..], b);
    }
  }

  lemma RunningOne(item: Item)
    ensures RunningIds([item]) == RunningOf(item)
  {
    assert [item][1..] == [];
  }

  lemma {:induction false} RunningSame(a: seq<Item>, b: seq<Item>)
    requires |a| == |b| && forall k :: 0 <= k < |a| ==> RunningOf(a[k]) == RunningOf(b[k])
    ensures RunningIds(a) == RunningIds(b)
  {
    if a != [] {
      RunningSame(a[1..], b[1..]);
    }
  }

  lemma {:induction false} NoneRunning(items: seq<Item>)
    requires forall k :: 0 <= k < |items| ==> RunningOf(items[k]) == []
    ensures RunningIds(items) == []
  {
    if items != [] {
      NoneRunning(items[1..]);
    }
  }

  lemma {:induction false} StoppedSteps(steps: seq<Step>, now: int)
    ensures RunningSteps(StopAll(steps, now)) == []
  {
    if steps != [] {
      StoppedSteps(steps[1..], now);
      assert StopAll(steps, now)[1..] == StopAll(steps[1..], now);
    }
  }

  lemma {:induction false} StepIsRunning(steps: seq<Step>, k: nat)
    requires k < |steps| && steps[k].status == Running
    ensures steps[k].id in RunningSteps(steps)
  {
    if k > 0 {
      StepIsRunning(steps[1..], k - 1);
    }
  }

  lemma {:induction false} RunningIsStep(steps: seq<Step>, id: Id) returns (k: nat)
    requires id in RunningSteps(steps)
    ensures k < |steps| && steps[k].id == id && steps[k].status == Running
  {
    if steps[0].status == Running && steps[0].id == id {
      k := 0;
    } else {
      k := RunningIsStep(steps[1..], id);
      k := k + 1;
    }
  }

  lemma {:induction false} RunningIsSomewhere(items: seq<Item>, id: Id)
    requires id in RunningIds(items)
    ensures HasRunning(items, id)
  {
    if id in RunningOf(items[0]) {
      var k := RunningIsStep(items[0].steps, id);
    } else {
      RunningIsSomewhere(items[1..], id);
      var g, k :| 0 <= g < |items[1..]| && items[1..][g].Tools? && 0 <= k < |items[1..][g].steps| &&
        items[1..][g].steps[k].id == id && items[1..][g].steps[k].status == Running;
      assert items[g + 1] == items[1..][g];
    }
  }

  // What an observation does: it ends the first running step it is about, and that one only.

  lemma {:induction false} ObservedSteps(steps: seq<Step>, id: Option<Id>, of: Option<string>, report: Report) returns (k: nat)
    requires AnyObserved(steps, id, of)
    ensures k < |steps| && Observes(steps[k], id, of) && forall j :: 0 <= j < k ==> !Observes(steps[j], id, of)
    ensures ObserveSteps(steps, id, of, report) == steps[k := EndStep(steps[k], report)]
  {
    if Observes(steps[0], id, of) {
      k := 0;
    } else {
      var j :| 0 <= j < |steps| && Observes(steps[j], id, of);
      assert steps[1..][j - 1] == steps[j];
      k := ObservedSteps(steps[1..], id, of, report);
      k := k + 1;
      assert steps == [steps[0]] + steps[1..];
    }
  }

  lemma NowObserved(items: seq<Item>, id: Option<Id>, of: Option<string>, k: nat)
    requires items != [] && items[0].Tools? && k < |items[0].steps| && Observes(items[0].steps[k], id, of)
    requires forall j :: 0 <= j < k ==> !Observes(items[0].steps[j], id, of)
    ensures FirstObserved(items, id, of, 0, k)
  {}

  lemma LaterObserved(items: seq<Item>, id: Option<Id>, of: Option<string>, g: nat, k: nat)
    requires items != [] && FirstObserved(items[1..], id, of, g, k)
    requires items[0].Tools? ==> !AnyObserved(items[0].steps, id, of)
    ensures FirstObserved(items, id, of, g + 1, k)
    ensures g + 1 < |items| && items[g + 1] == items[1..][g] && items[g + 1].Tools? && k < |items[g + 1].steps|
  {
    hide Observes;
    forall h, j | 0 <= h < g + 1 && items[h].Tools? && 0 <= j < |items[h].steps| ensures !Observes(items[h].steps[j], id, of) {
      if h > 0 {
        assert items[1..][h - 1] == items[h];
      }
    }
  }

  /** An observation changes nothing, or the first step it is about from running to ended. */
  lemma {:induction false} ObservedItems(items: seq<Item>, id: Option<Id>, of: Option<string>, report: Report)
    returns (found: bool, g: nat, k: nat)
    ensures found ==> FirstObserved(items, id, of, g, k)
    ensures found ==>
      Observe(items, id, of, report) == items[g := items[g].(steps := items[g].steps[k := EndStep(items[g].steps[k], report)])]
    ensures !found ==> Observe(items, id, of, report) == items
    ensures !found ==> forall h :: 0 <= h < |items| && items[h].Tools? ==> !AnyObserved(items[h].steps, id, of)
  {
    hide Observes, EndStep, FirstObserved;
    found, g, k := false, 0, 0;
    if items != [] {
      if items[0].Tools? && AnyObserved(items[0].steps, id, of) {
        found := true;
        k := ObservedSteps(items[0].steps, id, of, report);
        NowObserved(items, id, of, k);
        assert items[0 := items[0].(steps := ObserveSteps(items[0].steps, id, of, report))]
            == [items[0].(steps := ObserveSteps(items[0].steps, id, of, report))] + items[1..];
      } else {
        found, g, k := ObservedItems(items[1..], id, of, report);
        assert items == [items[0]] + items[1..];
        if found {
          LaterObserved(items, id, of, g, k);
          var ended := items[g + 1].(steps := items[g + 1].steps[k := EndStep(items[g + 1].steps[k], report)]);
          assert items[g + 1 := ended] == [items[0]] + items[1..][g := ended];
          g := g + 1;
        }
      }
    }
  }

  lemma {:induction false} EndedStep(steps: seq<Step>, k: nat, report: Report) returns (i: nat)
    requires k < |steps| && steps[k].status == Running
    ensures i < |RunningSteps(steps)|
    ensures RunningSteps(steps[k := EndStep(steps[k], report)]) == RunningSteps(steps)[..i] + RunningSteps(steps)[i + 1..]
    ensures RunningSteps(steps)[i] == steps[k].id
  {
    var a, b := steps[..k], steps[k + 1..];
    var ended := EndStep(steps[k], report);
    assert steps == a + ([steps[k]] + b);
    assert steps[k := ended] == a + ([ended] + b);
    StepsSum(a, [steps[k]] + b);
    StepsSum(a, [ended] + b);
    assert ([steps[k]] + b)[1..] == b && ([ended] + b)[1..] == b;
    i := |RunningSteps(a)|;
  }

  /** One item put in the place of another. */
  lemma RunningAt(items: seq<Item>, g: nat, item: Item)
    requires g < |items|
    ensures RunningIds(items) == RunningIds(items[..g]) + (RunningOf(items[g]) + RunningIds(items[g + 1..]))
    ensures RunningIds(items[g := item]) == RunningIds(items[..g]) + (RunningOf(item) + RunningIds(items[g + 1..]))
  {
    var a, b := items[..g], items[g + 1..];
    assert items == a + ([items[g]] + b);
    assert items[g := item] == a + ([item] + b);
    RunningSum(a, [items[g]] + b);
    RunningSum(a, [item] + b);
    assert ([items[g]] + b)[1..] == b && ([item] + b)[1..] == b;
  }

  lemma CutRepeats(ids: seq<Id>, i: nat)
    requires NoRepeats(ids) && i < |ids|
    ensures NoRepeats(ids[..i] + ids[i + 1..]) && ids[i] !in ids[..i] + ids[i + 1..]
  {
  }

  lemma CutMiddle(a: seq<Id>, r: seq<Id>, b: seq<Id>, j: nat)
    requires j < |r|
    ensures a + ((r[..j] + r[j + 1..]) + b) == (a + (r + b))[..|a| + j] + (a + (r + b))[|a| + j + 1..]
  {
  }

  /** The ids of the running steps after an observation are those before without the one ended. */
  lemma ObservationEndsOne(items: seq<Item>, id: Option<Id>, of: Option<string>, report: Report)
    returns (found: bool, i: nat)
    ensures var before, after := RunningIds(items), RunningIds(Observe(items, id, of, report));
      if found then i < |before| && after == before[..i] + before[i + 1..] else after == before
    ensures found <==> exists g :: 0 <= g < |items| && items[g].Tools? && AnyObserved(items[g].steps, id, of)
  {
    var g, k;
    i := 0;
    found, g, k := ObservedItems(items, id, of, report);
    if found {
      var steps := items[g].steps;
      var j := EndedStep(steps, k, report);
      var ended := steps[k := EndStep(steps[k], report)];
      RunningAt(items, g, items[g].(steps := ended));
      CutMiddle(RunningIds(items[..g]), RunningSteps(steps), RunningIds(items[g + 1..]), j);
      i := |RunningIds(items[..g])| + j;
      assert AnyObserved(items[g].steps, id, of);
    }
  }

  // What every step keeps: no two running steps share an id.

  lemma RunningAppend(items: seq<Item>, item: Item)
    ensures RunningIds(items + [item]) == RunningIds(items) + RunningOf(item)
  {
    RunningSum(items, [item]);
    RunningOne(item);
  }

  lemma {:induction false} RunningRestart(items: seq<Item>)
    ensures RunningIds(Restart(items)) == RunningIds(items)
  {
    if items != [] && (items[|items| - 1].Prose? || items[|items| - 1].Reasoning?) {
      var last := |items| - 1;
      RunningRestart(items[..last]);
      RunningAppend(items[..last], items[last]);
      assert items == items[..last] + [items[last]];
    }
  }

  lemma {:induction false} DrawnSteps(steps: seq<Step>, id: Option<Id>, source: Option<string>, resource: string)
    ensures RunningSteps(DrawSteps(steps, id, source, resource)) == RunningSteps(steps)
  {
    if steps != [] {
      DrawnSteps(steps[1..], id, source, resource);
      assert DrawSteps(steps, id, source, resource)[1..] == DrawSteps(steps[1..], id, source, resource);
    }
  }

  lemma RunningSettled(items: seq<Item>, messages: seq<Message>, now: int)
    ensures RunningIds(CloseAll(items, now) + AsItems(messages)) == []
  {
    var settled := CloseAll(items, now) + AsItems(messages);
    forall k | 0 <= k < |settled| ensures RunningOf(settled[k]) == [] {
      if k < |items| && items[k].Tools? {
        StoppedSteps(items[k].steps, now);
      }
    }
    NoneRunning(settled);
  }

  lemma RunningWrite(st: State, delta: string, html: Option<string>, sourceEvent: Option<string>, now: int)
    ensures RunningIds(Write(st, delta, html, sourceEvent, now).items) == RunningIds(st.items)
  {
    hide RunningIds;
    var next, closed := Write(st, delta, html, sourceEvent, now), CloseReasoning(st.items, now);
    RunningSame(st.items, closed);
    if |next.items| == |st.items| {
      RunningSame(st.items, next.items);
    } else {
      RunningAppend(closed, next.items[|closed|]);
    }
  }

  lemma RunningReason(st: State, delta: string, now: int)
    ensures RunningIds(Reason(st, delta, now).items) == RunningIds(st.items)
  {
    hide RunningIds;
    var next := Reason(st, delta, now);
    if |next.items| == |st.items| {
      RunningSame(st.items, next.items);
    } else {
      RunningAppend(st.items, next.items[|st.items|]);
    }
  }

  lemma RunningAccept(st: State, content: string, images: seq<string>, about: Option<string>, now: int)
    ensures RunningIds(Accept(st, content, images, about, now).items) == RunningIds(st.items)
  {
    hide RunningIds, AlreadyShown;
    var next, closed := Accept(st, content, images, about, now), CloseReasoning(st.items, now);
    RunningSame(st.items, closed);
    if |next.items| == |st.items| {
      RunningSame(st.items, next.items);
    } else {
      RunningAppend(closed, next.items[|closed|]);
    }
  }

  lemma RunningSteer(st: State, said: Option<string>, now: int)
    ensures RunningIds(Steer(st, said, now).items) == RunningIds(st.items)
  {
    hide RunningIds, WithText;
    var next, closed := Steer(st, said, now), CloseReasoning(st.items, now);
    RunningSame(st.items, closed);
    RunningAppend(closed, next.items[|closed|]);
  }

  lemma OneMoreStep(steps: seq<Step>, step: Step)
    requires step.status == Running
    ensures RunningSteps(steps + [step]) == RunningSteps(steps) + [step.id]
  {
    StepsSum(steps, [step]);
    assert [step][1..] == [];
  }

  /** A call starts a step of an id no running step has, or starts none. */
  lemma RunningCall(st: State, given: Option<Id>, tool: string, plan: bool, now: int)
    ensures var before, after := RunningIds(st.items), RunningIds(Call(st, given, tool, plan, now).items);
      after == before || (|after| == |before| + 1 && after[..|before|] == before && after[|before|] !in before)
  {
    hide RunningIds, HasRunning;
    var id := if given.Some? then given.value else Made("step", st.serial + 1);
    var next, closed := Call(st, given, tool, plan, now), CloseReasoning(st.items, now);
    RunningSame(st.items, closed);
    if !HasRunning(st.items, id) {
      if id in RunningIds(st.items) {
        RunningIsSomewhere(st.items, id);
        assert false;
      }
      var step := Step(id, tool, Running, None, None, None, None);
      var last := |closed| - 1;
      if plan {
        RunningAppend(closed, next.items[|closed|]);
      } else if closed != [] && closed[last].Tools? {
        OneMoreStep(closed[last].steps, step);
        RunningAppend(closed[..last], closed[last]);
        RunningAppend(closed[..last], next.items[last]);
        assert closed == closed[..last] + [closed[last]];
        assert next.items == closed[..last] + [next.items[last]];
      } else {
        OneMoreStep([], step);
        assert [] + [step] == [step];
        RunningAppend(closed, next.items[|closed|]);
      }
    }
  }

  lemma RunningScreen(st: State, id: Option<Id>, source: Option<string>, resource: string)
    ensures RunningIds(Screen(st, id, source, resource).items) == RunningIds(st.items)
  {
    hide RunningIds;
    var at := LastDrawn(st.items, id, source);
    if at >= 0 {
      DrawnSteps(st.items[at].steps, id, source, resource);
    }
    RunningSame(st.items, Screen(st, id, source, resource).items);
  }

  /** In every reachable state the running steps have pairwise distinct ids. */
  lemma {:induction false} RunningDistinct(st: State, frame: Frame, now: int)
    requires NoRepeats(RunningIds(st.items))
    ensures NoRepeats(RunningIds(Reduce(st, frame, now).items))
    decreases frame, 1
  {
    hide RunningIds, Write, Reason, Accept, Steer, Call, Screen, Observe, Restart, Unshown, RecordSent;
    var next := Reduce(st, frame, now);
    match frame
    case Presentation(frames, gates, forms, running) =>
      NoneRunning([]);
      RunningDistinctAll(st.(items := [], approvals := [], questions := []), frames, now);
    case Rewound(codeOnly) => NoneRunning([]);
    case Exit => RunningSettled(st.items, Queued(st), now);
    case TurnDone => RunningSettled(st.items, Queued(st), now);
    case TurnCancelled => RunningSettled(st.items, Queued(st), now);
    case TurnError => RunningSettled(st.items, Queued(st), now);
    case Accepted(content, images, about) => RunningAccept(st, content, images, about, now);
    case ModelText(delta, html, sourceEvent) => RunningWrite(st, delta, html, sourceEvent, now);
    case ModelReasoning(delta) => RunningReason(st, delta, now);
    case ToolCall(id, tool, plan) => RunningCall(st, id, tool, plan, now);
    case Observation(id, of, ok, sourceEvent, output) =>
      var found, i := ObservationEndsOne(st.items, id, of, Report(ok, sourceEvent, output, now));
      if found {
        CutRepeats(RunningIds(st.items), i);
      }
    case ToolScreen(id, source, resource) => RunningScreen(st, id, source, resource);
    case Steered(said) => RunningSteer(st, said, now);
    case Restarted => RunningRestart(st.items);
    case _ =>
  }

  lemma {:induction false} RunningDistinctAll(st: State, frames: seq<Frame>, now: int)
    requires NoRepeats(RunningIds(st.items))
    ensures NoRepeats(RunningIds(ReduceAll(st, frames, now).items))
    decreases frames, 0
  {
    if frames != [] {
      RunningDistinctAll(st, frames[..|frames| - 1], now);
      RunningDistinct(ReduceAll(st, frames[..|frames| - 1], now), frames[|frames| - 1], now);
    }
  }

  lemma {:induction false} PlayRunningDistinct(events: seq<Event>)
    ensures NoRepeats(RunningIds(Play(events).items))
  {
    if events != [] {
      var before := Play(events[..|events| - 1]);
      PlayRunningDistinct(events[..|events| - 1]);
      match events[|events| - 1]
      case Record(message) => RunningAppend(before.items, User(message));
      case Fold(frame, now) => RunningDistinct(before, frame, now);
    }
  }

  // A step that has ended stays as it ended.

  predicate StepKept(a: Step, b: Step) {
    b.id == a.id && b.tool == a.tool &&
    (a.status != Running ==> b.status == a.status && b.output == a.output && b.ended == a.ended && b.sourceEvent == a.sourceEvent)
  }

  predicate StepsKept(a: seq<Step>, b: seq<Step>) {
    |a| <= |b| && forall k :: 0 <= k < |a| ==> StepKept(a[k], b[k])
  }

  /** Every group of steps is where it was, with its steps kept and at most others after them. */
  predicate GroupsKept(a: seq<Item>, b: seq<Item>) {
    forall g :: 0 <= g < |a| && a[g].Tools? ==> g < |b| && b[g].Tools? && StepsKept(a[g].steps, b[g].steps)
  }

  lemma GroupsKeptTwice(a: seq<Item>, b: seq<Item>, c: seq<Item>)
    requires GroupsKept(a, b) && GroupsKept(b, c)
    ensures GroupsKept(a, c)
  {
    forall g | 0 <= g < |a| && a[g].Tools? ensures StepsKept(a[g].steps, c[g].steps) {
      StepsKeptTwice(a[g].steps, b[g].steps, c[g].steps);
    }
  }

  lemma StepsKeptTwice(a: seq<Step>, b: seq<Step>, c: seq<Step>)
    requires StepsKept(a, b) && StepsKept(b, c)
    ensures StepsKept(a, c)
  {
    forall k | 0 <= k < |a| ensures StepKept(a[k], c[k]) {
      assert StepKept(a[k], b[k]) && StepKept(b[k], c[k]);
    }
  }

  lemma {:induction false} RestartKeeps(items: seq<Item>)
    ensures GroupsKept(items, Restart(items))
  {
    if items != [] && (items[|items| - 1].Prose? || items[|items| - 1].Reasoning?) {
      RestartKeeps(items[..|items| - 1]);
    }
  }

  lemma ObserveKeeps(items: seq<Item>, id: Option<Id>, of: Option<string>, report: Report)
    ensures GroupsKept(items, Observe(items, id, of, report))
  {
    var found, g, k := ObservedItems(items, id, of, report);
  }

  lemma AcceptKeeps(st: State, content: string, images: seq<string>, about: Option<string>, now: int)
    ensures GroupsKept(st.items, Accept(st, content, images, about, now).items)
  {
    hide AlreadyShown;
  }

  lemma WriteKeeps(st: State, delta: string, html: Option<string>, sourceEvent: Option<string>, now: int)
    ensures GroupsKept(st.items, Write(st, delta, html, sourceEvent, now).items)
  {}

  lemma ReasonKeeps(st: State, delta: string, now: int)
    ensures GroupsKept(st.items, Reason(st, delta, now).items)
  {}

  lemma CallKeeps(st: State, id: Option<Id>, tool: string, plan: bool, now: int)
    ensures GroupsKept(st.items, Call(st, id, tool, plan, now).items)
  {
    hide HasRunning;
  }

  lemma ScreenKeeps(st: State, id: Option<Id>, source: Option<string>, resource: string)
    ensures GroupsKept(st.items, Screen(st, id, source, resource).items)
  {
    hide HasDrawn;
  }

  lemma SteerKeeps(st: State, content: Option<string>, now: int)
    ensures GroupsKept(st.items, Steer(st, content, now).items)
  {
    hide Unshown, WithText;
  }

  lemma ReduceKeeps(st: State, frame: Frame, now: int)
    requires !StartsOver(frame)
    ensures GroupsKept(st.items, Reduce(st, frame, now).items)
  {
    hide Unshown, Restart, Observe, Accept, Write, Reason, Call, Screen, Steer;
    match frame
    case Accepted(content, images, about) => AcceptKeeps(st, content, images, about, now);
    case ModelText(delta, html, sourceEvent) => WriteKeeps(st, delta, html, sourceEvent, now);
    case ModelReasoning(delta) => ReasonKeeps(st, delta, now);
    case ToolCall(id, tool, plan) => CallKeeps(st, id, tool, plan, now);
    case ToolScreen(id, source, resource) => ScreenKeeps(st, id, source, resource);
    case Steered(said) => SteerKeeps(st, said, now);
    case Observation(id, of, ok, sourceEvent, output) =>
      ObserveKeeps(st.items, id, of, Report(ok, sourceEvent, output, now));
    case Restarted => RestartKeeps(st.items);
    case _ =>
  }

  /** Over every run each finished step stays at its place as it ended: none runs again. */
  lemma {:induction false} RunKeeps(before: seq<Event>, after: seq<Event>)
    requires forall k :: 0 <= k < |after| && after[k].Fold? ==> !StartsOver(after[k].frame)
    ensures GroupsKept(Play(before).items, Play(before + after).items)
    decreases |after|
  {
    if after == [] {
      assert before + after == before;
    } else {
      var rest, last := after[..|after| - 1], after[|after| - 1];
      assert (before + after)[..|before + after| - 1] == before + rest;
      RunKeeps(before, rest);
      var st := Play(before + rest);
      if last.Fold? {
        ReduceKeeps(st, last.frame, last.now);
      }
      GroupsKeptTwice(Play(before).items, st.items, Play(before + after).items);
    }
  }

  /** After a turn is done, cancelled or failed, or the chat is gone, no step runs and no
      reasoning is open. */
  lemma NothingOpenAfter(st: State, frame: Frame, now: int)
    requires frame.TurnDone? || frame.TurnCancelled? || frame.TurnError? || frame.Exit?
    ensures var items := Reduce(st, frame, now).items;
      RunningIds(items) == [] && forall k :: 0 <= k < |items| && items[k].Reasoning? ==> items[k].ended.Some?
  {
    hide Unshown;
    RunningSettled(st.items, Queued(st), now);
  }

  /** A retry takes away the prose and reasoning the view ends in, all of it and nothing else. */
  lemma {:induction false} RestartTrims(items: seq<Item>)
    ensures var kept := Restart(items);
      && kept <= items
      && (forall k :: |kept| <= k < |items| ==> items[k].Prose? || items[k].Reasoning?)
      && (kept != [] ==> !kept[|kept| - 1].Prose? && !kept[|kept| - 1].Reasoning?)
  {
    if items != [] && (items[|items| - 1].Prose? || items[|items| - 1].Reasoning?) {
      RestartTrims(items[..|items| - 1]);
    }
  }

  // The calls still being written.

  predicate WritingBounded(calls: seq<WritingCall>) {
    && |calls| <= MAX_WRITING
    && (forall k :: 0 <= k < |calls| ==> |calls[k].text| <= MAX_WRITING_TEXT)
    && (forall i, j :: 0 <= i < j < |calls| ==> calls[i].id != calls[j].id)
  }

  lemma FirstBounded(calls: seq<WritingCall>, rest: seq<WritingCall>)
    requires calls != [] && WritingBounded(calls) && WritingBounded(rest) && |rest| < |calls|
    requires forall c :: c in rest ==> c in calls[1..]
    ensures WritingBounded([calls[0]] + rest)
  {
    forall k | 0 <= k < |rest| ensures rest[k].id != calls[0].id {
      assert rest[k] in calls[1..];
      var j :| 0 <= j < |calls[1..]| && calls[1..][j] == rest[k];
      assert calls[j + 1] == rest[k];
    }
  }

  lemma {:induction false} WithoutBounded(calls: seq<WritingCall>, id: Option<Id>)
    requires WritingBounded(calls)
    ensures WritingBounded(Without(calls, id))
  {
    hide WritingBounded;
    if calls != [] {
      LatestBounded(calls, 1);
      WithoutBounded(calls[1..], id);
      if Some(calls[0].id) != id {
        FirstBounded(calls, Without(calls[1..], id));
      }
    }
  }

  lemma AddedBounded(calls: seq<WritingCall>, call: WritingCall)
    requires WritingBounded(calls) && |calls| < MAX_WRITING && |call.text| <= MAX_WRITING_TEXT
    requires forall k :: 0 <= k < |calls| ==> calls[k].id != call.id
    ensures WritingBounded(calls + [call])
  {}

  lemma LatestBounded(calls: seq<WritingCall>, n: nat)
    requires WritingBounded(calls) && n <= |calls|
    ensures WritingBounded(calls[n..])
  {}

  lemma InputBounded(calls: seq<WritingCall>, id: Id, tool: string, delta: string)
    requires WritingBounded(calls)
    ensures WritingBounded(Input(calls, id, tool, delta))
  {
    WithoutBounded(calls, Some(id));
    CallOfId(calls, id);
    hide Without, CallOf, WritingBounded;
    var rest := Without(calls, Some(id));
    forall k | 0 <= k < |rest| ensures rest[k].id != id {
      assert rest[k] in rest;
    }
    var found := CallOf(calls, id);
    var call := if found.Some? then found.value else WritingCall(id, tool, "");
    if |call.text| + |delta| <= MAX_WRITING_TEXT {
      var from := if |rest| < MAX_WRITING then 0 else |rest| - (MAX_WRITING - 1);
      LatestBounded(rest, from);
      AddedBounded(rest[from..], call.(text := call.text + delta));
      assert from == 0 ==> rest[from..] == rest;
    }
  }

  lemma {:induction false} CallOfId(calls: seq<WritingCall>, id: Id)
    ensures CallOf(calls, id).Some? ==> CallOf(calls, id).value.id == id && CallOf(calls, id).value in calls
  {
    if calls != [] {
      CallOfId(calls[1..], id);
    }
  }

  /** No more than four calls are kept while they are written, none longer than a mebibyte. */
  lemma {:induction false} WritingStaysBounded(st: State, frame: Frame, now: int)
    requires WritingBounded(st.writing)
    ensures WritingBounded(Reduce(st, frame, now).writing)
    decreases frame, 1
  {
    hide Unshown, HasRunning, HasDrawn, AlreadyShown, WithText, Restart, Observe, Input, WritingBounded;
    assert WritingBounded([]) by {
      NothingWritten();
    }
    match frame
    case Presentation(frames, gates, forms, running) =>
      WritingStaysBoundedAll(st.(items := [], approvals := [], questions := []), frames, now);
    case ToolInput(call, tool, delta) => InputBounded(st.writing, call, tool, delta);
    case Observation(id, of, ok, sourceEvent, output) => WithoutBounded(st.writing, id);
    case ToolScreen(id, source, resource) => WithoutBounded(st.writing, id);
    case _ =>
  }

  lemma {:induction false} WritingStaysBoundedAll(st: State, frames: seq<Frame>, now: int)
    requires WritingBounded(st.writing)
    ensures WritingBounded(ReduceAll(st, frames, now).writing)
    decreases frames, 0
  {
    if frames != [] {
      WritingStaysBoundedAll(st, frames[..|frames| - 1], now);
      WritingStaysBounded(ReduceAll(st, frames[..|frames| - 1], now), frames[|frames| - 1], now);
    }
  }

  lemma NothingWritten()
    ensures WritingBounded([])
  {
  }
}
