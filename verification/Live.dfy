/** The live view of a chat and how one backend frame is folded into it (live.ts). */
module Live {
  import opened Basics

  /** An id the client made for itself (`nextId`), or one it was given. */
  datatype Id = Made(kind: string, serial: nat) | Given(name: string)

  datatype Message = Message(id: Id, text: string, images: seq<string>, about: Option<string>)

  datatype StepStatus = Running | Succeeded | Failed | Stopped

  datatype Step = Step(
    id: Id, tool: string, status: StepStatus, sourceEvent: Option<string>, output: Option<string>,
    screen: Option<string>, ended: Option<int>)

  datatype Item =
    | User(message: Message)
    | Prose(id: Id, text: string, html: Option<string>, sourceEvent: Option<string>)
    | Plan(id: Id)
    | Reasoning(id: Id, text: string, started: int, ended: Option<int>)
    | Tools(id: Id, steps: seq<Step>)

  datatype Status = Starting | Idle | Active | Exited

  datatype WritingCall = WritingCall(id: Id, tool: string, text: string)

  datatype State = State(
    status: Status, sent: seq<Message>, items: seq<Item>, approvals: seq<int>, questions: seq<int>,
    writing: seq<WritingCall>, returned: seq<string>, settled: nat, serial: nat)

  const MAX_WRITING: nat := 4
  const MAX_WRITING_TEXT: nat := 1024 * 1024

  /** A frame, by what it does here. A missing id or text is `None`. */
  datatype Frame =
    | Presentation(frames: seq<Frame>, gates: seq<int>, forms: seq<int>, running: bool)
    | Rewound(codeOnly: bool)
    | Ready
    | Approval(gate: int)
    | ApprovalResolved(gate: int)
    | Question(form: int)
    | QuestionAnswered(form: int)
    | Exit
    | TurnStarted
    | Accepted(content: string, images: seq<string>, about: Option<string>)
    | ToolStarted(tool: string)
    | ModelText(delta: string, html: Option<string>, sourceEvent: Option<string>)
    | ModelReasoning(delta: string)
    | ToolCall(id: Option<Id>, tool: string, plan: bool)
    | Observation(id: Option<Id>, of: Option<string>, ok: bool, sourceEvent: Option<string>, output: Option<string>)
    | ToolInput(call: Id, tool: string, delta: string)
    | ToolScreen(id: Option<Id>, source: Option<string>, resource: string)
    | Steered(said: Option<string>)
    | Returned(contents: seq<string>)
    | Restarted
    | TurnDone
    | TurnCancelled
    | TurnError
    | Shown

  function StartingLive(serial: nat): State {
    State(Starting, [], [], [], [], [], [], 0, serial)
  }

  // Items.

  function Close(item: Item, now: int): Item {
    if item.Reasoning? && item.ended.None? then item.(ended := Some(now)) else item
  }

  function CloseReasoning(items: seq<Item>, now: int): (closed: seq<Item>)
    ensures |closed| == |items|
    ensures forall k :: 0 <= k < |items| ==> closed[k] == Close(items[k], now)
  {
    seq(|items|, k requires 0 <= k < |items| => Close(items[k], now))
  }

  function Stop(step: Step, now: int): Step {
    if step.status == Running then
      step.(status := Stopped, ended := if step.ended.Some? then step.ended else Some(now))
    else step
  }

  function StopAll(steps: seq<Step>, now: int): (stopped: seq<Step>)
    ensures |stopped| == |steps|
    ensures forall k :: 0 <= k < |steps| ==> stopped[k] == Stop(steps[k], now)
  {
    seq(|steps|, k requires 0 <= k < |steps| => Stop(steps[k], now))
  }

  function CloseItem(item: Item, now: int): Item {
    if item.Tools? then item.(steps := StopAll(item.steps, now)) else Close(item, now)
  }

  function CloseAll(items: seq<Item>, now: int): (closed: seq<Item>)
    ensures |closed| == |items|
    ensures forall k :: 0 <= k < |items| ==> closed[k] == CloseItem(items[k], now)
  {
    seq(|items|, k requires 0 <= k < |items| => CloseItem(items[k], now))
  }

  predicate Shows(item: Item, id: Id) {
    item.User? && item.message.id == id
  }

  /** How often the message of that id stands in the timeline. */
  function TimesShown(items: seq<Item>, id: Id): nat {
    if items == [] then 0
    else TimesShown(items[..|items| - 1], id) + (if Shows(items[|items| - 1], id) then 1 else 0)
  }

  function Unshown(sent: seq<Message>, items: seq<Item>): (queued: seq<Message>)
    ensures forall m :: m in queued <==> m in sent && TimesShown(items, m.id) == 0
  {
    if sent == [] then []
    else if TimesShown(items, sent[0].id) == 0 then [sent[0]] + Unshown(sent[1..], items)
    else Unshown(sent[1..], items)
  }

  /** Messages sent but not yet placed in the timeline. */
  function Queued(st: State): seq<Message> {
    Unshown(st.sent, st.items)
  }

  function AsItems(messages: seq<Message>): (items: seq<Item>)
    ensures |items| == |messages|
    ensures forall k :: 0 <= k < |items| ==> items[k] == User(messages[k])
  {
    seq(|messages|, k requires 0 <= k < |messages| => User(messages[k]))
  }

  function RecordSent(st: State, message: Message): State {
    var steering := st.status == Active || (st.status == Starting && |st.sent| > 0);
    st.(sent := st.sent + [message], items := if steering then st.items else st.items + [User(message)])
  }

  function Settle(st: State, now: int): State {
    st.(status := Idle, approvals := [], questions := [], writing := [],
        items := CloseAll(st.items, now) + AsItems(Queued(st)), settled := st.settled + 1)
  }

  // One case at a time.

  function AlreadyShown(sent: seq<Message>, items: seq<Item>, content: string): (m: Option<Message>)
    ensures m.Some? ==> m.value in sent && m.value.text == content && TimesShown(items, m.value.id) > 0
  {
    if sent == [] then None
    else if sent[0].text == content && TimesShown(items, sent[0].id) > 0 then Some(sent[0])
    else AlreadyShown(sent[1..], items, content)
  }

  function Enrich(item: Item, id: Id, images: seq<string>, about: Option<string>): Item {
    if item.User? && item.message.id == id then
      User(item.message.(about := about, images := if images != [] then images else item.message.images))
    else item
  }

  function EnrichAll(items: seq<Item>, id: Id, images: seq<string>, about: Option<string>): (enriched: seq<Item>)
    ensures |enriched| == |items|
    ensures forall k :: 0 <= k < |items| ==> enriched[k] == Enrich(items[k], id, images, about)
  {
    seq(|items|, k requires 0 <= k < |items| => Enrich(items[k], id, images, about))
  }

  function Accept(st: State, content: string, images: seq<string>, about: Option<string>, now: int): State {
    var shown := if st.status == Idle then None else AlreadyShown(st.sent, st.items, content);
    if shown.Some? then st.(status := Active, items := EnrichAll(st.items, shown.value.id, images, about))
    else
      var message := Message(Made("user", st.serial + 1), content, images, about);
      st.(status := Active, serial := st.serial + 1, items := CloseReasoning(st.items, now) + [User(message)])
  }

  /** The last prose item, or -1. */
  function LastProse(items: seq<Item>): (at: int)
    ensures -1 <= at < |items|
    ensures at >= 0 ==> items[at].Prose?
    ensures forall k :: at < k < |items| ==> !items[k].Prose?
  {
    if items == [] then -1
    else if items[|items| - 1].Prose? then |items| - 1
    else LastProse(items[..|items| - 1])
  }

  function Write(st: State, delta: string, html: Option<string>, sourceEvent: Option<string>, now: int): State {
    if delta == "" && sourceEvent.Some? && sourceEvent.value != "" then
      var at := LastProse(st.items);
      if at < 0 then st else st.(items := st.items[at := st.items[at].(sourceEvent := sourceEvent)])
    else
      var items := CloseReasoning(st.items, now);
      var last := |items| - 1;
      if items != [] && items[last].Prose? then
        st.(status := Active, items := items[last := items[last].(
          text := items[last].text + delta,
          html := if html.Some? then html else items[last].html,
          sourceEvent := if sourceEvent.Some? then sourceEvent else items[last].sourceEvent)])
      else
        st.(status := Active, serial := st.serial + 1,
            items := items + [Prose(Made("text", st.serial + 1), delta, html, sourceEvent)])
  }

  function Reason(st: State, delta: string, now: int): State {
    var last := |st.items| - 1;
    if st.items != [] && st.items[last].Reasoning? && st.items[last].ended.None? then
      st.(status := Active, items := st.items[last := st.items[last].(text := st.items[last].text + delta)])
    else
      st.(status := Active, serial := st.serial + 1,
          items := st.items + [Reasoning(Made("reasoning", st.serial + 1), delta, now, None)])
  }

  predicate HasRunning(items: seq<Item>, id: Id) {
    exists g, k :: 0 <= g < |items| && items[g].Tools? && 0 <= k < |items[g].steps| &&
      items[g].steps[k].id == id && items[g].steps[k].status == Running
  }

  function Call(st: State, given: Option<Id>, tool: string, plan: bool, now: int): State {
    var id := if given.Some? then given.value else Made("step", st.serial + 1);
    var st := if given.Some? then st else st.(serial := st.serial + 1);
    if HasRunning(st.items, id) then st
    else
      var items := CloseReasoning(st.items, now);
      var last := |items| - 1;
      var step := Step(id, tool, Running, None, None, None, None);
      if plan then st.(status := Active, items := items + [Plan(id)])
      else if items != [] && items[last].Tools? then
        st.(status := Active, items := items[last := items[last].(steps := items[last].steps + [step])])
      else
        st.(status := Active, serial := st.serial + 1, items := items + [Tools(Made("tools", st.serial + 1), [step])])
  }

  /** Whether an observation is about the step: by id when it has one, else by tool. */
  predicate Observes(step: Step, id: Option<Id>, tool: Option<string>) {
    step.status == Running &&
    if id.Some? && id.value != Given("") then step.id == id.value else tool == Some(step.tool)
  }

  datatype Report = Report(ok: bool, sourceEvent: Option<string>, output: Option<string>, now: int)

  function EndStep(step: Step, report: Report): Step {
    step.(status := if report.ok then Succeeded else Failed, sourceEvent := report.sourceEvent,
          output := report.output, ended := Some(report.now))
  }

  /** The first step the observation is about, as the place of its group and its place there. */
  ghost predicate FirstObserved(items: seq<Item>, id: Option<Id>, tool: Option<string>, g: nat, k: nat) {
    && g < |items| && items[g].Tools? && k < |items[g].steps| && Observes(items[g].steps[k], id, tool)
    && (forall j :: 0 <= j < k ==> !Observes(items[g].steps[j], id, tool))
    && (forall h, j :: 0 <= h < g && items[h].Tools? && 0 <= j < |items[h].steps| ==> !Observes(items[h].steps[j], id, tool))
  }

  function ObserveSteps(steps: seq<Step>, id: Option<Id>, tool: Option<string>, report: Report): (observed: seq<Step>)
    ensures |observed| == |steps|
  {
    if steps == [] then []
    else if Observes(steps[0], id, tool) then [EndStep(steps[0], report)] + steps[1..]
    else [steps[0]] + ObserveSteps(steps[1..], id, tool, report)
  }

  predicate AnyObserved(steps: seq<Step>, id: Option<Id>, tool: Option<string>) {
    exists k :: 0 <= k < |steps| && Observes(steps[k], id, tool)
  }

  function Observe(items: seq<Item>, id: Option<Id>, tool: Option<string>, report: Report): (observed: seq<Item>)
    ensures |observed| == |items|
  {
    if items == [] then []
    else if items[0].Tools? && AnyObserved(items[0].steps, id, tool) then
      [items[0].(steps := ObserveSteps(items[0].steps, id, tool, report))] + items[1..]
    else [items[0]] + Observe(items[1..], id, tool, report)
  }

  function Without(calls: seq<WritingCall>, id: Option<Id>): (rest: seq<WritingCall>)
    ensures |rest| <= |calls|
    ensures forall c :: c in rest <==> c in calls && Some(c.id) != id
  {
    if calls == [] then []
    else if Some(calls[0].id) == id then Without(calls[1..], id)
    else [calls[0]] + Without(calls[1..], id)
  }

  function CallOf(calls: seq<WritingCall>, id: Id): Option<WritingCall> {
    if calls == [] then None else if calls[0].id == id then Some(calls[0]) else CallOf(calls[1..], id)
  }

  function Input(calls: seq<WritingCall>, id: Id, tool: string, delta: string): seq<WritingCall> {
    if id == Given("") || tool == "" || delta == "" then calls
    else
      var found := CallOf(calls, id);
      var call := if found.Some? then found.value else WritingCall(id, tool, "");
      if |call.text| + |delta| > MAX_WRITING_TEXT then calls
      else
        var rest := Without(calls, Some(id));
        var kept := if |rest| < MAX_WRITING then rest else rest[|rest| - (MAX_WRITING - 1)..];
        kept + [call.(text := call.text + delta)]
  }

  predicate Drawn(step: Step, id: Option<Id>, source: Option<string>) {
    Some(step.id) == id && (source.None? || source.value == "" || step.sourceEvent == source)
  }

  predicate HasDrawn(item: Item, id: Option<Id>, source: Option<string>) {
    item.Tools? && exists k :: 0 <= k < |item.steps| && Drawn(item.steps[k], id, source)
  }

  /** The last group holding a step the screen is for, or -1. */
  function LastDrawn(items: seq<Item>, id: Option<Id>, source: Option<string>): (at: int)
    ensures -1 <= at < |items|
    ensures at >= 0 ==> HasDrawn(items[at], id, source)
    ensures forall k :: at < k < |items| ==> !HasDrawn(items[k], id, source)
  {
    if items == [] then -1
    else if HasDrawn(items[|items| - 1], id, source) then |items| - 1
    else LastDrawn(items[..|items| - 1], id, source)
  }

  function Draw(step: Step, id: Option<Id>, source: Option<string>, resource: string): Step {
    if Drawn(step, id, source) then step.(screen := Some(resource)) else step
  }

  function DrawSteps(steps: seq<Step>, id: Option<Id>, source: Option<string>, resource: string): (drawn: seq<Step>)
    ensures |drawn| == |steps|
    ensures forall k :: 0 <= k < |steps| ==> drawn[k] == Draw(steps[k], id, source, resource)
  {
    seq(|steps|, k requires 0 <= k < |steps| => Draw(steps[k], id, source, resource))
  }

  function Screen(st: State, id: Option<Id>, source: Option<string>, resource: string): State {
    var at := LastDrawn(st.items, id, source);
    st.(writing := Without(st.writing, id),
        items := if at < 0 then st.items
                 else st.items[at := st.items[at].(steps := DrawSteps(st.items[at].steps, id, source, resource))])
  }

  /** The first of the messages with that text. */
  function WithText(messages: seq<Message>, text: string): (m: Option<Message>)
    ensures m.Some? ==> m.value in messages && m.value.text == text
    ensures m.None? ==> forall k :: 0 <= k < |messages| ==> messages[k].text != text
  {
    if messages == [] then None
    else if messages[0].text == text then Some(messages[0])
    else WithText(messages[1..], text)
  }

  function Steer(st: State, content: Option<string>, now: int): State {
    var found := if content.None? then None else WithText(Queued(st), content.value);
    if found.Some? then st.(items := CloseReasoning(st.items, now) + [User(found.value)])
    else
      var message := Message(Made("user", st.serial + 1), if content.Some? then content.value else "", [], None);
      st.(serial := st.serial + 1, items := CloseReasoning(st.items, now) + [User(message)])
  }

  function RemoveFirst(messages: seq<Message>, text: string): seq<Message> {
    if messages == [] then []
    else if messages[0].text == text then messages[1..]
    else [messages[0]] + RemoveFirst(messages[1..], text)
  }

  /** The queued messages a list of texts gives back: one for each text that still finds one. */
  function Unread(queued: seq<Message>, contents: seq<string>): seq<Message>
    decreases |contents|
  {
    if contents == [] then []
    else
      match WithText(queued, contents[0])
      case None => Unread(queued, contents[1..])
      case Some(m) => [m] + Unread(RemoveFirst(queued, contents[0]), contents[1..])
  }

  function Texts(messages: seq<Message>): (texts: seq<string>)
    ensures |texts| == |messages|
    ensures forall k :: 0 <= k < |texts| ==> texts[k] == messages[k].text
  {
    seq(|messages|, k requires 0 <= k < |messages| => messages[k].text)
  }

  function Ids(messages: seq<Message>): set<Id> {
    set m | m in messages :: m.id
  }

  function Dropped(messages: seq<Message>, ids: set<Id>): (rest: seq<Message>)
    ensures forall m :: m in rest <==> m in messages && m.id !in ids
  {
    if messages == [] then []
    else if messages[0].id in ids then Dropped(messages[1..], ids)
    else [messages[0]] + Dropped(messages[1..], ids)
  }

  function Return(st: State, contents: seq<string>): State {
    var unread := Unread(Queued(st), contents);
    if unread == [] then st
    else st.(sent := Dropped(st.sent, Ids(unread)), returned := st.returned + Texts(unread))
  }

  /** The items without the prose and reasoning they end in. */
  function Restart(items: seq<Item>): (kept: seq<Item>)
    ensures kept <= items
  {
    if items != [] && (items[|items| - 1].Prose? || items[|items| - 1].Reasoning?) then Restart(items[..|items| - 1])
    else items
  }

  function Remove(numbers: seq<int>, n: int): seq<int> {
    if numbers == [] then []
    else if numbers[0] == n then Remove(numbers[1..], n)
    else [numbers[0]] + Remove(numbers[1..], n)
  }

  /** Folds one frame into the view. */
  function Reduce(st: State, frame: Frame, now: int): State
    decreases frame, 1
  {
    match frame
    case Presentation(frames, gates, forms, running) =>
      var recovered := ReduceAll(st.(items := [], approvals := [], questions := []), frames, now);
      recovered.(approvals := recovered.approvals + gates, questions := recovered.questions + forms,
                 status := if running then Active else Idle)
    case Rewound(codeOnly) =>
      if codeOnly then st.(settled := st.settled + 1)
      else StartingLive(st.serial).(status := Idle, settled := st.settled + 1)
    case Ready => st.(status := if st.sent != [] then Active else Idle)
    case Approval(gate) => st.(approvals := st.approvals + [gate])
    case ApprovalResolved(gate) => st.(approvals := Remove(st.approvals, gate))
    case Question(form) => st.(questions := st.questions + [form])
    case QuestionAnswered(form) => st.(questions := Remove(st.questions, form))
    case Exit =>
      st.(status := Exited, approvals := [], questions := [], items := CloseAll(st.items, now) + AsItems(Queued(st)))
    case TurnStarted => st.(status := Active)
    case Accepted(content, images, about) => Accept(st, content, images, about, now)
    case ToolStarted(tool) => if tool == "" then st else st.(status := Active)
    case ModelText(delta, html, sourceEvent) => Write(st, delta, html, sourceEvent, now)
    case ModelReasoning(delta) => Reason(st, delta, now)
    case ToolCall(id, tool, plan) => Call(st, id, tool, plan, now)
    case Observation(id, tool, ok, sourceEvent, output) =>
      st.(items := Observe(st.items, id, tool, Report(ok, sourceEvent, output, now)),
          writing := if ok then st.writing else Without(st.writing, id))
    case ToolInput(id, tool, delta) => st.(writing := Input(st.writing, id, tool, delta))
    case ToolScreen(id, source, resource) => Screen(st, id, source, resource)
    case Steered(content) => Steer(st, content, now)
    case Returned(contents) => Return(st, contents)
    case Restarted => st.(items := Restart(st.items), writing := [])
    case TurnDone => Settle(st, now)
    case TurnCancelled => Settle(st, now)
    case TurnError => Settle(st, now)
    case Shown => st
  }

  function ReduceAll(st: State, frames: seq<Frame>, now: int): State
    decreases frames, 0
  {
    if frames == [] then st else Reduce(ReduceAll(st, frames[..|frames| - 1], now), frames[|frames| - 1], now)
  }
}
