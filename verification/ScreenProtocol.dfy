/** The protocol between the host and one screen, step by step (outputBridge.ts, `bridge`).
    A request is known by its place among the requests received, since a page may use an id twice. */
module ScreenProtocol {
  import opened Basics
  import opened CodeUnits
  import opened Json

  const MAX_TEXT: nat := 4000
  const MAX_IN_FLIGHT: nat := 32

  datatype Handler = Initialize | Ping | CallTool | ReadPage | OpenLink | Say | DisplayMode

  /** The methods a page may ask for: the handler object's own properties. */
  const HANDLERS: map<Text, Handler> := map[
    Units("ui/initialize") := Initialize,
    Units("ping") := Ping,
    Units("tools/call") := CallTool,
    Units("resources/read") := ReadPage,
    Units("ui/open-link") := OpenLink,
    Units("ui/message") := Say,
    Units("ui/request-display-mode") := DisplayMode]

  /** What looking a method up in that object also finds: the properties every object inherits.
      None of them is a handler, and calling one throws. */
  const INHERITED: set<Text> := {
    Units("constructor"), Units("toString"), Units("toLocaleString"), Units("valueOf"),
    Units("hasOwnProperty"), Units("isPrototypeOf"), Units("propertyIsEnumerable"), Units("__proto__"),
    Units("__defineGetter__"), Units("__defineSetter__"), Units("__lookupGetter__"), Units("__lookupSetter__")}

  /** Whether looking the method up in the handler object finds a handler. */
  predicate Handles(name: Text) {
    name in HANDLERS
  }

  function HandlerOf(name: Text): Handler
    requires Handles(name)
  {
    HANDLERS[name]
  }

  /** Whether it finds what is no handler. */
  predicate Inherits(name: Text) {
    name !in HANDLERS && name in INHERITED
  }

  datatype Fed = Fed(partial: Option<Value>, input: Option<Value>, result: Option<Value>)

  datatype Told = Told(input: bool, result: bool)

  datatype Outcome = Resolved(value: Option<Value>) | Rejected(reason: Text)

  /** What answering a request takes: nothing more, or the host doing something. */
  datatype Work = Settled(outcome: Outcome) | Asked(handler: Handler, subject: Text, arguments: seq<Member>)

  datatype Pending = Pending(id: Value, work: Work)

  datatype Post =
    | ToolInput(arguments: seq<Member>)
    | ToolInputPartial(arguments: seq<Member>)
    | ToolResult(result: Value)
    | ContextChanged(context: Value)
    | Result(request: nat, id: Value, result: Value)
    | Failure(request: nat, id: Value, code: int, message: Text)
    | Teardown

  datatype Event =
    | Receive(data: Option<Value>, context: Value)
    | Feed(next: Fed)
    | TimerFires
    | Finish(request: nat, outcome: Outcome)
    | Changed(context: Value)
    | Close

  /** `ids`, `lost`, `era` and `log` are the history the properties are about: the ids requests came
      with, the requests whose handling threw, where the page in the frame began, and every post. */
  datatype State = State(
    closed: bool, inFlight: nat, ready: bool, listening: bool, waiting: bool, fed: Fed, told: Told,
    works: map<int, Pending>, ids: seq<Value>, lost: set<int>, era: nat, log: seq<Post>)

  const UNFED: Fed := Fed(None, None, None)

  const INITIAL: State :=
    State(false, 0, false, false, false, UNFED, Told(false, false), map[], [], {}, 0, [])

  predicate Known(v: Option<Value>) {
    v.Some? && !v.value.Null?
  }

  function Record(v: Option<Value>): seq<Member> {
    if v.Some? && v.value.Obj? then v.value.members else []
  }

  function OrElse(v: Option<Value>, other: Option<Value>): Option<Value> {
    if Known(v) then v else other
  }

  function Posted(st: State, post: Post): State {
    st.(log := st.log + [post])
  }

  function Notify(st: State, post: Post): State {
    if st.closed then st else Posted(st, post)
  }

  function TellInput(st: State): State {
    if !st.told.input && (Known(st.fed.input) || Known(st.fed.result)) then
      Notify(st.(told := st.told.(input := true)), ToolInput(Record(OrElse(st.fed.input, st.fed.partial))))
    else if !st.told.input && Known(st.fed.partial) then
      Notify(st, ToolInputPartial(Record(st.fed.partial)))
    else st
  }

  function TellResult(st: State): State {
    if st.told.input && !st.told.result && Known(st.fed.result) then
      Notify(st.(told := st.told.(result := true)), ToolResult(st.fed.result.value))
    else st
  }

  function Tell(st: State): State {
    if st.listening then TellResult(TellInput(st)) else st
  }

  // What the handlers do with the parameters of a request.

  const NOT_NAMED: Text := Units("A tool call needs a name.")
  const NO_URI: Text := Units("A read needs a uri.")
  const NOT_WEB: Text := Units("Only a web link can be opened.")
  const NO_TEXT: Text := Units("A message needs text.")
  const TOO_MANY: Text := Units("This screen has too many pending requests.")
  const UNSUPPORTED: Text := Units("Medha does not support this.")

  predicate StartsAnyCase(t: Text, start: Text) {
    |start| <= |t| && forall k :: 0 <= k < |start| ==> LowerCode(t[k] as int) == start[k] as int
  }

  predicate IsWebLink(t: Text) {
    StartsAnyCase(t, Units("http://")) || StartsAnyCase(t, Units("https://"))
  }

  function Clipped(t: Text): Text {
    if |t| <= MAX_TEXT then t else t[..MAX_TEXT]
  }

  function TextOf(v: Option<Value>): Option<Text> {
    if v.Some? && v.value.Str? then Some(v.value.units) else None
  }

  function Capabilities(context: Value): Value {
    Obj([
      Member(Units("protocolVersion"), Str(Units("2026-01-26"))),
      Member(Units("hostInfo"), Obj([Member(Units("name"), Str(Units("Medha"))), Member(Units("version"), Str(Units("1")))])),
      Member(Units("hostCapabilities"), Obj([
        Member(Units("openLinks"), Obj([])), Member(Units("serverTools"), Obj([])),
        Member(Units("serverResources"), Obj([])), Member(Units("logging"), Obj([]))])),
      Member(Units("hostContext"), context)])
  }

  function Begin(handler: Handler, params: seq<Member>, context: Value): Work {
    match handler
    case Initialize => Settled(Resolved(Some(Capabilities(context))))
    case Ping => Settled(Resolved(Some(Obj([]))))
    case CallTool =>
      (match TextOf(Lookup(params, Units("name")))
       case None => Settled(Rejected(NOT_NAMED))
       case Some(name) => Asked(CallTool, name, Record(Lookup(params, Units("arguments")))))
    case ReadPage =>
      (match TextOf(Lookup(params, Units("uri")))
       case None => Settled(Rejected(NO_URI))
       case Some(uri) => Asked(ReadPage, uri, []))
    case OpenLink =>
      (match TextOf(Lookup(params, Units("url")))
       case None => Settled(Rejected(NOT_WEB))
       case Some(url) => if IsWebLink(url) then Asked(OpenLink, url, []) else Settled(Rejected(NOT_WEB)))
    case Say =>
      (match TextOf(Lookup(Record(Lookup(params, Units("content"))), Units("text")))
       case None => Settled(Rejected(NO_TEXT))
       case Some(text) =>
         if exists k :: 0 <= k < |text| && !IsBlankCode(text[k] as int) then Asked(Say, Clipped(text), [])
         else Settled(Rejected(NO_TEXT)))
    case DisplayMode =>
      var mode := Lookup(Record(Some(context)), Units("displayMode"));
      Settled(Resolved(Some(Obj([Member(Units("mode"), if Known(mode) then mode.value else Str(Units("inline")))]))))
  }

  /** How a work ends, given how what the host was asked for ended. */
  function Ended(work: Work, outcome: Outcome): Outcome {
    match work
    case Settled(fixed) => fixed
    case Asked(handler, _, _) =>
      if (handler == OpenLink || handler == Say) && outcome.Resolved? then Resolved(None) else outcome
  }

  function Answer(request: nat, id: Value, outcome: Outcome): Post {
    match outcome
    case Resolved(v) => Result(request, id, if Known(v) then v.value else Obj([]))
    case Rejected(reason) => Failure(request, id, -32000, Clipped(reason))
  }

  function Reset(st: State): State {
    st.(ready := false, listening := false, waiting := false, told := Told(false, false), era := |st.log|)
  }

  function Taken(st: State, id: Value, handler: Handler, work: Work): State {
    var taken := st.(ids := st.ids + [id], inFlight := st.inFlight + 1, works := st.works[|st.ids| := Pending(id, work)]);
    if handler.Initialize? then Reset(taken) else taken
  }

  function Request(st: State, id: Value, name: Text, params: seq<Member>, context: Value): State {
    var n := |st.ids|;
    var heard := st.(ids := st.ids + [id]);
    if !Handles(name) && !Inherits(name) then Posted(heard, Failure(n, id, -32601, UNSUPPORTED))
    else if st.inFlight >= MAX_IN_FLIGHT then Posted(heard, Failure(n, id, -32000, TOO_MANY))
    else if !Handles(name) then
      // The slot is taken before the inherited property is called and throws.
      heard.(inFlight := st.inFlight + 1, lost := st.lost + {n})
    else Taken(st, id, HandlerOf(name), Begin(HandlerOf(name), params, context))
  }

  function Notification(st: State, name: Text): State {
    if name == Units("ui/notifications/initialized") && !st.ready then st.(ready := true, waiting := true) else st
  }

  const JSONRPC: Text := Units("jsonrpc")
  const VERSION: Text := Units("2.0")
  const METHOD: Text := Units("method")
  const PARAMS: Text := Units("params")
  const ID: Text := Units("id")

  /** The method a message names, if it is a JSON-RPC message at all. */
  function MethodOf(message: seq<Member>): Option<Text> {
    if Lookup(message, JSONRPC) == Some(Str(VERSION)) then TextOf(Lookup(message, METHOD)) else None
  }

  function Received(st: State, data: Option<Value>, context: Value): State {
    var message := Record(data);
    if st.closed then st
    else
      match MethodOf(message)
      case None => st
      case Some(name) =>
        match Lookup(message, ID)
        case None => Notification(st, name)
        case Some(id) =>
          if id.Str? || id.Num? then Request(st, id, name, Record(Lookup(message, PARAMS)), context) else st
  }

  function Finished(st: State, request: nat, outcome: Outcome): State {
    if request !in st.works then st
    else
      var pending := st.works[request];
      Notify(st, Answer(request, pending.id, Ended(pending.work, outcome)))
        .(inFlight := if st.inFlight > 0 then st.inFlight - 1 else 0, works := st.works - {request})
  }

  function Closed(st: State): State {
    var quiet := st.(waiting := false, listening := false);
    (if st.ready then Posted(quiet, Teardown) else quiet).(closed := true)
  }

  function Next(st: State, event: Event): State {
    match event
    case Receive(data, context) => Received(st, data, context)
    case Feed(next) => Tell(st.(fed := next))
    case TimerFires => if st.waiting then Tell(st.(waiting := false, listening := true)) else st
    case Finish(request, outcome) => Finished(st, request, outcome)
    case Changed(context) => if st.listening then Notify(st, ContextChanged(context)) else st
    case Close => Closed(st)
  }

  function Run(events: seq<Event>): State {
    if events == [] then INITIAL else Next(Run(events[..|events| - 1]), events[|events| - 1])
  }

  // Requests and their answers.

  predicate Answers(post: Post, request: nat) {
    (post.Result? || post.Failure?) && post.request == request
  }

  function Answered(log: seq<Post>, request: nat): nat {
    if log == [] then 0
    else Answered(log[..|log| - 1], request) + if Answers(log[|log| - 1], request) then 1 else 0
  }

  lemma AnsweredMore(log: seq<Post>, post: Post, request: nat)
    ensures Answered(log + [post], request) == Answered(log, request) + if Answers(post, request) then 1 else 0
  {
    assert (log + [post])[..|log|] == log;
  }

  /** The slots taken are the works not finished and the requests lost. */
  ghost predicate Slots(inFlight: nat, works: map<int, Pending>, lost: set<int>, ids: seq<Value>) {
    && inFlight == |works.Keys| + |lost| <= MAX_IN_FLIGHT
    && works.Keys !! lost
    && (forall n :: n in works ==> 0 <= n < |ids| && works[n].id == ids[n])
    && (forall n :: n in lost ==> 0 <= n < |ids|)
  }

  /** Requests not open have their one answer; every answer carries the id its request came with. */
  ghost predicate Replies(log: seq<Post>, ids: seq<Value>, open: set<int>, closed: bool) {
    && (forall n: nat :: n >= |ids| || n in open ==> Answered(log, n) == 0)
    && (forall n: nat :: n < |ids| && n !in open && !closed ==> Answered(log, n) == 1)
    && (forall n: nat :: Answered(log, n) <= 1)
    && (forall k :: 0 <= k < |log| && (log[k].Result? || log[k].Failure?) ==>
          log[k].request < |ids| && log[k].id == ids[log[k].request])
  }

  /** Every request is being worked on, was lost, or has its one answer. */
  ghost predicate Accounted(st: State) {
    Slots(st.inFlight, st.works, st.lost, st.ids) && Replies(st.log, st.ids, st.works.Keys + st.lost, st.closed)
  }

  // What the page in the frame hears, in order.

  predicate Notifies(post: Post) {
    post.ToolInput? || post.ToolInputPartial? || post.ToolResult? || post.ContextChanged?
  }

  /** From `era` on: pieces of the input only before the whole, the whole once, and the result
      once and after it. */
  ghost predicate InOrder(log: seq<Post>, era: nat) {
    && (forall i, j :: era <= i < j < |log| && log[i].ToolInput? ==> !log[j].ToolInput? && !log[j].ToolInputPartial?)
    && (forall i, j :: era <= i < j < |log| && log[i].ToolResult? ==> !log[j].ToolResult?)
    && (forall j :: era <= j < |log| && log[j].ToolResult? ==> exists i :: era <= i < j && log[i].ToolInput?)
  }

  /** Nothing is told to the page from `era` on. */
  ghost predicate Untold(log: seq<Post>, era: nat) {
    forall k :: era <= k < |log| ==> !Notifies(log[k])
  }

  /** What the host holds the page to have been told is what it was told from `era` on. */
  ghost predicate ToldMatches(told: Told, log: seq<Post>, era: nat) {
    && (told.input <==> exists k :: era <= k < |log| && log[k].ToolInput?)
    && (told.result <==> exists k :: era <= k < |log| && log[k].ToolResult?)
  }

  /** What holds between any two steps of what a page has heard. */
  ghost predicate Orderly(st: State) {
    && st.era <= |st.log|
    && (st.waiting ==> st.ready && !st.listening && !st.closed)
    && (st.listening ==> st.ready && !st.closed)
    && InOrder(st.log, st.era)
    && ToldMatches(st.told, st.log, st.era)
    // Nothing is told before the grace timer, and then all there is to tell.
    && (!st.listening && !st.closed ==> Untold(st.log, st.era))
    && (st.listening && (Known(st.fed.input) || Known(st.fed.result)) ==> st.told.input)
    && (st.listening && Known(st.fed.result) ==> st.told.result)
  }

  lemma OrderlyPost(st: State, post: Post)
    requires st.era <= |st.log| && InOrder(st.log, st.era) && ToldMatches(st.told, st.log, st.era)
    requires post.ToolInput? || post.ToolInputPartial? ==> !st.told.input
    requires post.ToolResult? ==> st.told.input && !st.told.result
    ensures InOrder(st.log + [post], st.era)
    ensures ToldMatches(Told(st.told.input || post.ToolInput?, st.told.result || post.ToolResult?), st.log + [post], st.era)
  {
    var log := st.log + [post];
    assert forall k :: 0 <= k < |st.log| ==> log[k] == st.log[k];
    assert log[|st.log|] == post;
    if st.told.input {
      var k :| st.era <= k < |st.log| && st.log[k].ToolInput?;
      assert log[k].ToolInput?;
    }
    if st.told.result {
      var k :| st.era <= k < |st.log| && st.log[k].ToolResult?;
      assert log[k].ToolResult?;
    }
  }

  lemma TellOrderly(st: State)
    requires st.era <= |st.log| && InOrder(st.log, st.era) && ToldMatches(st.told, st.log, st.era)
    requires st.listening && st.ready && !st.waiting && !st.closed
    ensures Orderly(Tell(st))
  {
    var asked := TellInput(st);
    if asked.log != st.log {
      OrderlyPost(st, asked.log[|st.log|]);
    }
    var done := TellResult(asked);
    if done.log != asked.log {
      OrderlyPost(asked, done.log[|asked.log|]);
    }
  }

  lemma OtherPostOrderly(st: State, post: Post)
    requires Orderly(st) && !post.ToolInput? && !post.ToolInputPartial? && !post.ToolResult?
    requires Notifies(post) ==> st.listening
    ensures Orderly(Posted(st, post))
  {
    OrderlyPost(st, post);
  }

  lemma RequestOrderly(st: State, id: Value, name: Text, params: seq<Member>, context: Value)
    requires Orderly(st)
    ensures Orderly(Request(st, id, name, params, context))
  {
    hide Begin, InOrder, ToldMatches, Handles, Inherits, HandlerOf;
    var n := |st.ids|;
    var heard := st.(ids := st.ids + [id]);
    assert Orderly(heard);
    if !Handles(name) && !Inherits(name) {
      OtherPostOrderly(heard, Failure(n, id, -32601, UNSUPPORTED));
    } else if st.inFlight >= MAX_IN_FLIGHT {
      OtherPostOrderly(heard, Failure(n, id, -32000, TOO_MANY));
    } else {
      NewPageOrderly(Request(st, id, name, params, context));
    }
  }

  /** A new page has been told nothing. */
  lemma NewPageOrderly(st: State)
    ensures st.era == |st.log| ==> InOrder(st.log, st.era)
    ensures st.era == |st.log| && st.told == Told(false, false) ==> ToldMatches(st.told, st.log, st.era)
  {
  }

  lemma ReceivedOrderly(st: State, data: Option<Value>, context: Value)
    requires Orderly(st)
    ensures Orderly(Received(st, data, context))
  {
    hide Request, Lookup, InOrder, ToldMatches;
    var message := Record(data);
    var name, id := MethodOf(message), Lookup(message, ID);
    if name.Some? && id.Some? {
      RequestOrderly(st, id.value, name.value, Record(Lookup(message, PARAMS)), context);
    }
  }

  lemma OrderlyNext(st: State, event: Event)
    requires Orderly(st)
    ensures Orderly(Next(st, event))
  {
    hide Received, InOrder, ToldMatches, TellInput, TellResult, Ended;
    match event
    case Receive(data, context) =>
      ReceivedOrderly(st, data, context);
    case Feed(next) =>
      if st.listening {
        TellOrderly(st.(fed := next));
      }
    case TimerFires =>
      if st.waiting {
        TellOrderly(st.(waiting := false, listening := true));
      }
    case Finish(request, outcome) =>
      if request in st.works && !st.closed {
        OtherPostOrderly(st, Answer(request, st.works[request].id, Ended(st.works[request].work, outcome)));
      }
    case Changed(context) =>
      if st.listening {
        OtherPostOrderly(st, ContextChanged(context));
      }
    case Close =>
      if st.ready {
        OrderlyPost(st, Teardown);
      }
  }

  /** Over every run: for the page in the frame since its last accepted `ui/initialize`. */
  lemma {:induction false} RunOrderly(events: seq<Event>)
    ensures Orderly(Run(events))
  {
    if events != [] {
      RunOrderly(events[..|events| - 1]);
      OrderlyNext(Run(events[..|events| - 1]), events[|events| - 1]);
    }
  }

  // Requests and their answers, step by step.

  /** A post that answers no request leaves the account as it is. */
  lemma AccountedPost(st: State, post: Post)
    requires Accounted(st) && !post.Result? && !post.Failure?
    ensures Accounted(Posted(st, post))
  {
    forall n: nat ensures Answered(st.log + [post], n) == Answered(st.log, n) {
      AnsweredMore(st.log, post, n);
    }
  }

  /** The account does not look at the page's side of the state. */
  lemma AccountedSame(st: State, other: State)
    requires Accounted(st) && (st.closed ==> other.closed)
    requires other.inFlight == st.inFlight && other.works == st.works && other.ids == st.ids
    requires other.lost == st.lost && other.log == st.log
    ensures Accounted(other)
  {
  }

  lemma TellInputAccounted(st: State)
    requires Accounted(st)
    ensures Accounted(TellInput(st))
  {
    hide Accounted;
    var asked := TellInput(st);
    var told := st.(told := asked.told);
    AccountedSame(st, told);
    if asked.log != st.log {
      AccountedPost(told, asked.log[|st.log|]);
    }
  }

  lemma TellResultAccounted(st: State)
    requires Accounted(st)
    ensures Accounted(TellResult(st))
  {
    hide Accounted;
    var done := TellResult(st);
    var told := st.(told := done.told);
    AccountedSame(st, told);
    if done.log != st.log {
      AccountedPost(told, done.log[|st.log|]);
    }
  }

  lemma TellAccounted(st: State)
    requires Accounted(st)
    ensures Accounted(Tell(st))
  {
    hide Accounted, TellInput, TellResult;
    TellInputAccounted(st);
    TellResultAccounted(TellInput(st));
  }

  /** A request that is refused at once. */
  lemma RefusalAccounted(st: State, id: Value, code: int, message: Text)
    requires Accounted(st)
    ensures Accounted(Posted(st.(ids := st.ids + [id]), Failure(|st.ids|, id, code, message)))
  {
    var post := Failure(|st.ids|, id, code, message);
    forall n: nat ensures Answered(st.log + [post], n) == Answered(st.log, n) + if n == |st.ids| then 1 else 0 {
      AnsweredMore(st.log, post, n);
    }
  }

  lemma OpenReplies(log: seq<Post>, ids: seq<Value>, open: set<int>, closed: bool, id: Value)
    requires Replies(log, ids, open, closed)
    ensures Replies(log, ids + [id], open + {|ids|}, closed)
  {
  }

  lemma StartSlots(inFlight: nat, works: map<int, Pending>, lost: set<int>, ids: seq<Value>, id: Value, work: Work)
    requires Slots(inFlight, works, lost, ids) && inFlight < MAX_IN_FLIGHT
    ensures Slots(inFlight + 1, works[|ids| := Pending(id, work)], lost, ids + [id])
  {
    assert works[|ids| := Pending(id, work)].Keys == works.Keys + {|ids|};
    assert |works.Keys + {|ids|}| == |works.Keys| + 1;
  }

  lemma LossSlots(inFlight: nat, works: map<int, Pending>, lost: set<int>, ids: seq<Value>, id: Value)
    requires Slots(inFlight, works, lost, ids) && inFlight < MAX_IN_FLIGHT
    ensures Slots(inFlight + 1, works, lost + {|ids|}, ids + [id])
  {
    assert |lost + {|ids|}| == |lost| + 1;
  }

  lemma StartAccounted(st: State, id: Value, work: Work)
    requires Accounted(st) && st.inFlight < MAX_IN_FLIGHT
    ensures Accounted(st.(ids := st.ids + [id], inFlight := st.inFlight + 1, works := st.works[|st.ids| := Pending(id, work)]))
  {
    hide Replies, Slots;
    var works := st.works[|st.ids| := Pending(id, work)];
    assert works.Keys + st.lost == st.works.Keys + st.lost + {|st.ids|};
    OpenReplies(st.log, st.ids, st.works.Keys + st.lost, st.closed, id);
    StartSlots(st.inFlight, st.works, st.lost, st.ids, id, work);
  }

  lemma LossReplies(log: seq<Post>, ids: seq<Value>, works: set<int>, lost: set<int>, closed: bool, id: Value)
    requires Replies(log, ids, works + lost, closed)
    ensures Replies(log, ids + [id], works + (lost + {|ids|}), closed)
  {
    hide Replies;
    assert works + lost + {|ids|} == works + (lost + {|ids|});
    OpenReplies(log, ids, works + lost, closed, id);
  }

  lemma LossAccounted(st: State, id: Value)
    requires Accounted(st) && st.inFlight < MAX_IN_FLIGHT
    ensures Accounted(st.(ids := st.ids + [id], inFlight := st.inFlight + 1, lost := st.lost + {|st.ids|}))
  {
    hide Replies, Slots;
    LossReplies(st.log, st.ids, st.works.Keys, st.lost, st.closed, id);
    LossSlots(st.inFlight, st.works, st.lost, st.ids, id);
  }

  lemma HandledAccounted(st: State, id: Value, handler: Handler, work: Work)
    requires Accounted(st) && st.inFlight < MAX_IN_FLIGHT
    ensures Accounted(Taken(st, id, handler, work))
  {
    hide Accounted;
    StartAccounted(st, id, work);
    AccountedSame(st.(ids := st.ids + [id], inFlight := st.inFlight + 1, works := st.works[|st.ids| := Pending(id, work)]),
                  Taken(st, id, handler, work));
  }

  lemma RequestAccounted(st: State, id: Value, name: Text, params: seq<Member>, context: Value)
    requires Accounted(st)
    ensures Accounted(Request(st, id, name, params, context))
  {
    hide Accounted, Begin, Handles, Inherits, HandlerOf;
    if !Handles(name) && !Inherits(name) {
      RefusalAccounted(st, id, -32601, UNSUPPORTED);
    } else if st.inFlight >= MAX_IN_FLIGHT {
      RefusalAccounted(st, id, -32000, TOO_MANY);
    } else if !Handles(name) {
      LossAccounted(st, id);
    } else {
      HandledAccounted(st, id, HandlerOf(name), Begin(HandlerOf(name), params, context));
    }
  }

  lemma AnswerReplies(log: seq<Post>, ids: seq<Value>, open: set<int>, post: Post)
    requires Replies(log, ids, open, false) && (post.Result? || post.Failure?)
    requires post.request in open && post.request < |ids| && post.id == ids[post.request]
    ensures Replies(log + [post], ids, open - {post.request}, false)
  {
    forall n: nat ensures Answered(log + [post], n) == Answered(log, n) + if n == post.request then 1 else 0 {
      AnsweredMore(log, post, n);
    }
  }

  lemma FinishSlots(inFlight: nat, works: map<int, Pending>, lost: set<int>, ids: seq<Value>, request: nat)
    requires Slots(inFlight, works, lost, ids) && request in works
    ensures inFlight > 0 && Slots(inFlight - 1, works - {request}, lost, ids)
    ensures (works - {request}).Keys + lost == works.Keys + lost - {request}
  {
    assert (works - {request}).Keys == works.Keys - {request};
    assert |works.Keys - {request}| == |works.Keys| - 1;
  }

  lemma WorkIsRequest(st: State, request: nat)
    requires Accounted(st) && request in st.works
    ensures request < |st.ids| && st.works[request].id == st.ids[request]
  {
    hide Replies;
  }

  lemma FinishOpen(st: State, request: nat, post: Post, left: nat)
    requires left == (if st.inFlight > 0 then st.inFlight - 1 else 0)
    requires Accounted(st) && request in st.works && !st.closed && Answers(post, request) && post.id == st.works[request].id
    ensures Accounted(st.(log := st.log + [post], inFlight := left, works := st.works - {request}))
  {
    hide Replies, Slots;
    WorkIsRequest(st, request);
    FinishSlots(st.inFlight, st.works, st.lost, st.ids, request);
    AnswerReplies(st.log, st.ids, st.works.Keys + st.lost, post);
  }

  lemma FinishShut(st: State, request: nat, left: nat)
    requires left == (if st.inFlight > 0 then st.inFlight - 1 else 0)
    requires Accounted(st) && request in st.works && st.closed
    ensures Accounted(st.(inFlight := left, works := st.works - {request}))
  {
    hide Replies, Slots;
    FinishSlots(st.inFlight, st.works, st.lost, st.ids, request);
    UnansweredReplies(st.log, st.ids, st.works.Keys + st.lost, request);
  }

  lemma FinishAccounted(st: State, request: nat, outcome: Outcome)
    requires Accounted(st) && request in st.works
    ensures Accounted(Finished(st, request, outcome))
  {
    hide Ended, Accounted;
    var left: nat := if st.inFlight > 0 then st.inFlight - 1 else 0;
    if st.closed {
      FinishShut(st, request, left);
    } else {
      FinishOpen(st, request, Answer(request, st.works[request].id, Ended(st.works[request].work, outcome)), left);
    }
  }

  lemma UnansweredReplies(log: seq<Post>, ids: seq<Value>, open: set<int>, request: nat)
    requires Replies(log, ids, open, true)
    ensures Replies(log, ids, open - {request}, true)
  {
  }

  lemma ReceivedAccounted(st: State, data: Option<Value>, context: Value)
    requires Accounted(st)
    ensures Accounted(Received(st, data, context))
  {
    hide Request, Lookup, Accounted;
    var message := Record(data);
    var name, id := MethodOf(message), Lookup(message, ID);
    if name.Some? && id.Some? {
      RequestAccounted(st, id.value, name.value, Record(Lookup(message, PARAMS)), context);
    } else if name.Some? {
      AccountedSame(st, Notification(st, name.value));
    }
  }

  lemma AccountedNext(st: State, event: Event)
    requires Accounted(st)
    ensures Accounted(Next(st, event))
  {
    hide Accounted, Received, Tell, Finished;
    match event
    case Receive(data, context) =>
      ReceivedAccounted(st, data, context);
    case Feed(next) =>
      AccountedSame(st, st.(fed := next));
      TellAccounted(st.(fed := next));
    case TimerFires =>
      AccountedSame(st, st.(waiting := false, listening := true));
      TellAccounted(st.(waiting := false, listening := true));
    case Finish(request, outcome) =>
      FinishOrNot(st, request, outcome);
    case Changed(context) =>
      AccountedPost(st, ContextChanged(context));
    case Close =>
      var quiet := st.(waiting := false, listening := false);
      AccountedSame(st, quiet);
      AccountedPost(quiet, Teardown);
      AccountedSame(if st.ready then Posted(quiet, Teardown) else quiet, Closed(st));
  }

  lemma FinishOrNot(st: State, request: nat, outcome: Outcome)
    requires Accounted(st)
    ensures Accounted(Finished(st, request, outcome))
  {
    hide Accounted;
    if request in st.works {
      FinishAccounted(st, request, outcome);
    }
  }

  /** Over every run each request has its one answer, is being worked on, or was lost, and the
      slots taken are the works not finished and the requests lost, never more than 32. */
  lemma {:induction false} RunAccounted(events: seq<Event>)
    ensures Accounted(Run(events))
  {
    if events != [] {
      RunAccounted(events[..|events| - 1]);
      AccountedNext(Run(events[..|events| - 1]), events[|events| - 1]);
    }
  }

  /** A request is never answered exactly when its method is the name of an inherited property
      and a slot is free; otherwise it is worked on or answered at once. */
  lemma RequestFate(st: State, id: Value, name: Text, params: seq<Member>, context: Value)
    requires Accounted(st) && !st.closed
    ensures var n, next := |st.ids|, Request(st, id, name, params, context);
      && (n in next.lost <==> !Handles(name) && Inherits(name) && st.inFlight < MAX_IN_FLIGHT)
      && (n in next.works <==> Handles(name) && st.inFlight < MAX_IN_FLIGHT)
      && (n !in next.lost && n !in next.works ==> Answered(next.log, n) == 1)
  {
    hide Begin, Accounted, Handles, Inherits, HandlerOf;
    NextIsNew(st);
    RequestAccounted(st, id, name, params, context);
    FateIsReplied(Request(st, id, name, params, context), |st.ids|);
  }

  lemma NextIsNew(st: State)
    requires Accounted(st)
    ensures |st.ids| !in st.lost && |st.ids| !in st.works
  {
  }

  lemma FateIsReplied(st: State, n: nat)
    requires Accounted(st) && !st.closed && n < |st.ids|
    ensures n !in st.lost && n !in st.works ==> Answered(st.log, n) == 1
    ensures n in st.lost ==> Answered(st.log, n) == 0
  {
  }

  /** What is lost stays lost: the request is not answered later and its slot is not given back. */
  lemma LostForGood(st: State, event: Event)
    requires Accounted(st)
    ensures st.lost <= Next(st, event).lost
    ensures forall n: nat :: n in st.lost ==> Answered(Next(st, event).log, n) == 0
  {
    hide Accounted, Next;
    AccountedNext(st, event);
    StaysLost(st, event);
    LostUnanswered(Next(st, event));
  }

  lemma TellLosesNone(st: State)
    ensures Tell(st).lost == st.lost
  {}

  lemma ReceivedLoses(st: State, data: Option<Value>, context: Value)
    ensures st.lost <= Received(st, data, context).lost
  {
    hide Begin, Lookup, Handles, Inherits, HandlerOf;
  }

  lemma StaysLost(st: State, event: Event)
    ensures st.lost <= Next(st, event).lost
  {
    hide Tell, Received, Ended;
    match event
    case Receive(data, context) => ReceivedLoses(st, data, context);
    case Feed(next) => TellLosesNone(st.(fed := next));
    case TimerFires => TellLosesNone(st.(waiting := false, listening := true));
    case _ =>
  }

  lemma LostUnanswered(st: State)
    requires Accounted(st)
    ensures forall n: nat :: n in st.lost ==> Answered(st.log, n) == 0
  {
  }

  /** Such a method: `toString` is on every object, and asking for it is never answered. */
  lemma ToStringIsLost(context: Value)
    ensures var asked := Request(INITIAL, Str(Units("a")), Units("toString"), [], context);
      asked.log == [] && asked.lost == {0} && asked.inFlight == 1
  {
    NotAHandler();
  }

  lemma NotAHandler()
    ensures Inherits(Units("toString"))
  {
    var t := Units("toString");
    assert t[1] == 111;
    assert Units("ui/initialize")[1] == 105 && |Units("ping")| == 4 && |Units("tools/call")| == 10;
    assert |Units("resources/read")| == 14 && |Units("ui/open-link")| == 12 && |Units("ui/message")| == 10;
    assert |Units("ui/request-display-mode")| == 23;
  }

  /** After `close` nothing is told and nothing is answered; closing again can only repeat the
      request to finish up. */
  lemma QuietAfterClose(st: State, event: Event)
    requires st.closed && Orderly(st)
    ensures Next(st, event).closed
    ensures Next(st, event).log == st.log || (event.Close? && Next(st, event).log == st.log + [Teardown])
  {
  }

  ghost predicate SaysFed(posts: seq<Post>, from: nat, fed: Fed) {
    forall k :: from <= k < |posts| ==>
      && (posts[k].ToolInput? ==> posts[k].arguments == Record(if Known(fed.input) then fed.input else fed.partial))
      && (posts[k].ToolInputPartial? ==>
            !Known(fed.input) && !Known(fed.result) && posts[k].arguments == Record(fed.partial))
      && (posts[k].ToolResult? ==> fed.result == Some(posts[k].result))
  }

  lemma TellInputSays(st: State)
    ensures var asked := TellInput(st);
      asked.fed == st.fed && asked.listening == st.listening && st.log <= asked.log && SaysFed(asked.log, |st.log|, st.fed)
  {
    hide Record;
  }

  lemma TellResultSays(st: State, from: nat)
    requires from <= |st.log| && SaysFed(st.log, from, st.fed)
    ensures var done := TellResult(st);
      done.fed == st.fed && st.log <= done.log && SaysFed(done.log, from, st.fed)
  {
    hide Record;
  }

  lemma TellSaysFed(st: State)
    ensures st.log <= Tell(st).log && SaysFed(Tell(st).log, |st.log|, st.fed) && Tell(st).fed == st.fed
  {
    hide TellInput, TellResult;
    TellInputSays(st);
    TellResultSays(TellInput(st), |st.log|);
  }

  /** What one step tells the page is what the host has been fed, and nothing posted is taken back. */
  lemma ToldIsFed(st: State, event: Event)
    ensures st.log <= Next(st, event).log && SaysFed(Next(st, event).log, |st.log|, Next(st, event).fed)
  {
    hide Begin, Ended, Lookup, Tell, Handles, Inherits, HandlerOf;

    match event
    case Feed(next) => TellSaysFed(st.(fed := next));
    case TimerFires => TellSaysFed(st.(waiting := false, listening := true));
    case _ =>
  }

  /** A work that ends while the screen is open posts the one answer to its request. What the host found is
      handed on as it is, and an empty object where it found nothing or there is nothing to find; what went
      wrong is told in at most 4000 units. */
  lemma FinishAnswers(st: State, n: nat, outcome: Outcome)
    requires Accounted(st) && !st.closed && n in st.works
    ensures var next := Next(st, Finish(n, outcome));
      && |next.log| == |st.log| + 1 && st.log <= next.log
      && Answers(next.log[|st.log|], n) && next.log[|st.log|].id == st.ids[n]
      && n !in next.works && Answered(next.log, n) == 1
    ensures var work, post := st.works[n].work, Next(st, Finish(n, outcome)).log[|st.log|];
      var found := if work.Settled? then work.outcome else outcome;
      && (found.Rejected? ==> post == Failure(n, st.ids[n], -32000, found.reason[..Min(|found.reason|, 4000)]))
      && (found.Resolved? ==> post.Result?)
      && (found.Resolved? && (work.Settled? || work.handler.CallTool? || work.handler.ReadPage?) ==>
            if found.value.Some? && found.value.value != Null then post.result == found.value.value else post.result == Obj([]))
      && (found.Resolved? && work.Asked? && (work.handler.OpenLink? || work.handler.Say?) ==> post.result == Obj([]))
  {
    FinishAccounted(st, n, outcome);
  }
}
