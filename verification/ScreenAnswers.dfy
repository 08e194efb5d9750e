/** What a page's requests make the host do, and what it is answered in the end (outputBridge.ts, `bridge`). */
module ScreenAnswers {
  import opened Basics
  import opened CodeUnits
  import opened Json
  import opened ScreenProtocol

  lemma HandlersAre()
    ensures Handles(Units("ui/initialize")) && HandlerOf(Units("ui/initialize")) == Initialize
    ensures Handles(Units("ping")) && HandlerOf(Units("ping")) == Ping
    ensures Handles(Units("tools/call")) && HandlerOf(Units("tools/call")) == CallTool
    ensures Handles(Units("resources/read")) && HandlerOf(Units("resources/read")) == ReadPage
    ensures Handles(Units("ui/open-link")) && HandlerOf(Units("ui/open-link")) == OpenLink
    ensures Handles(Units("ui/message")) && HandlerOf(Units("ui/message")) == Say
    ensures Handles(Units("ui/request-display-mode")) && HandlerOf(Units("ui/request-display-mode")) == DisplayMode
  {
    assert Units("tools/call")[0] == 116 && Units("ui/message")[0] == 117;
    assert |Units("ui/initialize")| == 13 && |Units("ping")| == 4 && |Units("tools/call")| == 10;
    assert |Units("resources/read")| == 14 && |Units("ui/open-link")| == 12 && |Units("ui/message")| == 10;
    assert |Units("ui/request-display-mode")| == 23;
  }

  predicate IsText(v: Option<Value>) {
    v.Some? && v.value.Str?
  }

  /** A request with a handler and a free slot is being worked on, and this is what its answer takes. */
  predicate Takes(st: State, id: Value, name: string, params: seq<Member>, context: Value, work: Work)
    requires forall k :: 0 <= k < |name| ==> name[k] < 128 as char
  {
    var next := Request(st, id, Units(name), params, context);
    |st.ids| in next.works && next.works[|st.ids|] == Pending(id, work) && next.log == st.log && next.inFlight == st.inFlight + 1
  }

  lemma HandlerTakes(st: State, id: Value, name: string, params: seq<Member>, context: Value)
    requires forall k :: 0 <= k < |name| ==> name[k] < 128 as char
    requires st.inFlight < 32 && Handles(Units(name))
    ensures Takes(st, id, name, params, context, Begin(HandlerOf(Units(name)), params, context))
  {
    hide Begin, Handles, HandlerOf, Inherits;
  }

  lemma ToolIsCalled(st: State, id: Value, params: seq<Member>, context: Value)
    requires st.inFlight < 32
    ensures var tool, arguments := Lookup(params, Units("name")), Lookup(params, Units("arguments"));
      Takes(st, id, "tools/call", params, context,
        if IsText(tool) then
          Asked(CallTool, tool.value.units, if arguments.Some? && arguments.value.Obj? then arguments.value.members else [])
        else Settled(Rejected(Units("A tool call needs a name."))))
  {
    HandlersAre();
    hide Handles, HandlerOf, Lookup, Takes;
    HandlerTakes(st, id, "tools/call", params, context);
  }

  lemma PageIsRead(st: State, id: Value, params: seq<Member>, context: Value)
    requires st.inFlight < 32
    ensures var uri := Lookup(params, Units("uri"));
      Takes(st, id, "resources/read", params, context,
        if IsText(uri) then Asked(ReadPage, uri.value.units, []) else Settled(Rejected(Units("A read needs a uri."))))
  {
    HandlersAre();
    hide Handles, HandlerOf, Lookup, Takes;
    HandlerTakes(st, id, "resources/read", params, context);
  }

  /** The units in lower case are those of the literal. */
  predicate Spells(t: Text, literal: string) {
    |t| == |literal| && forall k :: 0 <= k < |t| ==> LowerCode(t[k] as int) == literal[k] as int
  }

  predicate StartsLikeWeb(url: Text) {
    (|url| >= 7 && Spells(url[..7], "http://")) || (|url| >= 8 && Spells(url[..8], "https://"))
  }

  lemma LinkIsOpened(st: State, id: Value, params: seq<Member>, context: Value)
    requires st.inFlight < 32
    ensures var url := Lookup(params, Units("url"));
      Takes(st, id, "ui/open-link", params, context,
        if IsText(url) && StartsLikeWeb(url.value.units) then Asked(OpenLink, url.value.units, [])
        else Settled(Rejected(Units("Only a web link can be opened."))))
  {
    HandlersAre();
    hide Handles, HandlerOf, Lookup, Takes;
    HandlerTakes(st, id, "ui/open-link", params, context);
    if IsText(Lookup(params, Units("url"))) {
      WebLinks(Lookup(params, Units("url")).value.units);
    }
  }

  lemma WebLinks(url: Text)
    ensures IsWebLink(url) <==> StartsLikeWeb(url)
  {
    if |url| >= 7 {
      assert forall k :: 0 <= k < 7 ==> url[..7][k] == url[k];
    }
    if |url| >= 8 {
      assert forall k :: 0 <= k < 8 ==> url[..8][k] == url[k];
    }
  }

  /** The field of the field, if these are an object and a string. */
  function Within(params: seq<Member>, outer: Text, inner: Text): Option<Value> {
    var content := Lookup(params, outer);
    if content.Some? && content.value.Obj? then Lookup(content.value.members, inner) else None
  }

  /** Text that is missing or all white space is refused; no more than 4000 units are said. */
  lemma MessageIsSaid(st: State, id: Value, params: seq<Member>, context: Value)
    requires st.inFlight < 32
    ensures var text := Within(params, Units("content"), Units("text"));
      Takes(st, id, "ui/message", params, context,
        if IsText(text) && exists k :: 0 <= k < |text.value.units| && !IsBlankCode(text.value.units[k] as int) then
          Asked(Say, text.value.units[..Min(|text.value.units|, 4000)], [])
        else Settled(Rejected(Units("A message needs text."))))
  {
    HandlersAre();
    hide Handles, HandlerOf, IsBlankCode, Takes;
    HandlerTakes(st, id, "ui/message", params, context);
    assert Lookup([], Units("text")).None?;
    var text := Within(params, Units("content"), Units("text"));
    assert IsText(text) ==> text.value.units[..|text.value.units|] == text.value.units;
  }

  predicate Greets(work: Work, context: Value) {
    work.Settled? && work.outcome.Resolved? && work.outcome.value.Some? && work.outcome.value.value.Obj? &&
    var greeting := work.outcome.value.value.members;
    && |greeting| == 4
    && greeting[0] == Member(Units("protocolVersion"), Str(Units("2026-01-26")))
    && greeting[1].name == Units("hostInfo") && greeting[2].name == Units("hostCapabilities")
    && greeting[3] == Member(Units("hostContext"), context)
  }

  /** A new page is told what it speaks to, and the host takes it to know nothing yet. */
  lemma PageIsGreeted(st: State, id: Value, params: seq<Member>, context: Value)
    requires st.inFlight < 32
    ensures var next := Request(st, id, Units("ui/initialize"), params, context);
      && !next.ready && !next.listening && !next.waiting && next.told == Told(false, false) && next.fed == st.fed
      && |st.ids| in next.works && next.works[|st.ids|].id == id && Greets(next.works[|st.ids|].work, context)
  {
    HandlersAre();
    hide Handles, HandlerOf, Greets;
    Greeting(params, context);
    hide Begin;
  }

  lemma Greeting(params: seq<Member>, context: Value)
    ensures Greets(Begin(Initialize, params, context), context)
  {}

  lemma PingIsAnswered(st: State, id: Value, params: seq<Member>, context: Value)
    requires st.inFlight < 32
    ensures Takes(st, id, "ping", params, context, Settled(Resolved(Some(Obj([])))))
  {
    HandlersAre();
    hide Handles, HandlerOf, Takes;
    HandlerTakes(st, id, "ping", params, context);
  }

  /** The mode is the one the context names, or `inline`. */
  lemma ModeIsTold(st: State, id: Value, params: seq<Member>, context: seq<Member>)
    requires st.inFlight < 32
    ensures var named := Lookup(context, Units("displayMode"));
      var mode := if named.Some? && named.value != Null then named.value else Str(Units("inline"));
      Takes(st, id, "ui/request-display-mode", params, Obj(context), Settled(Resolved(Some(Obj([Member(Units("mode"), mode)])))))
  {
    HandlersAre();
    hide Handles, HandlerOf, Lookup, Takes;
    HandlerTakes(st, id, "ui/request-display-mode", params, Obj(context));
  }

  // A page that says it is ready.

  /** A message that says so. */
  predicate SaysReady(event: Event) {
    event.Receive? && event.data.Some? && event.data.value.Obj? &&
    var message := event.data.value.members;
    && Lookup(message, Units("jsonrpc")) == Some(Str(Units("2.0"))) && Lookup(message, Units("id")).None?
    && Lookup(message, Units("method")) == Some(Str(Units("ui/notifications/initialized")))
  }

  /** What a listening page that was told so much is told next: the input, whole once it or a result is known, and
      then the result. */
  function Words(fed: Fed, told: Told): seq<Post> {
    var whole := Known(fed.input) || Known(fed.result);
    (if told.input then []
     else if whole then [ToolInput(if Known(fed.input) then Record(fed.input) else Record(fed.partial))]
     else if Known(fed.partial) then [ToolInputPartial(Record(fed.partial))]
     else []) +
    if Known(fed.result) && !told.result then [ToolResult(fed.result.value)] else []
  }

  lemma TellSays(st: State)
    requires st.listening && !st.closed
    ensures Tell(st).log == st.log + Words(st.fed, st.told) && Tell(st).listening
  {
    hide Record;
    assert st.log + [] == st.log;
  }

  /** A page that says it is ready is told nothing until the timer fires, and then all that is known. */
  lemma ReadyPageIsTold(st: State, says: Event)
    requires Orderly(st) && !st.closed && !st.ready && SaysReady(says)
    ensures var ready := Next(st, says);
      && ready.ready && ready.waiting && !ready.listening && ready.log == st.log
      && Next(ready, TimerFires).listening && Next(ready, TimerFires).log == st.log + Words(st.fed, Told(false, false))
  {
    hide Lookup, Request, InOrder;
    NothingTold(st);
    var ready := Next(st, says);
    assert ready == st.(ready := true, waiting := true);
    hide Record, Tell, Words;
    TellSays(ready.(waiting := false, listening := true));
  }

  /** What is fed to a listening page is told at once, as far as it was not; to any other nothing is. */
  lemma FedIsTold(st: State, fed: Fed)
    requires Orderly(st)
    ensures Next(st, Feed(fed)).fed == fed
    ensures Next(st, Feed(fed)).log == if st.listening then st.log + Words(fed, st.told) else st.log
  {
    hide InOrder, Words;
    if st.listening {
      TellSays(st.(fed := fed));
    }
  }

  /** A change of context is told to a listening page and no other; closing asks a ready page to finish up. */
  lemma ChangeIsTold(st: State, context: Value)
    requires Orderly(st)
    ensures Next(st, Changed(context)).log == if st.listening then st.log + [ContextChanged(context)] else st.log
    ensures Next(st, Close).log == if st.ready then st.log + [Teardown] else st.log
  {
    hide InOrder;
  }

  lemma NothingTold(st: State)
    requires Orderly(st) && !st.closed && !st.listening
    ensures st.told == Told(false, false)
  {
    hide InOrder;
  }

  // What is refused or ignored.

  /** What there is no handler for is refused at once, and so is what comes when 32 slots are taken. */
  lemma RefusedAtOnce(st: State, id: Value, name: Text, params: seq<Member>, context: Value)
    ensures var n, next := |st.ids|, Request(st, id, name, params, context);
      && (!Handles(name) && !Inherits(name) ==>
            next.log == st.log + [Failure(n, id, -32601, Units("Medha does not support this."))])
      && ((Handles(name) || Inherits(name)) && st.inFlight >= 32 ==>
            next.log == st.log + [Failure(n, id, -32000, Units("This screen has too many pending requests."))])
  {
    hide Begin, Handles, Inherits, HandlerOf;
  }

  /** No call: not an object, not of JSON-RPC 2.0, without a method, or under an id that is no string or number. */
  predicate IsNoCall(data: Option<Value>) {
    data.None? || !data.value.Obj? ||
    var message := data.value.members;
    || Lookup(message, Units("jsonrpc")) != Some(Str(Units("2.0"))) || !IsText(Lookup(message, Units("method")))
    || var id := Lookup(message, Units("id")); id.Some? && !id.value.Str? && !id.value.Num?
  }

  /** Such a message changes nothing, nor does any to a bridge that is closed. */
  lemma NoCallIsIgnored(st: State, data: Option<Value>, context: Value)
    requires st.closed || IsNoCall(data)
    ensures Next(st, Receive(data, context)) == st
  {
    hide Request, Notification;
    assert Lookup([], JSONRPC).None?;
  }

  // From the request to its answer.

  /** The works of the one are works of the other, and it is open if that is. */
  predicate Keeps(st: State, next: State, n: int) {
    && next.closed == st.closed && (n in st.works ==> n in next.works && next.works[n] == st.works[n])
  }

  lemma TellKeeps(st: State, n: int)
    ensures Keeps(st, Tell(st), n)
  {}

  lemma ReceivedKeeps(st: State, data: Option<Value>, context: Value, n: int)
    requires n != |st.ids|
    ensures Keeps(st, Received(st, data, context), n)
  {
    hide Begin, Lookup, Handles, Inherits, HandlerOf;
  }

  /** What is being worked on stays so, as it began, until it ends. */
  lemma WorkStays(st: State, event: Event, n: nat)
    requires Accounted(st) && n in st.works && !(event.Finish? && event.request == n) && !event.Close?
    ensures Keeps(st, Next(st, event), n)
  {
    WorkIsRequest(st, n);
    hide Tell, Received, Ended, Answer, Accounted;
    match event
    case Receive(data, context) => ReceivedKeeps(st, data, context, n);
    case Feed(next) => TellKeeps(st.(fed := next), n);
    case TimerFires => TellKeeps(st.(waiting := false, listening := true), n);
    case _ =>
  }

  lemma {:induction false} WorkKept(before: seq<Event>, between: seq<Event>, n: nat)
    requires n in Run(before).works
    requires forall k :: 0 <= k < |between| ==> !(between[k].Finish? && between[k].request == n) && !between[k].Close?
    ensures var st := Run(before + between);
      n in st.works && st.works[n] == Run(before).works[n] && st.closed == Run(before).closed
    decreases |between|
  {
    hide Next, Accounted;
    if between == [] {
      assert before + between == before;
    } else {
      var shorter, last := between[..|between| - 1], between[|between| - 1];
      var events := before + between;
      assert events[..|events| - 1] == before + shorter && events[|events| - 1] == last;
      WorkKept(before, shorter, n);
      RunAccounted(before + shorter);
      WorkStays(Run(before + shorter), last, n);
    }
  }

  /** A message that calls a tool. */
  predicate CallsTool(event: Event, id: Value, tool: Text) {
    event.Receive? && event.data.Some? && event.data.value.Obj? &&
    var message := event.data.value.members;
    && Lookup(message, Units("jsonrpc")) == Some(Str(Units("2.0"))) && Lookup(message, Units("id")) == Some(id)
    && Lookup(message, Units("method")) == Some(Str(Units("tools/call"))) && (id.Str? || id.Num?)
    && Within(message, Units("params"), Units("name")) == Some(Str(tool))
  }

  /** What a tool the page called has found reaches it, as it is and under the id of the call, whatever
      happens in between. */
  lemma ToolResultArrives(before: seq<Event>, call: Event, id: Value, tool: Text, between: seq<Event>, found: Value)
    requires !Run(before).closed && Run(before).inFlight < 32 && CallsTool(call, id, tool) && found != Null
    requires forall k :: 0 <= k < |between| ==>
      !(between[k].Finish? && between[k].request == |Run(before).ids|) && !between[k].Close?
    ensures var n, st := |Run(before).ids|, Run(before + [call] + between);
      var next := Run(before + [call] + between + [Finish(n, Resolved(Some(found)))]);
      && n in st.works && st.works[n].work.Asked? && st.works[n].work.handler == CallTool && st.works[n].work.subject == tool
      && next.log == st.log + [Result(n, id, found)]
  {
    var n, called := |Run(before).ids|, before + [call];
    assert called[..|called| - 1] == before && called[|called| - 1] == call;
    CallIsTaken(Run(before), call, id, tool);
    hide Next, Accounted, CallsTool;
    WorkKept(called, between, n);
    RunAccounted(called + between);
    var st, end := Run(called + between), Finish(n, Resolved(Some(found)));
    var all := called + between + [end];
    assert all[..|all| - 1] == called + between && all[|all| - 1] == end;
    WorkIsRequest(st, n);
    FinishAnswers(st, n, Resolved(Some(found)));
  }

  lemma CallIsTaken(st: State, call: Event, id: Value, tool: Text)
    requires !st.closed && st.inFlight < 32 && CallsTool(call, id, tool)
    ensures var next := Next(st, call);
      && |st.ids| in next.works && next.works[|st.ids|].id == id && next.closed == st.closed
      && next.works[|st.ids|].work.Asked? && next.works[|st.ids|].work.handler == CallTool
      && next.works[|st.ids|].work.subject == tool
  {
    ReceivedKeeps(st, call.data, call.context, -1);
    hide Lookup, Request;
    ToolIsCalled(st, id, Record(Lookup(call.data.value.members, PARAMS)), call.context);
  }
}
