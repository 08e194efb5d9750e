/** Answers that cross from one page in the frame to the next (outputBridge.ts, `bridge`). */
module ScreenPages {
  import opened Basics
  import opened CodeUnits
  import opened Json
  import opened ScreenProtocol

  const INITIALIZE: Text := Units("ui/initialize")

  /** The event is a new page's `ui/initialize`, and there is a slot for it. */
  predicate Begins(st: State, event: Event) {
    event.Receive? && !st.closed && st.inFlight < MAX_IN_FLIGHT &&
    var message := Record(event.data);
    MethodOf(message) == Some(INITIALIZE) &&
    var id := Lookup(message, ID);
    id.Some? && (id.value.Str? || id.value.Num?)
  }

  /** The first request of the page in the frame, and the works that had begun before it and not ended. */
  function PageOf(events: seq<Event>): (nat, set<int>) {
    if events == [] then (0, {})
    else
      var before := events[..|events| - 1];
      var st := Run(before);
      if Begins(st, events[|events| - 1]) then (|st.ids|, st.works.Keys) else PageOf(before)
  }

  /** An answer to the request stands in what was posted since the page began. */
  ghost predicate AnsweredSince(log: seq<Post>, era: nat, request: nat) {
    exists k :: era <= k < |log| && Answers(log[k], request)
  }

  /** What has crossed into the page in the frame: just the answers to works that were carried over
      and have ended. */
  ghost predicate Crossed(log: seq<Post>, era: nat, works: set<int>, first: nat, carried: set<int>, closed: bool) {
    && era <= |log|
    && (forall n :: n in carried ==> 0 <= n < first)
    && (forall n :: n in works && n < first ==> n in carried)
    && (forall n: nat :: n < first && AnsweredSince(log, era, n) ==> n in carried && n !in works)
    && (forall n: nat :: n in carried && n !in works && !closed ==> AnsweredSince(log, era, n))
  }

  ghost predicate Crossing(st: State, first: nat, carried: set<int>) {
    first <= |st.ids| && Crossed(st.log, st.era, st.works.Keys, first, carried, st.closed)
  }

  lemma SinceMore(log: seq<Post>, era: nat, post: Post, n: nat)
    requires era <= |log|
    ensures AnsweredSince(log + [post], era, n) <==> AnsweredSince(log, era, n) || Answers(post, n)
  {
    hide Answers;
    var more := log + [post];
    assert more[|log|] == post && forall k :: 0 <= k < |log| ==> more[k] == log[k];
    if AnsweredSince(log, era, n) {
      var k :| era <= k < |log| && Answers(log[k], n);
      assert Answers(more[k], n);
    }
  }

  /** A post that answers none of the earlier page's requests. */
  lemma PostCrossed(log: seq<Post>, era: nat, works: set<int>, first: nat, carried: set<int>, closed: bool, post: Post)
    requires Crossed(log, era, works, first, carried, closed)
    requires (post.Result? || post.Failure?) ==> post.request >= first
    ensures Crossed(log + [post], era, works, first, carried, closed)
  {
    hide AnsweredSince;
    forall n: nat | n < first ensures AnsweredSince(log + [post], era, n) <==> AnsweredSince(log, era, n) {
      SinceMore(log, era, post, n);
    }
  }

  /** The answer to a work that ends. */
  lemma AnswerCrossed(log: seq<Post>, era: nat, works: set<int>, first: nat, carried: set<int>, post: Post)
    requires Crossed(log, era, works, first, carried, false) && (post.Result? || post.Failure?) && post.request in works
    ensures Crossed(log + [post], era, works - {post.request}, first, carried, false)
  {
    hide AnsweredSince;
    forall n: nat ensures AnsweredSince(log + [post], era, n) <==> AnsweredSince(log, era, n) || n == post.request {
      SinceMore(log, era, post, n);
    }
  }

  lemma ClosedCrossed(log: seq<Post>, era: nat, works: set<int>, first: nat, carried: set<int>, closed: bool, request: int)
    requires Crossed(log, era, works, first, carried, closed)
    ensures Crossed(log, era, works - {request}, first, carried, true)
    ensures Crossed(log, era, works, first, carried, true)
  {
    hide AnsweredSince;
  }

  lemma StartCrossed(log: seq<Post>, era: nat, works: set<int>, first: nat, carried: set<int>, closed: bool, request: nat)
    requires Crossed(log, era, works, first, carried, closed) && request >= first
    ensures Crossed(log, era, works + {request}, first, carried, closed)
  {
    hide AnsweredSince;
  }

  lemma BeginsCrossed(log: seq<Post>, works: set<int>, request: nat)
    requires forall n :: n in works ==> 0 <= n < request
    ensures Crossed(log, |log|, works + {request}, request, works, false)
  {}

  lemma TellInputCrossing(st: State, first: nat, carried: set<int>)
    requires Crossing(st, first, carried)
    ensures Crossing(TellInput(st), first, carried)
  {
    hide Crossed;
    var asked := TellInput(st);
    if asked.log != st.log {
      PostCrossed(st.log, st.era, st.works.Keys, first, carried, st.closed, asked.log[|st.log|]);
    }
  }

  lemma TellResultCrossing(st: State, first: nat, carried: set<int>)
    requires Crossing(st, first, carried)
    ensures Crossing(TellResult(st), first, carried)
  {
    hide Crossed;
    var done := TellResult(st);
    if done.log != st.log {
      PostCrossed(st.log, st.era, st.works.Keys, first, carried, st.closed, done.log[|st.log|]);
    }
  }

  lemma TellCrossing(st: State, first: nat, carried: set<int>)
    requires Crossing(st, first, carried)
    ensures Crossing(Tell(st), first, carried)
  {
    hide Crossing, TellInput, TellResult;
    TellInputCrossing(st, first, carried);
    TellResultCrossing(TellInput(st), first, carried);
  }

  lemma RequestCrossing(st: State, id: Value, name: Text, params: seq<Member>, context: Value, first: nat, carried: set<int>)
    requires Crossing(st, first, carried) && Accounted(st) && !st.closed
    ensures var next := Request(st, id, name, params, context);
      if name == INITIALIZE && st.inFlight < MAX_IN_FLIGHT then Crossing(next, |st.ids|, st.works.Keys)
      else Crossing(next, first, carried)
  {
    hide Crossed, Begin, Inherits, Taken, Handles, HandlerOf, Accounted, INITIALIZE;
    InitializeHandles(name);
    var n := |st.ids|;
    if !Handles(name) && !Inherits(name) {
      PostCrossed(st.log, st.era, st.works.Keys, first, carried, st.closed, Failure(n, id, -32601, UNSUPPORTED));
    } else if st.inFlight >= MAX_IN_FLIGHT {
      PostCrossed(st.log, st.era, st.works.Keys, first, carried, st.closed, Failure(n, id, -32000, TOO_MANY));
    } else if Handles(name) {
      TakenCrossing(st, id, HandlerOf(name), Begin(HandlerOf(name), params, context), first, carried);
    }
  }

  lemma TakenCrossing(st: State, id: Value, handler: Handler, work: Work, first: nat, carried: set<int>)
    requires Crossing(st, first, carried) && Accounted(st) && !st.closed
    ensures var next := Taken(st, id, handler, work);
      if handler == Initialize then Crossing(next, |st.ids|, st.works.Keys) else Crossing(next, first, carried)
  {
    hide Crossed, Replies;
    var n := |st.ids|;
    assert st.works[n := Pending(id, work)].Keys == st.works.Keys + {n};
    if handler == Initialize {
      BeginsCrossed(st.log, st.works.Keys, n);
    } else {
      StartCrossed(st.log, st.era, st.works.Keys, first, carried, st.closed, n);
    }
  }

  lemma InitializeHandles(name: Text)
    ensures Handles(INITIALIZE) && HandlerOf(INITIALIZE) == Initialize
    ensures Handles(name) && HandlerOf(name) == Initialize ==> name == INITIALIZE
  {}

  lemma ReceiveCrossing(st: State, data: Option<Value>, context: Value, first: nat, carried: set<int>)
    requires Crossing(st, first, carried) && Accounted(st)
    ensures var next := Received(st, data, context);
      if Begins(st, Receive(data, context)) then Crossing(next, |st.ids|, st.works.Keys) else Crossing(next, first, carried)
  {
    hide Crossed, Request, Lookup, Accounted, INITIALIZE;
    var message := Record(data);
    var name, id := MethodOf(message), Lookup(message, ID);
    if !st.closed && name.Some? && id.Some? && (id.value.Str? || id.value.Num?) {
      RequestCrossing(st, id.value, name.value, Record(Lookup(message, PARAMS)), context, first, carried);
    }
  }

  lemma FinishCrossing(st: State, request: nat, outcome: Outcome, first: nat, carried: set<int>)
    requires Crossing(st, first, carried)
    ensures Crossing(Finished(st, request, outcome), first, carried)
  {
    hide Crossed, Ended;
    if request in st.works {
      assert (st.works - {request}).Keys == st.works.Keys - {request};
      if st.closed {
        ClosedCrossed(st.log, st.era, st.works.Keys, first, carried, st.closed, request);
      } else {
        AnswerCrossed(st.log, st.era, st.works.Keys, first, carried,
                      Answer(request, st.works[request].id, Ended(st.works[request].work, outcome)));
      }
    }
  }

  lemma CloseCrossing(st: State, first: nat, carried: set<int>)
    requires Crossing(st, first, carried)
    ensures Crossing(Closed(st), first, carried)
  {
    hide Crossed;
    ClosedCrossed(st.log, st.era, st.works.Keys, first, carried, st.closed, 0);
    if st.ready {
      PostCrossed(st.log, st.era, st.works.Keys, first, carried, true, Teardown);
    }
  }

  lemma CrossingNext(st: State, event: Event, first: nat, carried: set<int>)
    requires Crossing(st, first, carried) && Accounted(st)
    ensures if Begins(st, event) then Crossing(Next(st, event), |st.ids|, st.works.Keys)
            else Crossing(Next(st, event), first, carried)
  {
    hide Crossed, Received, Tell, Finished, Closed, Accounted;
    match event
    case Receive(data, context) => ReceiveCrossing(st, data, context, first, carried);
    case Feed(next) => TellCrossing(st.(fed := next), first, carried);
    case TimerFires =>
      if st.waiting {
        TellCrossing(st.(waiting := false, listening := true), first, carried);
      }
    case Finish(request, outcome) => FinishCrossing(st, request, outcome, first, carried);
    case Changed(context) =>
      if st.listening && !st.closed {
        PostCrossed(st.log, st.era, st.works.Keys, first, carried, st.closed, ContextChanged(context));
      }
    case Close => CloseCrossing(st, first, carried);
  }

  lemma {:induction false} RunCrossing(events: seq<Event>)
    ensures Crossing(Run(events), PageOf(events).0, PageOf(events).1)
  {
    hide Crossed, Next, Begins;
    if events == [] {
      NothingCrossed();
      assert INITIAL.works.Keys == {};
    } else {
      var before := events[..|events| - 1];
      RunCrossing(before);
      RunAccounted(before);
      CrossingNext(Run(before), events[|events| - 1], PageOf(before).0, PageOf(before).1);
    }
  }

  lemma NothingCrossed()
    ensures Crossed([], 0, {}, 0, {}, false)
  {}

  /** Over every run, while the screen is open: the page in the frame is posted the answer to a request
      of a page before it exactly when that request was being worked on as the page began and has ended
      since. Once closed no such answer comes but those that came before. */
  lemma AnswersAcrossPages(events: seq<Event>, request: nat)
    requires request < PageOf(events).0
    ensures var st, carried := Run(events), PageOf(events).1;
      && (AnsweredSince(st.log, st.era, request) ==> request in carried && request !in st.works)
      && (!st.closed ==> (AnsweredSince(st.log, st.era, request) <==> request in carried && request !in st.works))
  {
    hide AnsweredSince;
    RunCrossing(events);
  }

  /** The last post of a run: a work the new page did not ask for ends, and the page is posted its
      answer, under an id that may well be one of its own. */
  lemma LateAnswer(events: seq<Event>, event: Event, request: nat, outcome: Outcome)
    requires Begins(Run(events), event) && request in Run(events).works
    ensures var st, late := Run(events), Run(events + [event, Finish(request, outcome)]);
      && late.era < |late.log| && Answers(late.log[|late.log| - 1], request)
      && request < PageOf(events + [event, Finish(request, outcome)]).0
      && late.log[|late.log| - 1].id == st.works[request].id
  {
    var st, all := Run(events), events + [event, Finish(request, outcome)];
    assert all[..|all| - 1] == events + [event] && (events + [event])[..|events|] == events;
    hide Next, Begins, Crossed, Answers;
    var begun := Next(st, event);
    assert Run(events + [event]) == begun && Run(all) == Next(begun, Finish(request, outcome));
    assert PageOf(events + [event]) == (|st.ids|, st.works.Keys);
    RunAccounted(events);
    Begun(st, event, request);
    NotBegun(begun, request, outcome);
    Late(begun, request, outcome);
  }

  lemma NotBegun(st: State, request: nat, outcome: Outcome)
    ensures !Begins(st, Finish(request, outcome))
  {}

  lemma Begun(st: State, event: Event, request: nat)
    requires Begins(st, event) && Accounted(st) && request in st.works
    ensures var next := Next(st, event);
      request in next.works && next.works[request] == st.works[request] && !next.closed && next.era == |next.log|
      && request < |st.ids| && st.works[request].id == st.ids[request]
  {
    hide Begin, Lookup;
    InitializeHandles(INITIALIZE);
  }

  lemma Late(st: State, request: nat, outcome: Outcome)
    requires request in st.works && !st.closed && st.era == |st.log|
    ensures var next := Next(st, Finish(request, outcome));
      && next.era < |next.log| && Answers(next.log[|next.log| - 1], request)
      && next.log[|next.log| - 1].id == st.works[request].id
  {
    hide Ended;
  }
}
