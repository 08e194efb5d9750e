/** The bridge itself: the variables `bridge` closes over, updated in place (outputBridge.ts). */
module ScreenBridge {
  import opened Basics
  import opened CodeUnits
  import opened Json
  import opened ScreenProtocol

  class Bridge {
    var closed: bool
    var inFlight: nat
    var ready: bool
    var listening: bool
    var waiting: bool
    var fed: Fed
    var told: Told
    /** The works begun and not yet ended, which the runtime holds as promises; a promise is
        named by the place of its request among those received. */
    var works: map<int, Pending>
    var ids: seq<Value>
    ghost var lost: set<int>
    ghost var era: nat
    ghost var log: seq<Post>

    ghost function Now(): State
      reads this
    {
      State(closed, inFlight, ready, listening, waiting, fed, told, works, ids, lost, era, log)
    }

    ghost predicate Valid()
      reads this
    {
      Orderly(Now()) && Accounted(Now())
    }

    constructor ()
      ensures Now() == INITIAL && Valid()
    {
      closed, inFlight, ready, listening, waiting := false, 0, false, false, false;
      fed, told, works := UNFED, Told(false, false), map[];
      ids, lost, era, log := [], {}, 0, [];
      new;
      RunOrderly([]);
      RunAccounted([]);
    }

    method PostMessage(post: Post)
      modifies this`log
      ensures log == old(log) + [post]
    {
      log := log + [post];
    }

    method Notify(post: Post)
      modifies this`log
      ensures Now() == ScreenProtocol.Notify(old(Now()), post)
    {
      if !closed {
        PostMessage(post);
      }
    }

    method Tell()
      modifies this`told, this`log
      ensures Now() == ScreenProtocol.Tell(old(Now()))
    {
      if !listening {
        return;
      }
      if !told.input && (Known(fed.input) || Known(fed.result)) {
        told := told.(input := true);
        Notify(ToolInput(Record(OrElse(fed.input, fed.partial))));
      } else if !told.input && Known(fed.partial) {
        Notify(ToolInputPartial(Record(fed.partial)));
      }
      if told.input && !told.result && Known(fed.result) {
        told := told.(result := true);
        Notify(ToolResult(fed.result.value));
      }
    }

    /** Takes a slot and begins the work, unless too many are taken. */
    method Answer(id: Value, name: Text, params: seq<Member>, context: Value)
      requires Handles(name) || Inherits(name)
      modifies this
      ensures Now() == Request(old(Now()), id, name, params, context)
    {
      hide Begin, Handles, Inherits, HandlerOf, Taken;
      var n := |ids|;
      if inFlight >= MAX_IN_FLIGHT {
        ids := ids + [id];
        PostMessage(Failure(n, id, -32000, TOO_MANY));
      } else if !Handles(name) {
        // Calling what was found throws; nothing after it happens.
        ids := ids + [id];
        inFlight := inFlight + 1;
        lost := lost + {n};
      } else {
        Take(id, HandlerOf(name), Begin(HandlerOf(name), params, context));
      }
    }

    /** Takes a slot for a work that has begun. */
    method Take(id: Value, handler: Handler, work: Work)
      modifies this
      ensures Now() == Taken(old(Now()), id, handler, work)
    {
      inFlight := inFlight + 1;
      works := works[|ids| := Pending(id, work)];
      ids := ids + [id];
      if handler.Initialize? {
        // Nothing said before was said to this page.
        ready := false;
        listening := false;
        waiting := false;
        told := Told(false, false);
        era := |log|;
      }
    }

    /** A message arrives. */
    method Receive(data: Option<Value>, context: Value)
      requires Valid()
      modifies this
      ensures Now() == Next(old(Now()), Event.Receive(data, context)) && Valid()
    {
      hide Begin, Lookup, Orderly, Accounted, Handles, Inherits, HandlerOf;
      OrderlyNext(Now(), Event.Receive(data, context));
      AccountedNext(Now(), Event.Receive(data, context));
      if closed {
        return;
      }
      var message := Record(data);
      var asked, id := MethodOf(message), Lookup(message, ID);
      if asked.None? {
        return;
      }
      var name := asked.value;
      if id.None? {
        if name == Units("ui/notifications/initialized") && !ready {
          ready := true;
          waiting := true;
        }
        return;
      }
      if !id.value.Str? && !id.value.Num? {
        return;
      }
      if !Handles(name) && !Inherits(name) {
        ids := ids + [id.value];
        PostMessage(Failure(|ids| - 1, id.value, -32601, UNSUPPORTED));
      } else {
        Answer(id.value, name, Record(Lookup(message, PARAMS)), context);
      }
    }

    /** What runs when the grace timer of the last `initialized` ends. */
    method TimerFires()
      requires Valid() && waiting
      modifies this
      ensures Now() == Next(old(Now()), Event.TimerFires) && Valid()
    {
      hide Orderly, Accounted, Handles, Inherits, HandlerOf;
      OrderlyNext(Now(), Event.TimerFires);
      AccountedNext(Now(), Event.TimerFires);
      waiting := false;
      listening := true;
      Tell();
    }

    /** What runs when a work ends: `outcome` is how what the host was asked for ended. */
    method Finish(request: nat, outcome: Outcome)
      requires Valid() && request in works
      modifies this
      ensures Now() == Next(old(Now()), Event.Finish(request, outcome)) && Valid()
    {
      hide Orderly, Accounted, Ended, Handles, Inherits, HandlerOf;
      OrderlyNext(Now(), Event.Finish(request, outcome));
      AccountedNext(Now(), Event.Finish(request, outcome));
      SlotTaken(Now(), request);
      var pending := works[request];
      Notify(ScreenProtocol.Answer(request, pending.id, Ended(pending.work, outcome)));
      inFlight := inFlight - 1;
      works := works - {request};
    }

    /** There is something new to draw. */
    method Feed(next: Fed)
      requires Valid()
      modifies this
      ensures Now() == Next(old(Now()), Event.Feed(next)) && Valid()
    {
      hide Orderly, Accounted, Handles, Inherits, HandlerOf;
      OrderlyNext(Now(), Event.Feed(next));
      AccountedNext(Now(), Event.Feed(next));
      fed := next;
      Tell();
    }

    /** A page that listens hears of a new context. */
    method Changed(context: Value)
      requires Valid()
      modifies this
      ensures Now() == Next(old(Now()), Event.Changed(context)) && Valid()
    {
      hide Orderly, Accounted, Handles, Inherits, HandlerOf;
      OrderlyNext(Now(), Event.Changed(context));
      AccountedNext(Now(), Event.Changed(context));
      if listening {
        Notify(ContextChanged(context));
      }
    }

    /** The screen goes away; a page that is ready is told so. */
    method Close()
      requires Valid()
      modifies this
      ensures Now() == Next(old(Now()), Event.Close) && Valid()
    {
      hide Orderly, Accounted, Handles, Inherits, HandlerOf;
      OrderlyNext(Now(), Event.Close);
      AccountedNext(Now(), Event.Close);
      waiting := false;
      listening := false;
      if ready {
        PostMessage(Teardown);
      }
      closed := true;
    }
  }

  lemma SlotTaken(st: State, request: nat)
    requires Accounted(st) && request in st.works
    ensures st.inFlight > 0
  {
    FinishSlots(st.inFlight, st.works, st.lost, st.ids, request);
  }
}
