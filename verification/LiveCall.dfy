/** Waiting for the answer to one request on a chat, whose reply may come before its id is known
    (api.ts, `liveCall`). */
module LiveCall {
  import opened Basics

  /** A frame heard on some chat: `result` and `error` are there or not. */
  datatype Frame = Frame(key: string, isExit: bool, id: Option<int>, result: Option<string>, error: Option<string>)

  datatype Outcome = Answered(frame: Frame) | Refused(frame: Frame) | Disconnected | Unconfirmed | NotSent

  datatype Event =
    | Heard(frame: Frame)
    | Listening
    | Sent(id: int)
    | Failed
    | TimerFires

  /** `off` is set once listening is confirmed; `removed` once it was called. `replies` is the
      history: every reply heard on the chat. */
  datatype State = State(
    off: bool, removed: bool, timer: bool, requestId: Option<int>, early: seq<Frame>,
    outcome: Option<Outcome>, replies: seq<Frame>)

  const INITIAL: State := State(false, false, false, None, [], None, [])

  /** Whether a frame is a reply at all. */
  predicate IsReply(frame: Frame) {
    frame.id.Some? && (frame.result.Some? || frame.error.Some?)
  }

  /** Settling takes effect once, and then what was waited with is let go. */
  function Settled(st: State, outcome: Outcome): State {
    if st.outcome.Some? then st else st.(outcome := Some(outcome), removed := st.off, timer := false)
  }

  function Finished(st: State, frame: Frame): State {
    if frame.id != st.requestId then st
    else if frame.error.Some? then Settled(st, Refused(frame))
    else Settled(st, Answered(frame))
  }

  function FinishedAll(st: State, frames: seq<Frame>): State
    decreases |frames|
  {
    if frames == [] then st else FinishedAll(Finished(st, frames[0]), frames[1..])
  }

  function Next(st: State, event: Event, key: string, confirm: bool): State {
    match event
    case Heard(frame) =>
      if st.removed || frame.key != key then st
      else if frame.isExit then Settled(st, Disconnected)
      else if !IsReply(frame) then st
      else
        var heard := st.(replies := st.replies + [frame]);
        if st.requestId.None? then heard.(early := st.early + [frame]) else Finished(heard, frame)
    case Listening => if st.off then st else st.(off := true, timer := confirm)
    case Sent(id) =>
      if !st.off || st.requestId.Some? then st else FinishedAll(st.(requestId := Some(id)), st.early)
    case Failed => Settled(st, NotSent)
    case TimerFires => if st.timer then Settled(st.(timer := false), Unconfirmed) else st
  }

  function Run(events: seq<Event>, key: string, confirm: bool): State {
    if events == [] then INITIAL
    else Next(Run(events[..|events| - 1], key, confirm), events[|events| - 1], key, confirm)
  }

  /** The first reply that carries an id. */
  function FirstReply(replies: seq<Frame>, id: int): Option<Frame> {
    if replies == [] then None
    else if replies[0].id == Some(id) then Some(replies[0])
    else FirstReply(replies[1..], id)
  }

  function OutcomeOf(reply: Frame): Outcome {
    if reply.error.Some? then Refused(reply) else Answered(reply)
  }

  predicate Replied(outcome: Option<Outcome>) {
    outcome.Some? && (outcome.value.Answered? || outcome.value.Refused?)
  }

  /** What holds between any two steps. */
  ghost predicate Correlated(st: State, key: string) {
    && (st.requestId.None? ==> st.early == st.replies && !Replied(st.outcome))
    && (forall k :: 0 <= k < |st.replies| ==> IsReply(st.replies[k]) && st.replies[k].key == key)
    && (Replied(st.outcome) ==>
          st.requestId.Some? && FirstReply(st.replies, st.requestId.value) == Some(st.outcome.value.frame) &&
          st.outcome.value == OutcomeOf(st.outcome.value.frame))
    && (st.outcome.None? && st.requestId.Some? ==> FirstReply(st.replies, st.requestId.value).None?)
    && (st.removed ==> st.off && st.outcome.Some?)
  }

  lemma {:induction false} FirstOfMore(replies: seq<Frame>, more: seq<Frame>, id: int)
    ensures FirstReply(replies + more, id) ==
      if FirstReply(replies, id).Some? then FirstReply(replies, id) else FirstReply(more, id)
  {
    if replies == [] {
      assert replies + more == more;
    } else {
      assert (replies + more)[1..] == replies[1..] + more;
      FirstOfMore(replies[1..], more, id);
    }
  }

  /** The replies that came early are settled by the first that carries the id. */
  lemma {:induction false} EarlyFinish(st: State, frames: seq<Frame>)
    requires st.requestId.Some?
    ensures FinishedAll(st, frames) ==
      match FirstReply(frames, st.requestId.value)
      case None => st
      case Some(reply) => Settled(st, OutcomeOf(reply))
    decreases |frames|
  {
    if frames != [] {
      EarlyFinish(Finished(st, frames[0]), frames[1..]);
    }
  }

  lemma HeardCorrelated(st: State, frame: Frame, key: string, confirm: bool)
    requires Correlated(st, key)
    ensures Correlated(Next(st, Heard(frame), key, confirm), key)
  {
    if st.requestId.Some? {
      FirstOfMore(st.replies, [frame], st.requestId.value);
      assert [frame][1..] == [];
    }
  }

  lemma SentCorrelated(st: State, id: int, key: string, confirm: bool)
    requires Correlated(st, key)
    ensures Correlated(Next(st, Sent(id), key, confirm), key)
  {
    hide FinishedAll;
    if st.off && st.requestId.None? {
      EarlyFinish(st.(requestId := Some(id)), st.early);
    }
  }

  lemma CorrelatedNext(st: State, event: Event, key: string, confirm: bool)
    requires Correlated(st, key)
    ensures Correlated(Next(st, event, key, confirm), key)
  {
    match event
    case Heard(frame) => HeardCorrelated(st, frame, key, confirm);
    case Sent(id) => SentCorrelated(st, id, key, confirm);
    case _ =>
  }

  lemma {:induction false} RunCorrelated(events: seq<Event>, key: string, confirm: bool)
    ensures Correlated(Run(events, key, confirm), key)
  {
    if events != [] {
      RunCorrelated(events[..|events| - 1], key, confirm);
      CorrelatedNext(Run(events[..|events| - 1], key, confirm), events[|events| - 1], key, confirm);
    }
  }

  /** A call settles at most once, whatever comes after. */
  lemma SettlesOnce(st: State, event: Event, key: string, confirm: bool)
    requires Correlated(st, key) && st.outcome.Some?
    ensures Next(st, event, key, confirm).outcome == st.outcome
    ensures st.requestId.Some? ==> Next(st, event, key, confirm).requestId == st.requestId
  {
    if event.Sent? && st.off && st.requestId.None? {
      EarlyFinish(st.(requestId := Some(event.id)), st.early);
    }
  }

  /** As a call settles its timer is stopped, and its listening called off if it was confirmed. */
  lemma SettlingLetsGo(st: State, event: Event, key: string, confirm: bool)
    requires Correlated(st, key) && st.outcome.None? && Next(st, event, key, confirm).outcome.Some?
    ensures var next := Next(st, event, key, confirm); !next.timer && next.removed == next.off == st.off
  {
    if event.Sent? && st.requestId.None? {
      EarlyFinish(st.(requestId := Some(event.id)), st.early);
    }
  }

  /** Over every run a reply taken is the first that carries the call's own id, even one heard
      before the id was known; a call left unsettled with its id known has heard no such reply. */
  lemma TakesItsFirstReply(events: seq<Event>, key: string, confirm: bool)
    ensures var st := Run(events, key, confirm);
      && (Replied(st.outcome) ==> st.requestId.Some? && FirstReply(st.replies, st.requestId.value) == Some(st.outcome.value.frame))
      && (st.outcome.None? && st.requestId.Some? ==> FirstReply(st.replies, st.requestId.value).None?)
  {
    RunCorrelated(events, key, confirm);
  }

  // What was heard.

  /** A frame on the chat that carries an id and a result or an error. */
  predicate Replies(event: Event, key: string, reply: Frame) {
    && event == Heard(reply) && reply.key == key && !reply.isExit
    && reply.id.Some? && (reply.result.Some? || reply.error.Some?)
  }

  predicate Exits(event: Event, key: string) {
    event.Heard? && event.frame.key == key && event.frame.isExit
  }

  ghost predicate HeardIn(events: seq<Event>, key: string, reply: Frame) {
    exists k :: 0 <= k < |events| && Replies(events[k], key, reply)
  }

  /** Every reply kept was heard, and as long as nothing has settled the call every reply heard is kept. */
  ghost predicate Hears(st: State, events: seq<Event>, key: string) {
    && (forall f :: f in st.replies ==> HeardIn(events, key, f))
    && (st.outcome.None? ==> forall f :: HeardIn(events, key, f) ==> f in st.replies)
    && (st.outcome.None? ==> forall k :: 0 <= k < |events| ==> !Exits(events[k], key) && !events[k].Failed?)
  }

  lemma HeardMore(events: seq<Event>, event: Event, key: string, reply: Frame)
    ensures HeardIn(events + [event], key, reply) <==> HeardIn(events, key, reply) || Replies(event, key, reply)
  {
    var more := events + [event];
    assert more[|events|] == event && forall k :: 0 <= k < |events| ==> more[k] == events[k];
    if HeardIn(events, key, reply) {
      var k :| 0 <= k < |events| && Replies(events[k], key, reply);
      assert Replies(more[k], key, reply);
    }
  }

  /** One step keeps or adds a reply. */
  lemma StepHears(st: State, event: Event, key: string, confirm: bool)
    requires Correlated(st, key)
    ensures var next := Next(st, event, key, confirm);
      && (forall f :: f in next.replies ==> f in st.replies || Replies(event, key, f))
      && (forall f :: f in st.replies ==> f in next.replies)
      && (next.outcome.None? ==> st.outcome.None? && !Exits(event, key) && !event.Failed?)
      && (next.outcome.None? ==> forall f :: Replies(event, key, f) ==> f in next.replies)
  {
    if event.Sent? && st.requestId.None? {
      EarlyFinish(st.(requestId := Some(event.id)), st.early);
    }
  }

  lemma {:induction false} RunHears(events: seq<Event>, key: string, confirm: bool)
    ensures Hears(Run(events, key, confirm), events, key)
  {
    hide Next, Correlated, Replies, HeardIn, Exits;
    if events == [] {
      NothingHeard(key);
    } else {
      var before, last := events[..|events| - 1], events[|events| - 1];
      var st := Run(before, key, confirm);
      assert events == before + [last];
      RunHears(before, key, confirm);
      RunCorrelated(before, key, confirm);
      StepHears(st, last, key, confirm);
      forall f ensures HeardIn(events, key, f) <==> HeardIn(before, key, f) || Replies(last, key, f) {
        HeardMore(before, last, key, f);
      }
    }
  }

  lemma NothingHeard(key: string)
    ensures Hears(INITIAL, [], key)
  {}

  /** Over every run: the reply that settles a call was heard on its chat and carries its id; it refuses the call
      when it holds an error, whatever else it holds, and answers it otherwise. As long as nothing settles a call
      its chat has not exited, and once its id is known no such reply has come. */
  lemma SettledByReply(events: seq<Event>, key: string, confirm: bool)
    ensures var st := Run(events, key, confirm);
      && (forall f :: st.outcome == Some(Refused(f)) ==> HeardIn(events, key, f) && f.error.Some? && f.id == st.requestId)
      && (forall f :: st.outcome == Some(Answered(f)) ==>
            HeardIn(events, key, f) && f.error.None? && f.result.Some? && f.id == st.requestId)
      && (st.outcome.None? ==> forall k :: 0 <= k < |events| ==> !Exits(events[k], key))
      && (st.outcome.None? && st.requestId.Some? ==> forall f :: HeardIn(events, key, f) ==> f.id != st.requestId)
  {
    var st := Run(events, key, confirm);
    RunHears(events, key, confirm);
    RunCorrelated(events, key, confirm);
    hide Run, HeardIn, Exits;
    if Replied(st.outcome) {
      FirstHasId(st.replies, st.requestId.value);
    } else if st.outcome.None? && st.requestId.Some? {
      forall f | f in st.replies ensures f.id != st.requestId {
        NoneHasId(st.replies, st.requestId.value, f);
      }
    }
  }

  lemma {:induction false} NoneHasId(replies: seq<Frame>, id: int, reply: Frame)
    requires FirstReply(replies, id).None? && reply in replies
    ensures reply.id != Some(id)
  {
    if replies[0] != reply {
      NoneHasId(replies[1..], id, reply);
    }
  }

  /** What else settles a call has happened: its chat exited, its time ran out, or it could not be made. */
  lemma {:induction false} SettledOtherwise(events: seq<Event>, key: string, confirm: bool)
    ensures var st := Run(events, key, confirm);
      && (st.outcome == Some(Disconnected) ==> exists k :: 0 <= k < |events| && Exits(events[k], key))
      && (st.outcome == Some(Unconfirmed) ==> confirm && TimerFires in events && Listening in events)
      && (st.outcome == Some(NotSent) ==> Failed in events)
      && (st.timer ==> confirm && Listening in events)
  {
    if events != [] {
      var before, last := events[..|events| - 1], events[|events| - 1];
      var st := Run(before, key, confirm);
      assert events == before + [last];
      SettledOtherwise(before, key, confirm);
      if last.Sent? && st.requestId.None? {
        EarlyFinish(st.(requestId := Some(last.id)), st.early);
      }
      if exists k :: 0 <= k < |before| && Exits(before[k], key) {
        var k :| 0 <= k < |before| && Exits(before[k], key);
        assert Exits(events[k], key);
      }
      assert Exits(last, key) ==> Exits(events[|before|], key);
    }
  }

  lemma {:induction false} FirstHasId(replies: seq<Frame>, id: int)
    ensures FirstReply(replies, id).Some? ==> FirstReply(replies, id).value.id == Some(id) && FirstReply(replies, id).value in replies
  {
    if replies != [] {
      FirstHasId(replies[1..], id);
    }
  }

  /** Two calls with different ids never take the same reply, on one chat or on two. */
  lemma NeverEachOthers(events: seq<Event>, key: string, confirm: bool, events': seq<Event>, key': string, confirm': bool)
    requires var st, st' := Run(events, key, confirm), Run(events', key', confirm');
      Replied(st.outcome) && Replied(st'.outcome) && st.requestId != st'.requestId
    ensures Run(events, key, confirm).outcome.value.frame != Run(events', key', confirm').outcome.value.frame
  {
    var st, st' := Run(events, key, confirm), Run(events', key', confirm');
    RunCorrelated(events, key, confirm);
    RunCorrelated(events', key', confirm');
    FirstHasId(st.replies, st.requestId.value);
    FirstHasId(st'.replies, st'.requestId.value);
  }

  /** A call that is settled and has called no listening off. */
  predicate LeftListening(st: State) {
    st.outcome.Some? && !st.removed
  }

  /** An event that settles a call on its own: its chat is gone, or it could not be sent. */
  predicate Ends(event: Event, key: string) {
    event.Failed? || Exits(event, key)
  }

  /** Such an event comes before listening was confirmed. */
  predicate EndedUnheard(events: seq<Event>, key: string) {
    exists k :: 0 <= k < |events| && Ends(events[k], key) && Listening !in events[..k]
  }

  /** Until listening is confirmed nothing else settles a call. */
  predicate Waiting(st: State) {
    !st.removed && !st.timer && st.requestId.None?
  }

  lemma EndsUnheardNext(events: seq<Event>, event: Event, key: string)
    ensures EndedUnheard(events + [event], key) <==>
      EndedUnheard(events, key) || (Ends(event, key) && Listening !in events)
  {
    hide Ends;
    var more := events + [event];
    assert forall k :: 0 <= k <= |events| ==> more[..k] == events[..k];
    assert events[..|events|] == events;
    if EndedUnheard(events, key) {
      var k :| 0 <= k < |events| && Ends(events[k], key) && Listening !in events[..k];
      assert Ends(more[k], key);
    }
    if Ends(event, key) && Listening !in events {
      assert Ends(more[|events|], key);
    }
  }

  lemma UnheardStep(st: State, event: Event, key: string, confirm: bool)
    requires !st.off && Waiting(st)
    ensures var next := Next(st, event, key, confirm);
      && next.off == event.Listening?
      && (next.outcome.Some? <==> st.outcome.Some? || Ends(event, key))
      && !next.removed && next.requestId.None? && (!next.off ==> Waiting(next))
  {}

  lemma HeardStep(st: State, event: Event, key: string, confirm: bool)
    requires st.off && Correlated(st, key)
    ensures var next := Next(st, event, key, confirm);
      next.off && (LeftListening(next) <==> LeftListening(st))
  {
    if event.Sent? && st.requestId.None? {
      EarlyFinish(st.(requestId := Some(event.id)), st.early);
    }
  }

  /** Listening is never called off exactly when the chat was gone, or the call could not be made,
      before listening was confirmed: there was nothing yet to call off, and nothing calls it off
      later. */
  lemma {:induction false} NeverCalledOff(events: seq<Event>, key: string, confirm: bool)
    ensures var st := Run(events, key, confirm);
      && (LeftListening(st) <==> EndedUnheard(events, key))
      && (st.off <==> Listening in events)
      && (!st.off ==> Waiting(st))
  {
    hide Next, Correlated, EndedUnheard, Ends, LeftListening;
    if events == [] {
      NoneEnded(key);
    } else {
      var before, last := events[..|events| - 1], events[|events| - 1];
      assert events == before + [last];
      var st := Run(before, key, confirm);
      NeverCalledOff(before, key, confirm);
      EndsUnheardNext(before, last, key);
      if st.off {
        RunCorrelated(before, key, confirm);
        HeardStep(st, last, key, confirm);
      } else {
        UnheardStep(st, last, key, confirm);
        LeftWhileWaiting(st);
        LeftWhileWaiting(Next(st, last, key, confirm));
      }
    }
  }

  lemma NoneEnded(key: string)
    ensures !EndedUnheard([], key) && !LeftListening(INITIAL)
  {}

  lemma LeftWhileWaiting(st: State)
    requires !st.removed
    ensures LeftListening(st) <==> st.outcome.Some?
  {}

  /** A call that fails before listening is confirmed has had listening refused: it is never confirmed. */
  predicate RefusedIsNotConfirmed(events: seq<Event>) {
    forall i, j :: 0 <= i < j < |events| && events[i].Failed? && events[j].Listening? ==> Listening in events[..i]
  }

  /** The chat is gone before listening is confirmed. */
  predicate GoneUnheard(events: seq<Event>, key: string) {
    exists k :: 0 <= k < |events| && Exits(events[k], key) && Listening !in events[..k]
  }

  /** A call is settled while its listening is confirmed and never called off exactly when listening is
      confirmed after its chat was gone. */
  lemma StillListening(events: seq<Event>, key: string, confirm: bool)
    requires RefusedIsNotConfirmed(events)
    ensures var st := Run(events, key, confirm);
      st.outcome.Some? && st.off && !st.removed <==> Listening in events && GoneUnheard(events, key)
  {
    NeverCalledOff(events, key, confirm);
    if Listening in events && EndedUnheard(events, key) {
      var j :| 0 <= j < |events| && events[j] == Listening;
      var k :| 0 <= k < |events| && Ends(events[k], key) && Listening !in events[..k];
      assert forall i :: 0 <= i < k ==> events[..k][i] == events[i];
      assert k < j;
      assert Exits(events[k], key);
    }
    if GoneUnheard(events, key) {
      var k :| 0 <= k < |events| && Exits(events[k], key) && Listening !in events[..k];
      assert Ends(events[k], key);
    }
  }

  /** The chat is gone just before listening is confirmed: the call is settled and listens for good. */
  lemma {:induction false} ExitLeavesListening(frame: Frame, more: seq<Event>, confirm: bool)
    requires frame.isExit
    ensures var st := Run([Heard(frame), Listening] + more, frame.key, confirm);
      st.outcome.Some? && st.off && !st.removed
  {
    var events := [Heard(frame), Listening] + more;
    NeverCalledOff(events, frame.key, confirm);
    assert Ends(events[0], frame.key) && Listening !in events[..0];
    assert events[1] == Listening;
  }

  /** The variables of one call, and the callbacks that change them. */
  class Call {
    const key: string
    const confirm: bool
    var off: bool
    var removed: bool
    var timer: bool
    var requestId: Option<int>
    var early: seq<Frame>
    var outcome: Option<Outcome>
    ghost var replies: seq<Frame>

    ghost function Now(): State
      reads this
    {
      State(off, removed, timer, requestId, early, outcome, replies)
    }

    ghost predicate Valid()
      reads this
    {
      Correlated(Now(), key)
    }

    constructor (key: string, confirm: bool)
      ensures Now() == INITIAL && Valid() && this.key == key && this.confirm == confirm
    {
      this.key, this.confirm := key, confirm;
      off, removed, timer, requestId, early, outcome, replies := false, false, false, None, [], None, [];
    }

    /** `resolve` or `reject`, and the `finally` after the first of them. */
    method Settle(result: Outcome)
      modifies this`outcome, this`removed, this`timer
      ensures Now() == Settled(old(Now()), result)
    {
      if outcome.None? {
        outcome := Some(result);
        removed := off;
        timer := false;
      }
    }

    method Finish(frame: Frame)
      modifies this`outcome, this`removed, this`timer
      ensures Now() == Finished(old(Now()), frame)
    {
      if frame.id != requestId {
        return;
      }
      if frame.error.Some? {
        Settle(Refused(frame));
      } else {
        Settle(Answered(frame));
      }
    }

    method OnFrame(frame: Frame)
      requires Valid()
      modifies this
      ensures Now() == Next(old(Now()), Heard(frame), key, confirm) && Valid()
    {
      CorrelatedNext(Now(), Heard(frame), key, confirm);
      if removed || frame.key != key {
        return;
      }
      if frame.isExit {
        Settle(Disconnected);
        return;
      }
      if !IsReply(frame) {
        return;
      }
      replies := replies + [frame];
      if requestId.None? {
        early := early + [frame];
      } else {
        Finish(frame);
      }
    }

    method OnListening()
      requires Valid() && !off
      modifies this
      ensures Now() == Next(old(Now()), Listening, key, confirm) && Valid()
    {
      off := true;
      timer := confirm;
    }

    method OnSent(id: int)
      requires Valid() && off && requestId.None?
      modifies this
      ensures Now() == Next(old(Now()), Sent(id), key, confirm) && Valid()
    {
      CorrelatedNext(Now(), Sent(id), key, confirm);
      requestId := Some(id);
      ghost var was := Now();
      for at := 0 to |early|
        invariant early == was.early && FinishedAll(Now(), early[at..]) == FinishedAll(was, was.early)
        invariant requestId == Some(id) && replies == was.replies && off == was.off
      {
        assert early[at..][1..] == early[at + 1..];
        Finish(early[at]);
      }
      assert early[|early|..] == [];
    }

    method OnFailed()
      requires Valid()
      modifies this
      ensures Now() == Next(old(Now()), Failed, key, confirm) && Valid()
    {
      Settle(NotSent);
    }

    method OnTimer()
      requires Valid() && timer
      modifies this
      ensures Now() == Next(old(Now()), TimerFires, key, confirm) && Valid()
    {
      timer := false;
      Settle(Unconfirmed);
    }
  }
}
