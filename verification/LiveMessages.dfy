/** No message sent to a chat is lost or doubled by what is folded into its view (live.ts). */
module LiveMessages {
  import opened Basics
  import opened Live

  datatype Event = Record(message: Message) | Fold(frame: Frame, now: int)

  function Happen(st: State, event: Event): State {
    match event
    case Record(message) => RecordSent(st, message)
    case Fold(frame, now) => Reduce(st, frame, now)
  }

  function Play(events: seq<Event>): State {
    if events == [] then StartingLive(0) else Happen(Play(events[..|events| - 1]), events[|events| - 1])
  }

  function Recorded(events: seq<Event>): seq<Message> {
    if events == [] then []
    else
      Recorded(events[..|events| - 1]) +
      match events[|events| - 1] case Record(message) => [message] case Fold(_, _) => []
  }

  /** A recovery and a full rewind start the view over from the durable transcript. */
  predicate StartsOver(frame: Frame) {
    frame.Presentation? || (frame.Rewound? && !frame.codeOnly)
  }

  predicate Distinct(messages: seq<Message>) {
    && (forall k :: 0 <= k < |messages| ==> messages[k].id.Given?)
    && (forall i, j :: 0 <= i < j < |messages| ==> messages[i].id != messages[j].id)
  }

  predicate Plays(events: seq<Event>) {
    && Distinct(Recorded(events))
    && forall k :: 0 <= k < |events| && events[k].Fold? ==> !StartsOver(events[k].frame)
  }

  // How often a message is shown.

  lemma {:induction false} ShownSum(a: seq<Item>, b: seq<Item>, id: Id)
    ensures TimesShown(a + b, id) == TimesShown(a, id) + TimesShown(b, id)
    decreases |b|
  {
    if b == [] {
      assert a + b == a;
    } else {
      assert (a + b)[..|a + b| - 1] == a + b[..|b| - 1];
      ShownSum(a, b[..|b| - 1], id);
    }
  }

  lemma {:induction false} ShownSame(a: seq<Item>, b: seq<Item>, id: Id)
    requires |a| == |b| && forall k :: 0 <= k < |a| ==> Shows(a[k], id) == Shows(b[k], id)
    ensures TimesShown(a, id) == TimesShown(b, id)
  {
    if a != [] {
      ShownSame(a[..|a| - 1], b[..|b| - 1], id);
    }
  }

  /** The items that show messages stay in place one for one. */
  predicate SameShown(a: seq<Item>, b: seq<Item>) {
    |a| == |b| && forall k :: 0 <= k < |a| ==>
      a[k].User? == b[k].User? && (a[k].User? ==> a[k].message.id == b[k].message.id)
  }

  lemma {:induction false} ShownInPlace(items: seq<Item>, id: Id, k: nat)
    requires k < |items| && Shows(items[k], id)
    ensures TimesShown(items, id) > 0
  {
    if k < |items| - 1 {
      ShownInPlace(items[..|items| - 1], id, k);
    }
  }

  lemma {:induction false} ShownSomewhere(items: seq<Item>, id: Id) returns (k: nat)
    requires TimesShown(items, id) > 0
    ensures k < |items| && Shows(items[k], id)
  {
    k := |items| - 1;
    if !Shows(items[k], id) {
      k := ShownSomewhere(items[..k], id);
    }
  }

  // What every step keeps.

  ghost predicate Kept(st: State) {
    && Distinct(st.sent)
    && (forall k :: 0 <= k < |st.sent| ==> TimesShown(st.items, st.sent[k].id) <= 1)
    && (forall k :: 0 <= k < |st.items| && st.items[k].User? && st.items[k].message.id.Given? ==>
          st.items[k].message.id in Ids(st.sent))
  }

  lemma KeptSame(st: State, other: State)
    requires Kept(st) && other.sent == st.sent && SameShown(st.items, other.items)
    ensures Kept(other)
  {
    forall k | 0 <= k < |st.sent| ensures TimesShown(other.items, st.sent[k].id) <= 1 {
      ShownSame(st.items, other.items, st.sent[k].id);
    }
  }

  /** An item that shows no recorded message can be put at the end. */
  lemma KeptAppend(st: State, other: State, item: Item)
    requires Kept(st) && other.sent == st.sent && other.items == st.items + [item]
    requires item.User? ==> item.message.id.Made?
    ensures Kept(other)
  {
    forall k | 0 <= k < |st.sent| ensures TimesShown(other.items, st.sent[k].id) <= 1 {
      ShownSum(st.items, [item], st.sent[k].id);
      ShowOne(item, st.sent[k].id);
    }
  }

  lemma ShowOne(item: Item, id: Id)
    ensures TimesShown([item], id) == if Shows(item, id) then 1 else 0
  {
    assert [item][..0] == [];
  }

  /** A queued message can be put at the end. */
  lemma KeptShow(st: State, other: State, message: Message)
    requires Kept(st) && message in Queued(st)
    requires other.sent == st.sent && other.items == st.items + [User(message)]
    ensures Kept(other)
    ensures forall m :: m in Queued(other) <==> m in Queued(st) && m.id != message.id
  {
    forall id: Id ensures TimesShown(other.items, id) == TimesShown(st.items, id) + if id == message.id then 1 else 0 {
      ShownSum(st.items, [User(message)], id);
      ShowOne(User(message), id);
    }
    assert message.id in Ids(st.sent);
  }

  lemma {:induction false} UnshownDistinct(sent: seq<Message>, items: seq<Item>)
    requires Distinct(sent)
    ensures Distinct(Unshown(sent, items))
  {
    if sent != [] {
      UnshownDistinct(sent[1..], items);
      FrontDistinct(sent[0], Unshown(sent[1..], items), sent);
    }
  }

  /** A message put before later ones of a distinct list. */
  lemma FrontDistinct(first: Message, rest: seq<Message>, all: seq<Message>)
    requires Distinct(all) && all != [] && first == all[0] && Distinct(rest)
    requires forall m :: m in rest ==> m in all[1..]
    ensures Distinct([first] + rest)
  {
    forall m | m in rest ensures m.id != first.id {
      var k :| 0 <= k < |all[1..]| && all[1..][k] == m;
      assert all[k + 1] == m;
    }
  }

  /** Distinct messages, put one after the other, are shown once each. */
  lemma LastDistinct(messages: seq<Message>)
    requires Distinct(messages) && messages != []
    ensures var last := |messages| - 1;
      && Distinct(messages[..last]) && messages[last].id !in Ids(messages[..last])
      && Ids(messages) == Ids(messages[..last]) + {messages[last].id}
  {
    var last := |messages| - 1;
    assert messages == messages[..last] + [messages[last]];
  }

  lemma {:induction false} ListShows(messages: seq<Message>, id: Id)
    requires Distinct(messages)
    ensures TimesShown(AsItems(messages), id) == if id in Ids(messages) then 1 else 0
  {
    if messages != [] {
      var last := |messages| - 1;
      LastDistinct(messages);
      hide Distinct, Ids;
      ListShows(messages[..last], id);
      assert AsItems(messages)[..last] == AsItems(messages[..last]);
    }
  }

  /** The queued messages, put at the end, show each of them once. */
  lemma QueueShows(sent: seq<Message>, items: seq<Item>, id: Id)
    requires Distinct(sent)
    ensures TimesShown(AsItems(Unshown(sent, items)), id) == if id in Ids(sent) && TimesShown(items, id) == 0 then 1 else 0
  {
    var queued := Unshown(sent, items);
    UnshownDistinct(sent, items);
    ListShows(queued, id);
    if id in Ids(sent) && TimesShown(items, id) == 0 {
      var m :| m in sent && m.id == id;
      assert m in queued;
    }
  }

  lemma NoneIsEmpty(messages: seq<Message>)
    ensures (forall m :: m !in messages) ==> messages == []
  {
    if messages != [] {
      assert messages[0] in messages;
    }
  }

  lemma SettledShows(st: State, items: seq<Item>, now: int, id: Id)
    requires Distinct(st.sent) && items == CloseAll(st.items, now) + AsItems(Queued(st))
    ensures TimesShown(items, id) ==
      TimesShown(st.items, id) + if id in Ids(st.sent) && TimesShown(st.items, id) == 0 then 1 else 0
  {
    hide TimesShown, Distinct;
    ShownSum(CloseAll(st.items, now), AsItems(Queued(st)), id);
    ShownSame(st.items, CloseAll(st.items, now), id);
    QueueShows(st.sent, st.items, id);
  }

  lemma KeptSettled(st: State, other: State, now: int)
    requires Kept(st) && other.sent == st.sent && other.items == CloseAll(st.items, now) + AsItems(Queued(st))
    ensures Kept(other) && Queued(other) == []
  {
    hide TimesShown;
    forall id: Id ensures TimesShown(other.items, id) ==
        TimesShown(st.items, id) + if id in Ids(st.sent) && TimesShown(st.items, id) == 0 then 1 else 0 {
      SettledShows(st, other.items, now, id);
    }
    assert forall m :: m in st.sent ==> m.id in Ids(st.sent);
    NoneIsEmpty(Queued(other));
  }

  lemma {:induction false} RestartShown(items: seq<Item>, id: Id)
    ensures TimesShown(Restart(items), id) == TimesShown(items, id)
  {
    if items != [] && (items[|items| - 1].Prose? || items[|items| - 1].Reasoning?) {
      RestartShown(items[..|items| - 1], id);
    }
  }

  lemma KeptRestart(st: State, other: State)
    requires Kept(st) && other.sent == st.sent && other.items == Restart(st.items)
    ensures Kept(other)
  {
    forall k | 0 <= k < |st.sent| ensures TimesShown(other.items, st.sent[k].id) <= 1 {
      RestartShown(st.items, st.sent[k].id);
    }
  }

  // Messages given back.

  /** The texts of messages, in no order. */
  function TextBag(messages: seq<Message>): multiset<string> {
    if messages == [] then multiset{} else multiset{messages[0].text} + TextBag(messages[1..])
  }

  lemma {:induction false} BagOfTexts(messages: seq<Message>)
    ensures TextBag(messages) == multiset(Texts(messages))
  {
    if messages != [] {
      BagOfTexts(messages[1..]);
      assert Texts(messages) == [messages[0].text] + Texts(messages[1..]);
    }
  }

  lemma RestDistinct(messages: seq<Message>)
    requires Distinct(messages) && messages != []
    ensures Distinct(messages[1..]) && forall m :: m in messages[1..] ==> m in messages && m.id != messages[0].id
  {}

  lemma BagFront(m: Message, rest: seq<Message>)
    ensures TextBag([m] + rest) == multiset{m.text} + TextBag(rest)
  {
    assert ([m] + rest)[1..] == rest;
  }

  lemma {:induction false} RemovedFirst(messages: seq<Message>, text: string)
    requires Distinct(messages) && WithText(messages, text).Some?
    ensures Distinct(RemoveFirst(messages, text))
    ensures forall m :: m in RemoveFirst(messages, text) <==> m in messages && m.id != WithText(messages, text).value.id
    ensures TextBag(messages) == TextBag(RemoveFirst(messages, text)) + multiset{text}
  {
    hide Distinct, TextBag;
    var first, rest := messages[0], messages[1..];
    assert messages == [first] + rest;
    RestDistinct(messages);
    BagFront(first, rest);
    if first.text != text {
      RemovedFirst(rest, text);
      var removed := RemoveFirst(rest, text);
      FrontDistinct(first, removed, messages);
      BagFront(first, removed);
    }
  }

  lemma {:induction false} UnreadDistinct(queued: seq<Message>, contents: seq<string>)
    requires Distinct(queued)
    ensures Distinct(Unread(queued, contents))
    ensures forall m :: m in Unread(queued, contents) ==> m in queued
    decreases |contents|
  {
    if contents != [] {
      if WithText(queued, contents[0]).Some? {
        var m, rest := WithText(queued, contents[0]).value, RemoveFirst(queued, contents[0]);
        RemovedFirst(queued, contents[0]);
        UnreadDistinct(rest, contents[1..]);
        assert forall u :: u in Unread(rest, contents[1..]) ==> u.id != m.id;
      } else {
        UnreadDistinct(queued, contents[1..]);
      }
    }
  }

  lemma {:induction false} NotInBag(messages: seq<Message>, text: string)
    requires forall k :: 0 <= k < |messages| ==> messages[k].text != text
    ensures text !in TextBag(messages)
  {
    if messages != [] {
      NotInBag(messages[1..], text);
    }
  }

  /** Of each text as many messages are given back as are both listed and queued. */
  lemma {:induction false} UnreadPerText(queued: seq<Message>, contents: seq<string>, text: string)
    requires Distinct(queued)
    ensures TextBag(Unread(queued, contents))[text] == Min(multiset(contents)[text], TextBag(queued)[text])
    decreases |contents|
  {
    hide TextBag, WithText, RemoveFirst, Distinct;
    if contents == [] {
      assert TextBag([]) == multiset{} by {
        EmptyBag();
      }
    } else {
      var listed, others := contents[0], contents[1..];
      assert contents == [listed] + others;
      if WithText(queued, listed).Some? {
        var m, rest := WithText(queued, listed).value, RemoveFirst(queued, listed);
        RemovedFirst(queued, listed);
        UnreadPerText(rest, others, text);
        BagFront(m, Unread(rest, others));
      } else {
        UnreadPerText(queued, others, text);
        NotInBag(queued, listed);
      }
    }
  }

  lemma EmptyBag()
    ensures TextBag([]) == multiset{}
  {
  }

  lemma {:induction false} DropNone(messages: seq<Message>, ids: set<Id>)
    requires forall m :: m in messages ==> m.id !in ids
    ensures Dropped(messages, ids) == messages
  {
    if messages != [] {
      assert messages[0] in messages;
      DropNone(messages[1..], ids);
    }
  }

  lemma {:induction false} DropTwice(messages: seq<Message>, a: set<Id>, b: set<Id>)
    ensures Dropped(Dropped(messages, a), b) == Dropped(messages, a + b)
  {
    if messages != [] {
      DropTwice(messages[1..], a, b);
    }
  }

  lemma {:induction false} DropOne(sent: seq<Message>, m: Message)
    requires Distinct(sent) && m in sent
    ensures TextBag(sent) == TextBag(Dropped(sent, {m.id})) + multiset{m.text}
  {
    var first, rest := sent[0], sent[1..];
    assert sent == [first] + rest;
    RestDistinct(sent);
    if first == m {
      DropNone(rest, {m.id});
    } else {
      DropOne(rest, m);
      BagFront(first, Dropped(rest, {m.id}));
    }
  }

  lemma {:induction false} DropDistinct(sent: seq<Message>, ids: set<Id>)
    requires Distinct(sent)
    ensures Distinct(Dropped(sent, ids))
  {
    if sent != [] {
      DropDistinct(sent[1..], ids);
      FrontDistinct(sent[0], Dropped(sent[1..], ids), sent);
    }
  }

  /** Taking messages out by their ids takes out just those. */
  lemma {:induction false} DropUnread(sent: seq<Message>, unread: seq<Message>)
    requires Distinct(sent) && Distinct(unread) && forall m :: m in unread ==> m in sent
    ensures Distinct(Dropped(sent, Ids(unread)))
    ensures TextBag(sent) == TextBag(Dropped(sent, Ids(unread))) + TextBag(unread)
    decreases |unread|
  {
    hide Distinct, Dropped, TextBag;
    if unread == [] {
      DropNone(sent, Ids(unread));
      EmptyBag();
    } else {
      var m, others := unread[0], unread[1..];
      assert unread == [m] + others;
      BagFront(m, others);
      assert Ids(unread) == {m.id} + Ids(others);
      RestDistinct(unread);
      DropOne(sent, m);
      DropDistinct(sent, {m.id});
      DropUnread(Dropped(sent, {m.id}), others);
      DropTwice(sent, {m.id}, Ids(others));
    }
  }

  lemma ReturnedBag(st: State, contents: seq<string>)
    requires Kept(st)
    ensures Distinct(Return(st, contents).sent)
    ensures TextBag(st.sent) + multiset(st.returned) ==
      TextBag(Return(st, contents).sent) + multiset(Return(st, contents).returned)
    ensures forall m :: m in Unread(Queued(st), contents) ==> m in Queued(st)
  {
    hide TextBag, Unread, Dropped, Kept, Distinct;
    var queued := Queued(st);
    var unread := Unread(queued, contents);
    assert Distinct(st.sent) by {
      KeptDistinct(st);
    }
    UnshownDistinct(st.sent, st.items);
    UnreadDistinct(queued, contents);
    DropUnread(st.sent, unread);
    BagOfTexts(unread);
  }

  lemma KeptDistinct(st: State)
    requires Kept(st)
    ensures Distinct(st.sent)
  {
  }

  lemma KeptReturned(st: State, contents: seq<string>)
    requires Kept(st)
    ensures Kept(Return(st, contents))
    ensures forall m :: m in Return(st, contents).sent ==> m in st.sent
  {
    hide Unread, TimesShown;
    var queued := Queued(st);
    var unread, next := Unread(queued, contents), Return(st, contents);
    ReturnedBag(st, contents);
    forall k | 0 <= k < |next.sent| ensures TimesShown(next.items, next.sent[k].id) <= 1 {
      assert next.sent[k] in next.sent;
    }
    forall k | 0 <= k < |st.items| && st.items[k].User? && st.items[k].message.id.Given?
      ensures st.items[k].message.id in Ids(next.sent) {
      StillSent(st, unread, k);
    }
  }

  /** A message shown is none of those given back. */
  lemma StillSent(st: State, unread: seq<Message>, k: nat)
    requires Kept(st) && k < |st.items| && st.items[k].User? && st.items[k].message.id.Given?
    requires forall m :: m in unread ==> m in Queued(st)
    ensures st.items[k].message.id in Ids(Dropped(st.sent, Ids(unread)))
    ensures st.items[k].message.id in Ids(st.sent)
  {
    hide Distinct;
    var id := st.items[k].message.id;
    ShownInPlace(st.items, id, k);
    var m :| m in st.sent && m.id == id;
    assert m in Dropped(st.sent, Ids(unread));
  }

  // Each case of a frame.

  /** What was closed, finished or drawn on still shows the same messages. */
  lemma {:induction false} ObservedShown(items: seq<Item>, id: Option<Id>, of: Option<string>, report: Report)
    ensures SameShown(items, Observe(items, id, of, report))
  {
    if items != [] && !(items[0].Tools? && AnyObserved(items[0].steps, id, of)) {
      ObservedShown(items[1..], id, of, report);
      var rest := Observe(items[1..], id, of, report);
      forall k | 0 < k < |items| ensures items[k] == items[1..][k - 1] && Observe(items, id, of, report)[k] == rest[k - 1] {
      }
    }
  }

  lemma KeptAccept(st: State, content: string, images: seq<string>, about: Option<string>, now: int)
    requires Kept(st)
    ensures Kept(Accept(st, content, images, about, now))
  {
    hide TimesShown, Distinct, Kept;
    var next := Accept(st, content, images, about, now);
    var shown := if st.status == Idle then None else AlreadyShown(st.sent, st.items, content);
    if shown.Some? {
      KeptSame(st, next);
    } else {
      var closed := st.(items := CloseReasoning(st.items, now));
      KeptSame(st, closed);
      KeptAppend(closed, next, next.items[|st.items|]);
    }
  }

  lemma KeptWrite(st: State, delta: string, html: Option<string>, sourceEvent: Option<string>, now: int)
    requires Kept(st)
    ensures Kept(Write(st, delta, html, sourceEvent, now))
  {
    hide TimesShown, Distinct, Kept;
    var next := Write(st, delta, html, sourceEvent, now);
    if |next.items| == |st.items| {
      KeptSame(st, next);
    } else {
      var closed := st.(items := CloseReasoning(st.items, now));
      KeptSame(st, closed);
      KeptAppend(closed, next, next.items[|st.items|]);
    }
  }

  lemma KeptReason(st: State, delta: string, now: int)
    requires Kept(st)
    ensures Kept(Reason(st, delta, now))
  {
    hide TimesShown, Distinct, Kept;
    var next := Reason(st, delta, now);
    if |next.items| == |st.items| {
      KeptSame(st, next);
    } else {
      KeptAppend(st, next, next.items[|st.items|]);
    }
  }

  lemma KeptCall(st: State, id: Option<Id>, tool: string, plan: bool, now: int)
    requires Kept(st)
    ensures Kept(Call(st, id, tool, plan, now))
  {
    hide TimesShown, Distinct, Kept, HasRunning;
    var next := Call(st, id, tool, plan, now);
    if |next.items| == |st.items| {
      KeptSame(st, next);
    } else {
      var closed := st.(items := CloseReasoning(st.items, now));
      KeptSame(st, closed);
      KeptAppend(closed, next, next.items[|st.items|]);
    }
  }

  lemma KeptScreen(st: State, id: Option<Id>, source: Option<string>, resource: string)
    requires Kept(st)
    ensures Kept(Screen(st, id, source, resource))
  {
    hide TimesShown, Distinct, Kept;
    KeptSame(st, Screen(st, id, source, resource));
  }

  lemma KeptSteer(st: State, said: Option<string>, now: int)
    requires Kept(st)
    ensures Kept(Steer(st, said, now))
  {
    hide TimesShown, Distinct, Kept;
    var next := Steer(st, said, now);
    var closed := st.(items := CloseReasoning(st.items, now));
    KeptSame(st, closed);
    SameQueue(st.sent, st.items, closed.items);
    var found := if said.None? then None else WithText(Queued(st), said.value);
    if found.Some? {
      KeptShow(closed, next, found.value);
    } else {
      KeptAppend(closed, next, next.items[|st.items|]);
    }
  }

  lemma {:induction false} SameQueue(sent: seq<Message>, a: seq<Item>, b: seq<Item>)
    requires SameShown(a, b)
    ensures Unshown(sent, a) == Unshown(sent, b)
  {
    if sent != [] {
      ShownSame(a, b, sent[0].id);
      SameQueue(sent[1..], a, b);
    }
  }

  lemma KeptReduce(st: State, frame: Frame, now: int)
    requires Kept(st) && !StartsOver(frame)
    ensures Kept(Reduce(st, frame, now))
  {
    hide TimesShown, Distinct, Kept;
    var next := Reduce(st, frame, now);
    match frame
    case Exit => KeptSettled(st, next, now);
    case TurnDone => KeptSettled(st, next, now);
    case TurnCancelled => KeptSettled(st, next, now);
    case TurnError => KeptSettled(st, next, now);
    case Accepted(content, images, about) => KeptAccept(st, content, images, about, now);
    case ModelText(delta, html, sourceEvent) => KeptWrite(st, delta, html, sourceEvent, now);
    case ModelReasoning(delta) => KeptReason(st, delta, now);
    case ToolCall(id, tool, plan) => KeptCall(st, id, tool, plan, now);
    case Observation(id, of, ok, sourceEvent, output) =>
      ObservedShown(st.items, id, of, Report(ok, sourceEvent, output, now));
      KeptSame(st, next);
    case ToolScreen(id, source, resource) => KeptScreen(st, id, source, resource);
    case Steered(said) => KeptSteer(st, said, now);
    case Returned(contents) => KeptReturned(st, contents);
    case Restarted => KeptRestart(st, next);
    case _ => KeptSame(st, next);
  }

  /** Apart from those given back, no frame touches the messages sent or returned. */
  lemma SentReduce(st: State, frame: Frame, now: int)
    requires !StartsOver(frame) && !frame.Returned?
    ensures Reduce(st, frame, now).sent == st.sent && Reduce(st, frame, now).returned == st.returned
  {
    hide HasRunning, HasDrawn, AlreadyShown, WithText;
  }

  lemma KeptRecord(st: State, message: Message)
    requires Kept(st) && message.id.Given? && message.id !in Ids(st.sent)
    ensures Kept(RecordSent(st, message))
  {
    var next := RecordSent(st, message);
    assert Ids(next.sent) == Ids(st.sent) + {message.id};
    assert forall k :: 0 <= k < |st.sent| ==> st.sent[k].id in Ids(st.sent);
    forall id: Id ensures TimesShown(next.items, id) <= TimesShown(st.items, id) + if id == message.id then 1 else 0 {
      ShownSum(st.items, [User(message)], id);
      ShowOne(User(message), id);
    }
    if TimesShown(st.items, message.id) > 0 {
      var k := ShownSomewhere(st.items, message.id);
      assert false;
    }
  }

  // Whole runs.

  ghost predicate Conserved(st: State, recorded: seq<Message>) {
    && Kept(st)
    && TextBag(recorded) == TextBag(st.sent) + multiset(st.returned)
    && (forall m :: m in st.sent ==> m in recorded)
  }

  lemma {:induction false} BagSum(a: seq<Message>, b: seq<Message>)
    ensures TextBag(a + b) == TextBag(a) + TextBag(b)
  {
    if a == [] {
      assert a + b == b;
    } else {
      assert (a + b)[1..] == a[1..] + b;
      BagSum(a[1..], b);
    }
  }

  lemma ConservedRecord(st: State, recorded: seq<Message>, message: Message)
    requires Conserved(st, recorded) && Distinct(recorded + [message])
    ensures Conserved(RecordSent(st, message), recorded + [message])
  {
    hide TimesShown, Kept, TextBag;
    BagSum(recorded, [message]);
    BagSum(st.sent, [message]);
    assert (recorded + [message])[|recorded|] == message;
    forall m | m in st.sent ensures m.id != message.id {
      var k :| 0 <= k < |recorded| && recorded[k] == m;
      assert (recorded + [message])[k] == m;
    }
    KeptRecord(st, message);
  }

  lemma ConservedFold(st: State, recorded: seq<Message>, frame: Frame, now: int)
    requires Conserved(st, recorded) && !StartsOver(frame)
    ensures Conserved(Reduce(st, frame, now), recorded)
  {
    hide Kept, TextBag;
    KeptReduce(st, frame, now);
    if frame.Returned? {
      ReturnedBag(st, frame.contents);
      KeptReturned(st, frame.contents);
    } else {
      SentReduce(st, frame, now);
    }
  }

  lemma {:induction false} PlayConserves(events: seq<Event>)
    requires Plays(events)
    ensures Conserved(Play(events), Recorded(events))
  {
    hide Conserved, Distinct;
    if events == [] {
      StartConserved();
    } else {
      var before, last := events[..|events| - 1], events[|events| - 1];
      PrefixDistinct(events);
      PlayConserves(before);
      match last
      case Record(message) => ConservedRecord(Play(before), Recorded(before), message);
      case Fold(frame, now) =>
        assert Recorded(events) == Recorded(before);
        ConservedFold(Play(before), Recorded(before), frame, now);
    }
  }

  lemma StartConserved()
    ensures Conserved(StartingLive(0), [])
  {
  }

  lemma PrefixDistinct(events: seq<Event>)
    requires events != [] && Distinct(Recorded(events))
    ensures Distinct(Recorded(events[..|events| - 1]))
  {
    var before := Recorded(events[..|events| - 1]);
    var after := Recorded(events);
    assert before == after[..|before|];
    hide Recorded;
  }

  /** Over every run each message recorded is in exactly one place: shown once in the timeline,
      queued, or given back; and the texts given back are those of the messages no longer sent. */
  lemma MessagesConserved(events: seq<Event>)
    requires Plays(events)
    ensures var st, recorded := Play(events), Recorded(events);
      && multiset(Texts(recorded)) == multiset(Texts(st.sent)) + multiset(st.returned)
      && forall m :: m in recorded ==>
           if m.id in Ids(st.sent) then (TimesShown(st.items, m.id) == 1) != (m in Queued(st))
           else TimesShown(st.items, m.id) == 0
  {
    PlayConserves(events);
    var st, recorded := Play(events), Recorded(events);
    BagOfTexts(recorded);
    BagOfTexts(st.sent);
    forall m | m in recorded
      ensures if m.id in Ids(st.sent) then (TimesShown(st.items, m.id) == 1) != (m in Queued(st))
              else TimesShown(st.items, m.id) == 0
    {
      if m.id in Ids(st.sent) {
        SameMessage(st, recorded, m);
      } else if TimesShown(st.items, m.id) > 0 {
        var k := ShownSomewhere(st.items, m.id);
        assert false;
      }
    }
  }

  lemma SameMessage(st: State, recorded: seq<Message>, m: Message)
    requires Conserved(st, recorded) && Distinct(recorded) && m in recorded && m.id in Ids(st.sent)
    ensures m in st.sent && TimesShown(st.items, m.id) <= 1
  {
    var u :| u in st.sent && u.id == m.id;
    assert u in recorded;
    assert u == m;
  }

  /** Once a turn is done, cancelled or failed, or the chat is gone, nothing is queued. */
  lemma NothingQueuedAfter(st: State, frame: Frame, now: int)
    requires Kept(st) && (frame.TurnDone? || frame.TurnCancelled? || frame.TurnError? || frame.Exit?)
    ensures Queued(Reduce(st, frame, now)) == []
  {
    hide Kept, TimesShown;
    KeptSettled(st, Reduce(st, frame, now), now);
  }

  /** `message.returned` gives back of each text as many messages as it lists and are queued, behind what was given
      back before. */
  lemma ReturnsPerText(st: State, contents: seq<string>, now: int, text: string)
    requires Kept(st)
    ensures multiset(Reduce(st, Returned(contents), now).returned)[text] ==
      multiset(st.returned)[text] + Min(multiset(contents)[text], multiset(Texts(Queued(st)))[text])
    ensures st.returned <= Reduce(st, Returned(contents), now).returned
  {
    hide Unread, Distinct, TextBag, Unshown, Kept;
    KeptDistinct(st);
    UnshownDistinct(st.sent, st.items);
    UnreadPerText(Queued(st), contents, text);
    BagOfTexts(Queued(st));
    BagOfTexts(Unread(Queued(st), contents));
  }
}
