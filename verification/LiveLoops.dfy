/** The parts of the reducer that are loops over local variables (live.ts), each computing what
    its case of `Live.Reduce` says. */
module LiveLoops {
  import opened Basics
  import opened Live

  /** The walk of `model.text` back to the last prose item. */
  method FindLastProse(items: seq<Item>) returns (at: int)
    ensures at == LastProse(items)
  {
    at := |items| - 1;
    while at >= 0 && !items[at].Prose?
      invariant -1 <= at < |items|
      invariant LastProse(items[..at + 1]) == LastProse(items)
    {
      assert items[..at + 1][..at] == items[..at];
      at := at - 1;
    }
    assert items[..|items|] == items;
  }

  /** The pops of `model.restarted`. */
  method TrimTail(items: seq<Item>) returns (kept: seq<Item>)
    ensures kept == Restart(items)
  {
    kept := items;
    while kept != [] && (kept[|kept| - 1].Prose? || kept[|kept| - 1].Reasoning?)
      invariant Restart(kept) == Restart(items)
      decreases |kept|
    {
      kept := kept[..|kept| - 1];
    }
  }

  /** The search of `tool.screen` for the last group with the step. */
  method FindLastDrawn(items: seq<Item>, id: Option<Id>, source: Option<string>) returns (group: int)
    ensures group == LastDrawn(items, id, source)
  {
    hide HasDrawn;
    group := |items| - 1;
    while group >= 0 && !HasDrawn(items[group], id, source)
      invariant -1 <= group < |items|
      invariant LastDrawn(items[..group + 1], id, source) == LastDrawn(items, id, source)
    {
      assert items[..group + 1][..group] == items[..group];
      group := group - 1;
    }
    assert items[..|items|] == items;
  }

  lemma {:induction false} RemoveFirstAt(messages: seq<Message>, index: nat, text: string)
    requires index < |messages| && messages[index].text == text
    requires forall k :: 0 <= k < index ==> messages[k].text != text
    ensures WithText(messages, text) == Some(messages[index])
    ensures RemoveFirst(messages, text) == messages[..index] + messages[index + 1..]
  {
    if index > 0 {
      RemoveFirstAt(messages[1..], index - 1, text);
      assert messages[..index] == [messages[0]] + messages[1..][..index - 1];
    }
  }

  /** The splices of `message.returned`: what is listed and queued leaves the queue. */
  method TakeUnread(queue: seq<Message>, contents: seq<string>) returns (unread: seq<Message>)
    ensures unread == Unread(queue, contents)
  {
    hide WithText, RemoveFirst;
    var queued := queue;
    unread := [];
    for at := 0 to |contents|
      invariant unread + Unread(queued, contents[at..]) == Unread(queue, contents)
    {
      assert contents[at..][1..] == contents[at + 1..];
      var index := 0;
      while index < |queued| && queued[index].text != contents[at]
        invariant 0 <= index <= |queued|
        invariant forall k :: 0 <= k < index ==> queued[k].text != contents[at]
      {
        index := index + 1;
      }
      if index < |queued| {
        RemoveFirstAt(queued, index, contents[at]);
        unread := unread + [queued[index]];
        queued := queued[..index] + queued[index + 1..];
      }
    }
  }

  lemma {:induction false} ObserveStepsRest(steps: seq<Step>, id: Option<Id>, of: Option<string>, report: Report)
    requires !AnyObserved(steps, id, of)
    ensures ObserveSteps(steps, id, of, report) == steps
  {
    if steps != [] {
      assert forall k :: 0 <= k < |steps[1..]| ==> steps[1..][k] == steps[k + 1];
      ObserveStepsRest(steps[1..], id, of, report);
    }
  }

  lemma AnyNext(steps: seq<Step>, step: Step, id: Option<Id>, of: Option<string>)
    ensures AnyObserved(steps + [step], id, of) == (AnyObserved(steps, id, of) || Observes(step, id, of))
  {
    hide Observes;
    var all := steps + [step];
    assert forall k :: 0 <= k < |steps| ==> all[k] == steps[k];
    assert all[|steps|] == step;
  }

  lemma AnyFirst(steps: seq<Step>, id: Option<Id>, of: Option<string>)
    requires steps != []
    ensures AnyObserved(steps, id, of) == (Observes(steps[0], id, of) || AnyObserved(steps[1..], id, of))
  {
    hide Observes;
    assert forall k :: 0 <= k < |steps[1..]| ==> steps[1..][k] == steps[k + 1];
    if k :| 0 <= k < |steps| && Observes(steps[k], id, of) {
      assert k > 0 ==> steps[1..][k - 1] == steps[k];
    }
  }

  lemma {:induction false} ObserveStepsNext(steps: seq<Step>, step: Step, id: Option<Id>, of: Option<string>, report: Report)
    ensures AnyObserved(steps + [step], id, of) == (AnyObserved(steps, id, of) || Observes(step, id, of))
    ensures ObserveSteps(steps + [step], id, of, report) == ObserveSteps(steps, id, of, report) +
      [if !AnyObserved(steps, id, of) && Observes(step, id, of) then EndStep(step, report) else step]
  {
    hide Observes, EndStep, AnyObserved;
    var all := steps + [step];
    AnyNext(steps, step, id, of);
    if steps == [] {
      NoSteps(id, of, report);
      assert all == [step] && all[1..] == [];
    } else {
      assert all[1..] == steps[1..] + [step];
      AnyFirst(steps, id, of);
      ObserveStepsNext(steps[1..], step, id, of, report);
    }
  }

  /** One group under an observation: `matched` says whether a step was ended. */
  method ObserveGroup(steps: seq<Step>, id: Option<Id>, of: Option<string>, report: Report)
    returns (observed: seq<Step>, matched: bool)
    ensures observed == ObserveSteps(steps, id, of, report)
    ensures matched == AnyObserved(steps, id, of)
  {
    hide ObserveSteps, AnyObserved, Observes, EndStep;
    observed, matched := [], false;
    NoSteps(id, of, report);
    for at := 0 to |steps|
      invariant observed == ObserveSteps(steps[..at], id, of, report)
      invariant matched == AnyObserved(steps[..at], id, of)
    {
      ObserveStepsNext(steps[..at], steps[at], id, of, report);
      assert steps[..at + 1] == steps[..at] + [steps[at]];
      if matched || !Observes(steps[at], id, of) {
        observed := observed + [steps[at]];
      } else {
        matched := true;
        observed := observed + [EndStep(steps[at], report)];
      }
    }
    assert steps[..|steps|] == steps;
  }

  lemma NoSteps(id: Option<Id>, of: Option<string>, report: Report)
    ensures ObserveSteps([], id, of, report) == [] && !AnyObserved([], id, of)
  {
  }

  predicate AnyOf(item: Item, id: Option<Id>, of: Option<string>) {
    item.Tools? && AnyObserved(item.steps, id, of)
  }

  predicate AnyIn(items: seq<Item>, id: Option<Id>, of: Option<string>) {
    exists g :: 0 <= g < |items| && AnyOf(items[g], id, of)
  }

  lemma AnyInNext(items: seq<Item>, item: Item, id: Option<Id>, of: Option<string>)
    ensures AnyIn(items + [item], id, of) == (AnyIn(items, id, of) || AnyOf(item, id, of))
  {
    hide AnyObserved;
    var all := items + [item];
    assert forall k :: 0 <= k < |items| ==> all[k] == items[k];
    assert all[|items|] == item;
  }

  lemma AnyInFirst(items: seq<Item>, id: Option<Id>, of: Option<string>)
    requires items != []
    ensures AnyIn(items, id, of) == (AnyOf(items[0], id, of) || AnyIn(items[1..], id, of))
  {
    hide AnyObserved;
    assert forall k :: 0 <= k < |items[1..]| ==> items[1..][k] == items[k + 1];
    if k :| 0 <= k < |items| && AnyOf(items[k], id, of) {
      assert k > 0 ==> items[1..][k - 1] == items[k];
    }
  }

  lemma {:induction false} ObserveNext(items: seq<Item>, item: Item, id: Option<Id>, of: Option<string>, report: Report)
    ensures AnyIn(items + [item], id, of) == (AnyIn(items, id, of) || (item.Tools? && AnyObserved(item.steps, id, of)))
    ensures Observe(items + [item], id, of, report) == Observe(items, id, of, report) +
      [if item.Tools? && !AnyIn(items, id, of) then item.(steps := ObserveSteps(item.steps, id, of, report)) else item]
  {
    hide ObserveSteps, AnyObserved, AnyIn;
    var all := items + [item];
    AnyInNext(items, item, id, of);
    if items == [] {
      NoItems(id, of, report);
      assert all == [item] && all[1..] == [];
      if item.Tools? && !AnyObserved(item.steps, id, of) {
        ObserveStepsRest(item.steps, id, of, report);
      }
    } else {
      assert all[1..] == items[1..] + [item];
      AnyInFirst(items, id, of);
      ObserveNext(items[1..], item, id, of, report);
    }
  }

  /** The items under an observation, which ends at most one step of all. */
  method ObserveFirst(items: seq<Item>, id: Option<Id>, of: Option<string>, report: Report) returns (observed: seq<Item>)
    ensures observed == Observe(items, id, of, report)
  {
    hide Observe, AnyIn, ObserveSteps, AnyObserved;
    observed := [];
    var matched := false;
    NoItems(id, of, report);
    for at := 0 to |items|
      invariant observed == Observe(items[..at], id, of, report)
      invariant matched == AnyIn(items[..at], id, of)
    {
      ObserveNext(items[..at], items[at], id, of, report);
      assert items[..at + 1] == items[..at] + [items[at]];
      if !items[at].Tools? || matched {
        observed := observed + [items[at]];
      } else {
        var steps;
        steps, matched := ObserveGroup(items[at].steps, id, of, report);
        observed := observed + [items[at].(steps := steps)];
      }
    }
    assert items[..|items|] == items;
  }

  lemma NoItems(id: Option<Id>, of: Option<string>, report: Report)
    ensures Observe([], id, of, report) == [] && !AnyIn([], id, of)
  {
  }
}
