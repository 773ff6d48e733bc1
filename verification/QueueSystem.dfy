/** Any number of writers and the one reader of a task queue, under every interleaving. */
module QueueSystem {
  import opened Common
  import opened TaskQueue

  /** A writer with the items it has yet to Put, possibly between append and release. */
  datatype Writer<T> = Writer(todo: seq<T>, owesSignal: bool)

  /** Items carry the writer they came from. appended and delivered are histories. */
  datatype System<T> = System(
    queue: Queue<(nat, T)>,
    writers: seq<Writer<T>>,
    appended: seq<(nat, T)>,
    delivered: seq<(nat, T)>)

  datatype Action = Write(writer: nat) | Read

  function Start<T>(inputs: seq<seq<T>>): System<T> {
    System(NewQueue(), seq(|inputs|, i requires 0 <= i < |inputs| => Writer(inputs[i], false)), [], [])
  }

  function WriterStep<T>(s: System<T>, i: nat): Option<System<T>>
    requires i < |s.writers|
  {
    var w := s.writers[i];
    if w.owesSignal then
      Some(s.(queue := Signal(s.queue), writers := s.writers[i := w.(owesSignal := false)]))
    else if w.todo == [] then None
    else
      var item := (i, w.todo[0]);
      Some(s.(queue := Append(s.queue, item), writers := s.writers[i := Writer(w.todo[1..], true)],
              appended := s.appended + [item]))
  }

  /** The reader calls Get again and again. */
  function ReaderStep<T>(s: System<T>): Option<System<T>> {
    match s.queue.reader
    case Outside => Some(s.(queue := s.queue.(reader := Acquiring)))
    case Returning(item) => Some(s.(queue := s.queue.(reader := Outside), delivered := s.delivered + [item]))
    case Failed => None
    case _ => if Blocked(s.queue) then None else Some(s.(queue := ReadStep(s.queue)))
  }

  function Next<T>(s: System<T>, a: Action): Option<System<T>> {
    match a
    case Write(i) => if i < |s.writers| then WriterStep(s, i) else None
    case Read => ReaderStep(s)
  }

  function Run<T>(s: System<T>, actions: seq<Action>): Option<System<T>>
    decreases |actions|
  {
    if actions == [] then Some(s) else
      match Next(s, actions[0])
      case None => None
      case Some(t) => Run(t, actions[1..])
  }

  function From<T>(items: seq<(nat, T)>, i: nat): seq<T> {
    if items == [] then [] else
      var rest := From(items[..|items| - 1], i);
      var last := items[|items| - 1];
      if last.0 == i then rest + [last.1] else rest
  }

  lemma FromAppended<T>(items: seq<(nat, T)>, item: (nat, T), i: nat)
    ensures From(items + [item], i) == From(items, i) + if item.0 == i then [item.1] else []
  {
    assert (items + [item])[..|items|] == items;
  }

  ghost predicate SignalOwed<T>(s: System<T>) {
    exists i :: 0 <= i < |s.writers| && s.writers[i].owesSignal
  }

  ghost predicate Invariant<T>(inputs: seq<seq<T>>, s: System<T>) {
    && Wakeable(s.queue, SignalOwed(s))
    && s.delivered + InHand(s.queue) + s.queue.deque == s.appended
    && |s.writers| == |inputs|
    && forall i :: 0 <= i < |inputs| ==> From(s.appended, i) + s.writers[i].todo == inputs[i]
  }

  /** Writer i appends its next item. */
  lemma AppendedOrders<T>(inputs: seq<seq<T>>, appended: seq<(nat, T)>, writers: seq<Writer<T>>, i: nat, after: Writer<T>)
    requires |writers| == |inputs| && forall k :: 0 <= k < |inputs| ==> From(appended, k) + writers[k].todo == inputs[k]
    requires i < |writers| && writers[i].todo != [] && after.todo == writers[i].todo[1..]
    ensures forall k :: 0 <= k < |inputs| ==>
              From(appended + [(i, writers[i].todo[0])], k) + writers[i := after][k].todo == inputs[k]
  {
    var x := writers[i].todo[0];
    forall k | 0 <= k < |inputs| ensures From(appended + [(i, x)], k) + writers[i := after][k].todo == inputs[k] {
      FromAppended(appended, (i, x), k);
      assert [x] + after.todo == writers[i].todo;
      assert From(appended, i) + [x] + after.todo == From(appended, i) + ([x] + after.todo);
    }
  }

  lemma WriterStepKeeps<T>(inputs: seq<seq<T>>, s: System<T>, i: nat)
    requires Invariant(inputs, s) && i < |s.writers| && WriterStep(s, i).Some?
    ensures Invariant(inputs, WriterStep(s, i).value)
  {
    var t := WriterStep(s, i).value;
    if s.writers[i].owesSignal {
      assert forall k :: 0 <= k < |inputs| ==> t.writers[k].todo == s.writers[k].todo;
    } else {
      AppendedOrders(inputs, s.appended, s.writers, i, t.writers[i]);
      assert t.writers[i].owesSignal && SignalOwed(t);
      var item := (i, s.writers[i].todo[0]);
      assert s.delivered + InHand(s.queue) + (s.queue.deque + [item]) == s.appended + [item];
    }
  }

  lemma ReaderStepKeeps<T>(inputs: seq<seq<T>>, s: System<T>)
    requires Invariant(inputs, s) && ReaderStep(s).Some?
    ensures Invariant(inputs, ReaderStep(s).value)
  {
    if InsideGet(s.queue) {
      ReadStepKeeps(s.queue, SignalOwed(s));
      var t := ReaderStep(s).value;
      assert s.delivered + InHand(s.queue) + s.queue.deque == s.delivered + (InHand(s.queue) + s.queue.deque);
      assert t.delivered + InHand(t.queue) + t.queue.deque == t.delivered + (InHand(t.queue) + t.queue.deque);
    }
  }

  /** Every interleaving of any writers and the reader keeps the no-lost-wake-up invariant, never
      pops an empty deque, and hands out exactly the appended items, in append order. */
  lemma {:induction false} EveryRunIsSafe<T>(inputs: seq<seq<T>>, s: System<T>, actions: seq<Action>)
    requires Invariant(inputs, s) && Run(s, actions).Some?
    ensures Invariant(inputs, Run(s, actions).value)
    decreases |actions|
  {
    if actions != [] {
      match actions[0] {
        case Write(i) => WriterStepKeeps(inputs, s, i);
        case Read => ReaderStepKeeps(inputs, s);
      }
      EveryRunIsSafe(inputs, Next(s, actions[0]).value, actions[1..]);
    }
  }

  function WriterWeights<T>(ws: seq<Writer<T>>): seq<nat> {
    seq(|ws|, i requires 0 <= i < |ws| => 12 * |ws[i].todo| + if ws[i].owesSignal then 4 else 0)
  }

  function Measure<T>(s: System<T>): nat { Sum(WriterWeights(s.writers)) + Weight(s.queue) }

  lemma StepDescends<T>(s: System<T>, a: Action)
    requires Next(s, a).Some?
    ensures Measure(Next(s, a).value) < Measure(s)
  {
    var t := Next(s, a).value;
    if a.Write? {
      SumUpdate(WriterWeights(s.writers), a.writer, WriterWeights(t.writers)[a.writer]);
      assert WriterWeights(t.writers) == WriterWeights(s.writers)[a.writer := WriterWeights(t.writers)[a.writer]];
    } else if InsideGet(s.queue) {
      ReadStepDescends(s.queue);
    }
  }

  /** No run is longer than the measure of the state it starts in. */
  lemma {:induction false} RunsEnd<T>(s: System<T>, actions: seq<Action>)
    requires Run(s, actions).Some?
    ensures |actions| + Measure(Run(s, actions).value) <= Measure(s)
    decreases |actions|
  {
    if actions != [] {
      StepDescends(s, actions[0]);
      RunsEnd(Next(s, actions[0]).value, actions[1..]);
    }
  }

  /** A run of any writers and the reader, once nothing can move any more, has delivered every item
      of every writer exactly once and in that writer's order: the reader is never left blocked on a
      non-empty queue. */
  lemma NothingIsLost<T>(inputs: seq<seq<T>>, actions: seq<Action>)
    requires Run(Start(inputs), actions).Some?
    requires forall a :: Next(Run(Start(inputs), actions).value, a).None?
    ensures |actions| <= Measure(Start(inputs))
    ensures var s := Run(Start(inputs), actions).value;
            && s.delivered == s.appended && s.queue.deque == [] && Blocked(s.queue)
            && forall i :: 0 <= i < |inputs| ==> From(s.delivered, i) == inputs[i]
  {
    EveryRunIsSafe(inputs, Start(inputs), actions);
    RunsEnd(Start(inputs), actions);
    var s := Run(Start(inputs), actions).value;
    assert Next(s, Read).None?;
    forall i | 0 <= i < |inputs| ensures !s.writers[i].owesSignal && s.writers[i].todo == [] {
      assert Next(s, Write(i)).None?;
    }
  }
}
