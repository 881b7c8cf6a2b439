/**
The in-process event bus (internal/eventbus/bus.go:14-113): producers publish into a bounded queue,
one dispatcher hands every event to the subscribers of the moment. The calls and the pieces of
the dispatch loop between its locks are atomic steps that may come in any order.
*/
module EventBus {
  import opened Text

  type Event = string

  datatype Subscriber = Subscriber(id: string, handler: int)

  /** Handler of subscriber `to` called with the accepted event number `event`. */
  datatype Delivery = Delivery(to: Subscriber, event: nat)

  /** What the dispatcher does: wait, hold an event it received, call the handlers it copied, or nothing any more. */
  datatype Dispatcher = Idle | Received(event: Event) | Calling(event: Event, called: nat) | Exited

  /** The bus, and its history: events accepted and dispatched, the subscribers copied for each, all calls. */
  datatype State = State(
    capacity: nat, subs: seq<Subscriber>, queue: seq<Event>, stopped: bool, dispatcher: Dispatcher,
    accepted: seq<Event>, dispatched: seq<Event>, copies: seq<seq<Subscriber>>, calls: seq<Delivery>)

  datatype Action =
    | Subscribe(id: string, handler: int) | Unsubscribe(id: string) | Publish(event: Event) | Stop
    | Receive | Copy | Call | Finish | Exit

  const DEFAULT_BUFFER_SIZE: nat := 256

  function New(bufSize: int): State {
    State(if bufSize <= 0 then DEFAULT_BUFFER_SIZE else bufSize, [], [], false, Idle, [], [], [], [])
  }

  // ---------------------------------------------------------------- the subscriber list

  function IndexOfId(subs: seq<Subscriber>, id: string): (i: nat)
    ensures i <= |subs| && (i < |subs| ==> subs[i].id == id)
    ensures forall j :: 0 <= j < i ==> subs[j].id != id
  {
    if subs == [] || subs[0].id == id then 0 else 1 + IndexOfId(subs[1..], id)
  }

  function Subscribed(subs: seq<Subscriber>, id: string, handler: int): seq<Subscriber> {
    var i := IndexOfId(subs, id);
    if i < |subs| then subs[i := Subscriber(id, handler)] else subs + [Subscriber(id, handler)]
  }

  function Unsubscribed(subs: seq<Subscriber>, id: string): seq<Subscriber> {
    var i := IndexOfId(subs, id);
    if i < |subs| then subs[..i] + subs[i + 1..] else subs
  }

  ghost predicate UniqueIds(subs: seq<Subscriber>) {
    forall i, j :: 0 <= i < j < |subs| ==> subs[i].id != subs[j].id
  }

  // ---------------------------------------------------------------- steps

  predicate Enabled(s: State, a: Action) {
    match a
    case Receive => s.dispatcher.Idle? && s.queue != []
    case Copy => s.dispatcher.Received?
    case Call => s.dispatcher.Calling? && s.copies != [] && s.dispatcher.called < |s.copies[|s.copies| - 1]|
    case Finish => s.dispatcher.Calling? && s.copies != [] && s.dispatcher.called == |s.copies[|s.copies| - 1]|
    case Exit => s.dispatcher.Idle? && s.stopped
    case _ => true
  }

  function Next(s: State, a: Action): State
    requires Enabled(s, a)
  {
    match a
    case Subscribe(id, handler) => s.(subs := Subscribed(s.subs, id, handler))
    case Unsubscribe(id) => s.(subs := Unsubscribed(s.subs, id))
    case Publish(e) =>
      if |s.queue| < s.capacity then s.(queue := s.queue + [e], accepted := s.accepted + [e]) else s
    case Stop => s.(stopped := true)
    case Receive => s.(queue := s.queue[1..], dispatcher := Received(s.queue[0]))
    case Copy => s.(copies := s.copies + [s.subs], dispatcher := Calling(s.dispatcher.event, 0))
    case Call =>
      var called := s.dispatcher.called;
      s.(calls := s.calls + [Delivery(s.copies[|s.copies| - 1][called], |s.dispatched|)],
         dispatcher := Calling(s.dispatcher.event, called + 1))
    case Finish => s.(dispatched := s.dispatched + [s.dispatcher.event], dispatcher := Idle)
    case Exit => s.(dispatcher := Exited)
  }

  /** A run: actions that are not enabled when their turn comes do not happen. */
  function Run(bufSize: int, actions: seq<Action>): State {
    if actions == [] then New(bufSize)
    else
      var s, a := Run(bufSize, actions[..|actions| - 1]), actions[|actions| - 1];
      if Enabled(s, a) then Next(s, a) else s
  }

  // ---------------------------------------------------------------- what every step keeps

  function CallsOf(copy: seq<Subscriber>, event: nat): seq<Delivery> {
    seq(|copy|, i requires 0 <= i < |copy| => Delivery(copy[i], event))
  }

  /** The calls of completely dispatched events: every copied subscriber once, event after event. */
  function CallsOfAll(copies: seq<seq<Subscriber>>): seq<Delivery> {
    if copies == [] then []
    else CallsOfAll(copies[..|copies| - 1]) + CallsOf(copies[|copies| - 1], |copies| - 1)
  }

  /** The event the dispatcher is busy with, if any. */
  function InHand(s: State): seq<Event> {
    if s.dispatcher.Received? || s.dispatcher.Calling? then [s.dispatcher.event] else []
  }

  ghost predicate Sound(s: State) {
    && UniqueIds(s.subs) && (forall k :: 0 <= k < |s.copies| ==> UniqueIds(s.copies[k]))
    && |s.queue| <= s.capacity
    && s.accepted == s.dispatched + InHand(s) + s.queue
    && |s.copies| == |s.dispatched| + (if s.dispatcher.Calling? then 1 else 0)
    && (if s.dispatcher.Calling? then
          var k := |s.dispatched|;
          s.dispatcher.called <= |s.copies[k]|
          && s.calls == CallsOfAll(s.copies[..k]) + CallsOf(s.copies[k][..s.dispatcher.called], k)
        else s.calls == CallsOfAll(s.copies))
  }

  lemma SubscribedIsUnique(subs: seq<Subscriber>, id: string, handler: int)
    requires UniqueIds(subs)
    ensures UniqueIds(Subscribed(subs, id, handler))
    ensures forall s :: s in Subscribed(subs, id, handler) <==>
              s == Subscriber(id, handler) || (s in subs && s.id != id)
  {
    var after := Subscribed(subs, id, handler);
    var i := IndexOfId(subs, id);
    if i < |subs| {
      assert after[i] == Subscriber(id, handler);
      forall s | s in subs && s.id != id ensures s in after {
        var j :| 0 <= j < |subs| && subs[j] == s;
        assert after[j] == s;
      }
    }
  }

  lemma UnsubscribedIsUnique(subs: seq<Subscriber>, id: string)
    requires UniqueIds(subs)
    ensures UniqueIds(Unsubscribed(subs, id))
    ensures forall s :: s in Unsubscribed(subs, id) <==> s in subs && s.id != id
  {
    var i := IndexOfId(subs, id);
    if i < |subs| {
      WithoutOne(subs, i);
    }
  }

  lemma WithoutOne(subs: seq<Subscriber>, i: nat)
    requires UniqueIds(subs) && i < |subs|
    ensures UniqueIds(subs[..i] + subs[i + 1..])
    ensures forall s :: s in subs[..i] + subs[i + 1..] <==> s in subs && s.id != subs[i].id
  {
    var before, after := subs[..i], subs[i + 1..];
    forall s: Subscriber ensures s in before || s in after <==> s in subs && s.id != subs[i].id {
      assert s in subs <==> s in before || s == subs[i] || s in after by {
        assert subs == before + [subs[i]] + after;
      }
      assert s in before ==> s.id != subs[i].id;
      assert s in after ==> s.id != subs[i].id;
    }
  }

  lemma StepKeepsSound(s: State, a: Action)
    requires Sound(s) && Enabled(s, a)
    ensures Sound(Next(s, a)) && Next(s, a).capacity == s.capacity
  {
    hide CallsOfAll, CallsOf, UniqueIds;
    match a
    case Subscribe(id, handler) => SubscribedIsUnique(s.subs, id, handler);
    case Unsubscribe(id) => UnsubscribedIsUnique(s.subs, id);
    case Receive => assert s.queue == [s.queue[0]] + s.queue[1..];
    case Copy => CopyKeepsSound(s);
    case Call => CallsOfMore(s.copies[|s.dispatched|], s.dispatcher.called, |s.dispatched|);
    case Finish => FinishKeepsSound(s);
    case _ =>
  }

  lemma CopyKeepsSound(s: State)
    requires Sound(s) && Enabled(s, Copy)
    ensures Sound(Next(s, Copy))
  {
    hide CallsOfAll, UniqueIds;
    assert (s.copies + [s.subs])[..|s.dispatched|] == s.copies;
  }

  lemma FinishKeepsSound(s: State)
    requires Sound(s) && Enabled(s, Finish)
    ensures Sound(Next(s, Finish))
  {
    hide CallsOfAll, CallsOf, UniqueIds;
    var k := |s.dispatched|;
    assert s.copies[k][..s.dispatcher.called] == s.copies[k];
    CallsOfAllMore(s.copies);
  }

  lemma CallsOfMore(copy: seq<Subscriber>, called: nat, k: nat)
    requires called < |copy|
    ensures CallsOf(copy[..called + 1], k) == CallsOf(copy[..called], k) + [Delivery(copy[called], k)]
  {
  }

  lemma CallsOfAllMore(copies: seq<seq<Subscriber>>)
    requires copies != []
    ensures var k := |copies| - 1; CallsOfAll(copies) == CallsOfAll(copies[..k]) + CallsOf(copies[k], k)
  {
  }

  /**
  For every interleaving: ids stay unique, the queue never exceeds its capacity, the accepted events
  are those dispatched, the one in hand and those buffered, in this order, and the calls made are
  exactly those to the subscribers copied for each event, in order.
  */
  lemma {:induction false} EveryRunIsSound(bufSize: int, actions: seq<Action>)
    ensures Sound(Run(bufSize, actions))
    ensures Run(bufSize, actions).capacity == if bufSize <= 0 then 256 else bufSize
  {
    hide Next, Sound, Enabled;
    if actions == [] {
      NewIsSound(bufSize);
    } else {
      var s, a := Run(bufSize, actions[..|actions| - 1]), actions[|actions| - 1];
      EveryRunIsSound(bufSize, actions[..|actions| - 1]);
      if Enabled(s, a) {
        StepKeepsSound(s, a);
      }
    }
  }

  lemma NewIsSound(bufSize: int)
    ensures Sound(New(bufSize)) && New(bufSize).capacity == if bufSize <= 0 then 256 else bufSize
  {
    hide CallsOf;
  }

  // ---------------------------------------------------------------- what a subscriber sees

  /** The events the handlers registered under `id` were called with, in order of the calls. */
  function Seen(calls: seq<Delivery>, id: string): seq<nat> {
    if calls == [] then []
    else
      var last := calls[|calls| - 1];
      Seen(calls[..|calls| - 1], id) + (if last.to.id == id then [last.event] else [])
  }

  predicate Registered(subs: seq<Subscriber>, id: string) { exists i :: 0 <= i < |subs| && subs[i].id == id }

  lemma {:induction false} SeenAppend(a: seq<Delivery>, b: seq<Delivery>, id: string)
    ensures Seen(a + b, id) == Seen(a, id) + Seen(b, id)
  {
    if b == [] {
      assert a + b == a;
    } else {
      var n := |b| - 1;
      SeenAppend(a, b[..n], id);
      assert (a + b)[..|a + b| - 1] == a + b[..n];
    }
  }

  lemma LastRegistered(copy: seq<Subscriber>, id: string)
    requires UniqueIds(copy) && copy != []
    ensures var n := |copy| - 1;
            && (Registered(copy, id) <==> Registered(copy[..n], id) || copy[n].id == id)
            && (copy[n].id == id ==> !Registered(copy[..n], id))
  {
    var n := |copy| - 1;
    if i :| 0 <= i < n && copy[i].id == id {
      assert copy[..n][i].id == id;
    }
  }

  lemma {:induction false} SeenOfOne(copy: seq<Subscriber>, k: nat, id: string)
    requires UniqueIds(copy)
    ensures Seen(CallsOf(copy, k), id) == if Registered(copy, id) then [k] else []
  {
    if copy != [] {
      var n := |copy| - 1;
      SeenOfOne(copy[..n], k, id);
      assert CallsOf(copy, k)[..n] == CallsOf(copy[..n], k);
      LastRegistered(copy, id);
      hide Registered;
    }
  }

  /** Increasing, all below `n`, and holding exactly the events whose copy has the id. */
  ghost predicate SeesExactly(seen: seq<nat>, copies: seq<seq<Subscriber>>, id: string) {
    && (forall i, j :: 0 <= i < j < |seen| ==> seen[i] < seen[j])
    && (forall k :: k in seen <==> 0 <= k < |copies| && Registered(copies[k], id))
  }

  lemma SeesOneMore(seen: seq<nat>, copies: seq<seq<Subscriber>>, copy: seq<Subscriber>, id: string)
    requires SeesExactly(seen, copies, id)
    ensures SeesExactly(seen + (if Registered(copy, id) then [|copies|] else []), copies + [copy], id)
  {
    var more := seen + (if Registered(copy, id) then [|copies|] else []);
    forall i | 0 <= i < |seen| ensures seen[i] < |copies| {
      assert seen[i] in seen;
    }
    forall k ensures k in more <==> 0 <= k < |copies| + 1 && Registered((copies + [copy])[k], id) {
      if 0 <= k < |copies| {
        assert (copies + [copy])[k] == copies[k];
      }
    }
  }

  lemma {:induction false} SeenOfAll(copies: seq<seq<Subscriber>>, id: string)
    requires forall k :: 0 <= k < |copies| ==> UniqueIds(copies[k])
    ensures SeesExactly(Seen(CallsOfAll(copies), id), copies, id)
  {
    hide SeesExactly, Registered, UniqueIds, Seen, CallsOf;
    if copies == [] {
      SeesNothing(copies, id);
    } else {
      var k := |copies| - 1;
      SeenOfAll(copies[..k], id);
      CallsOfAllMore(copies);
      SeenAppend(CallsOfAll(copies[..k]), CallsOf(copies[k], k), id);
      SeenOfOne(copies[k], k, id);
      SeesOneMore(Seen(CallsOfAll(copies[..k]), id), copies[..k], copies[k], id);
      assert copies[..k] + [copies[k]] == copies;
    }
  }

  lemma SeesNothing(copies: seq<seq<Subscriber>>, id: string)
    requires copies == []
    ensures SeesExactly(Seen(CallsOfAll(copies), id), copies, id)
  {
  }

  /**
  In every run, every subscriber sees accepted events in publish order and none of them twice;
  of the events completely dispatched it sees exactly those for which it was registered when the
  subscribers were copied.
  */
  lemma EverySubscriberSeesInOrder(bufSize: int, actions: seq<Action>, id: string)
    ensures var s := Run(bufSize, actions);
            var seen := Seen(s.calls, id);
            && (forall i, j :: 0 <= i < j < |seen| ==> seen[i] < seen[j])
            && (forall k :: k in seen ==> k < |s.accepted|)
            && |s.dispatched| <= |s.copies|
            && (forall k :: 0 <= k < |s.dispatched| ==> (k in seen <==> Registered(s.copies[k], id)))
  {
    var s := Run(bufSize, actions);
    EveryRunIsSound(bufSize, actions);
    SoundRunSeesInOrder(s, id);
  }

  lemma SoundRunSeesInOrder(s: State, id: string)
    requires Sound(s)
    ensures var seen := Seen(s.calls, id);
            && (forall i, j :: 0 <= i < j < |seen| ==> seen[i] < seen[j])
            && (forall k :: k in seen ==> k < |s.accepted|)
            && |s.dispatched| <= |s.copies|
            && (forall k :: 0 <= k < |s.dispatched| ==> (k in seen <==> Registered(s.copies[k], id)))
  {
    hide Registered, Seen, CallsOf, CallsOfAll, UniqueIds;
    if s.dispatcher.Calling? {
      var k := |s.dispatched|;
      var part := s.copies[k][..s.dispatcher.called];
      SeenOfAll(s.copies[..k], id);
      PartIsUnique(s.copies[k], s.dispatcher.called);
      SeenOfOne(part, k, id);
      SeenAppend(CallsOfAll(s.copies[..k]), CallsOf(part, k), id);
      SeesOneMore(Seen(CallsOfAll(s.copies[..k]), id), s.copies[..k], part, id);
      assert forall j :: 0 <= j < k ==> (s.copies[..k] + [part])[j] == s.copies[j];
    } else {
      SeenOfAll(s.copies, id);
    }
  }

  lemma PartIsUnique(copy: seq<Subscriber>, n: nat)
    requires UniqueIds(copy) && n <= |copy|
    ensures UniqueIds(copy[..n])
  {
  }

  // ---------------------------------------------------------------- the code

  class Bus {
    const capacity: nat
    var subs: seq<Subscriber>
    var queue: seq<Event>
    var stopped: bool
    var dispatcher: Dispatcher
    var copy: seq<Subscriber>
    ghost var accepted: seq<Event>
    ghost var dispatched: seq<Event>
    ghost var copies: seq<seq<Subscriber>>
    ghost var calls: seq<Delivery>

    ghost function View(): State
      reads this
    {
      State(capacity, subs, queue, stopped, dispatcher, accepted, dispatched, copies, calls)
    }

    /** The local copy of the subscribers is the last one made. */
    ghost predicate Valid()
      reads this
    {
      dispatcher.Calling? ==> copies != [] && copy == copies[|copies| - 1] && dispatcher.called <= |copy|
    }

    constructor (bufSize: int)
      ensures Valid() && View() == New(bufSize)
    {
      capacity := if bufSize <= 0 then DEFAULT_BUFFER_SIZE else bufSize;
      subs, queue, stopped, dispatcher, copy := [], [], false, Idle, [];
      accepted, dispatched, copies, calls := [], [], [], [];
    }

    /** `Subscribe`. */
    method Subscribe(id: string, handler: int)
      requires Valid()
      modifies this`subs
      ensures Valid() && View() == Next(old(View()), Action.Subscribe(id, handler))
    {
      var i := 0;
      while i < |subs|
        invariant i <= |subs| && forall j :: 0 <= j < i ==> subs[j].id != id
      {
        if subs[i].id == id {
          assert IndexOfId(subs, id) == i;
          subs := subs[i := Subscriber(id, handler)];
          return;
        }
        i := i + 1;
      }
      assert IndexOfId(subs, id) == |subs|;
      subs := subs + [Subscriber(id, handler)];
    }

    /** `Unsubscribe`. */
    method Unsubscribe(id: string)
      requires Valid()
      modifies this`subs
      ensures Valid() && View() == Next(old(View()), Action.Unsubscribe(id))
    {
      var i := 0;
      while i < |subs|
        invariant i <= |subs| && forall j :: 0 <= j < i ==> subs[j].id != id
      {
        if subs[i].id == id {
          assert IndexOfId(subs, id) == i;
          subs := subs[..i] + subs[i + 1..];
          return;
        }
        i := i + 1;
      }
      assert IndexOfId(subs, id) == |subs|;
    }

    /** `Publish`; false when the event was dropped. */
    method Publish(e: Event) returns (taken: bool)
      requires Valid()
      modifies this
      ensures Valid() && View() == Next(old(View()), Action.Publish(e))
      ensures taken <==> |old(queue)| < capacity
      ensures queue == (if taken then old(queue) + [e] else old(queue))
      ensures accepted == (if taken then old(accepted) + [e] else old(accepted))
    {
      taken := |queue| < capacity;
      if taken {
        queue := queue + [e];
        accepted := accepted + [e];
      }
    }

    /** `dispatch`: the oldest event taken from the channel. */
    method ReceiveEvent()
      requires Valid() && Enabled(View(), Receive)
      modifies this`queue, this`dispatcher
      ensures Valid() && View() == Next(old(View()), Receive)
    {
      dispatcher := Received(queue[0]);
      queue := queue[1..];
    }

    /** `dispatch`: the subscribers of the moment copied under the read lock. */
    method CopySubscribers()
      requires Valid() && Enabled(View(), Copy)
      modifies this`copy, this`copies, this`dispatcher
      ensures Valid() && View() == Next(old(View()), Copy)
    {
      copy := subs;
      dispatcher := Calling(dispatcher.event, 0);
      copies := copies + [subs];
    }

    /** `dispatch`: the next handler called; the loop ends when all were. */
    method CallHandler() returns (to: Subscriber, e: Event)
      requires Valid() && Enabled(View(), Call)
      modifies this
      ensures Valid() && View() == Next(old(View()), Call)
      ensures calls == old(calls) + [Delivery(to, |dispatched|)]
      ensures Sound(old(View())) ==> |dispatched| < |accepted| && e == accepted[|dispatched|]
    {
      to, e := copy[dispatcher.called], dispatcher.event;
      calls := calls + [Delivery(to, |dispatched|)];
      dispatcher := Calling(e, dispatcher.called + 1);
    }

    method FinishEvent()
      requires Valid() && Enabled(View(), Finish)
      modifies this
      ensures Valid() && View() == Next(old(View()), Finish)
    {
      dispatched := dispatched + [dispatcher.event];
      dispatcher := Idle;
    }
  }
}
