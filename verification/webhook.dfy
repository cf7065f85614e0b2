/** `webhook_handler` (api/webhook.py): the POST endpoint that turns a page
    update into `handle_message` calls and an HTTP response. */
module Webhook {
  import opened Wrappers
  import Messenger

  /** One `messaging[k]` event: `sender.id`, `message` and `postback`, each
      `None` when absent. */
  datatype MessagingEvent = MessagingEvent(
    senderId: Option<string>,
    message: Option<Messenger.Received>,
    postback: Option<Messenger.Postback>)

  /** One `entry[k]`; an absent `messaging` is the empty list. */
  datatype Entry = Entry(messaging: seq<MessagingEvent>)

  /** The request body; an absent `entry` is the empty list. */
  datatype Update = Update(objectType: Option<string>, entries: seq<Entry>)

  /** One `handle_message(sender_id, message)` call. */
  datatype Dispatch = Dispatch(sender: Messenger.Sender, message: Messenger.Received)

  datatype Response = Response(status: int, body: string)

  /** The response, and the calls made before it was returned. */
  datatype Handled = Handled(response: Response, dispatches: seq<Dispatch>)

  const PageObject: string := "page"
  const EventReceived: string := "EVENT_RECEIVED"

  /** Python truthiness of the `message` dict: it is not empty. */
  predicate MessageIsTruthy(m: Messenger.Received) {
    m.text.Some? || m.postback.Some? || m.otherKeys
  }

  /** Python truthiness of the `postback` dict. */
  predicate PostbackIsTruthy(p: Messenger.Postback) {
    p.payload.Some? || p.otherKeys
  }

  /** The call one entry makes, if any: only `messaging[0]` is looked at,
      a truthy `message` wins over a truthy `postback`, and a postback is
      passed on wrapped as `{'postback': postback}`. */
  function DispatchFor(e: Entry): (r: Option<Dispatch>)
    ensures r.Some? ==> |e.messaging| > 0 && r.value.sender == e.messaging[0].senderId
    ensures r.Some? <==>
      |e.messaging| > 0 &&
      ((e.messaging[0].message.Some? && MessageIsTruthy(e.messaging[0].message.value)) ||
       (e.messaging[0].postback.Some? && PostbackIsTruthy(e.messaging[0].postback.value)))
    ensures r.Some? && e.messaging[0].message.Some? && MessageIsTruthy(e.messaging[0].message.value) ==>
      r.value.message == e.messaging[0].message.value
    ensures r.Some? && !(e.messaging[0].message.Some? && MessageIsTruthy(e.messaging[0].message.value)) ==>
      r.value.message == Messenger.Received(None, e.messaging[0].postback, false)
  {
    if |e.messaging| == 0 then None
    else
      var event := e.messaging[0];
      if event.message.Some? && MessageIsTruthy(event.message.value) then
        Some(Dispatch(event.senderId, event.message.value))
      else if event.postback.Some? && PostbackIsTruthy(event.postback.value) then
        Some(Dispatch(event.senderId, Messenger.Received(None, Some(event.postback.value), false)))
      else None
  }

  /** The calls the loop over `entry` makes, in order. */
  function Dispatches(entries: seq<Entry>): (r: seq<Dispatch>)
    ensures |r| <= |entries|
    ensures |r| == 0 <==> forall i :: 0 <= i < |entries| ==> DispatchFor(entries[i]).None?
  {
    if |entries| == 0 then []
    else
      match DispatchFor(entries[0])
      case None => Dispatches(entries[1..])
      case Some(d) => [d] + Dispatches(entries[1..])
  }

  /** Entries are dispatched in order: the calls of two runs of entries are
      the calls of the first followed by the calls of the second. */
  lemma {:induction false} DispatchesAppend(a: seq<Entry>, b: seq<Entry>)
    ensures Dispatches(a + b) == Dispatches(a) + Dispatches(b)
    decreases |a|
  {
    if |a| > 0 {
      assert (a + b)[0] == a[0];
      assert (a + b)[1..] == a[1..] + b;
      DispatchesAppend(a[1..], b);
    } else {
      assert a + b == b;
    }
  }

  /** Each entry contributes at most its own call. */
  lemma DispatchesOfOne(e: Entry)
    ensures Dispatches([e]) == if DispatchFor(e).Some? then [DispatchFor(e).value] else []
  {
    assert [e][1..] == [];
  }

  /** `webhook_handler`, without running the calls. */
  function HandleUpdate(u: Update): (r: Handled)
    ensures u.objectType != Some(PageObject) ==> r == Handled(Response(404, ""), [])
    ensures u.objectType == Some(PageObject) ==> r.response == Response(200, EventReceived)
    ensures u.objectType == Some(PageObject) ==> r.dispatches == Dispatches(u.entries)
    ensures |r.dispatches| <= |u.entries|
  {
    if u.objectType == Some(PageObject) then Handled(Response(200, EventReceived), Dispatches(u.entries))
    else Handled(Response(404, ""), [])
  }

  /** `handle_message` as the loop calls it. */
  function Handler(env: Messenger.Env): (Messenger.World, Dispatch) -> Messenger.Outcome {
    (w: Messenger.World, d: Dispatch) => Messenger.HandleMessage(env, w, d.sender, d.message)
  }

  /** Every call of `ds` run in turn, each from the world the previous one
      left. What a call raises is logged and dropped, so it never stops the
      calls after it. */
  function RunAll(handle: (Messenger.World, Dispatch) -> Messenger.Outcome, w: Messenger.World, ds: seq<Dispatch>): (runs: seq<Messenger.Outcome>)
    ensures |runs| == |ds|
    ensures |ds| > 0 ==> runs[0] == handle(w, ds[0])
    ensures forall i :: 0 < i < |ds| ==> runs[i] == handle(runs[i - 1].world, ds[i])
    decreases |ds|
  {
    if |ds| == 0 then []
    else
      var first := handle(w, ds[0]);
      var rest := RunAll(handle, first.world, ds[1..]);
      var runs := [first] + rest;
      assert forall i :: 0 < i < |ds| ==> runs[i] == rest[i - 1] && ds[i] == ds[1..][i - 1];
      runs
  }

  /** All events of a sequence of runs, in order. */
  function Events(runs: seq<Messenger.Outcome>): seq<Messenger.Event> {
    if |runs| == 0 then [] else runs[0].trace + Events(runs[1..])
  }

  /** The state after a sequence of runs. */
  function FinalWorld(w: Messenger.World, runs: seq<Messenger.Outcome>): Messenger.World {
    if |runs| == 0 then w else runs[|runs| - 1].world
  }

  /** Running two batches of calls is running the first, then the second
      from the state the first left. */
  lemma {:induction false} RunAllAppend(handle: (Messenger.World, Dispatch) -> Messenger.Outcome, w: Messenger.World, a: seq<Dispatch>, b: seq<Dispatch>)
    ensures RunAll(handle, w, a + b) == RunAll(handle, w, a) + RunAll(handle, FinalWorld(w, RunAll(handle, w, a)), b)
    decreases |a|
  {
    if |a| == 0 {
      assert a + b == b;
    } else {
      var first := handle(w, a[0]);
      assert (a + b)[0] == a[0];
      assert (a + b)[1..] == a[1..] + b;
      RunAllAppend(handle, first.world, a[1..], b);
      var rest := RunAll(handle, first.world, a[1..]);
      assert FinalWorld(w, [first] + rest) == FinalWorld(first.world, rest);
    }
  }

  lemma {:induction false} EventsAppend(x: seq<Messenger.Outcome>, y: seq<Messenger.Outcome>)
    ensures Events(x + y) == Events(x) + Events(y)
    decreases |x|
  {
    if |x| == 0 {
      assert x + y == y;
    } else {
      assert (x + y)[0] == x[0];
      assert (x + y)[1..] == x[1..] + y;
      EventsAppend(x[1..], y);
    }
  }

  lemma FinalWorldAppend(w: Messenger.World, x: seq<Messenger.Outcome>, y: seq<Messenger.Outcome>)
    ensures FinalWorld(w, x + y) == FinalWorld(FinalWorld(w, x), y)
  {
    if |y| > 0 {
      assert (x + y)[|x + y| - 1] == y[|y| - 1];
    } else {
      assert x + y == x;
    }
  }

  /** The effect of a POST to the webhook. */
  datatype Served = Served(response: Response, world: Messenger.World, trace: seq<Messenger.Event>)

  /** `webhook_handler` with its calls run. */
  function Serve(env: Messenger.Env, w: Messenger.World, u: Update): (r: Served)
    ensures r.response == HandleUpdate(u).response
    ensures u.objectType != Some(PageObject) ==> r.world == w && r.trace == []
    ensures u.objectType == Some(PageObject) ==>
      var runs := RunAll(Handler(env), w, Dispatches(u.entries));
      r.world == FinalWorld(w, runs) && r.trace == Events(runs)
  {
    var handled := HandleUpdate(u);
    var runs := RunAll(Handler(env), w, handled.dispatches);
    Served(handled.response, FinalWorld(w, runs), Events(runs))
  }

  /** A page update with one entry runs `handle_message` once, for that
      entry's call, or not at all. */
  lemma ServeOne(env: Messenger.Env, w: Messenger.World, e: Entry)
    ensures var r := Serve(env, w, Update(Some(PageObject), [e]));
      && r.response == Response(200, EventReceived)
      && (DispatchFor(e).None? ==> r.world == w && r.trace == [])
      && (DispatchFor(e).Some? ==>
            var d := DispatchFor(e).value;
            var out := Messenger.HandleMessage(env, w, d.sender, d.message);
            r.world == out.world && r.trace == out.trace)
  {
    DispatchesOfOne(e);
    if DispatchFor(e).Some? {
      var d := DispatchFor(e).value;
      var runs := RunAll(Handler(env), w, [d]);
      assert runs == [Handler(env)(w, d)];
      assert Events(runs) == runs[0].trace + Events([]);
    }
  }

  /** The entries of a page update are served in order: the calls of later
      entries run from the state the earlier ones left, whatever those
      raised, and their messages follow. */
  lemma ServeAppend(env: Messenger.Env, w: Messenger.World, a: seq<Entry>, b: seq<Entry>)
    ensures var first := Serve(env, w, Update(Some(PageObject), a));
      var second := Serve(env, first.world, Update(Some(PageObject), b));
      Serve(env, w, Update(Some(PageObject), a + b))
        == Served(Response(200, EventReceived), second.world, first.trace + second.trace)
  {
    var h := Handler(env);
    DispatchesAppend(a, b);
    var x := RunAll(h, w, Dispatches(a));
    var y := RunAll(h, FinalWorld(w, x), Dispatches(b));
    RunAllAppend(h, w, Dispatches(a), Dispatches(b));
    EventsAppend(x, y);
    FinalWorldAppend(w, x, y);
  }
}
