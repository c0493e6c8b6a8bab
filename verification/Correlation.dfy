/** Request and response across pub/pub.go (Sub), callback/callback.go and the broker, as a
    transition system. A call of Pub.Sub registers a channel of its own, sends, waits and
    unregisters; each delivery is a goroutine of its own, blocked in its send until the call
    takes it. Any number of calls and deliveries interleave. */
module Correlation {
  import opened Wrappers
  import opened Proto
  import opened Callbacks
  import Metadata

  /** A call of Pub.Sub, named by its channel: every call makes its own. */
  type Chan = nat

  datatype Phase =
    | Registered                          // the channel is registered, the event not sent
    | Waiting                             // sent; in the select
    | Leaving(response: Option<Message>)  // result decided; the deferred unregister is due
    | Returned(response: Option<Message>)

  datatype Call = Call(id: string, event: string, phase: Phase)

  datatype State = State(
    table: map<string, Chan>,           // Callback.list
    calls: map<Chan, Call>,             // all calls of Pub.Sub so far
    pending: multiset<(Chan, Message)>) // goroutines blocked in "cb <- msg"

  const INIT := State(map[], map[], multiset{})

  datatype Event =
    | Begin(c: Chan, id: string, event: string)
    | SendOk(c: Chan)
    | SendFails(c: Chan)
    | Receive(msg: Message)           // Callback.Recv, for a message from the broker
    | Take(c: Chan, msg: Message)     // the select takes one pending send
    | Cancel(c: Chan)                 // the select sees the context done
    | Leave(c: Chan)

  predicate InPhase(s: State, c: Chan, p: Phase) {
    c in s.calls && s.calls[c].phase == p
  }

  function KeyOf(call: Call): string {
    Key(call.event, call.id)
  }

  predicate Enabled(s: State, e: Event) {
    match e
    case Begin(c, id, _) => c !in s.calls && ColonFree(id)
    case SendOk(c) => InPhase(s, c, Registered)
    case SendFails(c) => InPhase(s, c, Registered)
    case Receive(_) => true
    case Take(c, msg) => InPhase(s, c, Waiting) && (c, msg) in s.pending
    case Cancel(c) => InPhase(s, c, Waiting)
    case Leave(c) => c in s.calls && s.calls[c].phase.Leaving?
  }

  function Goto(s: State, c: Chan, p: Phase): State
    requires c in s.calls
  {
    s.(calls := s.calls[c := s.calls[c].(phase := p)])
  }

  function Apply(s: State, e: Event): State
    requires Enabled(s, e)
  {
    match e
    case Begin(c, id, event) =>
      s.(table := s.table[Key(event, id) := c], calls := s.calls[c := Call(id, event, Registered)])
    case SendOk(c) => Goto(s, c, Waiting)
    case SendFails(c) => Goto(s, c, Leaving(None))
    case Receive(msg) =>
      var k := Key(msg.name, msg.subId);
      if k in s.table then s.(pending := s.pending + multiset{(s.table[k], msg)}) else s
    case Take(c, msg) => Goto(s, c, Leaving(Some(msg))).(pending := s.pending - multiset{(c, msg)})
    case Cancel(c) => Goto(s, c, Leaving(None))
    case Leave(c) =>
      Goto(s, c, Returned(s.calls[c].phase.response)).(table := s.table - {KeyOf(s.calls[c])})
  }

  ghost predicate Next(s: State, e: Event, s': State) {
    Enabled(s, e) && s' == Apply(s, e)
  }

  ghost predicate StepAt(ss: seq<State>, es: seq<Event>, k: nat)
    requires k < |es| < |ss|
  {
    Next(ss[k], es[k], ss[k + 1])
  }

  ghost predicate IsRun(ss: seq<State>, es: seq<Event>) {
    && |ss| == |es| + 1 && ss[0] == INIT
    && forall k :: 0 <= k < |es| ==> StepAt(ss, es, k)
  }

  // ----- invariant -----

  /** The call is between its registration and its deferred unregister. */
  predicate Active(s: State, c: Chan) {
    c in s.calls && !s.calls[c].phase.Returned?
  }

  function ResponseOf(p: Phase): Option<Message> {
    if p.Leaving? || p.Returned? then p.response else None
  }

  /** Entries and pending sends belong to calls with exactly that key, entries to active
      ones; a decided response was sent under the call's key. */
  ghost predicate Inv(s: State) {
    && (forall c :: c in s.calls ==> ColonFree(s.calls[c].id) && ResponseFits(s.calls[c]))
    && (forall k :: k in s.table ==> Active(s, s.table[k]) && KeyOf(s.calls[s.table[k]]) == k)
    && (forall c, m :: (c, m) in s.pending ==> c in s.calls && KeyOf(s.calls[c]) == Key(m.name, m.subId))
  }

  /** A call keeps its event and id, and once it has returned it stays so. */
  lemma CallStays(s: State, e: Event, c: Chan)
    requires Enabled(s, e) && c in s.calls
    ensures c in Apply(s, e).calls
    ensures Apply(s, e).calls[c].id == s.calls[c].id && Apply(s, e).calls[c].event == s.calls[c].event
    ensures Active(s, c) && !(e == Leave(c)) ==> Active(Apply(s, e), c)
  {
  }

  lemma StepKeepsTable(s: State, e: Event)
    requires Inv(s) && Enabled(s, e)
    ensures var s' := Apply(s, e);
      forall k :: k in s'.table ==> Active(s', s'.table[k]) && KeyOf(s'.calls[s'.table[k]]) == k
  {
    var s' := Apply(s, e);
    forall k | k in s'.table
      ensures Active(s', s'.table[k]) && KeyOf(s'.calls[s'.table[k]]) == k
    {
      if k in s.table && s.table[k] == s'.table[k] {
        CallStays(s, e, s.table[k]);
      }
    }
  }

  lemma StepKeepsPending(s: State, e: Event)
    requires Inv(s) && Enabled(s, e)
    ensures var s' := Apply(s, e);
      forall c, m :: (c, m) in s'.pending ==> c in s'.calls && KeyOf(s'.calls[c]) == Key(m.name, m.subId)
  {
    var s' := Apply(s, e);
    forall c, m | (c, m) in s'.pending
      ensures c in s'.calls && KeyOf(s'.calls[c]) == Key(m.name, m.subId)
    {
      if (c, m) in s.pending {
        CallStays(s, e, c);
      } else {
        assert e == Receive(m);
      }
    }
  }

  /** A decided response fits the key of its call. */
  predicate ResponseFits(call: Call) {
    var r := ResponseOf(call.phase);
    r.Some? ==> KeyOf(call) == Key(r.value.name, r.value.subId)
  }

  lemma StepKeepsCalls(s: State, e: Event)
    requires Inv(s) && Enabled(s, e)
    ensures var s' := Apply(s, e);
      forall c :: c in s'.calls ==> ColonFree(s'.calls[c].id) && ResponseFits(s'.calls[c])
  {
    var s' := Apply(s, e);
    forall c | c in s'.calls
      ensures ColonFree(s'.calls[c].id) && ResponseFits(s'.calls[c])
    {
      if c in s.calls {
        assert ResponseFits(s.calls[c]);
        ResponseStays(s, e, c);
        CallStays(s, e, c);
      }
    }
  }

  /** Only the select decides a response, and it stays decided. */
  lemma ResponseStays(s: State, e: Event, c: Chan)
    requires Enabled(s, e) && c in s.calls
    ensures var r := ResponseOf(Apply(s, e).calls[c].phase);
      r == ResponseOf(s.calls[c].phase) || r == None || (e.Take? && e.c == c && r == Some(e.msg))
  {
  }

  lemma StepKeepsInv(s: State, e: Event)
    requires Inv(s) && Enabled(s, e)
    ensures Inv(Apply(s, e))
  {
    StepKeepsTable(s, e);
    StepKeepsPending(s, e);
    StepKeepsCalls(s, e);
  }

  lemma {:induction false} InvAt(ss: seq<State>, es: seq<Event>, k: nat)
    requires IsRun(ss, es) && k <= |es|
    ensures Inv(ss[k])
  {
    if k == 0 {
    } else {
      InvAt(ss, es, k - 1);
      assert StepAt(ss, es, k - 1);
      StepKeepsInv(ss[k - 1], es[k - 1]);
    }
  }

  // ----- which message a call returns -----

  /** In every interleaving, and even when several calls share an id, the response of a call
      is for the awaited event and for the call's own id exactly when the SubId that came
      from the broker has no colon, as every SubId taken from a UUID. */
  lemma ResponseMatchesExactly(ss: seq<State>, es: seq<Event>, k: nat, c: Chan)
    requires IsRun(ss, es) && k <= |es| && c in ss[k].calls
    requires ResponseOf(ss[k].calls[c].phase).Some?
    ensures var call, m := ss[k].calls[c], ResponseOf(ss[k].calls[c].phase).value;
      m.name == call.event && m.subId == call.id <==> ColonFree(m.subId)
  {
    InvAt(ss, es, k);
    var call, m := ss[k].calls[c], ResponseOf(ss[k].calls[c].phase).value;
    KeyNamesPairExactly(call.event, call.id, m.name, m.subId);
  }

  /** No key leads to a call that has returned, on whatever path it left. */
  lemma NoKeyAfterReturn(ss: seq<State>, es: seq<Event>, k: nat, c: Chan)
    requires IsRun(ss, es) && k <= |es| && InPhaseReturned(ss[k], c)
    ensures forall key :: key in ss[k].table ==> ss[k].table[key] != c
  {
    InvAt(ss, es, k);
  }

  predicate InPhaseReturned(s: State, c: Chan) {
    c in s.calls && s.calls[c].phase.Returned?
  }

  // ----- every call gets on -----

  /** What a call can do at each point, and where that takes it: sending leads into the select
      or to the end; the select takes any message that is pending on the channel, or sees the
      cancellation; and the deferred unregister returns what was decided. */
  lemma CallProceeds(s: State, c: Chan, msg: Message)
    requires c in s.calls
    ensures s.calls[c].phase == Registered ==>
      && Enabled(s, SendOk(c)) && Apply(s, SendOk(c)).calls[c].phase == Waiting
      && Enabled(s, SendFails(c)) && Apply(s, SendFails(c)).calls[c].phase == Leaving(None)
    ensures s.calls[c].phase == Waiting ==>
      && Enabled(s, Cancel(c)) && Apply(s, Cancel(c)).calls[c].phase == Leaving(None)
      && (Enabled(s, Take(c, msg)) <==> s.pending[(c, msg)] > 0)
      && (s.pending[(c, msg)] > 0 ==> Apply(s, Take(c, msg)).calls[c].phase == Leaving(Some(msg)))
    ensures s.calls[c].phase.Leaving? ==>
      && Enabled(s, Leave(c)) && Apply(s, Leave(c)).calls[c].phase == Returned(s.calls[c].phase.response)
  {
  }

  /** Any new call can begin, and is registered then; any message can come. */
  lemma CallBegins(s: State, c: Chan, id: string, event: string, msg: Message)
    requires c !in s.calls && ColonFree(id)
    ensures Enabled(s, Begin(c, id, event)) && Enabled(s, Receive(msg))
    ensures var s' := Apply(s, Begin(c, id, event));
      s'.calls == s.calls[c := Call(id, event, Registered)] && RegisteredIn(s', c) && s'.pending == s.pending
  {
  }

  /** The steps of other calls, and messages, leave a call where it is. */
  lemma OthersLeaveCall(s: State, e: Event, c: Chan)
    requires Enabled(s, e) && c in s.calls && (e.Receive? || e.c != c)
    ensures c in Apply(s, e).calls && Apply(s, e).calls[c] == s.calls[c]
  {
  }

  // ----- conservation -----

  /** The step hands msg to call c. */
  predicate Delivers(s: State, e: Event, c: Chan, msg: Message) {
    e == Receive(msg) && Key(msg.name, msg.subId) in s.table && s.table[Key(msg.name, msg.subId)] == c
  }

  /** How often msg was handed to c in the first k steps. */
  ghost function Delivered(ss: seq<State>, es: seq<Event>, k: nat, c: Chan, msg: Message): nat
    requires k <= |es| < |ss|
  {
    if k == 0 then 0
    else Delivered(ss, es, k - 1, c, msg) + (if Delivers(ss[k - 1], es[k - 1], c, msg) then 1 else 0)
  }

  function Consumed(s: State, c: Chan, msg: Message): nat {
    if c in s.calls && ResponseOf(s.calls[c].phase) == Some(msg) then 1 else 0
  }

  lemma StepConserves(s: State, e: Event, c: Chan, msg: Message)
    requires Inv(s) && Enabled(s, e)
    ensures var s' := Apply(s, e);
      s'.pending[(c, msg)] + Consumed(s', c, msg)
      == s.pending[(c, msg)] + Consumed(s, c, msg) + (if Delivers(s, e, c, msg) then 1 else 0)
  {
    if c in s.calls {
      ResponseStays(s, e, c);
    }
  }

  /** Every message handed to a call is either still pending on that call's channel or is
      the one response the call has consumed; none is lost, doubled or moved elsewhere. */
  lemma {:induction false} ResponsesConserved(ss: seq<State>, es: seq<Event>, k: nat, c: Chan, msg: Message)
    requires IsRun(ss, es) && k <= |es|
    ensures Delivered(ss, es, k, c, msg) == ss[k].pending[(c, msg)] + Consumed(ss[k], c, msg)
  {
    if k == 0 {
    } else {
      ResponsesConserved(ss, es, k - 1, c, msg);
      InvAt(ss, es, k - 1);
      assert StepAt(ss, es, k - 1);
      StepConserves(ss[k - 1], es[k - 1], c, msg);
    }
  }

  /** A call takes at most one response: once decided, the outcome of the select stays. */
  lemma {:induction false} TakesAtMostOne(ss: seq<State>, es: seq<Event>, j: nat, k: nat, c: Chan)
    requires IsRun(ss, es) && j <= k <= |es| && c in ss[j].calls
    requires ss[j].calls[c].phase.Leaving? || ss[j].calls[c].phase.Returned?
    ensures c in ss[k].calls && ResponseOf(ss[k].calls[c].phase) == ResponseOf(ss[j].calls[c].phase)
    ensures ss[k].calls[c].phase.Leaving? || ss[k].calls[c].phase.Returned?
    decreases k - j
  {
    if j == k {
    } else {
      assert StepAt(ss, es, j);
      TakesAtMostOne(ss, es, j + 1, k, c);
    }
  }

  // ----- how long a call stays registered -----

  ghost predicate RegisteredIn(s: State, c: Chan) {
    c in s.calls && KeyOf(s.calls[c]) in s.table && s.table[KeyOf(s.calls[c])] == c
  }

  /** The step registers a call under key, or unregisters one. */
  predicate TakesKey(s: State, e: Event, key: string) {
    Enabled(s, e) && ((e.Begin? && Key(e.event, e.id) == key) || (e.Leave? && KeyOf(s.calls[e.c]) == key))
  }

  /** No step between b and k takes the key of the call that begins in step b. */
  ghost predicate Undisturbed(ss: seq<State>, es: seq<Event>, b: nat, k: nat)
    requires b < k <= |es| < |ss| && es[b].Begin?
  {
    forall j :: b < j < k ==> !TakesKey(ss[j], es[j], Key(es[b].event, es[b].id))
  }

  lemma StepRegistered(s: State, e: Event, c: Chan)
    requires Enabled(s, e) && c in s.calls
    ensures RegisteredIn(Apply(s, e), c) <==> RegisteredIn(s, c) && !TakesKey(s, e, KeyOf(s.calls[c]))
  {
    CallStays(s, e, c);
    if e.Leave? {
      CallStays(s, e, e.c);
    }
  }

  /** In every interleaving, whatever keys calls share: a call is registered exactly until
      some call with its key registers over it or unregisters, be it itself or another. */
  lemma {:induction false} RegisteredExactly(ss: seq<State>, es: seq<Event>, b: nat, k: nat)
    requires IsRun(ss, es) && b < k <= |es| && es[b].Begin?
    ensures var c := es[b].c;
      c in ss[k].calls && ss[k].calls[c].id == es[b].id && ss[k].calls[c].event == es[b].event
    ensures RegisteredIn(ss[k], es[b].c) <==> Undisturbed(ss, es, b, k)
    decreases k
  {
    assert StepAt(ss, es, k - 1);
    if k == b + 1 {
    } else {
      RegisteredExactly(ss, es, b, k - 1);
      CallStays(ss[k - 1], es[k - 1], es[b].c);
      StepRegistered(ss[k - 1], es[k - 1], es[b].c);
    }
  }

  /** The calls of one key up to step b have returned, and no later one begins before k. */
  ghost predicate Alone(ss: seq<State>, es: seq<Event>, b: nat, k: nat)
    requires b < k <= |es| < |ss| && es[b].Begin?
  {
    var key := Key(es[b].event, es[b].id);
    && (forall d :: d in ss[b].calls && KeyOf(ss[b].calls[d]) == key ==> ss[b].calls[d].phase.Returned?)
    && (forall j :: b < j < k && es[j].Begin? ==> Key(es[j].event, es[j].id) != key)
  }

  lemma {:induction false} OnlyActive(ss: seq<State>, es: seq<Event>, b: nat, k: nat)
    requires IsRun(ss, es) && b < k <= |es| && es[b].Begin? && Alone(ss, es, b, k)
    ensures forall d :: d in ss[k].calls && d != es[b].c && KeyOf(ss[k].calls[d]) == Key(es[b].event, es[b].id) ==>
              ss[k].calls[d].phase.Returned?
    decreases k
  {
    assert StepAt(ss, es, k - 1);
    if k == b + 1 {
    } else {
      OnlyActive(ss, es, b, k - 1);
    }
  }

  lemma StepStaysAlone(s: State, e: Event, c: Chan)
    requires Enabled(s, e) && c in s.calls && (RegisteredIn(s, c) <==> Active(s, c))
    requires TakesKey(s, e, KeyOf(s.calls[c])) ==> e == Leave(c)
    ensures RegisteredIn(Apply(s, e), c) <==> Active(Apply(s, e), c)
  {
    StepRegistered(s, e, c);
    CallStays(s, e, c);
    assert Active(Apply(s, e), c) <==> Active(s, c) && e != Leave(c);
  }

  /** Awaiting one descriptor again is safe as long as its calls do not overlap: such a call
      is registered exactly while it is active. */
  lemma {:induction false} AwaitedAgain(ss: seq<State>, es: seq<Event>, b: nat, k: nat)
    requires IsRun(ss, es) && b < k <= |es| && es[b].Begin? && Alone(ss, es, b, k)
    ensures RegisteredIn(ss[k], es[b].c) <==> Active(ss[k], es[b].c)
    decreases k
  {
    assert StepAt(ss, es, k - 1);
    if k == b + 1 {
    } else {
      AwaitedAgain(ss, es, b, k - 1);
      RegisteredExactly(ss, es, b, k - 1);
      OnlyActive(ss, es, b, k - 1);
      StepStaysAlone(ss[k - 1], es[k - 1], es[b].c);
    }
  }

  /** None is missed, exactly: a message from the broker becomes one pending send on the
      call's channel when it carries the awaited event and the call's id and nothing has
      taken the key since the call registered, which it does before it sends. */
  lemma NoneMissed(ss: seq<State>, es: seq<Event>, b: nat, k: nat)
    requires IsRun(ss, es) && b < k < |es| && es[b].Begin?
    requires es[k].Receive? && ColonFree(es[k].msg.subId)
    ensures var c, m := es[b].c, es[k].msg;
      && (Delivers(ss[k], es[k], c, m) <==>
          Undisturbed(ss, es, b, k) && m.name == es[b].event && m.subId == es[b].id)
      && ss[k + 1].pending[(c, m)] == ss[k].pending[(c, m)] + (if Delivers(ss[k], es[k], c, m) then 1 else 0)
  {
    assert StepAt(ss, es, b) && StepAt(ss, es, k);
    InvAt(ss, es, k);
    RegisteredExactly(ss, es, b, k);
    var m := es[k].msg;
    KeyIsUnambiguous(es[b].event, es[b].id, m.name, m.subId);
    assert Delivers(ss[k], es[k], es[b].c, m) ==> Key(m.name, m.subId) == Key(es[b].event, es[b].id);
  }

  // ----- from the request to the response -----

  /** What the broker keeps of a message it routes: it fills in the way back of one that asks
      for a response, and of no other. */
  ghost predicate RoutedRequest(sent: Message, got: Message) {
    got.id == sent.id && got.name == sent.name && (if sent.sub then Metadata.FullyRouted(got) else !got.sub)
  }

  ghost predicate RoutedReply(sent: Message, got: Message) {
    got.id == sent.id && got.name == sent.name && got.subId == sent.subId
  }

  /** A call of Sub asks for a response, so the broker gives its request a way back. */
  lemma AskedIsRouted(asked: Metadata.Descriptor, own: Metadata.Meta, request: Message)
    requires !asked.typed.Unmarshalable?
    requires RoutedRequest(Metadata.EventOf(asked, true, own).value, request)
    ensures Metadata.FullyRouted(request) && request.id == asked.id
  {
  }

  /** The reply that comes back has the request's id exactly when the handler's metadata routes
      back to it. */
  lemma ReplyFits(request: Message, us: seq<Metadata.Use>, answer: Metadata.Descriptor, reply: Message)
    requires request.id != "" && !answer.typed.Unmarshalable?
    requires
      var meta := Metadata.UsedAll(Metadata.Received(Metadata.EMPTY, request), us);
      RoutedReply(Metadata.EventOf(answer, false, meta).value, reply)
    ensures reply.name == answer.name
    ensures reply.subId == request.id <==> Metadata.RoutesBack(request, us)
  {
    Metadata.ReplyGoesToAnswered(request, us, answer);
    Metadata.ReplyCarriesRequestExactly(request, us, answer);
  }

  lemma KeyOfEvent(event: string, i: string, j: string)
    ensures Key(event, i) == Key(event, j) <==> i == j
  {
    assert Key(event, i)[|event| + 1..] == i && Key(event, j)[|event| + 1..] == j;
  }

  /** A message for the awaited event is handed to the call exactly when it has the call's id,
      with or without a colon, and nothing has taken the key; and then to no other call. */
  lemma HandedExactly(ss: seq<State>, es: seq<Event>, b: nat, k: nat)
    requires IsRun(ss, es) && b < k < |es| && es[b].Begin? && es[k].Receive? && es[k].msg.name == es[b].event
    ensures var c, m := es[b].c, es[k].msg;
      && (Delivers(ss[k], es[k], c, m) <==> Undisturbed(ss, es, b, k) && m.subId == es[b].id)
      && (Delivers(ss[k], es[k], c, m) ==>
            && (forall d :: Delivers(ss[k], es[k], d, m) ==> d == c)
            && ss[k + 1].pending[(c, m)] == ss[k].pending[(c, m)] + 1)
  {
    assert StepAt(ss, es, b) && StepAt(ss, es, k);
    InvAt(ss, es, k);
    RegisteredExactly(ss, es, b, k);
    var m := es[k].msg;
    KeyOfEvent(es[b].event, es[b].id, m.subId);
    assert Delivers(ss[k], es[k], es[b].c, m) ==> Key(m.name, m.subId) == Key(es[b].event, es[b].id);
  }

  /** The whole way: the call that begins in step b sends its request; a handler elsewhere
      uses its context in any way and publishes the awaited event from it; the reply comes
      back in step k. It is handed to the call that asked exactly when the handler's metadata
      routes back to the request and nothing has taken the call's key since, and then to no
      other call. It does route back when the handler awaited no routed response. */
  lemma ReplyReachesItsCaller(ss: seq<State>, es: seq<Event>, b: nat, k: nat,
                              asked: Metadata.Descriptor, own: Metadata.Meta, request: Message,
                              us: seq<Metadata.Use>, answer: Metadata.Descriptor)
    requires IsRun(ss, es) && b < k < |es| && es[b].Begin? && es[k].Receive?
    requires asked.id == es[b].id != "" && !asked.typed.Unmarshalable?
    requires RoutedRequest(Metadata.EventOf(asked, true, own).value, request)
    requires answer.name == es[b].event && !answer.typed.Unmarshalable?
    requires
      var meta := Metadata.UsedAll(Metadata.Received(Metadata.EMPTY, request), us);
      RoutedReply(Metadata.EventOf(answer, false, meta).value, es[k].msg)
    ensures Delivers(ss[k], es[k], es[b].c, es[k].msg) <==>
      Undisturbed(ss, es, b, k) && Metadata.RoutesBack(request, us)
    ensures (forall n :: 0 <= n < |us| ==> !Metadata.Reroutes(us[n])) ==> Metadata.RoutesBack(request, us)
    ensures Undisturbed(ss, es, b, k) && Metadata.RoutesBack(request, us) ==>
      && (forall d :: Delivers(ss[k], es[k], d, es[k].msg) ==> d == es[b].c)
      && ss[k + 1].pending[(es[b].c, es[k].msg)] == ss[k].pending[(es[b].c, es[k].msg)] + 1
  {
    AskedIsRouted(asked, own, request);
    ReplyFits(request, us, answer, es[k].msg);
    HandedExactly(ss, es, b, k);
  }

  // ----- what goes wrong with shared keys and with colons -----

  lemma Extend(ss: seq<State>, es: seq<Event>, e: Event) returns (ss': seq<State>, es': seq<Event>)
    requires IsRun(ss, es) && Enabled(ss[|es|], e)
    ensures IsRun(ss', es') && es' == es + [e] && ss' == ss + [Apply(ss[|es|], e)]
  {
    ss', es' := ss + [Apply(ss[|es|], e)], es + [e];
    forall k | 0 <= k < |es'|
      ensures StepAt(ss', es', k)
    {
      assert k < |es| ==> StepAt(ss, es, k);
    }
  }

  /** One descriptor is awaited twice at the same time; the second call fails to send and
      unregisters. The first one still waits, and its response is lost. */
  lemma OverlapMisses(m: Message) returns (ss: seq<State>, es: seq<Event>)
    requires m.name == "e" && m.subId == "i"
    ensures IsRun(ss, es) && es == [
      Begin(0, "i", "e"), SendOk(0), Begin(1, "i", "e"), SendFails(1), Leave(1), Receive(m)]
    ensures InPhase(ss[5], 0, Waiting) && ss[6].pending == multiset{}
  {
    ss, es := [INIT], [];
    ss, es := Extend(ss, es, Begin(0, "i", "e"));
    ss, es := Extend(ss, es, SendOk(0));
    ss, es := Extend(ss, es, Begin(1, "i", "e"));
    ss, es := Extend(ss, es, SendFails(1));
    ss, es := Extend(ss, es, Leave(1));
    assert Key("e", "i") !in ss[5].table;
    ss, es := Extend(ss, es, Receive(m));
  }

  /** A SubId with a colon: a message for the event "a" is taken by a call that awaits "a:b". */
  lemma ColonMisleads(m: Message) returns (ss: seq<State>, es: seq<Event>)
    requires m.name == "a" && m.subId == "b:i"
    ensures IsRun(ss, es) && es == [Begin(0, "i", "a:b"), SendOk(0), Receive(m), Take(0, m)]
    ensures ss[4].calls == map[0 := Call("i", "a:b", Leaving(Some(m)))]
  {
    assert Key("a:b", "i") == "a:b:i" == Key("a", "b:i");
    ss, es := [INIT], [];
    ss, es := Extend(ss, es, Begin(0, "i", "a:b"));
    ss, es := Extend(ss, es, SendOk(0));
    ss, es := Extend(ss, es, Receive(m));
    ss, es := Extend(ss, es, Take(0, m));
  }
}
