/** metadata/metadata.go and the parts of client/client.go and pub/pub.go that read or write
    the metadata of a context. An MD is an object that contexts share by pointer; a context
    is represented by the MD it carries, or null. */
module Metadata {
  import opened Wrappers
  import opened Proto

  /** The value of an MD. */
  datatype Meta = Meta(
    id: string,
    project: string,
    segment: string,
    sub: bool,
    subId: string,
    subPod: string,
    subModule: string,
    subBroker: string,
    subProject: string,
    error: string)

  const EMPTY := Meta("", "", "", false, "", "", "", "", "", "")

  /** FromRecv on values: the routing part changes only for a message with Sub set. */
  function Received(m: Meta, msg: Message): Meta {
    var basic := m.(id := msg.id, project := msg.project, segment := msg.segment);
    var routed := if msg.sub then Routed(basic, msg) else basic;
    if msg.error != "" then routed.(error := msg.error) else routed
  }

  function Routed(m: Meta, msg: Message): Meta {
    m.(sub := true, subId := msg.id, subPod := msg.subPod, subModule := msg.subModule,
       subBroker := msg.subBroker, subProject := msg.subProject)
  }

  /** All routing fields are there: GetEvent takes over a complete set or nothing. */
  predicate CanRoute(m: Meta) {
    m.sub && m.subPod != "" && m.subModule != "" && m.subBroker != "" && m.subProject != ""
  }

  /** The way back: id of the request, pod, module, broker and project. */
  datatype Route = Route(id: string, pod: string, moduleName: string, broker: string, project: string)

  const NO_WAY := Route("", "", "", "", "")

  function Way(msg: Message): Route {
    Route(msg.subId, msg.subPod, msg.subModule, msg.subBroker, msg.subProject)
  }

  function WayOf(m: Meta): Route {
    Route(m.subId, m.subPod, m.subModule, m.subBroker, m.subProject)
  }

  /** The typed value that a context carries, if any, and what encoding it as JSON gives. */
  datatype Typed = NoTyped | Marshals(json: Payload) | Unmarshalable

  /** The fields of a Pub that the event takes over, and the typed value of its context. */
  datatype Descriptor = Descriptor(
    id: string,
    name: string,
    project: string,
    payload: Payload,
    timestamp: int,
    typed: Typed)

  /** GetEvent on values; None when the typed value cannot be encoded. */
  function EventOf(d: Descriptor, subscribed: bool, m: Meta): Option<Message> {
    var context := if d.typed.Marshals? then Some(d.typed.json) else None;
    var plain := Message(
      d.id, d.name, d.project, "", subscribed, "", "", "", "", "", "", d.payload, Some(d.timestamp), context);
    if d.typed.Unmarshalable? then None
    else if CanRoute(m) then
      Some(plain.(sub := true, subId := m.subId, subPod := m.subPod, subModule := m.subModule,
                  subBroker := m.subBroker, subProject := m.subProject))
    else
      Some(plain)
  }

  class MD {
    var id: string
    var project: string
    var segment: string
    var sub: bool
    var subId: string
    var subPod: string
    var subModule: string
    var subBroker: string
    var subProject: string
    var error: string

    constructor ()
      ensures View() == EMPTY
    {
      id, project, segment := "", "", "";
      sub := false;
      subId, subPod, subModule, subBroker, subProject := "", "", "", "", "";
      error := "";
    }

    ghost function View(): Meta
      reads this
    {
      Meta(id, project, segment, sub, subId, subPod, subModule, subBroker, subProject, error)
    }
  }

  ghost function ViewOf(ctx: MD?): Meta
    reads ctx
  {
    if ctx == null then EMPTY else ctx.View()
  }

  /** The MD of the context itself, not a copy, or a new one. */
  method MetaFromContext(ctx: MD?) returns (md: MD)
    ensures ctx != null ==> md == ctx
    ensures ctx == null ==> fresh(md)
    ensures md.View() == ViewOf(ctx)
  {
    if ctx == null {
      md := new MD();
    } else {
      md := ctx;
    }
  }

  /** The result is the MD of the returned context: the one of ctx, written in place. */
  method FromRecv(ctx: MD?, msg: Message) returns (md: MD)
    modifies ctx
    ensures if ctx == null then fresh(md) else md == ctx
    ensures md.View() == Received(old(ViewOf(ctx)), msg)
    ensures md.id == msg.id && md.project == msg.project && md.segment == msg.segment
    ensures md.error == if msg.error != "" then msg.error else old(ViewOf(ctx)).error
    ensures md.sub == (msg.sub || old(ViewOf(ctx)).sub)
    ensures WayOf(md.View()) ==
      if msg.sub then Route(msg.id, msg.subPod, msg.subModule, msg.subBroker, msg.subProject)
      else WayOf(old(ViewOf(ctx)))
  {
    md := MetaFromContext(ctx);
    md.id := msg.id;
    md.project := msg.project;
    md.segment := msg.segment;
    if msg.sub {
      md.sub := msg.sub;
      md.subId := msg.id;
      md.subPod := msg.subPod;
      md.subModule := msg.subModule;
      md.subBroker := msg.subBroker;
      md.subProject := msg.subProject;
    }
    if msg.error != "" {
      md.error := msg.error;
    }
  }

  /** The event descriptor of pub/pub.go. */
  class Pub {
    const id: string
    const name: string
    const project: string
    const payload: Payload
    const timestamp: int
    const context: MD?
    const typed: Typed
    var subscribed: bool

    constructor (d: Descriptor, context: MD?)
      ensures Fields() == d && this.context == context && !subscribed
    {
      id, name, project := d.id, d.name, d.project;
      payload, timestamp, typed := d.payload, d.timestamp, d.typed;
      this.context := context;
      subscribed := false;
    }

    function Fields(): Descriptor {
      Descriptor(id, name, project, payload, timestamp, typed)
    }

    /** The fields are filled one after the other, reading the MD at the time of sending. There
        is no event exactly when the typed value cannot be encoded; an event asks for a response
        exactly when Sub was called or the MD has a complete route, which it then takes over. */
    method GetEvent() returns (r: Option<Message>)
      ensures r == EventOf(Fields(), subscribed, ViewOf(context))
      ensures r.None? <==> typed.Unmarshalable?
      ensures r.Some? ==>
        && r.value.id == id && r.value.name == name && r.value.project == project && r.value.payload == payload
        && r.value.timestamp == Some(timestamp) && r.value.segment == "" && r.value.error == ""
        && r.value.context == (if typed.Marshals? then Some(typed.json) else None)
        && (r.value.sub <==> subscribed || CanRoute(ViewOf(context)))
        && Way(r.value) == if CanRoute(ViewOf(context)) then WayOf(ViewOf(context)) else NO_WAY
    {
      var msg := Message(
        id, name, project, "", subscribed, "", "", "", "", "", "", payload, Some(timestamp), None);
      var md := MetaFromContext(context);
      if md.sub && md.subPod != "" && md.subModule != "" && md.subBroker != "" && md.subProject != "" {
        msg := msg.(subId := md.subId);
        msg := msg.(sub := true);
        msg := msg.(subPod := md.subPod);
        msg := msg.(subModule := md.subModule);
        msg := msg.(subBroker := md.subBroker);
        msg := msg.(subProject := md.subProject);
      }
      if typed != NoTyped {
        if typed.Unmarshalable? {
          return None;
        }
        msg := msg.(context := Some(typed.json));
      }
      return Some(msg);
    }
  }

  /** client.Pub drew id; a Pub.Sub on this context got the response msg; WithError. */
  datatype Use =
    | Published(id: string)
    | Awaited(msg: Message)
    | Failed(error: string)

  function Used(m: Meta, u: Use): Meta {
    match u
    case Published(id) => m.(id := id)
    case Awaited(msg) => Received(m, msg)
    case Failed(error) => m.(error := error)
  }

  /** client.Pub: the drawn id is written into the shared MD, and nothing else is. The
      project of the descriptor stays empty. */
  method Publish(ctx: MD?, typed: Typed, id: string, now: int, name: string, payload: Payload) returns (p: Pub)
    modifies ctx
    ensures fresh(p) && p.Fields() == Descriptor(id, name, "", payload, now, typed) && !p.subscribed
    ensures p.context != null && (ctx != null ==> p.context == ctx)
    ensures p.context.View() == old(ViewOf(ctx)).(id := id) == Used(old(ViewOf(ctx)), Published(id))
  {
    var md := MetaFromContext(ctx);
    md.id := id;
    p := new Pub(Descriptor(id, name, "", payload, now, typed), md);
  }

  // ----- what a handler does with the MD of its context -----

  function UsedAll(m: Meta, us: seq<Use>): Meta {
    if us == [] then m else Used(UsedAll(m, us[..|us| - 1]), us[|us| - 1])
  }

  /** The use was a response that itself asks for one. */
  predicate Reroutes(u: Use) {
    u.Awaited? && u.msg.sub
  }

  /** The message whose routing part the MD holds: the request if it has Sub set, unless a
      later response with Sub set was awaited on the same MD. */
  function Answered(request: Message, us: seq<Use>): Option<Message> {
    if us == [] then if request.sub then Some(request) else None
    else if Reroutes(us[|us| - 1]) then Some(us[|us| - 1].msg)
    else Answered(request, us[..|us| - 1])
  }

  /** The use j is the last that reroutes. */
  predicate LastReroute(us: seq<Use>, j: int) {
    0 <= j < |us| && Reroutes(us[j]) && forall n :: j < n < |us| ==> !Reroutes(us[n])
  }

  lemma LastRerouteNext(us: seq<Use>, j: int)
    requires us != [] && !Reroutes(us[|us| - 1])
    ensures LastReroute(us, j) <==> LastReroute(us[..|us| - 1], j)
  {
  }

  /** The route is the last rerouting response's ... */
  lemma {:induction false} AnsweredLast(request: Message, us: seq<Use>, j: int)
    requires LastReroute(us, j)
    ensures Answered(request, us) == Some(us[j].msg)
  {
    if j == |us| - 1 {
    } else {
      LastRerouteNext(us, j);
      AnsweredLast(request, us[..|us| - 1], j);
    }
  }

  /** ... or, without one, the request's. */
  lemma {:induction false} AnsweredFirst(request: Message, us: seq<Use>)
    requires forall n :: 0 <= n < |us| ==> !Reroutes(us[n])
    ensures Answered(request, us) == Answered(request, [])
  {
    if us == [] {
    } else {
      AnsweredFirst(request, us[..|us| - 1]);
    }
  }

  lemma {:induction false} LastRerouteExists(us: seq<Use>, n: nat) returns (j: int)
    requires n < |us| && Reroutes(us[n])
    ensures LastReroute(us, j)
  {
    if Reroutes(us[|us| - 1]) {
      j := |us| - 1;
    } else {
      j := LastRerouteExists(us[..|us| - 1], n);
      LastRerouteNext(us, j);
    }
  }

  function ClearRoute(m: Meta): Meta {
    m.(sub := false, subId := "", subPod := "", subModule := "", subBroker := "", subProject := "")
  }

  /** However a handler uses its context, the MD is routed to one message, or to none. */
  lemma {:induction false} RoutedToAnswered(request: Message, us: seq<Use>)
    ensures var m, a := UsedAll(Received(EMPTY, request), us), Answered(request, us);
      && (m.sub <==> a.Some?)
      && m == (if a.Some? then Routed(m, a.value) else ClearRoute(m))
      && (a.Some? ==> a.value.sub)
  {
    if us == [] {
    } else {
      RoutedToAnswered(request, us[..|us| - 1]);
    }
  }

  predicate FullyRouted(msg: Message) {
    msg.sub && msg.subPod != "" && msg.subModule != "" && msg.subBroker != "" && msg.subProject != ""
  }

  /** The reply goes the way of the message a as a whole, or has no way back at all. */
  predicate GoesTo(reply: Message, a: Option<Message>) {
    if a.Some? && FullyRouted(a.value) then
      && reply.sub && reply.subId == a.value.id && reply.subPod == a.value.subPod
      && reply.subModule == a.value.subModule && reply.subBroker == a.value.subBroker
      && reply.subProject == a.value.subProject
    else
      !reply.sub && reply.subId == reply.subPod == reply.subModule == reply.subBroker == reply.subProject == ""
  }

  lemma {:induction false} ReplyGoesToAnswered(request: Message, us: seq<Use>, d: Descriptor)
    ensures var r := EventOf(d, false, UsedAll(Received(EMPTY, request), us));
      && (r == None <==> d.typed.Unmarshalable?)
      && (r.Some? ==> GoesTo(r.value, Answered(request, us)))
  {
    RoutedToAnswered(request, us);
  }

  /** No routed response was awaited and the request has all its routing fields, or the last
      routed response awaited has them all and the id of the request. */
  ghost predicate RoutesBack(request: Message, us: seq<Use>) {
    || ((forall n :: 0 <= n < |us| ==> !Reroutes(us[n])) && FullyRouted(request))
    || (exists j :: LastReroute(us, j) && FullyRouted(us[j].msg) && us[j].msg.id == request.id)
  }

  /** A reply published from the handler's context, after any uses of it, carries the id of
      the request as SubId exactly when the MD routes back to it. In the other cases a
      response has taken over the route, or GetEvent has dropped partial routing fields. */
  lemma {:induction false} ReplyCarriesRequestExactly(request: Message, us: seq<Use>, d: Descriptor)
    requires !d.typed.Unmarshalable?
    ensures var reply := EventOf(d, false, UsedAll(Received(EMPTY, request), us)).value;
      reply.sub && reply.subId == request.id <==> RoutesBack(request, us)
  {
    ReplyGoesToAnswered(request, us, d);
    if n :| 0 <= n < |us| && Reroutes(us[n]) {
      var j := LastRerouteExists(us, n);
      forall i | LastReroute(us, i)
        ensures i == j
      {
      }
      AnsweredLast(request, us, j);
    } else {
      AnsweredFirst(request, us);
    }
  }

  /** Without a routed response awaited on the same MD, in particular after any number of
      client.Pub calls, the reply goes to the request. */
  lemma {:induction false} PublishingKeepsRoute(request: Message, us: seq<Use>, d: Descriptor)
    requires FullyRouted(request) && (forall n :: 0 <= n < |us| ==> !Reroutes(us[n])) && !d.typed.Unmarshalable?
    ensures GoesTo(EventOf(d, false, UsedAll(Received(EMPTY, request), us)).value, Some(request))
  {
    AnsweredFirst(request, us);
    ReplyGoesToAnswered(request, us, d);
  }

  /** A nested Pub.Sub on the handler's own context redirects the reply to the response. */
  lemma {:induction false} NestedAwaitRedirects(request: Message, response: Message, d: Descriptor)
    requires FullyRouted(response) && response.id != request.id && !d.typed.Unmarshalable?
    ensures var us := [Awaited(response), Published(d.id)];
      EventOf(d, false, UsedAll(Received(EMPTY, request), us)).value.subId == response.id
  {
    var us := [Awaited(response), Published(d.id)];
    AnsweredLast(request, us, 0);
    ReplyGoesToAnswered(request, us, d);
  }
}
