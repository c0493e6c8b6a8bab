/** Pub.Sub of pub/pub.go, run by one goroutine; what other goroutines do meanwhile is the
    subject of module Correlation. */
module PubSub {
  import opened Wrappers
  import opened Proto
  import opened Callbacks
  import opened Metadata

  /** typed is what the typed context of the result becomes; None leaves it as it was. */
  datatype Outcome<+T> =
    | SendFailed
    | Cancelled
    | RemoteError(error: string)  // the response carried an error
    | DecodeFailed                // its typed context is not valid JSON for the type
    | Response(payload: Payload, typed: Option<T>)

  /** What the select makes of a message. */
  function Decided<T>(msg: Message, unmarshal: Payload -> Option<T>): Outcome<T> {
    if msg.error != "" then RemoteError(msg.error)
    else if msg.context == None then Response(msg.payload, None)
    else
      var typed := unmarshal(msg.context.value);
      if typed == None then DecodeFailed else Response(msg.payload, typed)
  }

  /** sent tells whether SendFunc succeeds, arrived what the select gets: a message, or None
      when the context is cancelled; unmarshal is the JSON decoder of the type. On every path
      the channel is registered when the event is sent (atSend is the table then) and the
      registration is gone in the end. The metadata is enriched exactly when a message was
      taken, before its error and its typed context are looked at. */
  method Sub<C, T(==)>(p: Pub, callbacks: Callback<C>, event: string, msgChan: C, sent: bool,
                       arrived: Option<Message>, unmarshal: Payload -> Option<T>)
    returns (r: Outcome<T>, ghost atSend: map<string, C>)
    modifies p, callbacks, p.context
    ensures p.subscribed
    ensures atSend == old(callbacks.list)[Key(event, p.id) := msgChan]
    ensures callbacks.list == old(callbacks.list) - {Key(event, p.id)}
    ensures r == SendFailed <==> !sent
    ensures r == Cancelled <==> sent && arrived == None
    ensures sent && arrived.Some? ==> r == Decided(arrived.value, unmarshal)
    ensures r.RemoteError? <==> sent && arrived.Some? && arrived.value.error != ""
    ensures r.RemoteError? ==> r.error == arrived.value.error
    ensures r == DecodeFailed <==>
      && sent && arrived.Some? && arrived.value.error == ""
      && arrived.value.context.Some? && unmarshal(arrived.value.context.value) == None
    ensures r.Response? <==>
      && sent && arrived.Some? && arrived.value.error == ""
      && (arrived.value.context.Some? ==> unmarshal(arrived.value.context.value).Some?)
    ensures r.Response? ==>
      && r.payload == arrived.value.payload
      && r.typed == if arrived.value.context == None then None else unmarshal(arrived.value.context.value)
    ensures p.context != null && sent && arrived.Some? ==>
      p.context.View() == Received(old(ViewOf(p.context)), arrived.value)
    ensures p.context != null && (!sent || arrived == None) ==> p.context.View() == old(ViewOf(p.context))
  {
    p.subscribed := true;
    callbacks.Register(event, p.id, msgChan);
    atSend := callbacks.list;
    if !sent {
      callbacks.Unregister(event, p.id);
      return SendFailed, atSend;
    }
    if arrived == None {
      callbacks.Unregister(event, p.id);
      return Cancelled, atSend;
    }
    var msg := arrived.value;
    var _ := FromRecv(p.context, msg);
    if msg.error != "" {
      callbacks.Unregister(event, p.id);
      return RemoteError(msg.error), atSend;
    }
    var typed: Option<T> := None;
    if msg.context.Some? {
      typed := unmarshal(msg.context.value);
      if typed.None? {
        callbacks.Unregister(event, p.id);
        return DecodeFailed, atSend;
      }
    }
    callbacks.Unregister(event, p.id);
    return Response(msg.payload, typed), atSend;
  }
}
