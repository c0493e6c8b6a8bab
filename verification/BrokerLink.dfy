/** broker/broker.go: the state of one broker connection. Each region that the source
    guards with b.rw is one method, so an interleaving of overlapping Start calls, their
    epilogues and senders is a sequence of calls of these methods. */
module BrokerLink {
  import opened Wrappers
  import opened Proto
  import Fibonacci
  import opened Integers
  import Backoff

  /** A connection context together with its cancel function. */
  class ConnContext {
    var cancelled: bool

    constructor ()
      ensures !cancelled
    {
      cancelled := false;
    }
  }

  /** A gRPC stream; the peer decides whether a transmission is accepted. */
  class Stream {
    var accepting: bool
    var sent: seq<Message>

    method Send(msg: Message) returns (ok: bool)
      modifies this`sent
      ensures ok == accepting
      ensures sent == if accepting then old(sent) + [msg] else old(sent)
    {
      ok := accepting;
      if accepting {
        sent := sent + [msg];
      }
    }
  }

  datatype SendError = BrokerDisconnected | EventFailed | StreamFailed

  /** What the read goroutine does with one message. */
  datatype Handled =
    | Connected(id: string)       // ConnectFunc(id) was called
    | ResetRequested              // the reset was acknowledged and ResetFunc called
    | NilStream                   // the acknowledgement dereferenced a nil stream
    | Forwarded(msg: Message)     // handed on to handleRecv

  /** The fields that Send consults. */
  datatype Link<+S> = Link(connected: bool, stream: Option<S>)

  datatype LinkEvent<+S> = ReadyOn(s: S) | Ended

  /** The acknowledgement of a reset: its id, name and time, and nothing else. */
  function Ack(id: string, now: int): (msg: Message)
    ensures msg.id == id && msg.name == "_.reset.success" && msg.timestamp == Some(now)
    ensures !msg.sub && msg.payload == [] && msg.context == None && msg.error == ""
    ensures msg.project == msg.segment == msg.subId == msg.subPod == msg.subModule == ""
    ensures msg.subBroker == msg.subProject == ""
  {
    Message(id, "_.reset.success", "", "", false, "", "", "", "", "", "", [], Some(now), None)
  }

  class Broker {
    const id: string
    var duration: int
    var overstayCount: int
    var connected: bool
    var done: bool
    var stream: Stream?
    var context: ConnContext?

    constructor (id: string)
      ensures Valid() && this.id == id && !connected && !done && context == null
      ensures Counters() == Backoff.FRESH
    {
      this.id := id;
      duration, overstayCount := 0, 0;
      connected, done := false, false;
      stream, context := null, null;
    }

    /** connected implies a stream to send on, and the delay is one that fibo produces. */
    ghost predicate Valid()
      reads this
    {
      && (connected ==> stream != null)
      && Backoff.OnOrbit(Counters())
    }

    ghost function Counters(): Backoff.Retry
      reads this
    {
      Backoff.Retry(duration, overstayCount)
    }

    ghost function State(): Link<Stream>
      reads this
    {
      Link(connected, if stream == null then None else Some(stream))
    }

    /** A reconnect is possible: there is a context, it is live and no reset was requested. */
    predicate Live()
      reads this, context
    {
      context != null && !context.cancelled && !done
    }

    method Done()
      modifies context
      ensures context != null ==> context.cancelled
    {
      if context != null {
        context.cancelled := true;
      }
    }

    /** event is the outcome of GetEvent. Exactly one message goes out, on the stored
        stream, when there is no error, and none otherwise. */
    method Send(event: Option<Message>) returns (err: Option<SendError>)
      requires Valid()
      modifies {stream}`sent
      ensures Valid()
      ensures err == None <==> connected && event.Some? && stream.accepting
      ensures err == None ==> stream.sent == old(stream.sent) + [event.value]
      ensures err.Some? && stream != null ==> stream.sent == old(stream.sent)
      ensures err == Some(BrokerDisconnected) <==> !connected
      ensures err == Some(EventFailed) <==> connected && event == None
      ensures err == Some(StreamFailed) <==> connected && event.Some? && !stream.accepting
    {
      if !connected {
        return Some(BrokerDisconnected);
      }
      if event == None {
        return Some(EventFailed);
      }
      var ok := stream.Send(event.value);
      return if ok then None else Some(StreamFailed);
    }

    /** Start, up to dialling: the previous context is cancelled and replaced. */
    method Begin()
      requires Valid()
      modifies this`context, context
      ensures Valid() && fresh(context) && !context.cancelled
      ensures old(context) != null ==> old(context).cancelled
    {
      if context != null {
        context.cancelled := true;
      }
      context := new ConnContext();
    }

    method Ready(s: Stream)
      requires Valid()
      modifies this`duration, this`overstayCount, this`connected, this`stream
      ensures Valid() && Counters() == Backoff.FRESH
      ensures State() == Apply(old(State()), ReadyOn(s))
    {
      duration := 0;
      overstayCount := 0;
      connected := true;
      stream := s;
    }

    /** Start, after its context is done. */
    method Epilogue()
      requires Valid()
      modifies this`connected, this`stream
      ensures Valid() && State() == Apply(old(State()), Ended)
    {
      connected := false;
      stream := null;
    }

    /** ack is the id drawn for the acknowledgement, now its time. The stored stream is
        dereferenced whatever connected says: a reset without a stored stream fails there. */
    method InitResetProcess(ack: string, now: int) returns (nilStream: bool)
      requires Valid()
      modifies this`done, stream
      ensures Valid() && done && stream == old(stream) && connected == old(connected)
      ensures nilStream <==> stream == null
      ensures stream != null ==>
        stream.sent == old(stream.sent) + (if old(stream.accepting) then [Ack(ack, now)] else [])
    {
      done := true;
      if stream == null {
        return true;
      }
      var _ := stream.Send(Ack(ack, now));
      return false;
    }

    /** The switch of the read goroutine on the stream s. */
    method Handle(msg: Message, s: Stream, ack: string, now: int) returns (h: Handled)
      requires Valid()
      modifies this, stream
      ensures Valid() && context == old(context)
      ensures msg.name == "_.ready" ==>
        h == Connected(id) && Counters() == Backoff.FRESH && connected && stream == s
        && done == old(done)
      ensures msg.name == "_.reset" ==>
        h == (if stream == null then NilStream else ResetRequested) && done && State() == old(State())
      ensures msg.name != "_.ready" && msg.name != "_.reset" ==>
        h == Forwarded(msg) && State() == old(State()) && done == old(done)
      ensures msg.name != "_.ready" ==> Counters() == old(Counters())
      ensures old(stream) != null ==>
        old(stream).sent == old(stream.sent)
          + (if msg.name == "_.reset" && old(stream.accepting) then [Ack(ack, now)] else [])
    {
      if msg.name == "_.ready" {
        Ready(s);
        h := Connected(id);
      } else if msg.name == "_.reset" {
        var nilStream := InitResetProcess(ack, now);
        h := if nilStream then NilStream else ResetRequested;
      } else {
        h := Forwarded(msg);
      }
    }

    /** restart: handled is what OwerstayingFunc answers when it is asked. The result is
        the requested wait, in seconds; None means that restart returns at once. */
    method Restart(handled: bool) returns (wait: Option<int>)
      requires Valid()
      modifies this`duration, this`overstayCount
      ensures Valid()
      ensures (Counters(), wait) == Backoff.Step(old(Counters()), Backoff.Failure(handled, Live()))
      ensures wait.Some? <==>
        && context != null && !context.cancelled && !done
        && !(old(duration) == 24 && (old(overstayCount) >= 2 || handled))
      ensures wait.Some? ==> wait == Some(duration) && duration == Fibonacci.Delay(old(duration), 24)
      ensures wait == None ==> duration == old(duration)
      ensures overstayCount == old(overstayCount) + if old(duration) == 24 then 1 else 0
      ensures Backoff.WaitsLeft(Counters()) + (if wait.Some? then 1 else 0)
           <= Backoff.WaitsLeft(old(Counters()))
      ensures Backoff.TimeLeft(Counters()) + (if wait.Some? then wait.value else 0)
           <= Backoff.TimeLeft(old(Counters()))
    {
      Backoff.FailurePays(Counters(), Backoff.Failure(handled, Live()));
      if duration == Backoff.DURATION_MAX {
        overstayCount := overstayCount + 1;
        if overstayCount > Backoff.OVERSTAY_ATTEMPTS {
          return None;
        }
        if handled {
          return None;
        }
      }
      if !Live() {
        return None;
      }
      var d := Fibonacci.Fibo(duration as int64, Fibonacci.BROKER_CAP, Fibonacci.ROUNDS);
      duration := d.value as int;
      return Some(duration);
    }
  }

  // ----- ready events and epilogues on values -----

  function Apply<S>(l: Link<S>, e: LinkEvent<S>): Link<S> {
    match e
    case ReadyOn(s) => Link(true, Some(s))
    case Ended => Link(false, None)
  }
}
