/** client/client.go: the fields of Client that connect, disconnect, send, reset and
    owerstaying share. Each method is one region that the source runs under c.rw. */
module ClientState {
  import opened Wrappers
  import opened Integers
  import opened Proto
  import opened BrokerLink
  import opened OnlineList
  import opened RoundRobin
  import BrokerStore
  import Reconnect

  datatype ClientError = ClientNotConnected

  class Client {
    var onlineBrokers: seq<Broker>
    var online: bool
    var currentSend: nat
    var resetProcess: bool
    var overstayProcess: bool

    constructor ()
      ensures Valid() && onlineBrokers == [] && !resetProcess && !overstayProcess
    {
      onlineBrokers, online, currentSend := [], false, 0;
      resetProcess, overstayProcess := false, false;
    }

    /** online says exactly whether the list has an entry. */
    ghost predicate Valid()
      reads this
    {
      && (online <==> onlineBrokers != [])
      && currentSend < TWO64
    }

    ghost predicate BrokersValid()
      reads this, onlineBrokers
    {
      forall k :: 0 <= k < |onlineBrokers| ==> onlineBrokers[k].Valid()
    }

    ghost function Streams(): set<Stream>
      reads this, onlineBrokers
    {
      set k | 0 <= k < |onlineBrokers| && onlineBrokers[k].stream != null :: onlineBrokers[k].stream
    }

    /** A transmission of event to entry k would be accepted. */
    ghost predicate Accepts(k: nat, event: Option<Message>)
      requires k < |onlineBrokers| && onlineBrokers[k].Valid()
      reads this, onlineBrokers[k], onlineBrokers[k].stream
    {
      onlineBrokers[k].connected && event.Some? && onlineBrokers[k].stream.accepting
    }

    // ----- the online list -----

    method Set(bk: Broker)
      requires Valid()
      modifies this`onlineBrokers, this`online, this`overstayProcess, this`currentSend
      ensures Valid() && onlineBrokers == SetAsWritten(old(onlineBrokers), bk)
      ensures online && !overstayProcess && currentSend == 0
    {
      var next: seq<Broker> := [];
      for i := 0 to |onlineBrokers|
        invariant onlineBrokers == old(onlineBrokers)
        invariant next == Copies(bk, |Without(onlineBrokers[..i], bk.id)|)
      {
        WithoutAppend(onlineBrokers[..i], [onlineBrokers[i]], bk.id);
        assert onlineBrokers[..i + 1] == onlineBrokers[..i] + [onlineBrokers[i]];
        if onlineBrokers[i].id != bk.id {
          next := next + [bk];
        }
      }
      assert onlineBrokers[..|onlineBrokers|] == onlineBrokers;
      next := next + [bk];
      onlineBrokers := next;
      online := true;
      overstayProcess := false;
      currentSend := 0;
    }

    method Delete(id: string)
      requires Valid()
      modifies this`onlineBrokers, this`online, this`currentSend
      ensures Valid() && onlineBrokers == Without(old(onlineBrokers), id) && currentSend == 0
    {
      var next: seq<Broker> := [];
      for i := 0 to |onlineBrokers|
        invariant onlineBrokers == old(onlineBrokers)
        invariant next == Without(onlineBrokers[..i], id)
      {
        WithoutAppend(onlineBrokers[..i], [onlineBrokers[i]], id);
        assert onlineBrokers[..i + 1] == onlineBrokers[..i] + [onlineBrokers[i]];
        if onlineBrokers[i].id != id {
          next := next + [onlineBrokers[i]];
        }
      }
      assert onlineBrokers[..|onlineBrokers|] == onlineBrokers;
      onlineBrokers := next;
      online := |next| > 0;
      currentSend := 0;
    }

    /** A broker that is no longer in the store is ignored. */
    method Connect(store: BrokerStore.Store, id: string)
      requires Valid() && store.Valid()
      modifies this`onlineBrokers, this`online, this`overstayProcess, this`currentSend
      ensures Valid()
      ensures id in store.brokers ==>
        && onlineBrokers == SetAsWritten(old(onlineBrokers), store.brokers[id])
        && online && !overstayProcess && currentSend == 0
      ensures id !in store.brokers ==>
        && onlineBrokers == old(onlineBrokers) && currentSend == old(currentSend)
        && online == old(online) && overstayProcess == old(overstayProcess)
    {
      var r := store.Get(id);
      if r.Some? {
        Set(r.value);
      }
    }

    // ----- choosing a broker -----

    /** No index is out of range; the pick is the entry the old ticket selects. */
    method NextBroker() returns (r: Result<Broker, ClientError>)
      requires Valid()
      modifies this`currentSend
      ensures Valid()
      ensures r.Err? <==> onlineBrokers == []
      ensures r.Ok? ==>
        && r.value == onlineBrokers[old(currentSend) % |onlineBrokers|]
        && currentSend == Bump(old(currentSend))
      ensures r.Err? ==> currentSend == old(currentSend)
    {
      if !online {
        return Err(ClientNotConnected);
      }
      var n := |onlineBrokers|;
      if n == 0 {
        return Err(ClientNotConnected);
      }
      TicketBefore(currentSend);
      currentSend := (currentSend + 1) % TWO64;
      var idx := (currentSend + TWO64 - 1) % TWO64 % n;
      return Ok(onlineBrokers[idx]);
    }

    /** entries lists, per entry, its stream and whether it would accept the event. */
    ghost predicate Describes(entries: seq<(Stream?, bool)>, event: Option<Message>)
      requires BrokersValid()
      reads this, onlineBrokers, Streams()
    {
      && |entries| == |onlineBrokers|
      && forall k :: 0 <= k < |entries| ==> entries[k] == (onlineBrokers[k].stream, Accepts(k, event))
    }

    /** One attempt of send, on the list that entries describes: it fails, transmits or is
        refused as Try says of what it finds, and transmits to the accepting stream only. */
    method Attempt(event: Option<Message>, ghost entries: seq<(Stream?, bool)>)
      returns (r: Result<bool, ClientError>)
      requires Valid() && BrokersValid() && Describes(entries, event)
      modifies this`currentSend, Streams()`sent
      ensures Valid()
      ensures r.Err? <==> entries == []
      ensures r.Ok? ==> (r.value <==> entries[old(currentSend) % |entries|].1)
      ensures Try(At(old(currentSend), entries)) ==
        if r.Err? then NoBroker
        else if r.value then Accepted(entries[old(currentSend) % |entries|].0)
        else Refused
      ensures r.Ok? ==> currentSend == Bump(old(currentSend))
      ensures r == Ok(true) ==> SentOnly(old(currentSend) % |entries|, event)
      ensures r != Ok(true) ==> forall t :: t in Streams() ==> t.sent == old(t.sent)
    {
      var b := NextBroker();
      if b.Err? {
        return Err(b.error);
      }
      var e := b.value.Send(event);
      return Ok(e.None?);
    }

    /** send, cut off after fuel attempts, while the list stays as entries describes it: it
        fails exactly when no broker is online, and otherwise runs the recursion of Tries. On
        success exactly one stream of the list, that of an accepting entry, has got exactly
        the event; in all other cases none has got anything. */
    method Send(event: Option<Message>, fuel: nat, ghost entries: seq<(Stream?, bool)>)
      returns (r: Sending, tries: nat, ghost entry: nat)
      requires Valid() && BrokersValid() && Describes(entries, event)
      modifies this`currentSend, Streams()`sent
      ensures Valid()
      ensures r == Sent ==> SentOnly(entry, event) && entries[entry].1
      ensures r != Sent ==> forall t :: t in Streams() ==> t.sent == old(t.sent)
      ensures r == Failed <==> fuel > 0 && onlineBrokers == []
      ensures onlineBrokers != [] ==>
        Tries(old(currentSend), fuel, Answers(entries)) == if r == Sent then Some(tries) else None
      decreases fuel
    {
      if fuel == 0 {
        return StillTrying, 0, 0;
      }
      var a := Attempt(event, entries);
      if a.Err? {
        return Failed, 0, 0;
      }
      if a.value {
        return Sent, 1, old(currentSend) % |entries|;
      }
      r, tries, entry := Send(event, fuel - 1, entries);
      tries := tries + 1;
    }

    /** Since the old state, the stream of entry k got the event and no other stream of the
        list got anything. */
    twostate predicate SentOnly(k: int, event: Option<Message>)
      reads this, onlineBrokers, Streams()
    {
      && 0 <= k < |onlineBrokers| && event.Some?
      && var s := onlineBrokers[k].stream;
      && s != null && old(allocated(s)) && s.sent == old(s.sent) + [event.value]
      && forall t :: t in Streams() && t != s ==> old(allocated(t)) && t.sent == old(t.sent)
    }

    // ----- the reconnect flags -----

    /** The signal to the reset goroutine is due when a reset runs and no broker is online. */
    method Disconnect(id: string) returns (signal: bool)
      requires Valid()
      modifies this`onlineBrokers, this`online, this`currentSend
      ensures Valid() && onlineBrokers == Without(old(onlineBrokers), id) && currentSend == 0
      ensures signal <==> Reconnect.SignalDue(resetProcess, onlineBrokers != [])
      ensures signal <==> resetProcess && onlineBrokers == []
    {
      Delete(id);
      if (resetProcess && online) || !resetProcess {
        return false;
      }
      return true;
    }

    /** reset: a second call while the first is still running is ignored. */
    method Reset() returns (spawned: bool)
      modifies this`resetProcess
      ensures resetProcess && (spawned <==> !old(resetProcess))
      ensures spawned <==> Reconnect.ResetStarts(old(resetProcess))
    {
      if resetProcess {
        return false;
      }
      resetProcess := true;
      return true;
    }

    /** owerstaying, up to its sleep. */
    method EnterOverstay() returns (entered: bool)
      requires Valid()
      modifies this`overstayProcess
      ensures entered <==> !resetProcess && onlineBrokers == [] && !old(overstayProcess)
      ensures entered <==> Reconnect.OverstayStarts(resetProcess, onlineBrokers != [], old(overstayProcess))
      ensures overstayProcess == (old(overstayProcess) || entered)
    {
      if resetProcess || online || overstayProcess {
        return false;
      }
      overstayProcess := true;
      return true;
    }
  }
}
