/** broker/store.go: the brokers known to the client, by id. */
module BrokerStore {
  import opened Wrappers
  import opened BrokerLink

  class Store {
    var brokers: map<string, Broker>

    constructor ()
      ensures Valid() && brokers == map[]
    {
      brokers := map[];
    }

    /** Every broker is filed under its own id, which is what Done relies on. */
    ghost predicate Valid()
      reads this
    {
      forall k :: k in brokers ==> brokers[k].id == k
    }

    ghost function Contexts(): set<object>
      reads this, brokers.Values
    {
      set b | b in brokers.Values && b.context != null :: b.context
    }

    method Set(broker: Broker)
      requires Valid()
      modifies this
      ensures Valid() && brokers == old(brokers)[broker.id := broker]
    {
      brokers := brokers[broker.id := broker];
    }

    method Get(id: string) returns (r: Option<Broker>)
      requires Valid()
      ensures r == None <==> id !in brokers
      ensures r.Some? ==> r.value == brokers[id] && r.value.id == id
    {
      r := if id in brokers then Some(brokers[id]) else None;
    }

    /** The range loop of the source deletes the entry of bk.ID while it iterates; pending
        holds the keys the iteration has not produced yet, and those already deleted are
        not produced. */
    method Done()
      requires Valid()
      modifies this, Contexts()
      ensures Valid() && brokers == map[]
      ensures forall k :: k in old(brokers) && old(brokers)[k].context != null ==>
        old(brokers)[k].context.cancelled
      ensures forall k :: k in old(brokers) ==> unchanged(old(brokers)[k])
    {
      var pending := brokers.Keys;
      while pending != {}
        invariant Valid() && brokers.Keys == pending && pending <= old(brokers).Keys
        invariant forall k :: k in brokers ==> brokers[k] == old(brokers)[k]
        invariant forall k :: k in old(brokers).Keys - pending && old(brokers)[k].context != null ==>
          old(brokers)[k].context.cancelled
        decreases |pending|
      {
        var k :| k in pending;
        pending := pending - {k};
        var bk := brokers[k];
        bk.Done();
        brokers := brokers - {bk.id};
      }
    }
  }
}
