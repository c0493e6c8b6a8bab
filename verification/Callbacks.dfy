/** callback/callback.go: waiting channels, keyed by the string "event:id". */
module Callbacks {
  import opened Wrappers
  import opened Proto

  /** fmt.Sprintf("%s:%s", event, id). */
  function Key(event: string, id: string): string {
    event + ":" + id
  }

  predicate ColonFree(s: string) {
    ':' !in s
  }

  /** For identifiers without a colon, as UUIDs are, equal keys mean equal events and equal
      identifiers, whatever the event names contain. */
  lemma KeyIsUnambiguous(e1: string, i1: string, e2: string, i2: string)
    requires ColonFree(i1) && ColonFree(i2)
    ensures Key(e1, i1) == Key(e2, i2) <==> e1 == e2 && i1 == i2
  {
    if Key(e1, i1) == Key(e2, i2) {
      var k := Key(e1, i1);
      assert k[|e1|] == ':' && k[|e2|] == ':';
      assert forall j :: 0 <= j < |i1| ==> k[|e1| + 1 + j] == i1[j];
      assert forall j :: 0 <= j < |i2| ==> k[|e2| + 1 + j] == i2[j];
      assert |e1| == |e2|;
      assert e1 == k[..|e1|] && e2 == k[..|e2|];
      assert i1 == k[|e1| + 1..] && i2 == k[|e2| + 1..];
    }
  }

  /** A message under the key of a colon-free id is for that event and that id exactly when
      its own SubId has no colon either. */
  lemma KeyNamesPairExactly(event: string, id: string, name: string, subId: string)
    requires ColonFree(id) && Key(name, subId) == Key(event, id)
    ensures name == event && subId == id <==> ColonFree(subId)
  {
    if ColonFree(subId) {
      KeyIsUnambiguous(event, id, name, subId);
    }
  }

  /** C stands for the channels. */
  class Callback<C> {
    var list: map<string, C>

    constructor ()
      ensures list == map[]
    {
      list := map[];
    }

    method Register(event: string, id: string, cb: C)
      modifies this
      ensures list == old(list)[Key(event, id) := cb]
    {
      var cbId := event + ":" + id;
      list := list[cbId := cb];
    }

    method Unregister(event: string, id: string)
      modifies this
      ensures list == old(list) - {Key(event, id)}
    {
      var cbId := event + ":" + id;
      list := list - {cbId};
    }

    /** The pending send that the message starts, if any: the message, on this channel. */
    method Recv(msg: Message) returns (send: Option<(C, Message)>)
      ensures send == None <==> Key(msg.name, msg.subId) !in list
      ensures send.Some? ==> send.value == (list[Key(msg.name, msg.subId)], msg)
    {
      var cbId := msg.name + ":" + msg.subId;
      if cbId !in list {
        return None;
      }
      return Some((list[cbId], msg));
    }
  }

  // ----- the table keyed by pairs -----

  type Pairs<C> = map<(string, string), C>

  /** list holds exactly the entries of the pair-keyed table, under their string keys. */
  ghost predicate Represents<C>(list: map<string, C>, pairs: Pairs<C>) {
    && (forall p :: p in pairs ==> ColonFree(p.1) && Key(p.0, p.1) in list && list[Key(p.0, p.1)] == pairs[p])
    && (forall k :: k in list ==> exists p :: p in pairs && k == Key(p.0, p.1))
  }

  /** Registering, unregistering and looking up by string key is the same as by pair. */
  lemma KeysRefinePairs<C>(list: map<string, C>, pairs: Pairs<C>, event: string, id: string, cb: C)
    requires Represents(list, pairs) && ColonFree(id)
    ensures Represents(list[Key(event, id) := cb], pairs[(event, id) := cb])
    ensures Represents(list - {Key(event, id)}, pairs - {(event, id)})
    ensures Key(event, id) in list <==> (event, id) in pairs
    ensures Key(event, id) in list ==> list[Key(event, id)] == pairs[(event, id)]
  {
    forall p | p in pairs
      ensures Key(p.0, p.1) == Key(event, id) <==> p == (event, id)
    {
      KeyIsUnambiguous(p.0, p.1, event, id);
    }
    var list', added := list[Key(event, id) := cb], pairs[(event, id) := cb];
    forall k | k in list'
      ensures exists p :: p in added && k == Key(p.0, p.1)
    {
      if k == Key(event, id) {
        assert (event, id) in added;
      } else {
        var p :| p in pairs && k == Key(p.0, p.1);
        assert p in added;
      }
    }
    var removed := pairs - {(event, id)};
    forall k | k in list - {Key(event, id)}
      ensures exists p :: p in removed && k == Key(p.0, p.1)
    {
      var p :| p in pairs && k == Key(p.0, p.1);
      assert p in removed;
    }
  }
}
