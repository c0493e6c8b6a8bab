/** sub/sub.go and sub/store.go, called by one goroutine at a time: the two-level store of
    handlers refines a plain table from event name to ordered handlers. */
module Subscriptions {

  /** One subscription; cb stands for the callback. */
  datatype Handler<+F> = Handler(id: string, cb: F)

  type Table<F> = map<string, seq<Handler<F>>>

  /** The handlers without those of id, in order. */
  function Drop<F>(hs: seq<Handler<F>>, id: string): seq<Handler<F>> {
    if hs == [] then []
    else (if hs[0].id == id then [] else [hs[0]]) + Drop(hs[1..], id)
  }

  lemma {:induction false} DropAppend<F>(a: seq<Handler<F>>, b: seq<Handler<F>>, id: string)
    ensures Drop(a + b, id) == Drop(a, id) + Drop(b, id)
  {
    if a == [] {
      assert a + b == b;
    } else {
      assert (a + b)[1..] == a[1..] + b;
      DropAppend(a[1..], b, id);
    }
  }

  class Sub<F> {
    var handlers: seq<Handler<F>>

    constructor ()
      ensures handlers == []
    {
      handlers := [];
    }

    method Register(id: string, cb: F)
      modifies this
      ensures handlers == old(handlers) + [Handler(id, cb)]
    {
      handlers := handlers + [Handler(id, cb)];
    }

    method Unregister(id: string) returns (empty: bool)
      modifies this
      ensures handlers == Drop(old(handlers), id)
      ensures empty <==> handlers == []
    {
      var kept: seq<Handler<F>> := [];
      for i := 0 to |handlers|
        invariant handlers == old(handlers)
        invariant kept == Drop(handlers[..i], id)
      {
        DropAppend(handlers[..i], [handlers[i]], id);
        assert handlers[..i + 1] == handlers[..i] + [handlers[i]];
        if handlers[i].id != id {
          kept := kept + [handlers[i]];
        }
      }
      assert handlers[..|handlers|] == handlers;
      handlers := kept;
      empty := |handlers| == 0;
    }

    /** The callbacks that are started, one goroutine each, in this order. */
    method Recv() returns (started: seq<F>)
      ensures |started| == |handlers|
      ensures forall i :: 0 <= i < |handlers| ==> started[i] == handlers[i].cb
    {
      started := [];
      for i := 0 to |handlers|
        invariant |started| == i
        invariant forall j :: 0 <= j < i ==> started[j] == handlers[j].cb
      {
        started := started + [handlers[i].cb];
      }
    }
  }

  function Lookup<F>(t: Table<F>, name: string): seq<Handler<F>> {
    if name in t then t[name] else []
  }

  /** A table that differs from t for name only, where the new handler comes last. */
  lemma AddIsUpdate<F>(t: Table<F>, t': Table<F>, name: string, id: string, fn: F)
    requires t'.Keys == t.Keys + {name}
    requires forall n :: n in t && n != name ==> t'[n] == t[n]
    requires t'[name] == Lookup(t, name) + [Handler(id, fn)]
    ensures t' == Step(t, Add(name, id, fn))
  {
  }

  class Store<F> {
    var list: map<string, Sub<F>>

    constructor ()
      ensures Valid() && Contents() == map[]
    {
      list := map[];
    }

    /** Names do not share a Sub, and no name maps to a Sub without handlers. */
    ghost predicate Valid()
      reads this, list.Values
    {
      && (forall m, n :: m in list && n in list && m != n ==> list[m] != list[n])
      && (forall n :: n in list ==> list[n].handlers != [])
    }

    ghost function Contents(): Table<F>
      reads this, list.Values
    {
      map n | n in list :: list[n].handlers
    }

    /** The name has a Sub. */
    method RegisterAgain(name: string, fn: F, id: string)
      requires Valid() && name in list
      modifies list[name]
      ensures Valid() && Contents() == Step(old(Contents()), Add(name, id, fn))
    {
      ghost var before := Contents();
      list[name].Register(id, fn);
      assert forall n :: n in list && n != name ==> list[n] != list[name] && list[n].handlers == before[n];
      AddIsUpdate(before, Contents(), name, id, fn);
    }

    /** The name gets a Sub. */
    method RegisterFirst(name: string, fn: F, id: string)
      requires Valid() && name !in list
      modifies this
      ensures Valid() && Contents() == Step(old(Contents()), Add(name, id, fn))
    {
      ghost var before := Contents();
      var ss := new Sub<F>();
      ss.Register(id, fn);
      assert forall n :: n in list ==> list[n] != ss && list[n].handlers == before[n];
      list := list[name := ss];
      AddIsUpdate(before, Contents(), name, id, fn);
    }

    /** id is the identifier that the source draws. */
    method Register(name: string, fn: F, id: string)
      requires Valid()
      modifies this, if name in list then {list[name]} else {}
      ensures Valid() && Contents() == Step(old(Contents()), Add(name, id, fn))
    {
      if name in list {
        RegisterAgain(name, fn, id);
      } else {
        RegisterFirst(name, fn, id);
      }
    }

    method Unregister(name: string, id: string)
      requires Valid()
      modifies this, if name in list then {list[name]} else {}
      ensures Valid() && Contents() == Step(old(Contents()), Remove(name, id))
    {
      if name !in list {
        return;
      }
      var empty := list[name].Unregister(id);
      if empty {
        list := list - {name};
      }
    }

    /** Exactly the handlers of the event's name run, once each, in registration order. */
    method Recv(name: string) returns (started: seq<F>)
      requires Valid()
      ensures |started| == |Lookup(Contents(), name)|
      ensures forall i :: 0 <= i < |started| ==> started[i] == Lookup(Contents(), name)[i].cb
    {
      if name !in list {
        return [];
      }
      started := list[name].Recv();
    }
  }

  // ----- whole call sequences -----

  datatype Call<+F> =
    | Add(name: string, id: string, fn: F)
    | Remove(name: string, id: string)

  /** The plain table; a name whose last handler goes away disappears. */
  function Step<F>(t: Table<F>, c: Call<F>): Table<F> {
    match c
    case Add(name, id, fn) => t[name := Lookup(t, name) + [Handler(id, fn)]]
    case Remove(name, id) =>
      if name !in t then t
      else if Drop(t[name], id) == [] then t - {name}
      else t[name := Drop(t[name], id)]
  }

  function Run<F>(t: Table<F>, cs: seq<Call<F>>): Table<F>
    decreases |cs|
  {
    if cs == [] then t else Run(Step(t, cs[0]), cs[1..])
  }

  predicate RemovedBy<F>(cs: seq<Call<F>>, name: string, id: string) {
    exists i :: 0 <= i < |cs| && cs[i].Remove? && cs[i].name == name && cs[i].id == id
  }

  /** The handlers that no call of cs removes. */
  function Survivors<F>(hs: seq<Handler<F>>, cs: seq<Call<F>>, name: string): seq<Handler<F>> {
    if hs == [] then []
    else (if RemovedBy(cs, name, hs[0].id) then [] else [hs[0]]) + Survivors(hs[1..], cs, name)
  }

  /** The registrations of name in cs that no later call removes, in order. */
  function Live<F>(cs: seq<Call<F>>, name: string): seq<Handler<F>> {
    if cs == [] then []
    else
      (if cs[0].Add? && cs[0].name == name && !RemovedBy(cs[1..], name, cs[0].id)
       then [Handler(cs[0].id, cs[0].fn)] else [])
      + Live(cs[1..], name)
  }

  lemma RemovedByTail<F>(cs: seq<Call<F>>, name: string, id: string)
    requires cs != []
    ensures RemovedBy(cs, name, id) <==>
      (cs[0].Remove? && cs[0].name == name && cs[0].id == id) || RemovedBy(cs[1..], name, id)
  {
    if RemovedBy(cs[1..], name, id) {
      var i :| 0 <= i < |cs[1..]| && cs[1..][i].Remove? && cs[1..][i].name == name && cs[1..][i].id == id;
      assert cs[i + 1] == cs[1..][i];
    }
    if RemovedBy(cs, name, id) {
      var i :| 0 <= i < |cs| && cs[i].Remove? && cs[i].name == name && cs[i].id == id;
      assert i > 0 ==> cs[1..][i - 1] == cs[i];
    }
  }

  lemma {:induction false} SurvivorsTail<F>(hs: seq<Handler<F>>, cs: seq<Call<F>>, name: string)
    requires cs != []
    ensures Survivors(hs, cs, name) ==
      if cs[0].Remove? && cs[0].name == name then Survivors(Drop(hs, cs[0].id), cs[1..], name)
      else Survivors(hs, cs[1..], name)
  {
    if hs == [] {
    } else {
      RemovedByTail(cs, name, hs[0].id);
      SurvivorsTail(hs[1..], cs, name);
      if cs[0].Remove? && cs[0].name == name {
        var kept := Drop(hs[1..], cs[0].id);
        assert ([hs[0]] + kept)[1..] == kept;
        assert [] + kept == kept;
      }
    }
  }

  lemma {:induction false} SurvivorsAppend<F>(a: seq<Handler<F>>, b: seq<Handler<F>>, cs: seq<Call<F>>, name: string)
    ensures Survivors(a + b, cs, name) == Survivors(a, cs, name) + Survivors(b, cs, name)
  {
    if a == [] {
      assert a + b == b;
    } else {
      assert (a + b)[1..] == a[1..] + b;
      SurvivorsAppend(a[1..], b, cs, name);
    }
  }

  lemma {:induction false} SurvivorsNone<F>(hs: seq<Handler<F>>, name: string)
    ensures Survivors(hs, [], name) == hs
  {
    if hs == [] {
    } else {
      SurvivorsNone(hs[1..], name);
    }
  }

  /** The handlers of name after one call. */
  lemma LookupStep<F>(t: Table<F>, c: Call<F>, name: string)
    ensures Lookup(Step(t, c), name) ==
      if c.name != name then Lookup(t, name)
      else if c.Add? then Lookup(t, name) + [Handler(c.id, c.fn)]
      else Drop(Lookup(t, name), c.id)
  {
  }

  lemma SurvivesAlone<F>(h: Handler<F>, cs: seq<Call<F>>, name: string)
    ensures Survivors([h], cs, name) == if RemovedBy(cs, name, h.id) then [] else [h]
  {
    assert [h][1..] == [];
    assert Survivors([h][1..], cs, name) == [];
  }

  lemma LiveFirst<F>(cs: seq<Call<F>>, name: string)
    requires cs != []
    ensures Live(cs, name) ==
      (if cs[0].Add? && cs[0].name == name then Survivors([Handler(cs[0].id, cs[0].fn)], cs[1..], name) else [])
      + Live(cs[1..], name)
  {
    if cs[0].Add? {
      SurvivesAlone(Handler(cs[0].id, cs[0].fn), cs[1..], name);
    }
  }

  lemma HistoryStep<F>(t: Table<F>, cs: seq<Call<F>>, name: string)
    requires cs != []
    ensures Survivors(Lookup(Step(t, cs[0]), name), cs[1..], name) + Live(cs[1..], name)
         == Survivors(Lookup(t, name), cs, name) + Live(cs, name)
  {
    LookupStep(t, cs[0], name);
    LiveFirst(cs, name);
    SurvivorsStep(Lookup(t, name), cs, name);
  }

  lemma SurvivorsStep<F>(hs: seq<Handler<F>>, cs: seq<Call<F>>, name: string)
    requires cs != []
    ensures var c, rest := cs[0], cs[1..];
      c.name != name ==> Survivors(hs, cs, name) == Survivors(hs, rest, name)
    ensures var c, rest := cs[0], cs[1..];
      c.name == name && c.Remove? ==> Survivors(hs, cs, name) == Survivors(Drop(hs, c.id), rest, name)
    ensures var c, rest := cs[0], cs[1..];
      c.name == name && c.Add? ==>
        Survivors(hs + [Handler(c.id, c.fn)], rest, name)
        == Survivors(hs, cs, name) + Survivors([Handler(c.id, c.fn)], rest, name)
  {
    SurvivorsTail(hs, cs, name);
    if cs[0].Add? {
      SurvivorsAppend(hs, [Handler(cs[0].id, cs[0].fn)], cs[1..], name);
    }
  }

  /** After any calls the table holds, for every name, what was there and was not removed,
      followed by the registrations made since and not removed, in order. */
  lemma {:induction false} RunIsHistory<F>(t: Table<F>, cs: seq<Call<F>>, name: string)
    ensures Lookup(Run(t, cs), name) == Survivors(Lookup(t, name), cs, name) + Live(cs, name)
    decreases |cs|
  {
    if cs == [] {
      SurvivorsNone(Lookup(t, name), name);
    } else {
      RunIsHistory(Step(t, cs[0]), cs[1..], name);
      HistoryStep(t, cs, name);
    }
  }

  /** From the empty store: exactly the live registrations of a name, in order. */
  lemma StoreIsLive<F>(cs: seq<Call<F>>, name: string)
    ensures Lookup(Run(map[], cs), name) == Live(cs, name)
  {
    RunIsHistory(map[], cs, name);
  }

  /** No name ever maps to an empty list of handlers. */
  lemma {:induction false} NoEmptyEntry<F>(t: Table<F>, cs: seq<Call<F>>)
    requires forall n :: n in t ==> t[n] != []
    ensures forall n :: n in Run(t, cs) ==> Run(t, cs)[n] != []
    decreases |cs|
  {
    if cs == [] {
    } else {
      NoEmptyEntry(Step(t, cs[0]), cs[1..]);
    }
  }

  /** A removal touches nothing but the handlers of its id under its name. */
  lemma RemoveIsLocal<F>(t: Table<F>, name: string, id: string, other: string, k: nat)
    requires k < |Lookup(t, other)| && (other != name || Lookup(t, other)[k].id != id)
    ensures Lookup(t, other)[k] in Lookup(Step(t, Remove(name, id)), other)
  {
    if other == name {
      KeptByDrop(t[name], id, k);
    }
  }

  lemma {:induction false} KeptByDrop<F>(hs: seq<Handler<F>>, id: string, k: nat)
    requires k < |hs| && hs[k].id != id
    ensures hs[k] in Drop(hs, id)
  {
    if k == 0 {
    } else {
      KeptByDrop(hs[1..], id, k - 1);
    }
  }
}
