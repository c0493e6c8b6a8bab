/** The broker objects of one id. Every client Start makes a new object, stores it and starts
    it (client/client.go:188-202), while the Starts of earlier objects may still be around.
    All of them put the id on the online list and take it off by its name, and what is put
    there is whatever object the store holds (client/client.go:247-253). */
module BrokerObjects {
  import opened Wrappers
  import StartOverlap

  /** An object, and what its ConnectFunc has found in the store and is about to list. The
      object's lock is held meanwhile (broker/broker.go:177-183). */
  datatype Object = Object(life: StartOverlap.State, connecting: Option<nat>)

  datatype State = State(
    objects: seq<Object>,
    stored: Option<nat>,  // the object that the store has for the id
    entry: Option<nat>,   // the object that the online list has for the id
    crashed: bool)

  const INIT := State([], None, None, false)

  datatype Event =
    | Created                                // a client Start stores a new object
    | StoreDone                              // Store.Done cancels the stored object and drops it
    | Step(o: nat, e: StartOverlap.Event)    // a step of the object o; "_.ready" looks into the store
    | Lists(o: nat)                          // the ConnectFunc of o: set, with what was found
    | Rebuilt                                // a broker of another id connects: set, as written, drops this one

  predicate Enabled(s: State, e: Event) {
    !s.crashed
    && match e
       case Created => true
       case StoreDone =>
         s.stored.Some? && s.stored.value < |s.objects| && s.objects[s.stored.value].connecting.None?
         && !s.objects[s.stored.value].life.crashed
       case Step(o, e) =>
         o < |s.objects| && !e.Done? && StartOverlap.Enabled(s.objects[o].life, e)
         && (s.objects[o].connecting.Some? ==> e.Returns? || e.Disconnects?)
       case Lists(o) => o < |s.objects| && s.objects[o].connecting.Some?
       case Rebuilt => true
  }

  /** Broker.Done; before its first Start an object has no context to cancel. */
  function Cancelled(l: StartOverlap.State): StartOverlap.State
    requires !l.crashed
  {
    if l.starts == [] then l else StartOverlap.Apply(l, StartOverlap.Done)
  }

  function Stepped(ob: Object, e: StartOverlap.Event, stored: Option<nat>): Object
    requires StartOverlap.Enabled(ob.life, e)
  {
    Object(StartOverlap.Apply(ob.life, e), if e.GotReady? then stored else ob.connecting)
  }

  function Apply(s: State, e: Event): State
    requires Enabled(s, e)
  {
    match e
    case Created =>
      s.(objects := s.objects + [Object(StartOverlap.NEW, None)], stored := Some(|s.objects|))
    case StoreDone =>
      var x := s.stored.value;
      s.(objects := s.objects[x := Object(Cancelled(s.objects[x].life), None)], stored := None)
    case Step(o, e) =>
      var ob := Stepped(s.objects[o], e, s.stored);
      State(s.objects[o := ob], s.stored, if e.Disconnects? then None else s.entry, ob.life.crashed)
    case Lists(o) =>
      s.(objects := s.objects[o := s.objects[o].(connecting := None)], entry := s.objects[o].connecting)
    case Rebuilt => s.(entry := None)
  }

  ghost predicate StepAt(ss: seq<State>, es: seq<Event>, k: nat)
    requires k < |es| < |ss|
  {
    Enabled(ss[k], es[k]) && ss[k + 1] == Apply(ss[k], es[k])
  }

  /** ss are the states before, between and after the events es. */
  ghost predicate IsPath(ss: seq<State>, es: seq<Event>) {
    |ss| == |es| + 1 && forall k :: 0 <= k < |es| ==> StepAt(ss, es, k)
  }

  ghost predicate IsRun(ss: seq<State>, es: seq<Event>) {
    IsPath(ss, es) && ss[0] == INIT
  }

  // ----- what every step keeps -----

  /** While an object connects, its newest Start reads and is connected. */
  ghost predicate ObjectFits(s: State, o: nat)
    requires o < |s.objects|
  {
    var ob := s.objects[o];
    && StartOverlap.Inv(ob.life) && (ob.life.crashed ==> s.crashed)
    && (ob.connecting.Some? ==>
          ob.connecting.value < |s.objects| && StartOverlap.ConnectedOnNewest(ob.life)
          && ob.life.starts[|ob.life.starts| - 1].driver == StartOverlap.Reading)
  }

  ghost predicate Inv(s: State) {
    && (forall o :: 0 <= o < |s.objects| ==> ObjectFits(s, o))
    && (s.stored.Some? ==> s.stored.value < |s.objects|)
    && (s.entry.Some? ==> s.entry.value < |s.objects|)
  }

  /** Every object's own part of a step is a step of its Starts, or none. */
  lemma StepOfObject(s: State, e: Event, o: nat)
    requires Inv(s) && Enabled(s, e) && o < |s.objects|
    ensures |s.objects| <= |Apply(s, e).objects|
    ensures StartOverlap.Inv(Apply(s, e).objects[o].life)
  {
    assert ObjectFits(s, o);
    if e.Step? && e.o == o {
      StartOverlap.StepKeepsInv(s.objects[o].life, e.e);
    } else if e.StoreDone? && s.stored.value == o && s.objects[o].life.starts != [] {
      StartOverlap.StepKeepsInv(s.objects[o].life, StartOverlap.Done);
    }
  }

  lemma StepKeepsObject(s: State, e: Event, o: nat)
    requires Inv(s) && Enabled(s, e) && o < |Apply(s, e).objects|
    ensures ObjectFits(Apply(s, e), o)
  {
    if o < |s.objects| {
      StepOfObject(s, e, o);
      assert ObjectFits(s, o);
      if e.Step? && e.o == o {
        ReadyConnects(s.objects[o].life, e.e);
      }
    }
  }

  /** Only the newest Start receives, and "_.ready" connects on it; the steps that are allowed
      while the lock is held change neither the link nor the newest Start's reading. */
  lemma ReadyConnects(l: StartOverlap.State, e: StartOverlap.Event)
    requires StartOverlap.Inv(l) && StartOverlap.Enabled(l, e)
    ensures var l' := StartOverlap.Apply(l, e);
      && (e.GotReady? ==> StartOverlap.ConnectedOnNewest(l') && l'.starts == l.starts && e.i == |l.starts| - 1)
      && (e.Returns? || e.Disconnects? ==>
            && l'.link == l.link && |l'.starts| == |l.starts| && !l'.crashed
            && (l.starts != [] ==> l'.starts[|l.starts| - 1].driver == l.starts[|l.starts| - 1].driver))
  {
    StartOverlap.NewestReceives(l, e);
    if e.GotReady? {
      assert StartOverlap.Apply(l, e).starts == l.starts;
    }
  }

  lemma StepKeepsInv(s: State, e: Event)
    requires Inv(s) && Enabled(s, e)
    ensures Inv(Apply(s, e))
  {
    forall o | 0 <= o < |Apply(s, e).objects|
      ensures ObjectFits(Apply(s, e), o)
    {
      StepKeepsObject(s, e, o);
    }
    if e.Lists? {
      assert ObjectFits(s, e.o);
    }
  }

  lemma {:induction false} InvAt(ss: seq<State>, es: seq<Event>, k: nat)
    requires IsPath(ss, es) && Inv(ss[0]) && k <= |es|
    ensures Inv(ss[k])
  {
    if k == 0 {
    } else {
      InvAt(ss, es, k - 1);
      assert StepAt(ss, es, k - 1);
      StepKeepsInv(ss[k - 1], es[k - 1]);
    }
  }

  // ----- connected, stored and listed over whole runs -----

  predicate IsReady(e: Event, x: nat) {
    e.Step? && e.o == x && e.e.GotReady?
  }

  predicate IsEnd(e: Event, x: nat) {
    e.Step? && e.o == x && e.e.End?
  }

  /** The step j is the last "_.ready" of x before k, and no epilogue of x has run since. */
  predicate LatestReady(es: seq<Event>, k: nat, x: nat, j: int)
    requires k <= |es|
  {
    0 <= j < k && IsReady(es[j], x) && forall n :: j < n < k ==> !IsReady(es[n], x) && !IsEnd(es[n], x)
  }

  predicate Connected(s: State, x: nat) {
    x < |s.objects| && s.objects[x].life.link.connected
  }

  lemma LatestReadyNext(es: seq<Event>, k: nat, x: nat)
    requires 0 < k <= |es| && !IsReady(es[k - 1], x)
    ensures forall j :: LatestReady(es, k, x, j) <==> LatestReady(es, k - 1, x, j) && !IsEnd(es[k - 1], x)
  {
  }

  lemma StepConnected(s: State, e: Event, x: nat)
    requires Enabled(s, e)
    ensures Connected(Apply(s, e), x) <==> IsReady(e, x) || (Connected(s, x) && !IsEnd(e, x))
  {
  }

  lemma {:induction false} ConnectedIsHistory(ss: seq<State>, es: seq<Event>, k: nat, x: nat)
    requires IsRun(ss, es) && k <= |es|
    ensures Connected(ss[k], x) <==> exists j :: LatestReady(es, k, x, j)
  {
    if k == 0 {
    } else {
      ConnectedIsHistory(ss, es, k - 1, x);
      assert StepAt(ss, es, k - 1);
      StepConnected(ss[k - 1], es[k - 1], x);
      if IsReady(es[k - 1], x) {
        assert LatestReady(es, k, x, k - 1);
      } else {
        LatestReadyNext(es, k, x);
        if Connected(ss[k - 1], x) {
          var j :| LatestReady(es, k - 1, x, j);
          assert !IsEnd(es[k - 1], x) ==> LatestReady(es, k, x, j);
        }
      }
    }
  }

  /** The step c made the object x, and the store has held it since. */
  ghost predicate StoredSince(ss: seq<State>, es: seq<Event>, k: nat, x: nat, c: int)
    requires k <= |es| < |ss|
  {
    && 0 <= c < k && es[c].Created? && |ss[c].objects| == x
    && forall n :: c < n < k ==> !es[n].Created? && !es[n].StoreDone?
  }

  /** After any run the store holds exactly the object of the last client Start, unless
      Store.Done came after it. */
  lemma {:induction false} StoredIsHistory(ss: seq<State>, es: seq<Event>, k: nat, x: nat)
    requires IsRun(ss, es) && k <= |es|
    ensures ss[k].stored == Some(x) <==> exists c :: StoredSince(ss, es, k, x, c)
  {
    if k == 0 {
    } else {
      StoredIsHistory(ss, es, k - 1, x);
      var e := es[k - 1];
      assert StepAt(ss, es, k - 1);
      if e.Created? {
        assert |ss[k - 1].objects| == x ==> StoredSince(ss, es, k, x, k - 1);
      } else {
        forall c
          ensures StoredSince(ss, es, k, x, c) <==> StoredSince(ss, es, k - 1, x, c) && !e.StoreDone?
        {
        }
        if ss[k - 1].stored == Some(x) && !e.StoreDone? {
          var c :| StoredSince(ss, es, k - 1, x, c);
          assert StoredSince(ss, es, k, x, c);
        }
      }
    }
  }

  /** What the ConnectFunc of o is about to list. */
  function Found(s: State, o: nat): Option<nat> {
    if o < |s.objects| then s.objects[o].connecting else None
  }

  /** The step g is the last "_.ready" of o before k. */
  predicate LastReady(es: seq<Event>, k: nat, o: nat, g: int)
    requires k <= |es|
  {
    0 <= g < k && IsReady(es[g], o) && forall n :: g < n < k ==> !IsReady(es[n], o)
  }

  /** ConnectFunc is about to list what the store held at the "_.ready". */
  lemma {:induction false} FoundAtReady(ss: seq<State>, es: seq<Event>, k: nat, o: nat) returns (g: nat)
    requires IsRun(ss, es) && k <= |es| && Found(ss[k], o).Some?
    ensures LastReady(es, k, o, g) && ss[g].stored == Found(ss[k], o)
  {
    assert k > 0;
    assert StepAt(ss, es, k - 1);
    if IsReady(es[k - 1], o) {
      g := k - 1;
    } else {
      g := FoundAtReady(ss, es, k - 1, o);
    }
  }

  predicate ChangesEntry(e: Event) {
    e.Lists? || e.Rebuilt? || (e.Step? && e.e.Disconnects?)
  }

  /** The step m listed the object x, and the list has not changed for the id since. */
  ghost predicate ListedSince(ss: seq<State>, es: seq<Event>, k: nat, x: nat, m: int)
    requires k <= |es| < |ss|
  {
    && 0 <= m < k && es[m].Lists? && Found(ss[m], es[m].o) == Some(x)
    && forall n :: m < n < k ==> !ChangesEntry(es[n])
  }

  lemma ListedSinceNext(ss: seq<State>, es: seq<Event>, k: nat, x: nat)
    requires 0 < k <= |es| < |ss| && !es[k - 1].Lists?
    ensures forall m :: ListedSince(ss, es, k, x, m) <==>
                        ListedSince(ss, es, k - 1, x, m) && !ChangesEntry(es[k - 1])
  {
  }

  /** After any run the object x is on the list exactly when the last change for the id was a
      ConnectFunc that had found x in the store, its own or another object's. */
  lemma {:induction false} ListedIsHistory(ss: seq<State>, es: seq<Event>, k: nat, x: nat)
    requires IsRun(ss, es) && k <= |es|
    ensures ss[k].entry == Some(x) <==> exists m :: ListedSince(ss, es, k, x, m)
  {
    if k == 0 {
    } else {
      ListedIsHistory(ss, es, k - 1, x);
      var e := es[k - 1];
      assert StepAt(ss, es, k - 1);
      if e.Lists? {
        assert Found(ss[k - 1], e.o) == Some(x) ==> ListedSince(ss, es, k, x, k - 1);
      } else {
        ListedSinceNext(ss, es, k, x);
        if ss[k - 1].entry == Some(x) {
          var m :| ListedSince(ss, es, k - 1, x, m);
          assert !ChangesEntry(e) ==> ListedSince(ss, es, k, x, m);
        }
      }
    }
  }

  // ----- when the listed object is the connected one -----

  ghost predicate Unlocking(s: State, x: nat) {
    x < |s.objects| && StartOverlap.Unlocking(s.objects[x].life)
  }

  /** The entry x is due to the "_.ready" of another object. */
  ghost predicate ListedByOther(ss: seq<State>, es: seq<Event>, k: nat, x: nat)
    requires k <= |es| < |ss|
  {
    exists m :: ListedSince(ss, es, k, x, m) && es[m].o != x
  }

  lemma UnlockingNext(s: State, e: Event, x: nat)
    requires Inv(s) && Enabled(s, e) && (Unlocking(s, x) || (Connected(s, x) && IsEnd(e, x)))
    requires !ChangesEntry(e)
    ensures Unlocking(Apply(s, e), x)
  {
    var l, l' := s.objects[x].life, Apply(s, e).objects[x].life;
    assert ObjectFits(s, x);
    if IsEnd(e, x) {
      assert l'.starts[e.e.i].epilogue == StartOverlap.Unlocked;
    } else if e.Step? && e.o == x {
      StartOverlap.UnlockingStays(l, e.e);
    } else if e.StoreDone? && l.starts != [] {
      StartOverlap.UnlockingStays(l, StartOverlap.Done);
    }
  }

  /** In every run, for any number of objects: an object that is listed without being
      connected is about to be taken off by one of its own epilogues, or another object's
      "_.ready" has listed it. */
  lemma {:induction false} ListedIsConnected(ss: seq<State>, es: seq<Event>, k: nat, x: nat)
    requires IsRun(ss, es) && k <= |es| && ss[k].entry == Some(x) && !Connected(ss[k], x)
    ensures Unlocking(ss[k], x) || ListedByOther(ss, es, k, x)
  {
    assert k > 0;
    var s, e := ss[k - 1], es[k - 1];
    assert StepAt(ss, es, k - 1);
    InvAt(ss, es, k - 1);
    StepConnected(s, e, x);
    if e.Lists? {
      assert ObjectFits(s, e.o);
      assert ListedSince(ss, es, k, x, k - 1);
    } else {
      ListedSinceNext(ss, es, k, x);
      if Connected(s, x) {
        UnlockingNext(s, e, x);
      } else {
        ListedIsConnected(ss, es, k - 1, x);
        if Unlocking(s, x) {
          UnlockingNext(s, e, x);
        } else {
          var m :| ListedSince(ss, es, k - 1, x, m) && es[m].o != x;
          assert ListedSince(ss, es, k, x, m);
        }
      }
    }
  }

  /** The last "_.ready" of x before m came when the store held x. */
  ghost predicate OwnReady(ss: seq<State>, es: seq<Event>, m: nat, x: nat)
    requires m <= |es| < |ss|
  {
    exists g, c :: LastReady(es, m, x, g) && StoredSince(ss, es, g, x, c)
  }

  lemma OwnReadyBefore(ss: seq<State>, es: seq<Event>, m: nat, x: nat)
    requires IsRun(ss, es) && m <= |es| && Found(ss[m], x) == Some(x)
    ensures OwnReady(ss, es, m, x)
  {
    var g := FoundAtReady(ss, es, m, x);
    StoredIsHistory(ss, es, g, x);
    var c :| StoredSince(ss, es, g, x, c);
    assert LastReady(es, m, x, g);
  }

  /** When "x is listed" and "x is connected" agree. If another object's "_.ready" has listed x:
      exactly if x has a "_.ready" with no epilogue after it. Otherwise, outside the windows
      between an epilogue's unlock and its DisconnectFunc: exactly if, when there is such a
      "_.ready", the list has not changed since the ConnectFunc of a "_.ready" that came while the
      store held x. So they disagree when the store no longer held x (after Store.Done), when the
      ConnectFunc is still on its way, and when something took x off since. */
  lemma ListAgreesExactly(ss: seq<State>, es: seq<Event>, k: nat, x: nat)
    requires IsRun(ss, es) && k <= |es|
    ensures ListedByOther(ss, es, k, x) ==>
      ((ss[k].entry == Some(x) <==> Connected(ss[k], x)) <==> exists j :: LatestReady(es, k, x, j))
    ensures !ListedByOther(ss, es, k, x) && !Unlocking(ss[k], x) ==>
      ((ss[k].entry == Some(x) <==> Connected(ss[k], x)) <==>
       ((exists j :: LatestReady(es, k, x, j)) ==>
        exists m :: ListedSince(ss, es, k, x, m) && es[m].o == x && OwnReady(ss, es, m, x)))
  {
    ConnectedIsHistory(ss, es, k, x);
    ListedIsHistory(ss, es, k, x);
    if ss[k].entry == Some(x) && !ListedByOther(ss, es, k, x) {
      if !Connected(ss[k], x) {
        ListedIsConnected(ss, es, k, x);
      }
      var m :| ListedSince(ss, es, k, x, m);
      assert es[m].o == x;
      OwnReadyBefore(ss, es, m, x);
    }
  }

  // ----- what is always possible -----

  /** A client Start and a rebuilt list are possible in every state, Store.Done whenever the store
      holds an object that is not just connecting, and a ConnectFunc under way ends. While it
      is under way nothing that needs the object's lock happens to the object. */
  lemma AlwaysPossible(s: State, o: nat, e: StartOverlap.Event)
    requires Inv(s) && !s.crashed && o < |s.objects|
    ensures Enabled(s, Created) && Apply(s, Created).stored == Some(|s.objects|)
    ensures Enabled(s, Rebuilt) && Apply(s, Rebuilt) == s.(entry := None)
    ensures s.stored == Some(o) ==> (Enabled(s, StoreDone) <==> s.objects[o].connecting.None?)
    ensures Enabled(s, StoreDone) ==> Apply(s, StoreDone).stored == None && Apply(s, StoreDone).entry == s.entry
    ensures Enabled(s, Lists(o)) <==> s.objects[o].connecting.Some?
    ensures s.objects[o].connecting.None? && !e.Done? ==>
      (Enabled(s, Step(o, e)) <==> StartOverlap.Enabled(s.objects[o].life, e))
    ensures s.objects[o].connecting.Some? && Enabled(s, Step(o, e)) ==> e.Returns? || e.Disconnects?
    ensures s.objects[o].connecting.Some? && (e.Returns? || e.Disconnects?) ==>
      (Enabled(s, Step(o, e)) <==> StartOverlap.Enabled(s.objects[o].life, e))
  {
    assert ObjectFits(s, o);
  }

  /** Store.Done cancels the newest Start of the stored object, and touches no other object. */
  lemma StoreDoneCancels(s: State, y: nat)
    requires Inv(s) && Enabled(s, StoreDone) && y < |s.objects|
    ensures var l, l' := s.objects[y].life, Apply(s, StoreDone).objects[y].life;
      if s.stored == Some(y) && l.starts != [] then
        l'.starts == l.starts[..|l.starts| - 1] + [l.starts[|l.starts| - 1].(cancelled := true)] && l'.link == l.link
      else
        l' == l
  {
    assert ObjectFits(s, y);
    if s.stored == Some(y) && s.objects[y].life.starts != [] {
      StartOverlap.DoneCancels(s.objects[y].life);
    }
  }

  // ----- two runs -----

  lemma Extend(ss: seq<State>, es: seq<Event>, e: Event, s: State) returns (ss': seq<State>, es': seq<Event>)
    requires IsRun(ss, es) && Enabled(ss[|es|], e)
    requires Apply(ss[|es|], e).objects == s.objects
    requires Apply(ss[|es|], e).(objects := s.objects) == s
    ensures IsRun(ss', es') && es' == es + [e] && ss' == ss + [s]
  {
    ss', es' := ss + [s], es + [e];
    forall k | 0 <= k < |es'|
      ensures StepAt(ss', es', k)
    {
      assert k < |es| ==> StepAt(ss, es, k);
    }
  }

  /** The one Start of an object reads. */
  function Reads(cancelled: bool): StartOverlap.State {
    StartOverlap.NEW.(starts := [StartOverlap.READS.(cancelled := cancelled)])
  }

  lemma OneOpened() returns (ss: seq<State>, es: seq<Event>)
    ensures IsRun(ss, es)
    ensures es == [Created, Step(0, StartOverlap.Begin), Step(0, StartOverlap.Opens(0))]
    ensures ss[3] == State([Object(Reads(false), None)], Some(0), None, false)
  {
    ss, es := [INIT], [];
    var s := State([Object(StartOverlap.NEW, None)], Some(0), None, false);
    ss, es := Extend(ss, es, Created, s);
    var dials := StartOverlap.NEW.(starts := [StartOverlap.DIALS]);
    assert StartOverlap.StartsAfter(StartOverlap.NEW, StartOverlap.Begin) == dials.starts;
    ss, es := Extend(ss, es, Step(0, StartOverlap.Begin), s.(objects := [Object(dials, None)]));
    assert StartOverlap.StartsAfter(dials, StartOverlap.Opens(0)) == Reads(false).starts;
    ss, es := Extend(ss, es, Step(0, StartOverlap.Opens(0)), s.(objects := [Object(Reads(false), None)]));
  }

  lemma OneDropped() returns (ss: seq<State>, es: seq<Event>)
    ensures IsRun(ss, es)
    ensures es == [Created, Step(0, StartOverlap.Begin), Step(0, StartOverlap.Opens(0)), StoreDone]
    ensures ss[4] == State([Object(Reads(true), None)], None, None, false)
  {
    ss, es := OneOpened();
    assert StartOverlap.StartsAfter(Reads(false), StartOverlap.Done) == Reads(true).starts;
    ss, es := Extend(ss, es, StoreDone, State([Object(Reads(true), None)], None, None, false));
  }

  /** A "_.ready" received before Store.Done and handled after it: the broker is connected and
      not on the list, although nothing has taken it off. */
  lemma ReadyAfterDone() returns (ss: seq<State>, es: seq<Event>)
    ensures IsRun(ss, es) && |es| == 5 && es[4] == Step(0, StartOverlap.GotReady(0))
    ensures forall k :: 0 <= k < |es| ==> !ChangesEntry(es[k])
    ensures Connected(ss[5], 0) && ss[5].entry == None && ss[5].objects[0].connecting == None
  {
    ss, es := OneDropped();
    var up := Reads(true).(link := StartOverlap.LinkAfter(Reads(true).link, StartOverlap.GotReady(0)));
    assert StartOverlap.StartsAfter(Reads(true), StartOverlap.GotReady(0)) == up.starts;
    ss, es := Extend(ss, es, Step(0, StartOverlap.GotReady(0)), State([Object(up, None)], None, None, false));
  }

  /** The same after a further client Start: the old object's "_.ready" puts the new object,
      which has not even begun, on the list. */
  lemma OldReadyListsNew() returns (ss: seq<State>, es: seq<Event>)
    ensures IsRun(ss, es) && |es| == 7 && es[5] == Step(0, StartOverlap.GotReady(0)) && es[6] == Lists(0)
    ensures ss[7].entry == Some(1) && |ss[7].objects| == 2 && ss[7].objects[1].life == StartOverlap.NEW
    ensures Connected(ss[7], 0)
  {
    ss, es := OneDropped();
    var next := Object(StartOverlap.NEW, None);
    ss, es := Extend(ss, es, Created, State([Object(Reads(true), None), next], Some(1), None, false));
    var up := Reads(true).(link := StartOverlap.LinkAfter(Reads(true).link, StartOverlap.GotReady(0)));
    assert StartOverlap.StartsAfter(Reads(true), StartOverlap.GotReady(0)) == up.starts;
    var found := State([Object(up, Some(1)), next], Some(1), None, false);
    ss, es := Extend(ss, es, Step(0, StartOverlap.GotReady(0)), found);
    ss, es := Extend(ss, es, Lists(0), State([Object(up, None), next], Some(1), Some(1), false));
  }
}
