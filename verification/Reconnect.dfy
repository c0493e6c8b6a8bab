/** The reconnect protocol of client/client.go as a transition system: reset with its
    goroutine, owerstaying, the flags that Start clears last, connect, and disconnect with
    its signal. A step is one region under c.rw, one flag store, or one channel rendezvous;
    any number of goroutines interleave. */
module Reconnect {
  import opened Wrappers

  type Tid = nat

  /** Who runs: the very first Start, a goroutine spawned by reset, or owerstaying. */
  datatype Role = Initial | Resetter | Overstayer

  /** Where it is. A Resetter goes through all phases but Unlocking; an Overstayer starts
      at Woken (its sleep and Done), the first Start at Starting. */
  datatype Phase =
    | Spawned               // before the select
    | Selecting(chan: nat)  // in the select, on this stopResetProcess channel
    | Woken                 // up to the call of Start
    | Starting              // in Start, before its two flag stores
    | Clearing              // overstayProcess is stored, resetProcess is not
    | Unlocking             // owerstaying has returned from Start

  datatype Thread =
    | Reconnecter(role: Role, phase: Phase)
    | Signaller(chan: nat)  // disconnect, blocked in its send with c.rw read-locked

  datatype State = State(
    resetProcess: bool,
    overstayProcess: bool,
    online: bool,
    chan: nat,                // the current stopResetProcess
    writer: Option<Tid>,      // the holder of c.rw for writing
    readers: set<Tid>,
    threads: map<Tid, Thread>)

  datatype Step =
    | Reset(t: Tid)
    | Overstay(t: Tid)
    | Connect
    | Delete(left: bool)      // the locked part of disconnect; left: some broker remains
    | Signal(t: Tid)          // the read-locked part of disconnect
    | EnterSelect(t: Tid)
    | TimerFires(t: Tid)
    | Rendezvous(t: Tid, d: Tid)
    | CallStart(t: Tid)
    | ClearOverstay(t: Tid)
    | ClearReset(t: Tid)
    | Unlock(t: Tid)

  // The guards, shared with the class Client.

  /** reset goes ahead unless one is running. */
  predicate ResetStarts(resetProcess: bool) {
    !resetProcess
  }

  predicate OverstayStarts(resetProcess: bool, online: bool, overstayProcess: bool) {
    !(resetProcess || online || overstayProcess)
  }

  /** disconnect signals the reset goroutine. */
  predicate SignalDue(resetProcess: bool, online: bool) {
    !((resetProcess && online) || !resetProcess)
  }

  predicate Free(s: State) {
    s.writer == None && s.readers == {}
  }

  predicate At(s: State, t: Tid, p: Phase) {
    t in s.threads && s.threads[t].Reconnecter? && s.threads[t].phase == p
  }

  predicate Enabled(s: State, e: Step) {
    match e
    case Reset(t) => Free(s) && t !in s.threads
    case Overstay(t) => Free(s) && t !in s.threads
    case Connect => Free(s)
    case Delete(_) => Free(s)
    case Signal(t) => s.writer == None && t !in s.threads
    case EnterSelect(t) => At(s, t, Spawned)
    case TimerFires(t) =>
      t in s.threads && s.threads[t].Reconnecter? && s.threads[t].phase.Selecting?
    case Rendezvous(t, d) =>
      d in s.threads && s.threads[d].Signaller? && At(s, t, Selecting(s.threads[d].chan))
    case CallStart(t) => At(s, t, Woken)
    case ClearOverstay(t) => At(s, t, Starting)
    case ClearReset(t) => At(s, t, Clearing)
    case Unlock(t) => At(s, t, Unlocking)
  }

  function Move(s: State, t: Tid, p: Phase): State
    requires t in s.threads && s.threads[t].Reconnecter?
  {
    s.(threads := s.threads[t := Reconnecter(s.threads[t].role, p)])
  }

  function End(s: State, t: Tid): State {
    s.(threads := s.threads - {t}, readers := s.readers - {t},
       writer := if s.writer == Some(t) then None else s.writer)
  }

  function Apply(s: State, e: Step): State
    requires Enabled(s, e)
  {
    match e
    case Reset(t) =>
      if !ResetStarts(s.resetProcess) then s
      else s.(resetProcess := true, threads := s.threads[t := Reconnecter(Resetter, Spawned)])
    case Overstay(t) =>
      if !OverstayStarts(s.resetProcess, s.online, s.overstayProcess) then s
      else s.(overstayProcess := true, writer := Some(t),
              threads := s.threads[t := Reconnecter(Overstayer, Woken)])
    case Connect => s.(online := true, overstayProcess := false)
    case Delete(left) => s.(online := s.online && left)
    case Signal(t) =>
      if !SignalDue(s.resetProcess, s.online) then s
      else s.(readers := s.readers + {t}, threads := s.threads[t := Signaller(s.chan)])
    case EnterSelect(t) => Move(s, t, Selecting(s.chan))
    case TimerFires(t) => Move(s, t, Woken)
    case Rendezvous(t, d) => End(Move(s, t, Woken), d)
    case CallStart(t) => Move(s, t, Starting).(chan := s.chan + 1)
    case ClearOverstay(t) => Move(s, t, Clearing).(overstayProcess := false)
    case ClearReset(t) =>
      var s' := s.(resetProcess := false);
      if s.threads[t].role == Overstayer then Move(s', t, Unlocking) else End(s', t)
    case Unlock(t) => End(s, t)
  }

  ghost predicate Feasible(s: State, es: seq<Step>)
    decreases |es|
  {
    es == [] || (Enabled(s, es[0]) && Feasible(Apply(s, es[0]), es[1..]))
  }

  function After(s: State, es: seq<Step>): State
    requires Feasible(s, es)
    decreases |es|
  {
    if es == [] then s else After(Apply(s, es[0]), es[1..])
  }

  // ----- what is claimed -----

  predicate Has(s: State, t: Tid, r: Role) {
    t in s.threads && s.threads[t].Reconnecter? && s.threads[t].role == r
  }

  /** A reset goroutine from its creation to the end of its Start, or an owerstaying body. */
  predicate InFlight(s: State, t: Tid) {
    Has(s, t, Resetter) || Has(s, t, Overstayer)
  }

  ghost predicate AtMostOne(s: State) {
    forall t: Tid, u: Tid :: InFlight(s, t) && InFlight(s, u) ==> t == u
  }

  ghost predicate InitialReturned(s: State) {
    forall t: Tid :: !Has(s, t, Initial)
  }

  /** The invariant: the flag is up exactly while a reset goroutine lives, and an
      owerstaying body holds the lock, offline, with no reset goroutine beside it. */
  ghost predicate Inv(s: State) {
    && InitialReturned(s)
    && AtMostOne(s)
    && (s.resetProcess <==> exists t: Tid :: Has(s, t, Resetter))
    && (forall t: Tid :: Has(s, t, Overstayer) ==> s.writer == Some(t) && !s.online)
    && (s.writer.Some? ==> Has(s, s.writer.value, Overstayer))
    && (forall t: Tid :: t in s.threads ==> PhaseFits(s.threads[t]))
  }

  predicate PhaseFits(th: Thread) {
    && (th.Reconnecter? && th.role == Resetter ==> th.phase != Unlocking)
    && (th.Reconnecter? && th.role == Overstayer ==> !th.phase.Spawned? && !th.phase.Selecting?)
  }

  /** Both states have the same reconnecting threads, in whatever phase. */
  ghost predicate SameRoles(s: State, s': State) {
    forall t: Tid, r: Role :: Has(s, t, r) <==> Has(s', t, r)
  }

  lemma SameRolesKeepInv(s: State, s': State)
    requires Inv(s) && SameRoles(s, s')
    requires s'.resetProcess == s.resetProcess && s'.writer == s.writer
    requires s'.online == s.online || s.writer == None
    requires forall t: Tid :: t in s'.threads ==> PhaseFits(s'.threads[t])
    ensures Inv(s')
  {
    forall t: Tid, u: Tid | InFlight(s', t) && InFlight(s', u)
      ensures t == u
    {
      assert InFlight(s, t) && InFlight(s, u);
    }
    if s.resetProcess {
      var t: Tid :| Has(s, t, Resetter);
      assert Has(s', t, Resetter);
    }
    if t: Tid :| Has(s', t, Resetter) {
      assert Has(s, t, Resetter);
    }
  }

  /** A new thread is put in flight while none is. */
  lemma BeginKeepsInv(s: State, e: Step)
    requires Inv(s) && Enabled(s, e) && (e.Reset? || e.Overstay?)
    ensures Inv(Apply(s, e))
  {
    var s' := Apply(s, e);
    if s' != s {
      forall t: Tid, r: Role
        ensures Has(s', t, r) <==> Has(s, t, r) || (t == e.t && r == s'.threads[t].role)
      {
      }
      forall t: Tid
        ensures !InFlight(s, t)
      {
        assert Has(s, t, Overstayer) ==> s.writer == Some(t);
      }
      assert Has(s', e.t, s'.threads[e.t].role);
    }
  }

  /** The thread in flight clears the flag, or leaves. */
  lemma EndKeepsInv(s: State, e: Step)
    requires Inv(s) && Enabled(s, e) && (e.ClearReset? || e.Unlock?)
    ensures Inv(Apply(s, e))
  {
    var s' := Apply(s, e);
    assert !Has(s, e.t, Initial);
    assert InFlight(s, e.t);
    if s.threads[e.t].role == Overstayer && e.ClearReset? {
      assert forall t: Tid :: Has(s, t, Resetter) ==> InFlight(s, t);
      assert SameRoles(s, s');
      SameRolesKeepInv(s, s');
    } else {
      forall t: Tid
        ensures !InFlight(s', t) && !Has(s', t, Initial)
      {
        assert forall r: Role :: Has(s', t, r) ==> Has(s, t, r) && t != e.t;
        assert InFlight(s', t) ==> InFlight(s, t);
      }
      assert forall t: Tid :: Has(s', t, Resetter) ==> InFlight(s', t);
      assert forall t: Tid :: Has(s', t, Overstayer) ==> InFlight(s', t);
      assert forall t: Tid :: Has(s, t, Resetter) ==> InFlight(s, t);
    }
  }

  lemma StepKeepsInv(s: State, e: Step)
    requires Inv(s) && Enabled(s, e)
    ensures Inv(Apply(s, e))
  {
    if e.Reset? || e.Overstay? {
      BeginKeepsInv(s, e);
    } else if e.ClearReset? || e.Unlock? {
      EndKeepsInv(s, e);
    } else {
      assert SameRoles(s, Apply(s, e));
      SameRolesKeepInv(s, Apply(s, e));
    }
  }

  lemma {:induction false} RunKeepsInv(s: State, es: seq<Step>)
    requires Inv(s) && Feasible(s, es)
    ensures Inv(After(s, es))
    decreases |es|
  {
    if es == [] {
    } else {
      StepKeepsInv(s, es[0]);
      RunKeepsInv(Apply(s, es[0]), es[1..]);
    }
  }

  /** Nothing runs and the lock is free, but for what may be left of the first Start. */
  ghost predicate Idle(s: State) {
    && Free(s) && !s.resetProcess
    && forall t: Tid :: t in s.threads ==> At(s, t, Starting) && Has(s, t, Initial)
  }

  /** Once the first Start has returned, in every state of every interleaving at most one
      reconnect is in flight, resetProcess is up for the whole life of a reset goroutine and
      only then, and an owerstaying body has the lock to itself with every broker offline. */
  lemma OneReconnectAtATime(s: State, es: seq<Step>)
    requires Idle(s) && InitialReturned(s) && Feasible(s, es)
    ensures var s' := After(s, es);
      && AtMostOne(s')
      && (s'.resetProcess <==> exists t: Tid :: Has(s', t, Resetter))
      && (forall t: Tid :: Has(s', t, Overstayer) ==> s'.writer == Some(t) && !s'.online && !s'.resetProcess)
  {
    assert forall t: Tid, r: Role :: Has(s, t, r) ==> Has(s, t, Initial);
    RunKeepsInv(s, es);
    var s' := After(s, es);
    assert forall t: Tid, r: Role :: Has(s', t, r) && r != Initial ==> InFlight(s', t);
  }

  /** While an owerstaying body runs, no step of any other thread starts a reconnect, brings
      a broker online, takes the lock or raises the reset flag. */
  lemma OverstayExcludesOthers(s: State, e: Step, t: Tid)
    requires Inv(s) && Has(s, t, Overstayer) && Enabled(s, e)
    ensures var s' := Apply(s, e);
      && s'.online == s.online && !s'.resetProcess
      && (forall u: Tid :: InFlight(s', u) ==> u == t)
      && (s'.writer == s.writer || e == Unlock(t))
  {
    var s' := Apply(s, e);
    assert InFlight(s, t);
    assert forall u: Tid :: Has(s, u, Resetter) ==> InFlight(s, u);
    assert !s.resetProcess;
    forall u: Tid | InFlight(s', u)
      ensures u == t
    {
      assert InFlight(s, u);
    }
  }

  // ----- what does start, and gets on -----

  /** When reset and owerstaying go ahead, what they leave behind, and that they do nothing
      otherwise. */
  lemma StartsExactly(s: State, t: Tid)
    requires Free(s) && t !in s.threads
    ensures Enabled(s, Reset(t)) && Enabled(s, Overstay(t))
    ensures var s' := Apply(s, Reset(t));
      && (Has(s', t, Resetter) <==> !s.resetProcess)
      && (!s.resetProcess ==> s'.resetProcess && At(s', t, Spawned) && s'.writer == None)
      && (s.resetProcess ==> s' == s)
    ensures var s' := Apply(s, Overstay(t));
      && (Has(s', t, Overstayer) <==> !s.resetProcess && !s.overstayProcess && !s.online)
      && (Has(s', t, Overstayer) ==> s'.writer == Some(t) && s'.overstayProcess && At(s', t, Woken))
      && (!Has(s', t, Overstayer) ==> s' == s)
  {
  }

  /** The most steps of its own that a reconnect still takes. */
  function StepsLeft(p: Phase): nat {
    match p
    case Spawned => 6
    case Selecting(_) => 5
    case Woken => 4
    case Starting => 3
    case Clearing => 2
    case Unlocking => 1
  }

  /** No reconnect is ever stuck: it has an enabled step of its own, which brings it nearer to
      its end. */
  lemma ReconnectProceeds(s: State, t: Tid) returns (e: Step)
    requires t in s.threads && s.threads[t].Reconnecter?
    ensures Enabled(s, e) && !TakesLock(e)
    ensures t in Apply(s, e).threads ==>
      && Apply(s, e).threads[t].Reconnecter? && Apply(s, e).threads[t].role == s.threads[t].role
      && StepsLeft(Apply(s, e).threads[t].phase) < StepsLeft(s.threads[t].phase)
    ensures forall u :: u != t ==> (u in Apply(s, e).threads <==> u in s.threads)
  {
    match s.threads[t].phase {
      case Spawned => e := EnterSelect(t);
      case Selecting(_) => e := TimerFires(t);
      case Woken => e := CallStart(t);
      case Starting => e := ClearOverstay(t);
      case Clearing => e := ClearReset(t);
      case Unlocking => e := Unlock(t);
    }
  }

  /** The rest of an owerstaying that has slept. */
  lemma RestOfOverstay(s: State, t: Tid) returns (es: seq<Step>)
    requires At(s, t, Woken) && Has(s, t, Overstayer) && s.writer == Some(t) && t !in s.readers
    ensures es == [CallStart(t), ClearOverstay(t), ClearReset(t), Unlock(t)] && Feasible(s, es)
    ensures After(s, es) == s.(chan := s.chan + 1, overstayProcess := false, resetProcess := false,
                               writer := None, threads := s.threads - {t})
  {
    var s1 := Apply(s, CallStart(t));
    var s2 := Apply(s1, ClearOverstay(t));
    var s3 := Apply(s2, ClearReset(t));
    assert Apply(s3, Unlock(t)).threads == s.threads - {t} && s.readers - {t} == s.readers;
    Extend(s3, Unlock(t), []);
    Extend(s2, ClearReset(t), [Unlock(t)]);
    Extend(s1, ClearOverstay(t), [ClearReset(t)] + [Unlock(t)]);
    es := [CallStart(t)] + ([ClearOverstay(t)] + ([ClearReset(t)] + [Unlock(t)]));
    Extend(s, CallStart(t), [ClearOverstay(t)] + ([ClearReset(t)] + [Unlock(t)]));
  }

  /** A whole owerstaying from an offline client with nothing running: the lock is free again,
      both flags are down, and the stop channel is a new one. */
  lemma WholeOverstay(s: State, t: Tid) returns (es: seq<Step>)
    requires Free(s) && t !in s.threads && !s.resetProcess && !s.overstayProcess && !s.online
    ensures es == [Overstay(t), CallStart(t), ClearOverstay(t), ClearReset(t), Unlock(t)]
    ensures Feasible(s, es) && After(s, es) == s.(chan := s.chan + 1)
  {
    var s1 := Apply(s, Overstay(t));
    var rest := RestOfOverstay(s1, t);
    assert s1.threads - {t} == s.threads;
    es := [Overstay(t)] + rest;
    Extend(s, Overstay(t), rest);
  }

  /** The rest of a reset goroutine that has been woken. */
  lemma RestOfReset(s: State, t: Tid) returns (es: seq<Step>)
    requires At(s, t, Woken) && Has(s, t, Resetter) && s.writer == None && t !in s.readers
    ensures es == [CallStart(t), ClearOverstay(t), ClearReset(t)] && Feasible(s, es)
    ensures After(s, es) ==
      s.(chan := s.chan + 1, overstayProcess := false, resetProcess := false, threads := s.threads - {t})
  {
    var s1 := Apply(s, CallStart(t));
    var s2 := Apply(s1, ClearOverstay(t));
    assert Apply(s2, ClearReset(t)).threads == s.threads - {t} && s.readers - {t} == s.readers;
    Extend(s2, ClearReset(t), []);
    Extend(s1, ClearOverstay(t), [ClearReset(t)]);
    es := [CallStart(t)] + ([ClearOverstay(t)] + [ClearReset(t)]);
    Extend(s, CallStart(t), [ClearOverstay(t)] + [ClearReset(t)]);
  }

  /** A whole reset, woken by its timer. */
  lemma WholeReset(s: State, t: Tid) returns (es: seq<Step>)
    requires Free(s) && t !in s.threads && !s.resetProcess
    ensures es == [Reset(t), EnterSelect(t), TimerFires(t), CallStart(t), ClearOverstay(t), ClearReset(t)]
    ensures Feasible(s, es) && After(s, es) == s.(chan := s.chan + 1, overstayProcess := false)
  {
    var s1 := Apply(s, Reset(t));
    var s2 := Apply(s1, EnterSelect(t));
    var s3 := Apply(s2, TimerFires(t));
    var rest := RestOfReset(s3, t);
    assert s3.threads - {t} == s.threads;
    Extend(s2, TimerFires(t), rest);
    Extend(s1, EnterSelect(t), [TimerFires(t)] + rest);
    es := [Reset(t)] + ([EnterSelect(t)] + ([TimerFires(t)] + rest));
    Extend(s, Reset(t), [EnterSelect(t)] + ([TimerFires(t)] + rest));
  }

  /** connect and the two halves of disconnect: it takes the broker off, and signals exactly
      while a reset is on and no broker is left. Blocked disconnects share the lock. */
  lemma SignalsExactly(s: State, d: Tid, left: bool)
    requires s.writer == None && d !in s.threads
    ensures Free(s) ==>
      && Enabled(s, Connect) && Apply(s, Connect).online && !Apply(s, Connect).overstayProcess
      && Enabled(s, Delete(left)) && Apply(s, Delete(left)).online == (s.online && left)
    ensures Enabled(s, Signal(d))
    ensures Blocked(Apply(s, Signal(d)), d) <==> s.resetProcess && !s.online
    ensures Blocked(Apply(s, Signal(d)), d) ==>
      Apply(s, Signal(d)).threads[d].chan == s.chan && !Free(Apply(s, Signal(d)))
    ensures !Blocked(Apply(s, Signal(d)), d) ==> Apply(s, Signal(d)) == s
  {
  }

  /** The reset goroutine that selects on its channel is woken by the signal. */
  lemma RendezvousWakes(s: State, t: Tid, d: Tid)
    requires Blocked(s, d) && At(s, t, Selecting(s.threads[d].chan))
    ensures Enabled(s, Rendezvous(t, d))
    ensures var s' := Apply(s, Rendezvous(t, d));
      At(s', t, Woken) && d !in s'.threads && d !in s'.readers && s'.readers == s.readers - {d}
  {
  }

  // ----- what happens before the first Start has returned -----

  lemma FreshTid(m: set<Tid>) returns (t: Tid)
    ensures forall x: Tid :: x in m ==> x < t
  {
    t := 0;
    var rest := m;
    while rest != {}
      invariant rest <= m
      invariant forall x: Tid :: x in m ==> x in rest || x < t
    {
      var x :| x in rest;
      rest := rest - {x};
      if t <= x {
        t := x + 1;
      }
    }
  }

  lemma Extend(s: State, e: Step, es: seq<Step>)
    requires Enabled(s, e) && Feasible(Apply(s, e), es)
    ensures Feasible(s, [e] + es) && After(s, [e] + es) == After(Apply(s, e), es)
  {
    assert ([e] + es)[1..] == es;
  }

  /** A first Start still on its way lowers the flag of a reset that came early, so that a
      second reset is let through: two reset goroutines in flight. */
  lemma EarlyResetBreaksExclusion(s: State, t: Tid) returns (es: seq<Step>)
    requires Idle(s) && t in s.threads
    ensures Feasible(s, es) && !AtMostOne(After(s, es))
  {
    var a := FreshTid(s.threads.Keys);
    var b := a + 1;
    var s1 := Apply(s, Reset(a));
    var s2 := Apply(s1, ClearOverstay(t));
    var s3 := Apply(s2, ClearReset(t));
    var s4 := Apply(s3, Reset(b));
    Extend(s3, Reset(b), []);
    Extend(s2, ClearReset(t), [Reset(b)]);
    Extend(s1, ClearOverstay(t), [ClearReset(t)] + [Reset(b)]);
    es := [Reset(a)] + ([ClearOverstay(t)] + ([ClearReset(t)] + [Reset(b)]));
    Extend(s, Reset(a), [ClearOverstay(t)] + ([ClearReset(t)] + [Reset(b)]));
    assert InFlight(s4, a) && InFlight(s4, b);
  }

  ghost predicate ExclusionHolds(s: State) {
    forall es :: Feasible(s, es) ==> AtMostOne(After(s, es))
  }

  /** From a quiet state, reconnects exclude each other in all interleavings exactly when
      the first Start has returned. */
  lemma ExclusionExactly(s: State)
    requires Idle(s)
    ensures ExclusionHolds(s) <==> InitialReturned(s)
  {
    if InitialReturned(s) {
      forall es | Feasible(s, es)
        ensures AtMostOne(After(s, es))
      {
        OneReconnectAtATime(s, es);
      }
    } else {
      var t: Tid :| Has(s, t, Initial);
      var es := EarlyResetBreaksExclusion(s, t);
    }
  }

  // ----- a disconnect that blocks for ever -----

  /** Every blocked disconnect holds c.rw read-locked, and no channel is newer than the
      current one. */
  ghost predicate ChannelsFit(s: State) {
    forall t :: t in s.threads ==> ThreadFits(s, t)
  }

  predicate ThreadFits(s: State, t: Tid)
    requires t in s.threads
  {
    match s.threads[t]
    case Signaller(chan) => t in s.readers && chan <= s.chan
    case Reconnecter(_, phase) => phase.Selecting? ==> phase.chan <= s.chan
  }

  lemma StepKeepsChannels(s: State, e: Step)
    requires ChannelsFit(s) && Enabled(s, e)
    ensures ChannelsFit(Apply(s, e))
  {
    var s' := Apply(s, e);
    forall t | t in s'.threads
      ensures ThreadFits(s', t)
    {
      assert t in s.threads ==> ThreadFits(s, t);
    }
  }

  /** The disconnect d is blocked in its send. */
  predicate Blocked(s: State, d: Tid) {
    d in s.threads && s.threads[d].Signaller?
  }

  /** The reset goroutine t selects on the channel, or will if it enters its select now. */
  predicate MayReceive(s: State, t: Tid, chan: nat) {
    At(s, t, Selecting(chan)) || (At(s, t, Spawned) && s.chan == chan)
  }

  /** Nobody will ever receive what the disconnect d sends. */
  ghost predicate Hopeless(s: State, d: Tid) {
    Blocked(s, d) && forall t :: !MayReceive(s, t, s.threads[d].chan)
  }

  /** The steps that take c.rw for writing. */
  predicate TakesLock(e: Step) {
    e.Reset? || e.Overstay? || e.Connect? || e.Delete?
  }

  lemma StepKeepsHopeless(s: State, e: Step, d: Tid)
    requires ChannelsFit(s) && Enabled(s, e) && Hopeless(s, d)
    ensures Hopeless(Apply(s, e), d) && !TakesLock(e)
  {
    var s' := Apply(s, e);
    var chan := s.threads[d].chan;
    assert ThreadFits(s, d);
    assert e.Rendezvous? ==> MayReceive(s, e.t, s.threads[e.d].chan);
    assert Blocked(s', d) && s'.threads[d].chan == chan;
    forall t
      ensures !MayReceive(s', t, chan)
    {
      assert !MayReceive(s, t, chan);
    }
  }

  /** From then on it stays blocked, and no reset, owerstaying, connect or delete runs. */
  lemma {:induction false} HopelessForEver(s: State, es: seq<Step>, d: Tid)
    requires ChannelsFit(s) && Feasible(s, es) && Hopeless(s, d)
    ensures Hopeless(After(s, es), d) && d in After(s, es).threads
    ensures forall k :: 0 <= k < |es| ==> !TakesLock(es[k])
    decreases |es|
  {
    if es == [] {
    } else {
      StepKeepsHopeless(s, es[0], d);
      StepKeepsChannels(s, es[0]);
      HopelessForEver(Apply(s, es[0]), es[1..], d);
      assert forall k :: 0 < k < |es| ==> es[k] == es[1..][k - 1];
    }
  }

  ghost predicate Releases(s: State, es: seq<Step>, d: Tid) {
    Feasible(s, es) && d !in After(s, es).threads
  }

  /** A disconnect that is blocked in its send can still be released exactly when some reset
      goroutine selects on its channel, or has yet to enter its select while that channel is
      the current one. Otherwise it holds c.rw for ever. */
  lemma ReleasableExactly(s: State, d: Tid)
    requires ChannelsFit(s) && Blocked(s, d)
    ensures (exists es :: Releases(s, es, d)) <==> exists t :: MayReceive(s, t, s.threads[d].chan)
  {
    var chan := s.threads[d].chan;
    if t :| MayReceive(s, t, chan) {
      if At(s, t, Selecting(chan)) {
        Extend(s, Rendezvous(t, d), []);
        assert Releases(s, [Rendezvous(t, d)] + [], d);
      } else {
        var s1 := Apply(s, EnterSelect(t));
        Extend(s1, Rendezvous(t, d), []);
        Extend(s, EnterSelect(t), [Rendezvous(t, d)] + []);
        assert Releases(s, [EnterSelect(t)] + ([Rendezvous(t, d)] + []), d);
      }
    } else {
      forall es | Feasible(s, es)
        ensures !Releases(s, es, d)
      {
        HopelessForEver(s, es, d);
      }
    }
  }

  /** From every quiet state: the timer of a reset fires just before the last broker goes. */
  lemma DisconnectHangs(s: State) returns (es: seq<Step>, d: Tid)
    requires Idle(s) && InitialReturned(s)
    ensures Feasible(s, es) && ChannelsFit(After(s, es)) && Hopeless(After(s, es), d)
  {
    assert forall t :: t in s.threads ==> Has(s, t, Initial);
    var a := FreshTid(s.threads.Keys);
    d := a + 1;
    var s1 := Apply(s, Reset(a));
    var s2 := Apply(s1, EnterSelect(a));
    var s3 := Apply(s2, TimerFires(a));
    var s4 := Apply(s3, Delete(false));
    var s5 := Apply(s4, Signal(d));
    Extend(s4, Signal(d), []);
    Extend(s3, Delete(false), [Signal(d)]);
    Extend(s2, TimerFires(a), [Delete(false)] + [Signal(d)]);
    Extend(s1, EnterSelect(a), [TimerFires(a)] + ([Delete(false)] + [Signal(d)]));
    es := [Reset(a)] + ([EnterSelect(a)] + ([TimerFires(a)] + ([Delete(false)] + [Signal(d)])));
    Extend(s, Reset(a), [EnterSelect(a)] + ([TimerFires(a)] + ([Delete(false)] + [Signal(d)])));
    assert s5.threads == map[a := Reconnecter(Resetter, Woken), d := Signaller(s.chan)];
    forall t
      ensures !MayReceive(s5, t, s.chan)
    {
    }
  }
}
