/** The calls of Start on one broker object (broker/broker.go), one nested in the restart of
    the other. Each Start has a context, a read goroutine and an epilogue of its own, and all
    of them write the same fields. Starts are numbered in the order in which they take the
    lock. */
module StartOverlap {
  import opened Wrappers
  import opened BrokerLink

  /** The goroutine that drives a Start forward: the caller until the channel is open, then
      the read goroutine. */
  datatype Driver =
    | Dialling
    | Reading
    | Resetting   // "_.reset" received, done is set; the acknowledgement is due
    | Failing     // the stream or the channel failed; restart has not looked yet
    | Waiting     // restart found a live context and waits for its timer
    | Nested      // in the next Start, which restart has called
    | Gone

  /** The end of Start: first the locked region, then DisconnectFunc. */
  datatype Epilogue = Absent | Ahead | Unlocked | Ran

  datatype Start = Start(driver: Driver, epilogue: Epilogue, cancelled: bool)

  datatype State = State(
    starts: seq<Start>,
    link: Link<nat>,   // connected and stream; a stream is named by its Start
    done: bool,
    crashed: bool)     // a nil stream was dereferenced

  const NEW := State([], Link(false, None), false, false)

  datatype Event =
    | Begin                  // the locked prologue; the first, or called by restart of the newest
    | Opens(i: nat)          // the channel is open, the goroutines start
    | DialFails(i: nat)      // no connection: Start returns
    | ChannelFails(i: nat)   // no channel: Start calls restart
    | GotReady(i: nat)       // "_.ready": the locked region, but for ConnectFunc
    | GotReset(i: nat)       // "_.reset": done is set
    | Acknowledges(i: nat)   // ... and the stored stream is dereferenced
    | ReadFails(i: nat)
    | Passes(i: nat)         // restart finds the context live and the broker not done
    | GivesUp(i: nat)        // no restart, or restart returns without a Start
    | Returns(i: nat)        // the nested Start has returned
    | Done                   // Broker.Done, on the newest context
    | End(i: nat)            // the locked region after the context is done
    | Disconnects(i: nat)    // DisconnectFunc takes the id off the online list

  predicate Drives(s: State, i: nat, d: Driver) {
    i < |s.starts| && s.starts[i].driver == d
  }

  /** The call itself has returned to its caller. */
  predicate HasReturned(st: Start) {
    st.epilogue == Ran || (st.epilogue == Absent && st.driver == Gone)
  }

  predicate Enabled(s: State, e: Event) {
    !s.crashed
    && match e
       case Begin => s.starts == [] || Drives(s, |s.starts| - 1, Waiting)
       case Opens(i) => Drives(s, i, Dialling)
       case DialFails(i) => Drives(s, i, Dialling)
       case ChannelFails(i) => Drives(s, i, Dialling)
       case GotReady(i) => Drives(s, i, Reading)
       case GotReset(i) => Drives(s, i, Reading)
       case Acknowledges(i) => Drives(s, i, Resetting)
       case ReadFails(i) => Drives(s, i, Reading)
       case Passes(i) => Drives(s, i, Failing) && !s.starts[|s.starts| - 1].cancelled && !s.done
       case GivesUp(i) => Drives(s, i, Failing) || (Drives(s, i, Waiting) && s.starts[i].cancelled)
       case Returns(i) => Drives(s, i, Nested) && i + 1 < |s.starts| && HasReturned(s.starts[i + 1])
       case Done => s.starts != []
       case End(i) => i < |s.starts| && s.starts[i].epilogue == Ahead && s.starts[i].cancelled
       case Disconnects(i) => i < |s.starts| && s.starts[i].epilogue == Unlocked
  }

  /** What an event of its own does to a Start. A read goroutine that ends cancels its
      context on the way. */
  function StartAfter(st: Start, e: Event): Start {
    match e
    case Opens(_) => st.(driver := Reading, epilogue := Ahead)
    case DialFails(_) => st.(driver := Gone)
    case ChannelFails(_) => st.(driver := Failing)
    case GotReset(_) => st.(driver := Resetting)
    case Acknowledges(_) => st.(driver := Reading)
    case ReadFails(_) => st.(driver := Failing)
    case Passes(_) => st.(driver := Waiting)
    case GivesUp(_) => Start(Gone, st.epilogue, st.cancelled || st.epilogue != Absent)
    case Returns(_) => Start(Gone, st.epilogue, st.cancelled || st.epilogue != Absent)
    case End(_) => st.(epilogue := Unlocked)
    case Disconnects(_) => st.(epilogue := Ran)
    case _ => st
  }

  /** Begin and Done cancel the newest context. */
  function StartsAfter(s: State, e: Event): seq<Start>
    requires Enabled(s, e)
  {
    var n := |s.starts|;
    if e.Begin? then
      (if n == 0 then [] else s.starts[n - 1 := Start(Nested, s.starts[n - 1].epilogue, true)])
      + [Start(Dialling, Absent, false)]
    else if e.Done? then s.starts[n - 1 := s.starts[n - 1].(cancelled := true)]
    else s.starts[e.i := StartAfter(s.starts[e.i], e)]
  }

  function LinkAfter(l: Link<nat>, e: Event): Link<nat> {
    match e
    case GotReady(i) => BrokerLink.Apply(l, ReadyOn(i))
    case End(_) => BrokerLink.Apply(l, Ended)
    case _ => l
  }

  function Apply(s: State, e: Event): State
    requires Enabled(s, e)
  {
    State(
      StartsAfter(s, e),
      LinkAfter(s.link, e),
      s.done || e.GotReset?,
      e.Acknowledges? && s.link.stream.None?)
  }

  ghost predicate StepAt(ss: seq<State>, es: seq<Event>, k: nat)
    requires k < |es| < |ss|
  {
    Enabled(ss[k], es[k]) && ss[k + 1] == Apply(ss[k], es[k])
  }

  /** ss are the states before, between and after the events es. */
  ghost predicate IsPath(ss: seq<State>, es: seq<Event>) {
    |ss| == |es| + 1 && forall k :: 0 <= k < |es| ==> StepAt(ss, es, k)
  }

  ghost predicate IsRun(ss: seq<State>, es: seq<Event>) {
    IsPath(ss, es) && ss[0] == NEW
  }

  // ----- what every step keeps -----

  predicate Replaced(st: Start) {
    st.cancelled && (st.driver == Nested || st.driver == Gone)
  }

  predicate StartFits(st: Start) {
    && (st.epilogue == Unlocked || st.epilogue == Ran ==> st.cancelled)
    && (st.driver == Reading || st.driver == Resetting ==> st.epilogue != Absent)
    && (st.driver == Dialling ==> st.epilogue == Absent)
    && (st.driver == Gone && st.epilogue != Absent ==> st.cancelled)
  }

  /** Connected means a stream of some Start; every Start but the newest is cancelled and
      neither dials nor reads nor waits. */
  ghost predicate Inv(s: State) {
    && (s.link.connected <==> s.link.stream.Some?)
    && (s.link.connected ==>
          s.link.stream.value < |s.starts| && s.starts[s.link.stream.value].epilogue != Absent)
    && (forall i :: 0 <= i < |s.starts| ==> StartFits(s.starts[i]))
    && (forall i :: 0 <= i < |s.starts| - 1 ==> Replaced(s.starts[i]))
    && (s.starts != [] ==> s.starts[|s.starts| - 1].driver != Nested)
  }

  lemma StepKeepsFit(s: State, e: Event, i: nat)
    requires Enabled(s, e) && i < |s.starts| && StartFits(s.starts[i])
    ensures |s.starts| <= |Apply(s, e).starts| && StartFits(Apply(s, e).starts[i])
  {
  }

  lemma StepKeepsReplaced(s: State, e: Event, i: nat)
    requires Enabled(s, e) && i < |s.starts| - 1 && Replaced(s.starts[i])
    ensures Replaced(Apply(s, e).starts[i])
  {
  }

  lemma BeginReplaces(s: State)
    requires Enabled(s, Begin) && s.starts != []
    ensures Replaced(Apply(s, Begin).starts[|s.starts| - 1])
  {
  }

  lemma StepKeepsLink(s: State, e: Event)
    requires Inv(s) && Enabled(s, e)
    ensures var s' := Apply(s, e);
      && (s'.link.connected <==> s'.link.stream.Some?)
      && (s'.link.connected ==>
            s'.link.stream.value < |s'.starts| && s'.starts[s'.link.stream.value].epilogue != Absent)
      && (s'.starts != [] ==> s'.starts[|s'.starts| - 1].driver != Nested)
  {
    if e.GotReady? {
      assert StartFits(s.starts[e.i]);
    }
  }

  lemma StepKeepsInv(s: State, e: Event)
    requires Inv(s) && Enabled(s, e)
    ensures Inv(Apply(s, e))
  {
    StepKeepsLink(s, e);
    var s' := Apply(s, e);
    forall i | 0 <= i < |s'.starts|
      ensures StartFits(s'.starts[i]) && (i < |s'.starts| - 1 ==> Replaced(s'.starts[i]))
    {
      if i < |s.starts| {
        StepKeepsFit(s, e, i);
        if i < |s.starts| - 1 {
          StepKeepsReplaced(s, e, i);
        } else if e.Begin? {
          BeginReplaces(s);
        }
      }
    }
  }

  /** Only the newest Start opens a channel or receives. */
  lemma NewestReceives(s: State, e: Event)
    requires Inv(s) && Enabled(s, e)
    ensures e.GotReady? || e.Opens? ==> e.i == |s.starts| - 1
  {
  }

  lemma {:induction false} InvAt(ss: seq<State>, es: seq<Event>, k: nat)
    requires IsPath(ss, es) && Inv(ss[0]) && k <= |es|
    ensures Inv(ss[k])
  {
    if k == 0 {
    } else {
      InvAt(ss, es, k - 1);
      assert StepAt(ss, es, k - 1);
      StepKeepsInv(ss[k - 1], es[k - 1]);
    }
  }

  /** In every interleaving: connected means a stream to send on; only the newest Start can
      have a live context, receive, or be the one whose restart starts again. */
  lemma ConnectedHasStream(ss: seq<State>, es: seq<Event>, k: nat)
    requires IsRun(ss, es) && k <= |es|
    ensures ss[k].link.connected <==> ss[k].link.stream.Some?
    ensures forall i :: 0 <= i < |ss[k].starts| &&
              (!ss[k].starts[i].cancelled || ss[k].starts[i].driver in {Dialling, Reading, Resetting, Failing, Waiting})
              ==> i == |ss[k].starts| - 1
    ensures k < |es| && es[k].GotReady? ==> es[k].i == |ss[k].starts| - 1
  {
    InvAt(ss, es, k);
    assert k < |es| ==> StepAt(ss, es, k);
    assert forall i :: 0 <= i < |ss[k].starts| - 1 ==> Replaced(ss[k].starts[i]);
  }

  // ----- the fields over whole runs -----

  /** The step j is the last "_.ready" before k, and no epilogue has run since. */
  predicate LatestReady(es: seq<Event>, k: nat, j: int)
    requires k <= |es|
  {
    0 <= j < k && es[j].GotReady? && forall n :: j < n < k ==> !es[n].GotReady? && !es[n].End?
  }

  lemma LatestReadyNext(es: seq<Event>, k: nat)
    requires 0 < k <= |es| && !es[k - 1].GotReady?
    ensures forall j :: LatestReady(es, k, j) <==> LatestReady(es, k - 1, j) && !es[k - 1].End?
  {
  }

  /** After any run, the broker is connected exactly when some "_.ready" came with no epilogue
      of any Start after it, and the stored stream is that of the last "_.ready". */
  lemma {:induction false} LinkIsHistory(ss: seq<State>, es: seq<Event>, k: nat)
    requires IsRun(ss, es) && k <= |es|
    ensures ss[k].link.connected <==> exists j :: LatestReady(es, k, j)
    ensures forall j :: LatestReady(es, k, j) ==> ss[k].link.stream == Some(es[j].i)
  {
    if k == 0 {
    } else {
      LinkIsHistory(ss, es, k - 1);
      var e := es[k - 1];
      assert StepAt(ss, es, k - 1);
      if e.GotReady? {
        assert LatestReady(es, k, k - 1);
      } else {
        LatestReadyNext(es, k);
        if ss[k - 1].link.connected {
          var j :| LatestReady(es, k - 1, j);
          assert !e.End? ==> LatestReady(es, k, j);
        }
      }
    }
  }

  /** A step crashes exactly when it acknowledges a reset while there is no "_.ready" without
      an epilogue after it; the run ends there. Otherwise the acknowledgement goes out on the
      stream of the last "_.ready", whichever Start that was. */
  lemma ResetFindsStreamExactly(ss: seq<State>, es: seq<Event>, k: nat)
    requires IsRun(ss, es) && k < |es|
    ensures ss[k + 1].crashed <==> es[k].Acknowledges? && !exists j :: LatestReady(es, k, j)
    ensures ss[k + 1].crashed ==> k == |es| - 1
    ensures forall j :: LatestReady(es, k, j) ==> ss[k].link.stream == Some(es[j].i)
  {
    assert StepAt(ss, es, k);
    assert k + 1 < |es| ==> StepAt(ss, es, k + 1);
    LinkIsHistory(ss, es, k);
    InvAt(ss, es, k);
  }

  /** A reset marks the broker done, for good, and nothing else does. */
  lemma {:induction false} DoneIsHistory(ss: seq<State>, es: seq<Event>, k: nat)
    requires IsRun(ss, es) && k <= |es|
    ensures ss[k].done <==> exists j :: 0 <= j < k && es[j].GotReset?
  {
    if k == 0 {
    } else {
      DoneIsHistory(ss, es, k - 1);
      assert StepAt(ss, es, k - 1);
    }
  }

  // ----- every Start gets on -----

  /** What the newest Start can do while it dials and reads, and where that takes it. */
  lemma DialsAndReads(s: State)
    requires !s.crashed && s.starts != []
    ensures var n := |s.starts| - 1;
      s.starts[n].driver == Dialling ==>
        && Enabled(s, Opens(n)) && Apply(s, Opens(n)).starts[n] == Start(Reading, Ahead, s.starts[n].cancelled)
        && Enabled(s, DialFails(n)) && Apply(s, DialFails(n)).starts[n] == s.starts[n].(driver := Gone)
        && (s.starts[n].epilogue == Absent ==> HasReturned(Apply(s, DialFails(n)).starts[n]))
        && Enabled(s, ChannelFails(n)) && Apply(s, ChannelFails(n)).starts[n] == s.starts[n].(driver := Failing)
    ensures var n := |s.starts| - 1;
      s.starts[n].driver == Reading ==>
        && Enabled(s, GotReady(n)) && Apply(s, GotReady(n)).starts == s.starts
        && Enabled(s, GotReset(n)) && Apply(s, GotReset(n)).starts[n] == s.starts[n].(driver := Resetting)
        && Enabled(s, ReadFails(n)) && Apply(s, ReadFails(n)).starts[n] == s.starts[n].(driver := Failing)
    ensures var n := |s.starts| - 1;
      s.starts[n].driver == Resetting ==>
        Enabled(s, Acknowledges(n)) && Apply(s, Acknowledges(n)).starts[n] == s.starts[n].(driver := Reading)
  {
  }

  /** When restart goes ahead: exactly on a live context of a broker that is not done. It then
      starts again, which cancels the old context and leaves its driver in the new Start. Giving
      up cancels the context of a Start that has an epilogue, and of no other. */
  lemma RestartsExactly(s: State)
    requires !s.crashed && s.starts != [] && s.starts[|s.starts| - 1].driver == Failing
    ensures var n := |s.starts| - 1;
      && (Enabled(s, Passes(n)) <==> !s.starts[n].cancelled && !s.done)
      && (Enabled(s, Passes(n)) ==>
            var waiting := Apply(s, Passes(n));
            && Enabled(waiting, Begin)
            && Apply(waiting, Begin).starts ==
                 s.starts[..n] + [Start(Nested, s.starts[n].epilogue, true), Start(Dialling, Absent, false)])
      && Enabled(s, GivesUp(n))
      && Apply(s, GivesUp(n)).starts[n] ==
           Start(Gone, s.starts[n].epilogue, s.starts[n].cancelled || s.starts[n].epilogue != Absent)
  {
    var n := |s.starts| - 1;
    if Enabled(s, Passes(n)) {
      var waiting := Apply(s, Passes(n));
      assert Apply(waiting, Begin).starts ==
             s.starts[..n] + [Start(Nested, s.starts[n].epilogue, true), Start(Dialling, Absent, false)];
    }
  }

  /** A timer and a cancelled context race; a live one waits for the timer. */
  lemma WaitsForTimer(s: State)
    requires !s.crashed && s.starts != [] && s.starts[|s.starts| - 1].driver == Waiting
    ensures Enabled(s, Begin)
    ensures Enabled(s, GivesUp(|s.starts| - 1)) <==> s.starts[|s.starts| - 1].cancelled
  {
  }

  /** A cancelled Start with its epilogue ahead ends, calls DisconnectFunc and has returned;
      whoever is nested in it then goes, and cancels its own context if it has an epilogue. */
  lemma StartsEnd(s: State, i: nat)
    requires !s.crashed && i < |s.starts|
    ensures s.starts[i].epilogue == Ahead ==> (Enabled(s, End(i)) <==> s.starts[i].cancelled)
    ensures Enabled(s, End(i)) ==>
      var s' := Apply(s, End(i));
      && s'.starts[i] == s.starts[i].(epilogue := Unlocked) && !s'.link.connected
      && !HasReturned(s'.starts[i])
      && Enabled(s', Disconnects(i)) && HasReturned(Apply(s', Disconnects(i)).starts[i])
    ensures i > 0 && s.starts[i - 1].driver == Nested ==>
      && (Enabled(s, Returns(i - 1)) <==> HasReturned(s.starts[i]))
      && (HasReturned(s.starts[i]) ==>
            Apply(s, Returns(i - 1)).starts[i - 1] ==
              Start(Gone, s.starts[i - 1].epilogue, s.starts[i - 1].cancelled || s.starts[i - 1].epilogue != Absent))
  {
  }

  /** Broker.Done cancels the newest context and does nothing else. */
  lemma DoneCancels(s: State)
    requires !s.crashed && s.starts != []
    ensures Enabled(s, Done) && Apply(s, Done).link == s.link && Apply(s, Done).done == s.done
    ensures var n := |s.starts| - 1;
      Apply(s, Done).starts == s.starts[..n] + [s.starts[n].(cancelled := true)]
  {
    assert s.starts == s.starts[..|s.starts| - 1] + [s.starts[|s.starts| - 1]];
  }

  // ----- how long a connection lasts -----

  ghost predicate ConnectedOnNewest(s: State) {
    s.starts != [] && s.link == Link(true, Some(|s.starts| - 1))
  }

  /** A further Start, or the epilogue of the newest of n. */
  predicate HitsNewest(n: nat, e: Event) {
    e.Begin? || (e.End? && e.i == n - 1)
  }

  ghost predicate Continues(ss: seq<State>, es: seq<Event>, s: State) {
    IsPath(ss, es) && ss[0] == s && forall k :: 0 <= k < |es| ==> !HitsNewest(|s.starts|, es[k])
  }

  /** An epilogue is between its locked region and its DisconnectFunc. */
  ghost predicate Unlocking(s: State) {
    exists i :: 0 <= i < |s.starts| && s.starts[i].epilogue == Unlocked
  }

  lemma UnlockingStays(s: State, e: Event)
    requires Inv(s) && Enabled(s, e) && Unlocking(s) && !e.Disconnects?
    ensures Unlocking(Apply(s, e))
  {
    var i :| 0 <= i < |s.starts| && s.starts[i].epilogue == Unlocked;
    assert StartFits(s.starts[i]);
    assert Apply(s, e).starts[i].epilogue == Unlocked;
  }

  ghost predicate OldEpilogueAhead(s: State) {
    exists i :: 0 <= i < |s.starts| - 1 && s.starts[i].epilogue == Ahead
  }

  lemma StepStaysConnected(s: State, e: Event)
    requires Inv(s) && Enabled(s, e) && ConnectedOnNewest(s) && !OldEpilogueAhead(s) && !HitsNewest(|s.starts|, e)
    ensures var s' := Apply(s, e);
      ConnectedOnNewest(s') && |s'.starts| == |s.starts| && !OldEpilogueAhead(s') && !s'.crashed
  {
    NewestReceives(s, e);
    var s' := Apply(s, e);
    forall i | 0 <= i < |s'.starts| - 1
      ensures s'.starts[i].epilogue != Ahead
    {
      assert Replaced(s.starts[i]) && s.starts[i].epilogue != Ahead;
    }
  }

  lemma {:induction false} StaysWithoutOldEpilogue(ss: seq<State>, es: seq<Event>, s: State, k: nat)
    requires Inv(s) && ConnectedOnNewest(s) && !OldEpilogueAhead(s) && Continues(ss, es, s) && k <= |es|
    ensures ConnectedOnNewest(ss[k]) && |ss[k].starts| == |s.starts| && !OldEpilogueAhead(ss[k])
  {
    if k == 0 {
    } else {
      StaysWithoutOldEpilogue(ss, es, s, k - 1);
      InvAt(ss, es, k - 1);
      assert StepAt(ss, es, k - 1) && !HitsNewest(|s.starts|, es[k - 1]);
      StepStaysConnected(ss[k - 1], es[k - 1]);
    }
  }

  lemma OneStep(s: State, e: Event)
    requires Enabled(s, e) && !HitsNewest(|s.starts|, e)
    ensures Continues([s, Apply(s, e)], [e], s)
  {
    assert StepAt([s, Apply(s, e)], [e], 0);
  }

  /** A connection of the newest Start lasts until that Start ends or restarts, in all
      continuations, exactly when every older epilogue has run its locked region: a late one
      takes the fields away from a newer, live connection. */
  lemma StaysConnectedExactly(s: State)
    requires Inv(s) && ConnectedOnNewest(s) && !s.crashed
    ensures (forall ss, es :: Continues(ss, es, s) ==> ConnectedOnNewest(ss[|es|])) <==> !OldEpilogueAhead(s)
  {
    if OldEpilogueAhead(s) {
      var i :| 0 <= i < |s.starts| - 1 && s.starts[i].epilogue == Ahead;
      assert Replaced(s.starts[i]);
      OneStep(s, End(i));
      assert !ConnectedOnNewest([s, Apply(s, End(i))][1]);
    } else {
      forall ss, es | Continues(ss, es, s)
        ensures ConnectedOnNewest(ss[|es|])
      {
        StaysWithoutOldEpilogue(ss, es, s, |es|);
      }
    }
  }

  /** One more step, to a state with the given Starts and link. */
  lemma Extend(ss: seq<State>, es: seq<Event>, e: Event, starts: seq<Start>, link: Link<nat>)
    returns (ss': seq<State>, es': seq<Event>)
    requires IsRun(ss, es) && Enabled(ss[|es|], e)
    requires StartsAfter(ss[|es|], e) == starts && LinkAfter(ss[|es|].link, e) == link
    ensures IsRun(ss', es') && es' == es + [e] && |ss'| == |ss| + 1 && ss'[..|ss|] == ss
    ensures ss'[|es'|] == Apply(ss[|es|], e) && ss'[|es'|].starts == starts && ss'[|es'|].link == link
  {
    ss', es' := ss + [Apply(ss[|es|], e)], es + [e];
    forall k | 0 <= k < |es'|
      ensures StepAt(ss', es', k)
    {
      assert k < |es| ==> StepAt(ss, es, k);
    }
  }

  const DIALS := Start(Dialling, Absent, false)
  const READS := Start(Reading, Ahead, false)

  /** One Start is connected. */
  lemma OneConnected() returns (ss: seq<State>, es: seq<Event>)
    ensures IsRun(ss, es) && es == [Begin, Opens(0), GotReady(0)]
    ensures ss[3] == State([READS], Link(true, Some(0)), false, false)
  {
    var down := Link(false, None);
    ss, es := [NEW], [];
    ss, es := Extend(ss, es, Begin, [DIALS], down);
    ss, es := Extend(ss, es, Opens(0), [READS], down);
    ss, es := Extend(ss, es, GotReady(0), [READS], Link(true, Some(0)));
  }

  /** Its stream fails and restart starts again; the next Start gets its channel. */
  lemma OneRestarted() returns (ss: seq<State>, es: seq<Event>)
    ensures IsRun(ss, es)
    ensures es == [Begin, Opens(0), GotReady(0), ReadFails(0), Passes(0), Begin, Opens(1)]
    ensures ss[7].starts == [Start(Nested, Ahead, true), READS] && ss[7].link == Link(true, Some(0))
    ensures !ss[7].crashed
  {
    ss, es := OneConnected();
    var up, first := Link(true, Some(0)), Start(Nested, Ahead, true);
    ss, es := Extend(ss, es, ReadFails(0), [Start(Failing, Ahead, false)], up);
    ss, es := Extend(ss, es, Passes(0), [Start(Waiting, Ahead, false)], up);
    ss, es := Extend(ss, es, Begin, [first, DIALS], up);
    ss, es := Extend(ss, es, Opens(1), [first, READS], up);
  }

  /** A run in which it happens: the second Start is ready before the first one's epilogue
      gets the lock, and is left reading, not cancelled and not connected. */
  lemma LateEpilogueDisconnects() returns (ss: seq<State>, es: seq<Event>)
    ensures IsRun(ss, es) && |es| == 9 && es[7] == GotReady(1) && es[8] == End(0)
    ensures ConnectedOnNewest(ss[8]) && |ss[8].starts| == 2 && ss[8].starts[1] == READS
    ensures !ss[9].link.connected && |ss[9].starts| == 2 && ss[9].starts[1] == READS
  {
    ss, es := OneRestarted();
    var first := Start(Nested, Ahead, true);
    ss, es := Extend(ss, es, GotReady(1), [first, READS], Link(true, Some(1)));
    ss, es := Extend(ss, es, End(0), [first.(epilogue := Unlocked), READS], Link(false, None));
  }
}
