/** How long a connected and listed broker stays so, when other objects of its id are around:
    which of their Starts can still reach a DisconnectFunc or a "_.ready", and exactly when
    nothing can take the broker off the list any more. */
module BrokerLifetime {
  import opened Wrappers
  import opened StartOverlap
  import B = BrokerObjects

  // ----- what one object can still do -----

  /** An epilogue whose context is cancelled, before its locked region. */
  ghost predicate EndDue(l: State) {
    exists i :: 0 <= i < |l.starts| && l.starts[i].epilogue == Ahead && l.starts[i].cancelled
  }

  /** The newest Start has, or restarts into, an epilogue that can come to its end. A reset that
      will find no stream is the exception: only Store.Done can still end that Start. */
  predicate EndsLater(l: State, stored: bool) {
    if l.starts == [] then true
    else
      var n := l.starts[|l.starts| - 1];
      match n.driver
      case Dialling => true
      case Waiting => true
      case Reading => n.epilogue == Ahead
      case Resetting => n.epilogue == Ahead && (l.link.stream.Some? || stored)
      case Failing => n.epilogue == Ahead || (n.epilogue == Absent && !n.cancelled && !l.done)
      case Nested => false
      case Gone => false
  }

  /** Some continuation calls DisconnectFunc; stored tells whether Store.Done would cancel. */
  ghost predicate CanDisconnect(l: State, stored: bool) {
    Unlocking(l) || EndDue(l) || EndsLater(l, stored)
  }

  ghost function Rank(l: State, stored: bool): nat {
    if Unlocking(l) then 0
    else if EndDue(l) then 1
    else if l.starts == [] then 8
    else
      match l.starts[|l.starts| - 1].driver
      case Waiting => 7
      case Dialling => 6
      case Resetting => 5
      case Reading => 4
      case Failing => if l.starts[|l.starts| - 1].epilogue == Ahead then 3 else 9
      case _ => 0
  }

  /** A step towards a DisconnectFunc, or that step itself. */
  lemma DisconnectNearer(l: State, stored: bool) returns (e: Event)
    requires Inv(l) && !l.crashed && CanDisconnect(l, stored)
    ensures Enabled(l, e) && !Apply(l, e).crashed && (e.Done? ==> stored) && !e.GotReady?
    ensures !e.Disconnects? ==>
      var l', stored' := Apply(l, e), stored && !e.Done?;
      CanDisconnect(l', stored') && Rank(l', stored') < Rank(l, stored)
  {
    var n := |l.starts| - 1;
    if Unlocking(l) {
      var i :| 0 <= i < |l.starts| && l.starts[i].epilogue == Unlocked;
      e := Disconnects(i);
    } else if EndDue(l) {
      var i :| 0 <= i < |l.starts| && l.starts[i].epilogue == Ahead && l.starts[i].cancelled;
      e := End(i);
      assert Apply(l, e).starts[i].epilogue == Unlocked;
    } else if n < 0 || l.starts[n].driver == Waiting {
      e := Begin;
      assert Apply(l, e).starts[n + 1].driver == Dialling;
    } else {
      e := NewestNearer(l, stored);
    }
  }

  lemma NewestNearer(l: State, stored: bool) returns (e: Event)
    requires Inv(l) && !l.crashed && !Unlocking(l) && !EndDue(l)
    requires l.starts != [] && l.starts[|l.starts| - 1].driver != Waiting && EndsLater(l, stored)
    ensures Enabled(l, e) && !Apply(l, e).crashed && (e.Done? ==> stored)
    ensures !e.GotReady? && !e.Disconnects?
    ensures var l', stored' := Apply(l, e), stored && !e.Done?;
      CanDisconnect(l', stored') && Rank(l', stored') < Rank(l, stored)
  {
    var n := |l.starts| - 1;
    assert StartFits(l.starts[n]);
    match l.starts[n].driver {
      case Dialling => e := Opens(n);
      case Reading => e := ReadFails(n);
      case Resetting => e := if l.link.stream.Some? then Acknowledges(n) else Done;
      case Failing => e := if l.starts[n].epilogue == Ahead then GivesUp(n) else Passes(n);
    }
    var l' := Apply(l, e);
    assert |l'.starts| == n + 1;
    assert e.GivesUp? || e.Done? ==> l'.starts[n].epilogue == Ahead && l'.starts[n].cancelled;
  }

  /** The newest Start receives, or restarts into one that can. */
  predicate CanReady(l: State) {
    if l.starts == [] then true
    else
      var n := l.starts[|l.starts| - 1];
      match n.driver
      case Dialling => true
      case Waiting => true
      case Reading => true
      case Resetting => l.link.stream.Some?
      case Failing => !n.cancelled && !l.done
      case Nested => false
      case Gone => false
  }

  /** The newest Start has its channel and receives. */
  predicate Receives(l: State) {
    l.starts != [] && l.starts[|l.starts| - 1].driver in {Reading, Resetting}
  }

  function ReadyRank(l: State): nat {
    if l.starts == [] then 3
    else
      match l.starts[|l.starts| - 1].driver
      case Reading => 0
      case Resetting => 1
      case Dialling => 2
      case Waiting => 3
      case _ => 4
  }

  /** A step towards a "_.ready", or that step itself. */
  lemma ReadyNearer(l: State) returns (e: Event)
    requires !l.crashed && CanReady(l)
    ensures Enabled(l, e) && !Apply(l, e).crashed && !e.Done? && !e.Disconnects? && !e.End?
    ensures Receives(l) ==> !e.Begin? && Receives(Apply(l, e)) && |Apply(l, e).starts| == |l.starts|
    ensures !e.GotReady? ==> CanReady(Apply(l, e)) && ReadyRank(Apply(l, e)) < ReadyRank(l)
  {
    var n := |l.starts| - 1;
    if n < 0 {
      e := Begin;
    } else {
      match l.starts[n].driver {
        case Dialling => e := Opens(n);
        case Waiting => e := Begin;
        case Reading => e := GotReady(n);
        case Resetting => e := Acknowledges(n);
        case Failing => e := Passes(n);
      }
    }
  }

  // ----- ... and what it can no longer do -----

  /** Without a way to a DisconnectFunc no step makes one, unless it crashes. */
  lemma StepKeepsHarmless(l: State, e: Event, stored: bool)
    requires Inv(l) && Enabled(l, e) && !CanDisconnect(l, stored) && (e.Done? ==> stored)
    ensures !e.Disconnects?
    ensures Apply(l, e).crashed || !CanDisconnect(Apply(l, e), stored && !e.Done?)
  {
    StepKeepsEnded(l, e, stored);
    var l' := Apply(l, e);
    forall i | 0 <= i < |l'.starts|
      ensures l'.starts[i].epilogue != Unlocked && !(l'.starts[i].epilogue == Ahead && l'.starts[i].cancelled)
    {
      assert l.starts[i].epilogue != Unlocked && !(l.starts[i].epilogue == Ahead && l.starts[i].cancelled);
      assert StartFits(l.starts[i]) && (i < |l.starts| - 1 ==> Replaced(l.starts[i]));
    }
  }

  lemma StepKeepsEnded(l: State, e: Event, stored: bool)
    requires Inv(l) && Enabled(l, e) && !EndsLater(l, stored) && (e.Done? ==> stored)
    ensures |Apply(l, e).starts| == |l.starts|
    ensures Apply(l, e).crashed || !EndsLater(Apply(l, e), stored && !e.Done?)
  {
    var n := |l.starts| - 1;
    assert StartFits(l.starts[n]);
    NewestReceives(l, e);
  }

  lemma StepKeepsMute(l: State, e: Event)
    requires Inv(l) && Enabled(l, e) && !CanReady(l)
    ensures !e.GotReady? && (Apply(l, e).crashed || !CanReady(Apply(l, e)))
  {
    var n := |l.starts| - 1;
    assert StartFits(l.starts[n]);
    NewestReceives(l, e);
  }

  /** A connected newest Start that does not receive will not receive without a further Start. */
  lemma StepKeepsDeaf(l: State, e: Event)
    requires Inv(l) && Enabled(l, e) && ConnectedOnNewest(l) && !Receives(l) && !e.Begin?
    ensures !e.GotReady? && !Receives(Apply(l, e))
  {
    var n := |l.starts| - 1;
    assert StartFits(l.starts[n]);
    NewestReceives(l, e);
  }

  // ----- what can still happen to a listed broker -----

  /** The object x is connected on its newest Start and on the list. */
  ghost predicate Usable(s: B.State, x: nat) {
    x < |s.objects| && ConnectedOnNewest(s.objects[x].life) && s.entry == Some(x)
  }

  /** The newest of the n Starts of x ends or restarts, the client starts again, or a broker of
      another id rebuilds the list. */
  predicate Hits(e: B.Event, x: nat, n: nat) {
    e.Created? || e.Rebuilt? || (e.Step? && e.o == x && HitsNewest(n, e.e))
  }

  ghost predicate Continues(ss: seq<B.State>, es: seq<B.Event>, s: B.State, x: nat, n: nat) {
    B.IsPath(ss, es) && ss[0] == s && forall k :: 0 <= k < |es| ==> !Hits(es[k], x, n)
  }

  /** The "_.ready" of y can still come; of x, without a restart. */
  predicate MayList(s: B.State, x: nat, y: nat)
    requires y < |s.objects|
  {
    if y == x then Receives(s.objects[y].life) else CanReady(s.objects[y].life)
  }

  /** The object y does not matter to x any more: if it is another one, it has no way to a
      DisconnectFunc; it is not about to list a third object; and if the store holds an object
      other than x, which is what y would list, no "_.ready" of y can come. */
  ghost predicate Harmless(s: B.State, x: nat, y: nat)
    requires y < |s.objects|
  {
    var ob := s.objects[y];
    && (y != x ==> !CanDisconnect(ob.life, s.stored == Some(y)))
    && (ob.connecting.Some? ==> ob.connecting == Some(x))
    && (s.stored.Some? && s.stored != Some(x) ==> !MayList(s, x, y))
  }

  /** Nothing late is left: no epilogue of an older Start of x, no DisconnectFunc of x, and
      nothing of the objects of the id. */
  ghost predicate NothingLate(s: B.State, x: nat)
    requires x < |s.objects|
  {
    && !OldEpilogueAhead(s.objects[x].life) && !Unlocking(s.objects[x].life)
    && forall y :: 0 <= y < |s.objects| ==> Harmless(s, x, y)
  }

  // ----- nothing late: it stays -----

  lemma StepKeepsX(s: B.State, e: B.Event, x: nat)
    requires B.Inv(s) && B.Enabled(s, e) && Usable(s, x) && NothingLate(s, x)
    requires !Hits(e, x, |s.objects[x].life.starts|)
    ensures var l, l' := s.objects[x].life, B.Apply(s, e).objects[x].life;
      && |B.Apply(s, e).objects| == |s.objects| && |l'.starts| == |l.starts|
      && ConnectedOnNewest(l') && !OldEpilogueAhead(l') && !Unlocking(l')
  {
    assert B.ObjectFits(s, x) && Harmless(s, x, x);
    var l := s.objects[x].life;
    if e.Step? && e.o == x {
      StepStaysConnected(l, e.e);
      StepKeepsLocked(l, e.e);
    } else if e.StoreDone? && s.stored == Some(x) {
      StepStaysConnected(l, Done);
      StepKeepsLocked(l, Done);
    }
  }

  lemma StepKeepsLocked(l: State, e: Event)
    requires Inv(l) && Enabled(l, e) && !OldEpilogueAhead(l) && !Unlocking(l) && !HitsNewest(|l.starts|, e)
    ensures !Unlocking(Apply(l, e)) && !e.Disconnects?
  {
    forall i | 0 <= i < |Apply(l, e).starts|
      ensures Apply(l, e).starts[i].epilogue != Unlocked
    {
      assert l.starts[i].epilogue != Unlocked && (i < |l.starts| - 1 ==> l.starts[i].epilogue != Ahead);
    }
  }

  lemma StepKeepsOther(s: B.State, e: B.Event, x: nat, y: nat)
    requires B.Inv(s) && B.Enabled(s, e) && Usable(s, x) && NothingLate(s, x)
    requires !Hits(e, x, |s.objects[x].life.starts|) && y < |s.objects|
    ensures B.Apply(s, e).crashed || Harmless(B.Apply(s, e), x, y)
  {
    assert B.ObjectFits(s, y) && Harmless(s, x, y);
    var l := s.objects[y].life;
    if (e.Step? && e.o == y) || (e.StoreDone? && s.stored == Some(y) && l.starts != []) {
      var le := if e.Step? then e.e else Done;
      if y != x {
        StepKeepsHarmless(l, le, s.stored == Some(y));
        if !CanReady(l) {
          StepKeepsMute(l, le);
        }
      } else if !Receives(l) {
        StepKeepsDeaf(l, le);
      }
    }
  }

  lemma StepKeepsEntry(s: B.State, e: B.Event, x: nat)
    requires B.Inv(s) && B.Enabled(s, e) && Usable(s, x) && NothingLate(s, x)
    requires !Hits(e, x, |s.objects[x].life.starts|)
    ensures B.Apply(s, e).entry == Some(x)
  {
    if e.Step? {
      assert B.ObjectFits(s, e.o) && Harmless(s, x, e.o);
      if e.o == x {
        StepKeepsLocked(s.objects[x].life, e.e);
      } else {
        StepKeepsHarmless(s.objects[e.o].life, e.e, s.stored == Some(e.o));
      }
    } else if e.Lists? {
      assert Harmless(s, x, e.o);
    }
  }

  lemma {:induction false} StaysUsable(ss: seq<B.State>, es: seq<B.Event>, s: B.State, x: nat, k: nat)
    requires B.Inv(s) && Usable(s, x) && NothingLate(s, x) && k <= |es|
    requires Continues(ss, es, s, x, |s.objects[x].life.starts|)
    ensures Usable(ss[k], x) && |ss[k].objects[x].life.starts| == |s.objects[x].life.starts|
    ensures ss[k].crashed || NothingLate(ss[k], x)
  {
    if k == 0 {
    } else {
      StaysUsable(ss, es, s, x, k - 1);
      B.InvAt(ss, es, k - 1);
      var t, e := ss[k - 1], es[k - 1];
      assert B.StepAt(ss, es, k - 1) && !Hits(e, x, |s.objects[x].life.starts|);
      StepKeepsX(t, e, x);
      StepKeepsEntry(t, e, x);
      forall y | 0 <= y < |ss[k].objects|
        ensures ss[k].crashed || Harmless(ss[k], x, y)
      {
        StepKeepsOther(t, e, x, y);
      }
    }
  }

  // ----- something late: a continuation in which it goes -----

  ghost predicate TakesDown(ss: seq<B.State>, es: seq<B.Event>, s: B.State, x: nat, n: nat) {
    Continues(ss, es, s, x, n) && !Usable(ss[|es|], x)
  }

  lemma Prepend(s: B.State, e: B.Event, ss: seq<B.State>, es: seq<B.Event>, x: nat, n: nat)
    requires B.Enabled(s, e) && !Hits(e, x, n) && TakesDown(ss, es, B.Apply(s, e), x, n)
    ensures TakesDown([s] + ss, [e] + es, s, x, n)
  {
    var ss', es' := [s] + ss, [e] + es;
    forall k | 0 <= k < |es'|
      ensures B.StepAt(ss', es', k) && !Hits(es'[k], x, n)
    {
      assert k > 0 ==> B.StepAt(ss, es, k - 1) && !Hits(es[k - 1], x, n);
    }
  }

  lemma LastStep(s: B.State, e: B.Event, x: nat, n: nat) returns (ss: seq<B.State>, es: seq<B.Event>)
    requires B.Enabled(s, e) && !Hits(e, x, n) && !Usable(B.Apply(s, e), x)
    ensures TakesDown(ss, es, s, x, n)
  {
    ss, es := [s, B.Apply(s, e)], [e];
    assert B.StepAt(ss, es, 0);
  }

  /** Another object goes on to its DisconnectFunc. */
  lemma {:induction false} OtherDisconnects(s: B.State, x: nat, y: nat, n: nat)
    returns (ss: seq<B.State>, es: seq<B.Event>)
    requires B.Inv(s) && !s.crashed && y < |s.objects| && y != x
    requires CanDisconnect(s.objects[y].life, s.stored == Some(y))
    ensures TakesDown(ss, es, s, x, n)
    decreases Rank(s.objects[y].life, s.stored == Some(y)), if s.objects[y].connecting.Some? then 1 else 0
  {
    assert B.ObjectFits(s, y);
    var e: B.Event;
    if s.objects[y].connecting.Some? {
      e := B.Lists(y);
    } else {
      var le := DisconnectNearer(s.objects[y].life, s.stored == Some(y));
      e := if le.Done? then B.StoreDone else B.Step(y, le);
    }
    if e.Step? && e.e.Disconnects? {
      ss, es := LastStep(s, e, x, n);
    } else {
      B.StepKeepsInv(s, e);
      ss, es := OtherDisconnects(B.Apply(s, e), x, y, n);
      Prepend(s, e, ss, es, x, n);
      ss, es := [s] + ss, [e] + es;
    }
  }

  /** An object goes on to a "_.ready", finds another object in the store and lists that. */
  lemma {:induction false} OtherIsListed(s: B.State, x: nat, y: nat, n: nat)
    returns (ss: seq<B.State>, es: seq<B.Event>)
    requires B.Inv(s) && !s.crashed && y < |s.objects| && s.stored.Some? && s.stored != Some(x)
    requires CanReady(s.objects[y].life) && (y == x ==> Receives(s.objects[y].life))
    ensures TakesDown(ss, es, s, x, n)
    decreases ReadyRank(s.objects[y].life), if s.objects[y].connecting.Some? then 1 else 0
  {
    assert B.ObjectFits(s, y);
    var e: B.Event;
    if s.objects[y].connecting.Some? {
      e := B.Lists(y);
    } else {
      var le := ReadyNearer(s.objects[y].life);
      e := B.Step(y, le);
    }
    B.StepKeepsInv(s, e);
    if e.Step? && e.e.GotReady? {
      ss, es := LastStep(B.Apply(s, e), B.Lists(y), x, n);
    } else {
      ss, es := OtherIsListed(B.Apply(s, e), x, y, n);
    }
    Prepend(s, e, ss, es, x, n);
    ss, es := [s] + ss, [e] + es;
  }

  /** One of the epilogues of x itself runs. */
  lemma OwnEpilogue(s: B.State, x: nat) returns (ss: seq<B.State>, es: seq<B.Event>)
    requires B.Inv(s) && !s.crashed && Usable(s, x)
    requires OldEpilogueAhead(s.objects[x].life) || Unlocking(s.objects[x].life)
    ensures TakesDown(ss, es, s, x, |s.objects[x].life.starts|)
  {
    var l := s.objects[x].life;
    var n := |l.starts|;
    assert B.ObjectFits(s, x);
    if Unlocking(l) {
      var i :| 0 <= i < |l.starts| && l.starts[i].epilogue == Unlocked;
      ss, es := LastStep(s, B.Step(x, Disconnects(i)), x, n);
    } else {
      var i :| 0 <= i < |l.starts| - 1 && l.starts[i].epilogue == Ahead;
      assert Replaced(l.starts[i]);
      if s.objects[x].connecting.Some? {
        ss, es := LastStep(B.Apply(s, B.Lists(x)), B.Step(x, End(i)), x, n);
        Prepend(s, B.Lists(x), ss, es, x, n);
        ss, es := [s] + ss, [B.Lists(x)] + es;
      } else {
        ss, es := LastStep(s, B.Step(x, End(i)), x, n);
      }
    }
  }

  lemma LateTakesDown(s: B.State, x: nat) returns (ss: seq<B.State>, es: seq<B.Event>)
    requires B.Inv(s) && !s.crashed && Usable(s, x) && !NothingLate(s, x)
    ensures TakesDown(ss, es, s, x, |s.objects[x].life.starts|)
  {
    var n := |s.objects[x].life.starts|;
    if OldEpilogueAhead(s.objects[x].life) || Unlocking(s.objects[x].life) {
      ss, es := OwnEpilogue(s, x);
    } else {
      var y :| 0 <= y < |s.objects| && !Harmless(s, x, y);
      if y != x && CanDisconnect(s.objects[y].life, s.stored == Some(y)) {
        ss, es := OtherDisconnects(s, x, y, n);
      } else if s.objects[y].connecting.Some? && s.objects[y].connecting != Some(x) {
        ss, es := LastStep(s, B.Lists(y), x, n);
      } else {
        ss, es := OtherIsListed(s, x, y, n);
      }
    }
  }

  /** A broker that is connected on its newest Start and on the list stays both in all
      continuations, until that Start ends or restarts, the client starts again or the list is
      rebuilt, exactly when nothing late is left. Objects of the id whose Starts are all over
      do not matter. */
  lemma StaysUsableExactly(s: B.State, x: nat)
    requires B.Inv(s) && !s.crashed && Usable(s, x)
    ensures (forall ss, es :: Continues(ss, es, s, x, |s.objects[x].life.starts|) ==> Usable(ss[|es|], x))
       <==> NothingLate(s, x)
  {
    var n := |s.objects[x].life.starts|;
    if NothingLate(s, x) {
      forall ss, es | Continues(ss, es, s, x, n)
        ensures Usable(ss[|es|], x)
      {
        StaysUsable(ss, es, s, x, |es|);
      }
    } else {
      var ss, es := LateTakesDown(s, x);
      assert Continues(ss, es, s, x, n) && !Usable(ss[|es|], x);
    }
  }
}
