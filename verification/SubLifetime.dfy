/** How long a registration lasts when calls interleave: exactly when a returned registration
    is still found, which events it gets, and which calls under way can still take it away. */
module SubLifetime {
  import opened Subscriptions
  import opened SubInterleaving

  // ----- how long a registration lasts -----

  /** The step takes the entry of name away, or puts a new Sub in its place. */
  predicate Displaces(s: State, e: Event, name: string) {
    Enabled(s, e) && (e.Insert? || e.DeleteEntry?) && s.threads[e.t].name == name
  }

  /** The step filters the handler id out of the Sub r. */
  predicate Removes(s: State, e: Event, r: Ref, id: string) {
    Enabled(s, e) && e.Filter? && s.threads[e.t].sub == r && s.threads[e.t].id == id
  }

  lemma StepListed(s: State, e: Event, r: Ref, name: string)
    requires Enabled(s, e) && Known(s, r, name) && Listed(s, r, name)
    ensures Listed(Apply(s, e), r, name) <==> !Displaces(s, e, name)
  {
  }

  lemma StepHasId(s: State, e: Event, r: Ref, id: string)
    requires Inv(s) && Enabled(s, e) && HasId(s, r, id)
    ensures HasId(Apply(s, e), r, id) <==> !Removes(s, e, r, id)
  {
    var i :| 0 <= i < |s.subs[r]| && s.subs[r][i].id == id;
    if Removes(s, e, r, id) {
      FilterRemoves(s, e.t);
    } else if e.Filter? && s.threads[e.t].sub == r {
      KeptByDrop(s.subs[r], s.threads[e.t].id, i);
      var k :| 0 <= k < |Apply(s, e).subs[r]| && Apply(s, e).subs[r][k] == s.subs[r][i];
    } else {
      assert Apply(s, e).subs[r][i] == s.subs[r][i];
    }
  }

  /** From a state where the Sub r is in the map on, it is there exactly until the first
      step that displaces it: an insertion by a Register that had missed it, or a deletion
      of the entry by an Unregister that had found a Sub of that name empty. */
  lemma {:induction false} ListedExactly(ss: seq<State>, es: seq<Event>, l: nat, m: nat, r: Ref, name: string)
    requires IsPath(ss, es) && l <= m <= |es| && Known(ss[l], r, name) && Listed(ss[l], r, name)
    ensures Listed(ss[m], r, name) <==> forall j :: l <= j < m ==> !Displaces(ss[j], es[j], name)
    ensures Known(ss[m], r, name)
  {
    if m == l {
    } else {
      ListedExactly(ss, es, l, m - 1, r, name);
      assert StepAt(ss, es, m - 1);
      KnownStays(ss[m - 1], es[m - 1], r, name);
      if Listed(ss[m - 1], r, name) {
        StepListed(ss[m - 1], es[m - 1], r, name);
      } else {
        UnlistedStays(ss[m - 1], es[m - 1], r, name);
      }
    }
  }

  lemma {:induction false} HasIdExactly(ss: seq<State>, es: seq<Event>, l: nat, m: nat, r: Ref, id: string)
    requires IsPath(ss, es) && Inv(ss[0]) && l <= m <= |es| && HasId(ss[l], r, id)
    ensures HasId(ss[m], r, id) <==> forall j :: l <= j < m ==> !Removes(ss[j], es[j], r, id)
    ensures r in ss[m].subs && id in ss[m].drawn
  {
    InvAt(ss, es, l);
    if m == l {
    } else {
      HasIdExactly(ss, es, l, m - 1, r, id);
      assert StepAt(ss, es, m - 1);
      InvAt(ss, es, m - 1);
      if HasId(ss[m - 1], r, id) {
        StepHasId(ss[m - 1], es[m - 1], r, id);
      } else {
        NoIdStays(ss[m - 1], es[m - 1], r, id);
      }
    }
  }

  /** The step after which the call t holds its Sub; the Sub is in the map at that moment. */
  ghost predicate TakesHold(ss: seq<State>, es: seq<Event>, l: nat, t: Tid, name: string, r: Ref)
    requires 0 < l <= |es| < |ss|
  {
    && (es[l - 1] == Look(t) || es[l - 1] == Insert(t, r))
    && t in ss[l].threads && ss[l].threads[t].RegHolding? && ss[l].threads[t].sub == r
    && Listed(ss[l], r, name)
  }

  /** Every call of Register that is about to append took hold of its Sub in an earlier step. */
  lemma {:induction false} HoldingSince(ss: seq<State>, es: seq<Event>, a: nat, t: Tid) returns (l: nat)
    requires IsRun(ss, es) && a <= |es| && t in ss[a].threads && ss[a].threads[t].RegHolding?
    ensures 0 < l <= a && TakesHold(ss, es, l, t, ss[a].threads[t].name, ss[a].threads[t].sub)
    decreases a
  {
    assert a > 0;
    assert StepAt(ss, es, a - 1);
    if t in ss[a - 1].threads && ss[a - 1].threads[t] == ss[a].threads[t] {
      l := HoldingSince(ss, es, a - 1, t);
    } else {
      l := a;
    }
  }

  /** A lookup of name leads to the handler id. */
  ghost predicate Reaches(s: State, name: string, id: string) {
    name in s.list && HasId(s, s.list[name], id)
  }

  /** How long a registration lasts, in every interleaving. Let Register take hold of its Sub
      before state l and append the handler id in step a. At any later state a lookup leads to
      the handler exactly when no step since l has displaced the Sub and no Unregister has
      filtered the handler out. The steps between l and a matter: by then the
      Sub can have left the map, and the registration is lost before it is returned. */
  lemma RegistrationLastsExactly(ss: seq<State>, es: seq<Event>, name: string, id: string, l: nat, a: nat, m: nat)
    requires IsRun(ss, es) && 0 < l <= a < m <= |es| && Registers(ss, es, a, name, id)
    requires TakesHold(ss, es, l, es[a].t, name, ss[a].threads[es[a].t].sub)
    ensures Reaches(ss[m], name, id) <==>
      && (forall j :: l <= j < m ==> !Displaces(ss[j], es[j], name))
      && (forall j :: a < j < m ==> !Removes(ss[j], es[j], ss[a].threads[es[a].t].sub, id))
  {
    var r := ss[a].threads[es[a].t].sub;
    assert StepAt(ss, es, a);
    InvAt(ss, es, l);
    ListedExactly(ss, es, l, m, r, name);
    InvAt(ss, es, a);
    AppendOwns(ss[a], es[a].t, id);
    AppendHasId(ss[a], es[a].t, id);
    HasIdExactly(ss, es, a + 1, m, r, id);
    OwnedUntil(ss, es, a + 1, m, id, r, name);
  }

  lemma AppendHasId(s: State, t: Tid, id: string)
    requires Enabled(s, Append(t, id))
    ensures HasId(Apply(s, Append(t, id)), s.threads[t].sub, id)
  {
    var hs := s.subs[s.threads[t].sub];
    assert Apply(s, Append(t, id)).subs[s.threads[t].sub][|hs|].id == id;
  }

  /** A Recv whose lookup found a Sub holds that Sub until it starts the handlers, and one
      whose lookup found none has returned. */
  lemma {:induction false} RecvKeeps(ss: seq<State>, es: seq<Event>, d: nat, e: nat, v: Tid)
    requires IsRun(ss, es) && d < e <= |es| && es[d] == Look(v)
    requires v in ss[d].threads && ss[d].threads[v].RecvCalled?
    ensures v in ss[e].seen
    ensures v in ss[e].threads <==>
      ss[d].threads[v].name in ss[d].list && forall j :: d < j < e ==> es[j] != FanOut(v)
    ensures v in ss[e].threads ==> ss[e].threads[v] == RecvFound(ss[d].list[ss[d].threads[v].name])
    decreases e
  {
    InvAt(ss, es, d);
    assert StepAt(ss, es, e - 1);
    if e == d + 1 {
    } else {
      RecvKeeps(ss, es, d, e - 1, v);
    }
  }

  /** The step FanOut(v) starts the handler id. */
  ghost predicate Starts(s: State, v: Tid, id: string)
    requires Enabled(s, FanOut(v))
  {
    exists k :: 0 <= k < |Started(s, v)| && Started(s, v)[k].id == id
  }

  lemma StartsWhatItHas(s: State, v: Tid, id: string)
    requires Enabled(s, FanOut(v))
    ensures Starts(s, v, id) <==> HasId(s, s.threads[v].sub, id)
  {
    var r := s.threads[v].sub;
    if HasId(s, r, id) {
      var i :| 0 <= i < |s.subs[r]| && s.subs[r][i].id == id;
      assert Started(s, v)[i].id == id;
    }
    if Starts(s, v, id) {
      var k :| 0 <= k < |Started(s, v)| && Started(s, v)[k].id == id;
      assert s.subs[r][k].id == id;
    }
  }

  /** Delivery, in every interleaving. Let Register take hold of its Sub before state l and
      return id in step a, and let a Recv of the name look up in step d and start handlers in
      step e. It starts the handler id exactly when nothing displaced the Sub between l
      and the lookup and nobody filtered the handler out until step e. */
  lemma DeliveredExactly(ss: seq<State>, es: seq<Event>, name: string, id: string,
                         l: nat, a: nat, d: nat, e: nat, v: Tid)
    requires IsRun(ss, es) && 0 < l <= a < d < e < |es| && Registers(ss, es, a, name, id)
    requires TakesHold(ss, es, l, es[a].t, name, ss[a].threads[es[a].t].sub)
    requires es[d] == Look(v) && v in ss[d].threads && ss[d].threads[v] == RecvCalled(name)
    requires es[e] == FanOut(v)
    ensures Enabled(ss[e], FanOut(v))
    ensures Starts(ss[e], v, id) <==>
      && (forall j :: l <= j < d ==> !Displaces(ss[j], es[j], name))
      && (forall j :: a < j < e ==> !Removes(ss[j], es[j], ss[a].threads[es[a].t].sub, id))
  {
    var r := ss[a].threads[es[a].t].sub;
    assert StepAt(ss, es, a) && StepAt(ss, es, e);
    InvAt(ss, es, l);
    ListedExactly(ss, es, l, d, r, name);
    InvAt(ss, es, a);
    AppendOwns(ss[a], es[a].t, id);
    AppendHasId(ss[a], es[a].t, id);
    HasIdExactly(ss, es, a + 1, e, r, id);
    OwnedUntil(ss, es, a + 1, e, id, r, name);
    RecvKeeps(ss, es, d, e, v);
    var q := ss[d].list[name];
    StartsWhatItHas(ss[e], v, id);
    assert ss[e].threads[v].sub == q && (Listed(ss[d], r, name) <==> q == r);
  }

  /** Delivery is due: when the lookup of a Recv leads to the handler id, the Recv can start
      it at every moment until it does, as long as nobody filters it out. */
  lemma DeliveryIsDue(ss: seq<State>, es: seq<Event>, name: string, id: string, d: nat, e: nat, v: Tid)
    requires IsRun(ss, es) && d < e <= |es|
    requires es[d] == Look(v) && v in ss[d].threads && ss[d].threads[v] == RecvCalled(name)
    requires Reaches(ss[d], name, id)
    requires forall j :: d < j < e ==> es[j] != FanOut(v) && !Removes(ss[j], es[j], ss[d].list[name], id)
    ensures Enabled(ss[e], FanOut(v)) && Starts(ss[e], v, id)
  {
    var q := ss[d].list[name];
    assert StepAt(ss, es, d);
    RecvKeeps(ss, es, d, e, v);
    HasIdExactly(ss, es, d, e, q, id);
    StartsWhatItHas(ss[e], v, id);
  }

  // ----- who can still take a registration away -----

  /** The call t is about to filter the handler id out of q. */
  predicate Unregisters(s: State, t: Tid, q: Ref, id: string) {
    t in s.threads && s.threads[t].UnregFound? && s.threads[t].sub == q && s.threads[t].id == id
  }

  ghost predicate BeingUnregistered(s: State, q: Ref, id: string) {
    exists t :: Unregisters(s, t, q, id)
  }

  /** Every handler of q has a call of Unregister that holds q. */
  ghost predicate Covered(s: State, q: Ref) {
    q in s.subs && forall i :: 0 <= i < |s.subs[q]| ==> BeingUnregistered(s, q, s.subs[q][i].id)
  }

  /** The call t can, with the calls under way, displace the Sub r: a Register that missed
      the entry, an Unregister about to delete it, or one that holds another Sub of the name
      all of whose handlers are being unregistered. */
  ghost predicate Threatens(s: State, t: Tid, r: Ref, name: string) {
    t in s.threads
    && match s.threads[t]
       case RegMissed(n, _) => n == name
       case UnregEmptied(n) => n == name
       case UnregFound(n, _, q) => n == name && q != r && Covered(s, q)
       case _ => false
  }

  ghost predicate Threatened(s: State, r: Ref, name: string) {
    exists t :: Threatens(s, t, r, name)
  }

  /** A continuation of s that displaces r without filtering the handler id out of it. */
  ghost predicate TakesAway(ss: seq<State>, es: seq<Event>, s: State, r: Ref, name: string, id: string) {
    && IsPath(ss, es) && ss[0] == s && !Listed(ss[|es|], r, name)
    && forall k :: 0 <= k < |es| ==> !Removes(ss[k], es[k], r, id)
  }

  lemma PathTail(ss: seq<State>, es: seq<Event>)
    requires IsPath(ss, es) && es != []
    ensures IsPath(ss[1..], es[1..])
  {
    forall k | 0 <= k < |es[1..]|
      ensures StepAt(ss[1..], es[1..], k)
    {
      assert StepAt(ss, es, k + 1);
    }
  }

  lemma Prepend(s: State, e: Event, ss: seq<State>, es: seq<Event>, r: Ref, name: string, id: string)
    requires Enabled(s, e) && !Removes(s, e, r, id) && TakesAway(ss, es, Apply(s, e), r, name, id)
    ensures TakesAway([s] + ss, [e] + es, s, r, name, id)
  {
    var ss', es' := [s] + ss, [e] + es;
    forall k | 0 <= k < |es'|
      ensures StepAt(ss', es', k) && !Removes(ss'[k], es'[k], r, id)
    {
      assert k > 0 ==> StepAt(ss, es, k - 1);
    }
  }

  lemma OneStepTakesAway(s: State, e: Event, r: Ref, name: string, id: string)
    returns (ss: seq<State>, es: seq<Event>)
    requires Known(s, r, name) && Listed(s, r, name) && Displaces(s, e, name)
    ensures TakesAway(ss, es, s, r, name, id)
  {
    StepListed(s, e, r, name);
    ss, es := [s, Apply(s, e)], [e];
    assert StepAt(ss, es, 0);
  }

  /** What one call leaves of q is covered by the other calls. */
  lemma FilterKeepsCovered(s: State, t: Tid, q: Ref)
    requires Enabled(s, Filter(t)) && s.threads[t].sub == q && Covered(s, q)
    ensures Covered(Apply(s, Filter(t)), q)
  {
    var s', id := Apply(s, Filter(t)), s.threads[t].id;
    DropIds(s.subs[q], id);
    forall i | 0 <= i < |s'.subs[q]|
      ensures BeingUnregistered(s', q, s'.subs[q][i].id)
    {
      var k :| 0 <= k < |s.subs[q]| && s.subs[q][k] == s'.subs[q][i];
      var u :| Unregisters(s, u, q, s.subs[q][k].id);
      assert Unregisters(s', u, q, s'.subs[q][i].id);
    }
  }

  lemma {:induction false} DropShrinks(hs: seq<Handler<Cb>>, id: string)
    ensures |Drop(hs, id)| <= |hs|
    ensures hs != [] && hs[0].id == id ==> |Drop(hs, id)| < |hs|
  {
    if hs == [] {
    } else {
      DropShrinks(hs[1..], id);
    }
  }

  /** The calls that unregister the handlers of q run one after the other; the one that
      empties q deletes the entry, which by now is another Sub's. */
  lemma {:induction false} EmptyAndDelete(s: State, t: Tid, q: Ref, r: Ref, name: string, id: string)
    returns (ss: seq<State>, es: seq<Event>)
    requires Inv(s) && Listed(s, r, name) && q != r && Covered(s, q)
    requires t in s.threads && s.threads[t].UnregFound? && s.threads[t].name == name && s.threads[t].sub == q
    requires s.subs[q] != [] ==> s.threads[t].id == s.subs[q][0].id
    ensures TakesAway(ss, es, s, r, name, id)
    decreases |s.subs[q]|
  {
    var e := Filter(t);
    var s' := Apply(s, e);
    StepKeepsInv(s, e);
    DropShrinks(s.subs[q], s.threads[t].id);
    if s'.subs[q] == [] {
      ss, es := OneStepTakesAway(s', DeleteEntry(t), r, name, id);
    } else {
      FilterKeepsCovered(s, t, q);
      var u :| Unregisters(s', u, q, s'.subs[q][0].id);
      assert PcFits(s, s.threads[t]) && PcFits(s', s'.threads[u]);
      ss, es := EmptyAndDelete(s', u, q, r, name, id);
    }
    Prepend(s, e, ss, es, r, name, id);
    ss, es := [s] + ss, [e] + es;
  }

  lemma ThreatIsReal(s: State, t: Tid, r: Ref, name: string, id: string)
    returns (ss: seq<State>, es: seq<Event>)
    requires Inv(s) && Listed(s, r, name) && Threatens(s, t, r, name)
    ensures TakesAway(ss, es, s, r, name, id)
  {
    assert Known(s, r, name);
    var pc := s.threads[t];
    if pc.RegMissed? {
      var q := AboveAll(s.subs.Keys);
      ss, es := OneStepTakesAway(s, Insert(t, q), r, name, id);
    } else if pc.UnregEmptied? {
      ss, es := OneStepTakesAway(s, DeleteEntry(t), r, name, id);
    } else {
      var u := t;
      if s.subs[pc.sub] != [] {
        u :| Unregisters(s, u, pc.sub, s.subs[pc.sub][0].id);
        assert PcFits(s, s.threads[t]) && PcFits(s, s.threads[u]);
      }
      ss, es := EmptyAndDelete(s, u, pc.sub, r, name, id);
    }
  }

  /** A call that threatens r after a step threatened it before, or the step was its own. */
  lemma StepMakesNoThreat(s: State, e: Event, t: Tid, r: Ref, name: string, id: string)
    requires Inv(s) && Enabled(s, e) && Listed(s, r, name) && HasId(s, r, id) && !Removes(s, e, r, id)
    requires Threatens(Apply(s, e), t, r, name)
    ensures Threatened(s, r, name)
  {
    var s' := Apply(s, e);
    if t in s.threads && s'.threads[t] == s.threads[t] {
      if s.threads[t].UnregFound? {
        CoveredBefore(s, e, s.threads[t].sub, r, name, t);
      }
      assert Threatens(s, t, r, name);
    } else if e == Filter(t) {
      StepHasId(s, e, r, id);
      EmptiedWasCovered(s, t);
      assert Threatens(s, t, r, name);
    }
  }

  lemma EmptiedWasCovered(s: State, t: Tid)
    requires Inv(s) && Enabled(s, Filter(t)) && Apply(s, Filter(t)).subs[s.threads[t].sub] == []
    ensures Covered(s, s.threads[t].sub)
  {
    var q, id := s.threads[t].sub, s.threads[t].id;
    forall i | 0 <= i < |s.subs[q]|
      ensures BeingUnregistered(s, q, s.subs[q][i].id)
    {
      if s.subs[q][i].id != id {
        KeptByDrop(s.subs[q], id, i);
      }
      assert Unregisters(s, t, q, s.subs[q][i].id);
    }
  }

  /** No call gets hold of a Sub that has left the map, so what covers its handlers after a
      step did so before. */
  lemma CoveredBefore(s: State, e: Event, q: Ref, r: Ref, name: string, t: Tid)
    requires Inv(s) && Enabled(s, e) && Listed(s, r, name) && q != r && Covered(Apply(s, e), q)
    requires t in s.threads && s.threads[t].UnregFound? && s.threads[t].sub == q && s.threads[t].name == name
    ensures Covered(s, q)
  {
    var s' := Apply(s, e);
    assert Known(s, q, name) by {
      assert PcFits(s, s.threads[t]);
    }
    forall i | 0 <= i < |s.subs[q]|
      ensures BeingUnregistered(s, q, s.subs[q][i].id)
    {
      var h := s.subs[q][i];
      if e.Filter? && s.threads[e.t].sub == q && s.threads[e.t].id == h.id {
        assert Unregisters(s, e.t, q, h.id);
      } else {
        HandlerStays(s, e, q, i);
        var k :| 0 <= k < |s'.subs[q]| && s'.subs[q][k] == h;
        var u :| Unregisters(s', u, q, s'.subs[q][k].id);
        assert Unregisters(s, u, q, h.id);
      }
    }
  }

  lemma HandlerStays(s: State, e: Event, q: Ref, i: nat)
    requires Enabled(s, e) && q in s.subs && i < |s.subs[q]|
    requires !(e.Filter? && s.threads[e.t].sub == q && s.threads[e.t].id == s.subs[q][i].id)
    ensures q in Apply(s, e).subs && s.subs[q][i] in Apply(s, e).subs[q]
  {
    if e.Filter? && s.threads[e.t].sub == q {
      KeptByDrop(s.subs[q], s.threads[e.t].id, i);
    } else {
      assert Apply(s, e).subs[q][i] == s.subs[q][i];
    }
  }

  lemma {:induction false} SafeStaysListed(ss: seq<State>, es: seq<Event>, r: Ref, name: string, id: string)
    requires IsPath(ss, es) && Inv(ss[0]) && Listed(ss[0], r, name) && HasId(ss[0], r, id)
    requires !Threatened(ss[0], r, name)
    requires forall k :: 0 <= k < |es| ==> !Removes(ss[k], es[k], r, id)
    ensures Listed(ss[|es|], r, name)
    decreases |es|
  {
    if es == [] {
    } else {
      assert StepAt(ss, es, 0);
      var s, e := ss[0], es[0];
      StepKeepsInv(s, e);
      assert Displaces(s, e, name) ==> Threatens(s, e.t, r, name);
      StepListed(s, e, r, name);
      StepHasId(s, e, r, id);
      forall t
        ensures !Threatens(ss[1], t, r, name)
      {
        if Threatens(ss[1], t, r, name) {
          StepMakesNoThreat(s, e, t, r, name, id);
        }
      }
      PathTail(ss, es);
      SafeStaysListed(ss[1..], es[1..], r, name, id);
    }
  }

  /** Exactly when a registered handler can still be lost although nobody unregisters it: some
      call under way had missed the Sub, or is about to delete the entry, or holds another
      Sub of the name all of whose handlers are being unregistered. Calls that come later
      are harmless. */
  lemma CanBeLostExactly(s: State, r: Ref, name: string, id: string)
    requires Inv(s) && Listed(s, r, name) && HasId(s, r, id)
    ensures (exists ss, es :: TakesAway(ss, es, s, r, name, id)) <==> Threatened(s, r, name)
  {
    if Threatened(s, r, name) {
      var t :| Threatens(s, t, r, name);
      var ss, es := ThreatIsReal(s, t, r, name, id);
    } else {
      forall ss: seq<State>, es: seq<Event> | IsPath(ss, es) && ss[0] == s
        ensures !TakesAway(ss, es, s, r, name, id)
      {
        if TakesAway(ss, es, s, r, name, id) {
          SafeStaysListed(ss, es, r, name, id);
        }
      }
    }
  }

  // ----- what does not hold under concurrency -----

  lemma Extend(ss: seq<State>, es: seq<Event>, e: Event, s: State) returns (ss': seq<State>, es': seq<Event>)
    requires IsRun(ss, es) && Next(ss[|es|], e, s)
    ensures IsRun(ss', es') && ss' == ss + [s] && es' == es + [e]
  {
    ss', es' := ss + [s], es + [e];
    forall k | 0 <= k < |es'|
      ensures StepAt(ss', es', k)
    {
      assert k < |es| ==> StepAt(ss, es, k);
    }
  }

  /** One handler "a" is registered for "n". */
  lemma OneRegistered() returns (ss: seq<State>, es: seq<Event>)
    ensures IsRun(ss, es)
    ensures es == [CallRegister(1, "n", 10), Look(1), Insert(1, 0), Append(1, "a")]
    ensures ss[4] == State(map["n" := 0], map[0 := [Handler("a", 10)]], map[0 := "n"], {"a"}, map[], {1})
  {
    ss, es := [INIT], [];
    ss, es := Extend(ss, es, CallRegister(1, "n", 10), INIT.(threads := map[1 := RegCalled("n", 10)], seen := {1}));
    ss, es := Extend(ss, es, Look(1), INIT.(threads := map[1 := RegMissed("n", 10)], seen := {1}));
    var s3 := State(map["n" := 0], map[0 := []], map[0 := "n"], {}, map[1 := RegHolding("n", 10, 0)], {1});
    ss, es := Extend(ss, es, Insert(1, 0), s3);
    var s4 := Apply(s3, Append(1, "a"));
    assert s3.subs[0] + [Handler("a", 10)] == [Handler("a", 10)];
    assert s4.threads == map[] && s4.subs == map[0 := [Handler("a", 10)]];
    ss, es := Extend(ss, es, Append(1, "a"), s4);
  }

  /** A registration that is lost before it is returned. From one registered handler
      "a", a second Register looks up the Sub; then Unregister empties it and deletes the
      entry; then the second handler "b" is appended. Register has returned "b", nobody
      unregisters it, and yet the event has no entry any more. */
  lemma RegistrationCanBeLost() returns (ss: seq<State>, es: seq<Event>)
    ensures IsRun(ss, es) && |es| == 11
    ensures Registers(ss, es, 10, "n", "b")
    ensures forall k :: 0 <= k < |es| && es[k].CallUnregister? ==> es[k].id != "b"
    ensures ss[11].threads == map[] && "n" !in ss[11].list
  {
    ss, es := OneRegistered();
    var s := ss[4];
    var two := map[2 := RegHolding("n", 20, 0)];
    ss, es := Extend(ss, es, CallRegister(2, "n", 20), s.(threads := map[2 := RegCalled("n", 20)], seen := {1, 2}));
    ss, es := Extend(ss, es, Look(2), s.(threads := two, seen := {1, 2}));
    ss, es := LoseEntry(ss, es, two);
    ss, es := Extend(ss, es, Append(2, "b"), Apply(ss[10], Append(2, "b")));
  }

  lemma LoseEntry(ss0: seq<State>, es0: seq<Event>, two: map<Tid, Pc>) returns (ss: seq<State>, es: seq<Event>)
    requires IsRun(ss0, es0) && |es0| == 6 && two == map[2 := RegHolding("n", 20, 0)]
    requires ss0[6] == State(map["n" := 0], map[0 := [Handler("a", 10)]], map[0 := "n"], {"a"}, two, {1, 2})
    ensures IsRun(ss, es)
    ensures es == es0 + [CallUnregister(3, "n", "a"), Look(3), Filter(3), DeleteEntry(3)]
    ensures ss[10] == State(map[], map[0 := []], map[0 := "n"], {"a"}, two, {1, 2, 3})
  {
    var s := ss0[6].(seen := {1, 2, 3});
    ss, es := Extend(ss0, es0, CallUnregister(3, "n", "a"), s.(threads := two[3 := UnregCalled("n", "a")]));
    ss, es := Extend(ss, es, Look(3), s.(threads := two[3 := UnregFound("n", "a", 0)]));
    ss, es := DeleteEmptied(ss, es, s, two);
  }

  lemma DeleteEmptied(ss0: seq<State>, es0: seq<Event>, s: State, two: map<Tid, Pc>)
    returns (ss: seq<State>, es: seq<Event>)
    requires IsRun(ss0, es0) && 3 !in two
    requires s.list == map["n" := 0] && s.subs == map[0 := [Handler("a", 10)]]
    requires ss0[|es0|] == s.(threads := two[3 := UnregFound("n", "a", 0)])
    ensures IsRun(ss, es) && es == es0 + [Filter(3), DeleteEntry(3)]
    ensures |ss| == |ss0| + 2 && ss[|es|] == s.(threads := two, subs := map[0 := []], list := map[])
  {
    assert Drop([Handler("a", 10)], "a") == [];
    ss, es := Extend(ss0, es0, Filter(3), s.(threads := two[3 := UnregEmptied("n")], subs := map[0 := []]));
    ss, es := Extend(ss, es, DeleteEntry(3), s.(threads := two, subs := map[0 := []], list := map[]));
  }
}
