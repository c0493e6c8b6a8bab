/** sub/store.go and sub/sub.go under concurrency: each locked region of Register,
    Unregister and Recv is one step, and any number of goroutines interleave. Sub objects
    have identities, so an object that has left the map can still be held by a thread. */
module SubInterleaving {
  import opened Subscriptions

  type Tid = nat
  type Ref = nat
  type Cb = nat

  /** What a call has done so far. */
  datatype Pc =
    | RegCalled(name: string, cb: Cb)
    | RegMissed(name: string, cb: Cb)             // the lookup found no Sub
    | RegHolding(name: string, cb: Cb, sub: Ref)  // about to append to sub
    | UnregCalled(name: string, id: string)
    | UnregFound(name: string, id: string, sub: Ref)
    | UnregEmptied(name: string)                  // about to delete the map entry
    | RecvCalled(name: string)
    | RecvFound(sub: Ref)

  datatype State = State(
    list: map<string, Ref>,
    subs: map<Ref, seq<Handler<Cb>>>,  // every Sub object ever made, with its handlers
    born: map<Ref, string>,            // the name each of them was made for
    drawn: set<string>,                // the identifiers drawn so far
    threads: map<Tid, Pc>,             // the calls that have not returned
    seen: set<Tid>)                    // all calls so far; a call has a number of its own

  const INIT := State(map[], map[], map[], {}, map[], {})

  datatype Event =
    | CallRegister(t: Tid, name: string, cb: Cb)
    | CallUnregister(t: Tid, name: string, id: string)
    | CallRecv(t: Tid, name: string)
    | Look(t: Tid)                 // the read-locked lookup that starts each call
    | Insert(t: Tid, sub: Ref)     // Register: a new Sub enters the map
    | Append(t: Tid, id: string)   // Register: the handler is appended, id is returned
    | Filter(t: Tid)               // Unregister: the handler is filtered out of the Sub
    | DeleteEntry(t: Tid)          // Unregister: the map entry goes
    | FanOut(t: Tid)               // Recv: the handlers of the Sub are started

  predicate Enabled(s: State, e: Event) {
    match e
    case CallRegister(t, _, _) => t !in s.seen
    case CallUnregister(t, _, _) => t !in s.seen
    case CallRecv(t, _) => t !in s.seen
    case Look(t) =>
      t in s.threads && (s.threads[t].RegCalled? || s.threads[t].UnregCalled? || s.threads[t].RecvCalled?)
    case Insert(t, r) => t in s.threads && s.threads[t].RegMissed? && r !in s.subs
    case Append(t, id) =>
      t in s.threads && s.threads[t].RegHolding? && s.threads[t].sub in s.subs && id !in s.drawn
    case Filter(t) => t in s.threads && s.threads[t].UnregFound? && s.threads[t].sub in s.subs
    case DeleteEntry(t) => t in s.threads && s.threads[t].UnregEmptied?
    case FanOut(t) => t in s.threads && s.threads[t].RecvFound? && s.threads[t].sub in s.subs
  }

  function Enter(s: State, t: Tid, pc: Pc): State {
    s.(threads := s.threads[t := pc], seen := s.seen + {t})
  }

  function Goto(s: State, t: Tid, pc: Pc): State {
    s.(threads := s.threads[t := pc])
  }

  function Return(s: State, t: Tid): State {
    s.(threads := s.threads - {t})
  }

  function Apply(s: State, e: Event): State {
    if !Enabled(s, e) then s
    else
      match e
      case CallRegister(t, name, cb) => Enter(s, t, RegCalled(name, cb))
      case CallUnregister(t, name, id) => Enter(s, t, UnregCalled(name, id))
      case CallRecv(t, name) => Enter(s, t, RecvCalled(name))
      case Look(t) => AfterLook(s, t)
      case Insert(t, r) =>
        var pc := s.threads[t];
        Goto(s, t, RegHolding(pc.name, pc.cb, r)).(
          list := s.list[pc.name := r], subs := s.subs[r := []], born := s.born[r := pc.name])
      case Append(t, id) =>
        var pc := s.threads[t];
        Return(s, t).(subs := s.subs[pc.sub := s.subs[pc.sub] + [Handler(id, pc.cb)]], drawn := s.drawn + {id})
      case Filter(t) =>
        var pc := s.threads[t];
        var kept := Drop(s.subs[pc.sub], pc.id);
        (if kept == [] then Goto(s, t, UnregEmptied(pc.name)) else Return(s, t)).(subs := s.subs[pc.sub := kept])
      case DeleteEntry(t) => Return(s, t).(list := s.list - {s.threads[t].name})
      case FanOut(t) => Return(s, t)
  }

  function AfterLook(s: State, t: Tid): State
    requires Enabled(s, Look(t))
  {
    var pc := s.threads[t];
    var found := pc.name in s.list;
    match pc
    case RegCalled(name, cb) => Goto(s, t, if found then RegHolding(name, cb, s.list[name]) else RegMissed(name, cb))
    case UnregCalled(name, id) => if found then Goto(s, t, UnregFound(name, id, s.list[name])) else Return(s, t)
    case _ => if found then Goto(s, t, RecvFound(s.list[pc.name])) else Return(s, t)
  }

  /** The handlers that a FanOut of t starts. */
  function Started(s: State, t: Tid): seq<Handler<Cb>>
    requires Enabled(s, FanOut(t))
  {
    s.subs[s.threads[t].sub]
  }

  ghost predicate Next(s: State, e: Event, s': State) {
    Enabled(s, e) && s' == Apply(s, e)
  }

  /** ss are the states before, between and after the events es. */
  ghost predicate IsPath(ss: seq<State>, es: seq<Event>) {
    |ss| == |es| + 1 && forall k :: 0 <= k < |es| ==> StepAt(ss, es, k)
  }

  ghost predicate IsRun(ss: seq<State>, es: seq<Event>) {
    IsPath(ss, es) && ss[0] == INIT
  }

  ghost predicate StepAt(ss: seq<State>, es: seq<Event>, k: nat)
    requires k < |es| < |ss|
  {
    Next(ss[k], es[k], ss[k + 1])
  }

  // ----- invariants -----

  ghost predicate HasId(s: State, r: Ref, id: string) {
    r in s.subs && exists i :: 0 <= i < |s.subs[r]| && s.subs[r][i].id == id
  }

  ghost predicate Known(s: State, r: Ref, name: string) {
    r in s.subs && r in s.born && s.born[r] == name
  }

  ghost predicate PcFits(s: State, pc: Pc) {
    match pc
    case RegHolding(name, _, r) => Known(s, r, name)
    case UnregFound(name, _, r) => Known(s, r, name)
    case RecvFound(r) => r in s.subs
    case _ => true
  }

  /** Every Sub in the map is filed under the name it was made for, every held Sub exists,
      and every identifier in use was drawn once, for one Sub. */
  ghost predicate Inv(s: State) {
    && (forall n :: n in s.list ==> Known(s, s.list[n], n))
    && (forall t :: t in s.threads ==> t in s.seen && PcFits(s, s.threads[t]))
    && (forall r, id :: HasId(s, r, id) ==> id in s.drawn)
    && (forall r, q, id :: HasId(s, r, id) && HasId(s, q, id) ==> r == q)
  }

  lemma {:induction false} DropIds(hs: seq<Handler<Cb>>, id: string)
    ensures forall i :: 0 <= i < |Drop(hs, id)| ==> Drop(hs, id)[i] in hs && Drop(hs, id)[i].id != id
  {
    if hs == [] {
    } else {
      DropIds(hs[1..], id);
      assert hs == [hs[0]] + hs[1..];
    }
  }

  /** What a step can do to the identifiers of a Sub. */
  lemma StepIds(s: State, e: Event, r: Ref, id: string)
    requires Inv(s) && Enabled(s, e) && HasId(Apply(s, e), r, id)
    ensures HasId(s, r, id) || (e.Append? && e.id == id && s.threads[e.t].sub == r)
    ensures !(e.Filter? && s.threads[e.t].sub == r && s.threads[e.t].id == id)
  {
    if e.Filter? && s.threads[e.t].sub == r {
      DropIds(s.subs[r], s.threads[e.t].id);
      var i :| 0 <= i < |Apply(s, e).subs[r]| && Apply(s, e).subs[r][i].id == id;
      assert Apply(s, e).subs[r][i] in s.subs[r];
    }
  }

  /** A Sub keeps its name for ever. */
  lemma KnownStays(s: State, e: Event, r: Ref, n: string)
    requires Enabled(s, e) && Known(s, r, n)
    ensures Known(Apply(s, e), r, n)
  {
  }

  lemma StepKeepsMap(s: State, e: Event)
    requires Inv(s) && Enabled(s, e)
    ensures var s' := Apply(s, e); forall n :: n in s'.list ==> Known(s', s'.list[n], n)
  {
    var s' := Apply(s, e);
    forall n | n in s'.list
      ensures Known(s', s'.list[n], n)
    {
      if n in s.list && s.list[n] == s'.list[n] {
        KnownStays(s, e, s.list[n], n);
      }
    }
  }

  lemma StepKeepsThreads(s: State, e: Event)
    requires Inv(s) && Enabled(s, e)
    ensures var s' := Apply(s, e);
      forall t :: t in s'.threads ==> t in s'.seen && PcFits(s', s'.threads[t])
  {
    var s' := Apply(s, e);
    forall t | t in s'.threads
      ensures t in s'.seen && PcFits(s', s'.threads[t])
    {
      if t in s.threads && s'.threads[t] == s.threads[t] {
        PcFitsStays(s, e, s.threads[t]);
      }
    }
  }

  lemma PcFitsStays(s: State, e: Event, pc: Pc)
    requires Enabled(s, e) && PcFits(s, pc)
    ensures PcFits(Apply(s, e), pc)
  {
    match pc {
      case RegHolding(name, _, r) => KnownStays(s, e, r, name);
      case UnregFound(name, _, r) => KnownStays(s, e, r, name);
      case _ =>
    }
  }

  lemma StepKeepsIds(s: State, e: Event)
    requires Inv(s) && Enabled(s, e)
    ensures var s' := Apply(s, e);
      && (forall r, id :: HasId(s', r, id) ==> id in s'.drawn)
      && (forall r, q, id :: HasId(s', r, id) && HasId(s', q, id) ==> r == q)
  {
    var s' := Apply(s, e);
    assert s.drawn <= s'.drawn;
    forall r, id | HasId(s', r, id)
      ensures id in s'.drawn
      ensures HasId(s, r, id) || (e.Append? && e.id == id && s.threads[e.t].sub == r)
    {
      StepIds(s, e, r, id);
    }
  }

  lemma StepKeepsInv(s: State, e: Event)
    requires Inv(s) && Enabled(s, e)
    ensures Inv(Apply(s, e))
  {
    StepKeepsMap(s, e);
    StepKeepsThreads(s, e);
    StepKeepsIds(s, e);
  }

  lemma {:induction false} InvAt(ss: seq<State>, es: seq<Event>, k: nat)
    requires IsPath(ss, es) && Inv(ss[0]) && k <= |es|
    ensures Inv(ss[k])
  {
    if k == 0 {
    } else {
      InvAt(ss, es, k - 1);
      assert StepAt(ss, es, k - 1);
      StepKeepsInv(ss[k - 1], es[k - 1]);
    }
  }

  // ----- every call gets on -----

  /** The most steps of its own that a call still takes. */
  function StepsLeft(pc: Pc): nat {
    match pc
    case RegCalled(_, _) => 3
    case RegMissed(_, _) => 2
    case RegHolding(_, _, _) => 1
    case UnregCalled(_, _) => 3
    case UnregFound(_, _, _) => 2
    case UnregEmptied(_) => 1
    case RecvCalled(_) => 2
    case RecvFound(_) => 1
  }

  lemma {:induction false} AboveAll(keys: set<Ref>) returns (r: Ref)
    ensures forall k :: k in keys ==> k < r
    decreases |keys|
  {
    if keys == {} {
      r := 0;
    } else {
      var k :| k in keys;
      r := AboveAll(keys - {k});
      r := if r <= k then k + 1 else r;
      assert forall j :: j in keys ==> j == k || j in keys - {k};
    }
  }

  lemma {:induction false} LongerThanAll(ids: set<string>) returns (id: string)
    ensures forall i :: i in ids ==> |i| < |id|
    decreases |ids|
  {
    if ids == {} {
      id := "";
    } else {
      var i :| i in ids;
      id := LongerThanAll(ids - {i});
      id := if |id| <= |i| then i + "+" else id;
      assert forall j :: j in ids ==> j == i || j in ids - {i};
    }
  }

  /** No call is ever stuck: it has an enabled step of its own, which brings it nearer to its
      return. */
  lemma CallProceeds(s: State, t: Tid) returns (e: Event)
    requires Inv(s) && t in s.threads
    ensures e.t == t && Enabled(s, e)
    ensures t in Apply(s, e).threads ==> StepsLeft(Apply(s, e).threads[t]) < StepsLeft(s.threads[t])
  {
    var pc := s.threads[t];
    assert PcFits(s, pc);
    if pc.RegMissed? {
      var r := AboveAll(s.subs.Keys);
      e := Insert(t, r);
    } else if pc.RegHolding? {
      var id := LongerThanAll(s.drawn);
      e := Append(t, id);
    } else if pc.UnregFound? {
      e := Filter(t);
    } else if pc.UnregEmptied? {
      e := DeleteEntry(t);
    } else if pc.RecvFound? {
      e := FanOut(t);
    } else {
      e := Look(t);
    }
  }

  /** The steps of other calls leave it where it is. */
  lemma OthersLeaveCall(s: State, e: Event, t: Tid)
    requires Enabled(s, e) && e.t != t
    ensures t in Apply(s, e).threads <==> t in s.threads
    ensures t in s.threads ==> Apply(s, e).threads[t] == s.threads[t]
  {
  }

  // ----- once unregistered, never run -----

  ghost predicate Listed(s: State, r: Ref, name: string) {
    name in s.list && s.list[name] == r
  }

  /** id was drawn for the Sub r, and no other Sub has it. */
  ghost predicate Owned(s: State, id: string, r: Ref, name: string) {
    && Known(s, r, name) && id in s.drawn
    && forall q :: HasId(s, q, id) ==> q == r
  }

  /** No lookup from now on can lead to the handler id. */
  ghost predicate Gone(s: State, id: string, r: Ref, name: string) {
    Owned(s, id, r, name) && (!HasId(s, r, id) || !Listed(s, r, name))
  }

  /** A drawn identifier never comes back to a Sub. */
  lemma NoIdStays(s: State, e: Event, r: Ref, id: string)
    requires Inv(s) && Enabled(s, e) && r in s.subs && id in s.drawn && !HasId(s, r, id)
    ensures r in Apply(s, e).subs && !HasId(Apply(s, e), r, id)
  {
    if HasId(Apply(s, e), r, id) {
      StepIds(s, e, r, id);
    }
  }

  /** A Sub that is not in the map never enters it again. */
  lemma UnlistedStays(s: State, e: Event, r: Ref, name: string)
    requires Enabled(s, e) && Known(s, r, name) && !Listed(s, r, name)
    ensures !Listed(Apply(s, e), r, name)
  {
  }

  lemma OwnedStays(s: State, e: Event, id: string, r: Ref, name: string)
    requires Inv(s) && Enabled(s, e) && Owned(s, id, r, name)
    ensures Owned(Apply(s, e), id, r, name)
  {
    KnownStays(s, e, r, name);
    forall q | HasId(Apply(s, e), q, id)
      ensures q == r
    {
      StepIds(s, e, q, id);
    }
  }

  lemma GoneStays(s: State, e: Event, id: string, r: Ref, name: string)
    requires Inv(s) && Enabled(s, e) && Gone(s, id, r, name)
    ensures Gone(Apply(s, e), id, r, name)
  {
    OwnedStays(s, e, id, r, name);
    if !HasId(s, r, id) {
      NoIdStays(s, e, r, id);
    } else {
      UnlistedStays(s, e, r, name);
    }
  }

  /** How far the call u of Unregister(name, id) has come. */
  ghost predicate Unregistering(s: State, u: Tid, id: string, r: Ref, name: string) {
    && u in s.seen && Owned(s, id, r, name)
    && if u !in s.threads then Gone(s, id, r, name)
       else match s.threads[u]
         case UnregCalled(n, i) => n == name && i == id
         case UnregFound(n, i, q) => n == name && i == id && (q == r || !Listed(s, r, name))
         case UnregEmptied(n) => Gone(s, id, r, name)
         case _ => false
  }

  lemma UnregisteringStays(s: State, e: Event, u: Tid, id: string, r: Ref, name: string)
    requires Inv(s) && Enabled(s, e) && Unregistering(s, u, id, r, name)
    ensures Unregistering(Apply(s, e), u, id, r, name)
  {
    OwnedStays(s, e, id, r, name);
    if Gone(s, id, r, name) {
      GoneStays(s, e, id, r, name);
    }
    if !Listed(s, r, name) {
      UnlistedStays(s, e, r, name);
    }
    if e == Filter(u) {
      FilterRemoves(s, u);
    }
  }

  lemma FilterRemoves(s: State, u: Tid)
    requires Inv(s) && Enabled(s, Filter(u))
    ensures !HasId(Apply(s, Filter(u)), s.threads[u].sub, s.threads[u].id)
  {
    if HasId(Apply(s, Filter(u)), s.threads[u].sub, s.threads[u].id) {
      StepIds(s, Filter(u), s.threads[u].sub, s.threads[u].id);
    }
  }

  /** The call v of Recv holds, if anything, a Sub without the handler id. */
  ghost predicate Clean(s: State, v: Tid, id: string) {
    && v in s.seen && id in s.drawn
    && (v in s.threads ==> s.threads[v].RecvFound? && s.threads[v].sub in s.subs && !HasId(s, s.threads[v].sub, id))
  }

  lemma CleanStays(s: State, e: Event, v: Tid, id: string)
    requires Inv(s) && Enabled(s, e) && Clean(s, v, id)
    ensures Clean(Apply(s, e), v, id)
  {
    if v in s.threads {
      NoIdStays(s, e, s.threads[v].sub, id);
    }
  }

  lemma LookIsClean(s: State, v: Tid, id: string, r: Ref, name: string)
    requires Inv(s) && Enabled(s, Look(v)) && s.threads[v].RecvCalled? && Gone(s, id, r, name)
    ensures Clean(Apply(s, Look(v)), v, id)
  {
    var n := s.threads[v].name;
    if n in s.list {
      assert Known(s, s.list[n], n);
      assert HasId(s, s.list[n], id) ==> Listed(s, r, name);
    }
  }

  lemma {:induction false} OwnedUntil(ss: seq<State>, es: seq<Event>, k: nat, m: nat, id: string, r: Ref, name: string)
    requires IsRun(ss, es) && k <= m <= |es| && Owned(ss[k], id, r, name)
    ensures Owned(ss[m], id, r, name)
    decreases m - k
  {
    if k == m {
    } else {
      InvAt(ss, es, k);
      assert StepAt(ss, es, k);
      OwnedStays(ss[k], es[k], id, r, name);
      OwnedUntil(ss, es, k + 1, m, id, r, name);
    }
  }

  lemma {:induction false} UnregisteringUntil(ss: seq<State>, es: seq<Event>, k: nat, m: nat,
                                              u: Tid, id: string, r: Ref, name: string)
    requires IsRun(ss, es) && k <= m <= |es| && Unregistering(ss[k], u, id, r, name)
    ensures Unregistering(ss[m], u, id, r, name)
    decreases m - k
  {
    if k == m {
    } else {
      InvAt(ss, es, k);
      assert StepAt(ss, es, k);
      UnregisteringStays(ss[k], es[k], u, id, r, name);
      UnregisteringUntil(ss, es, k + 1, m, u, id, r, name);
    }
  }

  lemma {:induction false} CleanUntil(ss: seq<State>, es: seq<Event>, k: nat, m: nat, v: Tid, id: string)
    requires IsRun(ss, es) && k <= m <= |es| && Clean(ss[k], v, id)
    ensures Clean(ss[m], v, id)
    decreases m - k
  {
    if k == m {
    } else {
      InvAt(ss, es, k);
      assert StepAt(ss, es, k);
      CleanStays(ss[k], es[k], v, id);
      CleanUntil(ss, es, k + 1, m, v, id);
    }
  }

  /** Register for name returned id in step a. */
  ghost predicate Registers(ss: seq<State>, es: seq<Event>, a: nat, name: string, id: string) {
    && a < |es| && a < |ss| && es[a].Append? && es[a].id == id
    && es[a].t in ss[a].threads && ss[a].threads[es[a].t].RegHolding?
    && ss[a].threads[es[a].t].name == name
  }

  /** Once Register(name) has returned id (step a) and Unregister(name, id), called later
      (step b), has returned (before state c), no lookup can lead to the handler. */
  lemma UnregisteredIsGone(ss: seq<State>, es: seq<Event>, name: string, id: string,
                           a: nat, b: nat, c: nat, u: Tid)
    requires IsRun(ss, es) && a < b < c <= |es|
    requires Registers(ss, es, a, name, id)
    requires es[b] == CallUnregister(u, name, id) && u !in ss[c].threads
    ensures Gone(ss[c], id, ss[a].threads[es[a].t].sub, name)
  {
    var r := ss[a].threads[es[a].t].sub;
    assert StepAt(ss, es, a) && StepAt(ss, es, b);
    InvAt(ss, es, a);
    AppendOwns(ss[a], es[a].t, id);
    OwnedUntil(ss, es, a + 1, b, id, r, name);
    InvAt(ss, es, b);
    OwnedStays(ss[b], es[b], id, r, name);
    assert Unregistering(ss[b + 1], u, id, r, name);
    UnregisteringUntil(ss, es, b + 1, c, u, id, r, name);
  }

  /** A Recv that looks up after that (step d) does not start the handler (step e). */
  lemma GoneNeverRuns(ss: seq<State>, es: seq<Event>, name: string, id: string, r: Ref,
                      c: nat, d: nat, e: nat, v: Tid)
    requires IsRun(ss, es) && c <= d < e < |es| && Gone(ss[c], id, r, name)
    requires es[d] == Look(v) && v in ss[d].threads && ss[d].threads[v].RecvCalled?
    requires es[e] == FanOut(v)
    ensures Enabled(ss[e], FanOut(v)) && forall h :: h in Started(ss[e], v) ==> h.id != id
  {
    assert StepAt(ss, es, d) && StepAt(ss, es, e);
    GoneUntil(ss, es, c, d, id, r, name);
    InvAt(ss, es, d);
    LookIsClean(ss[d], v, id, r, name);
    CleanUntil(ss, es, d + 1, e, v, id);
    var s := ss[e];
    forall h | h in Started(s, v)
      ensures h.id != id
    {
      assert !HasId(s, s.threads[v].sub, id);
    }
  }

  /** In every interleaving: after Register(name) has returned id, and then Unregister(name,
      id) has been called and has returned, no Recv whose lookup comes later starts that
      handler. */
  lemma UnregisteredNeverRuns(ss: seq<State>, es: seq<Event>, name: string, id: string,
                              a: nat, b: nat, c: nat, d: nat, e: nat, u: Tid, v: Tid)
    requires IsRun(ss, es) && a < b < c <= d < e < |es|
    requires Registers(ss, es, a, name, id)
    requires es[b] == CallUnregister(u, name, id) && u !in ss[c].threads
    requires es[d] == Look(v) && v in ss[d].threads && ss[d].threads[v].RecvCalled?
    requires es[e] == FanOut(v)
    ensures Enabled(ss[e], FanOut(v)) && forall h :: h in Started(ss[e], v) ==> h.id != id
  {
    UnregisteredIsGone(ss, es, name, id, a, b, c, u);
    GoneNeverRuns(ss, es, name, id, ss[a].threads[es[a].t].sub, c, d, e, v);
  }

  lemma AppendOwns(s: State, t: Tid, id: string)
    requires Inv(s) && Enabled(s, Append(t, id))
    ensures Owned(Apply(s, Append(t, id)), id, s.threads[t].sub, s.threads[t].name)
  {
    var s' := Apply(s, Append(t, id));
    assert PcFits(s, s.threads[t]);
    forall q | HasId(s', q, id)
      ensures q == s.threads[t].sub
    {
      StepIds(s, Append(t, id), q, id);
    }
  }

  lemma {:induction false} GoneUntil(ss: seq<State>, es: seq<Event>, k: nat, m: nat, id: string, r: Ref, name: string)
    requires IsRun(ss, es) && k <= m <= |es| && Gone(ss[k], id, r, name)
    ensures Gone(ss[m], id, r, name)
    decreases m - k
  {
    if k == m {
    } else {
      InvAt(ss, es, k);
      assert StepAt(ss, es, k);
      GoneStays(ss[k], es[k], id, r, name);
      GoneUntil(ss, es, k + 1, m, id, r, name);
    }
  }

  // ----- calls that run alone -----

  /** The table that the map and the Sub objects stand for. */
  function View(s: State): Table<Cb>
    requires forall n :: n in s.list ==> s.list[n] in s.subs
  {
    map n | n in s.list :: s.subs[s.list[n]]
  }

  /** The steps of one Register without any step of another call in between. */
  function RegisterAlone(s: State, t: Tid, name: string, cb: Cb, r: Ref, id: string): State {
    var looked := Apply(Apply(s, CallRegister(t, name, cb)), Look(t));
    Apply(if name in s.list then looked else Apply(looked, Insert(t, r)), Append(t, id))
  }

  function UnregisterAlone(s: State, t: Tid, name: string, id: string): State {
    var looked := Apply(Apply(s, CallUnregister(t, name, id)), Look(t));
    if t !in looked.threads then looked
    else
      var filtered := Apply(looked, Filter(t));
      if t in filtered.threads then Apply(filtered, DeleteEntry(t)) else filtered
  }

  /** ... and of one Recv, with the handlers that it starts. */
  function RecvAlone(s: State, t: Tid, name: string): (State, seq<Handler<Cb>>) {
    var looked := Apply(Apply(s, CallRecv(t, name)), Look(t));
    if Enabled(looked, FanOut(t)) then (Apply(looked, FanOut(t)), Started(looked, t)) else (looked, [])
  }

  /** A Recv that runs alone starts exactly the handlers of its name in the plain table, once
      each and in order, returns, and changes nothing. */
  lemma RecvAloneIsSequential(s: State, t: Tid, name: string)
    requires Inv(s) && t !in s.seen
    ensures forall n :: n in s.list ==> s.list[n] in s.subs
    ensures var (s', started) := RecvAlone(s, t, name);
      && started == Lookup(View(s), name)
      && s' == s.(seen := s.seen + {t})
  {
    assert forall n :: n in s.list ==> Known(s, s.list[n], n);
    var looked := Apply(Apply(s, CallRecv(t, name)), Look(t));
    if name in s.list {
      assert looked == Enter(s, t, RecvFound(s.list[name]));
      assert Return(looked, t).threads == s.threads;
    } else {
      assert looked.threads == s.threads;
    }
  }

  /** Run alone, the steps of a call amount to the call on the plain table, and the call
      returns: the interleaved and the sequential model agree. */
  lemma AloneIsSequential(s: State, t: Tid, name: string, cb: Cb, r: Ref, id: string, gone: string)
    requires Inv(s) && t !in s.seen && r !in s.subs && id !in s.drawn
    ensures var s' := RegisterAlone(s, t, name, cb, r, id);
      s'.threads == s.threads && (forall n :: n in s'.list ==> s'.list[n] in s'.subs)
      && View(s') == Step(View(s), Add(name, id, cb))
    ensures var s' := UnregisterAlone(s, t, name, gone);
      s'.threads == s.threads && (forall n :: n in s'.list ==> s'.list[n] in s'.subs)
      && View(s') == Step(View(s), Remove(name, gone))
  {
    assert forall n :: n in s.list ==> Known(s, s.list[n], n);
    RegisterAloneView(s, t, name, cb, r, id);
    UnregisterAloneView(s, t, name, gone);
  }

  lemma RegisterAloneView(s: State, t: Tid, name: string, cb: Cb, r: Ref, id: string)
    requires t !in s.seen && t !in s.threads && r !in s.subs && id !in s.drawn
    requires forall n :: n in s.list ==> s.list[n] in s.subs
    requires forall n :: n in s.list && n != name && name in s.list ==> s.list[n] != s.list[name]
    ensures var s' := RegisterAlone(s, t, name, cb, r, id);
      s'.threads == s.threads && (forall n :: n in s'.list ==> s'.list[n] in s'.subs)
      && View(s') == Step(View(s), Add(name, id, cb))
  {
    var looked := Apply(Apply(s, CallRegister(t, name, cb)), Look(t));
    if name in s.list {
      assert looked == Enter(s, t, RegHolding(name, cb, s.list[name]));
      assert View(looked) == View(s) && looked.threads - {t} == s.threads;
      AppendView(looked, t, id);
    } else {
      assert looked == Enter(s, t, RegMissed(name, cb));
      assert View(looked) == View(s) && looked.threads - {t} == s.threads;
      InsertView(looked, t, r, id);
    }
  }

  lemma InsertView(s: State, t: Tid, r: Ref, id: string)
    requires Enabled(s, Insert(t, r)) && s.threads[t].name !in s.list && id !in s.drawn
    requires forall n :: n in s.list ==> s.list[n] in s.subs
    ensures var s', pc := Apply(Apply(s, Insert(t, r)), Append(t, id)), s.threads[t];
      s'.threads == s.threads - {t} && (forall n :: n in s'.list ==> s'.list[n] in s'.subs)
      && View(s') == Step(View(s), Add(pc.name, id, pc.cb))
  {
    var s1 := Apply(s, Insert(t, r));
    assert View(s1) == View(s)[s.threads[t].name := []];
    AppendView(s1, t, id);
  }

  /** The appended handler comes last under the name of its Sub, and nothing else changes. */
  lemma AppendView(s: State, t: Tid, id: string)
    requires Enabled(s, Append(t, id)) && s.threads[t].name in s.list
    requires s.list[s.threads[t].name] == s.threads[t].sub
    requires forall n :: n in s.list ==> s.list[n] in s.subs
    requires forall n :: n in s.list && n != s.threads[t].name ==> s.list[n] != s.threads[t].sub
    ensures var s', pc := Apply(s, Append(t, id)), s.threads[t];
      s'.threads == s.threads - {t} && (forall n :: n in s'.list ==> s'.list[n] in s'.subs)
      && View(s') == Step(View(s), Add(pc.name, id, pc.cb))
  {
  }

  lemma UnregisterAloneView(s: State, t: Tid, name: string, id: string)
    requires t !in s.seen && t !in s.threads
    requires forall n :: n in s.list ==> s.list[n] in s.subs
    requires forall n :: n in s.list && n != name && name in s.list ==> s.list[n] != s.list[name]
    ensures var s' := UnregisterAlone(s, t, name, id);
      s'.threads == s.threads && (forall n :: n in s'.list ==> s'.list[n] in s'.subs)
      && View(s') == Step(View(s), Remove(name, id))
  {
    var looked := Apply(Apply(s, CallUnregister(t, name, id)), Look(t));
    if name in s.list {
      assert looked == Enter(s, t, UnregFound(name, id, s.list[name]));
      assert View(looked) == View(s) && looked.threads - {t} == s.threads;
      FilterView(looked, t);
    } else {
      assert looked.threads == s.threads;
    }
  }

  lemma FilterView(s: State, t: Tid)
    requires Enabled(s, Filter(t)) && s.threads[t].name in s.list
    requires s.list[s.threads[t].name] == s.threads[t].sub
    requires forall n :: n in s.list ==> s.list[n] in s.subs
    requires forall n :: n in s.list && n != s.threads[t].name ==> s.list[n] != s.threads[t].sub
    ensures var s1, pc := Apply(s, Filter(t)), s.threads[t];
      var s' := if t in s1.threads then Apply(s1, DeleteEntry(t)) else s1;
      s'.threads == s.threads - {t} && (forall n :: n in s'.list ==> s'.list[n] in s'.subs)
      && View(s') == Step(View(s), Remove(pc.name, pc.id))
  {
    var pc := s.threads[t];
    var kept := Drop(s.subs[pc.sub], pc.id);
    var s1 := Apply(s, Filter(t));
    assert forall n :: n in s.list && n != pc.name ==> s1.subs[s.list[n]] == s.subs[s.list[n]];
    if kept == [] {
      assert View(Apply(s1, DeleteEntry(t))) == View(s) - {pc.name};
    } else {
      assert View(s1) == View(s)[pc.name := kept];
    }
  }
}
