/** The arithmetic of nextBroker (client/client.go): a uint64 ticket counter, reduced
    modulo the number of online brokers. */
module RoundRobin {
  import opened Wrappers
  import opened Integers

  /** currentSend.Add(1): the counter wraps at 2^64. */
  function Bump(c: nat): nat {
    if c + 1 == TWO64 then 0 else c + 1
  }

  /** The counter that Add(1) - 1 reads is the one from before. */
  lemma TicketBefore(c: nat)
    requires c < TWO64
    ensures (c + 1) % TWO64 == Bump(c)
    ensures (Bump(c) + TWO64 - 1) % TWO64 == c
  {
  }

  /** The entry that a ticket selects among n. */
  function Slot(n: nat): nat -> int
    requires n > 0
  {
    t => t % n
  }

  /** The entries of k consecutive picks that start at ticket c. */
  function Picks(c: nat, k: nat, slot: nat -> int): seq<int>
    decreases k
  {
    if k == 0 then [] else [slot(c)] + Picks(Bump(c), k - 1, slot)
  }

  /** How many of the tickets below k select entry i. */
  function Share(k: nat, slot: nat -> int, i: int): nat {
    if k == 0 then 0 else Share(k - 1, slot, i) + (if slot(k - 1) == i then 1 else 0)
  }

  /** How often entry i was picked. */
  function Times(picks: seq<int>, i: int): nat {
    if picks == [] then 0 else (if picks[0] == i then 1 else 0) + Times(picks[1..], i)
  }

  /** While the counter does not wrap, the picks of an entry are a difference of shares. */
  lemma {:induction false} PickCount(c: nat, k: nat, slot: nat -> int, i: int)
    requires c + k <= TWO64
    ensures Times(Picks(c, k, slot), i) == Share(c + k, slot, i) - Share(c, slot, i)
    decreases k
  {
    if k == 0 {
    } else {
      assert Picks(c, k, slot)[1..] == Picks(Bump(c), k - 1, slot);
      if k > 1 {
        PickCount(c + 1, k - 1, slot, i);
      }
    }
  }

  lemma {:induction false} PicksSplit(c: nat, k: nat, m: nat, slot: nat -> int)
    requires c + k == TWO64 && c < TWO64
    ensures Picks(c, k + m, slot) == Picks(c, k, slot) + Picks(0, m, slot)
    decreases k
  {
    if k == 1 {
    } else {
      PicksSplit(c + 1, k - 1, m, slot);
    }
  }

  lemma DivModStep(c: nat, n: nat)
    requires n > 0
    ensures (c + 1) % n == if c % n + 1 < n then c % n + 1 else 0
    ensures (c + 1) / n == if c % n + 1 < n then c / n else c / n + 1
  {
    var q, r := c / n, c % n;
    assert c == q * n + r;
    if r + 1 < n {
      DivModUnique(c + 1, n, q, r + 1);
    } else {
      assert (q + 1) * n == q * n + n;
      DivModUnique(c + 1, n, q + 1, 0);
    }
  }

  lemma {:induction false} ShareFormula(k: nat, n: nat, i: nat)
    requires i < n
    ensures Share(k, Slot(n), i) == k / n + (if i < k % n then 1 else 0)
  {
    if k == 0 {
      DivModUnique(0, n, 0, 0);
    } else {
      ShareFormula(k - 1, n, i);
      DivModStep(k - 1, n);
    }
  }

  /** From a reset counter, any k picks give each of the n entries k / n picks or one more,
      the extra ones going to the first k % n entries. */
  lemma FairFromReset(k: nat, n: nat, i: nat)
    requires i < n && k <= TWO64
    ensures Times(Picks(0, k, Slot(n)), i) == k / n + (if i < k % n then 1 else 0)
  {
    PickCount(0, k, Slot(n), i);
    ShareFormula(k, n, i);
  }

  /** Any n consecutive picks without a wrap use every entry exactly once. */
  lemma FairWindow(c: nat, n: nat, i: nat)
    requires i < n && c + n <= TWO64
    ensures Times(Picks(c, n, Slot(n)), i) == 1
  {
    PickCount(c, n, Slot(n), i);
    ShareFormula(c, n, i);
    ShareFormula(c + n, n, i);
    NextRound(c, n);
  }

  lemma NextRound(c: nat, n: nat)
    requires n > 0
    ensures (c + n) / n == c / n + 1 && (c + n) % n == c % n
  {
    var q, r := c / n, c % n;
    assert (q + 1) * n == q * n + n;
    DivModUnique(c + n, n, q + 1, r);
  }

  lemma {:induction false} TimesSplit(a: seq<int>, b: seq<int>, i: int)
    ensures Times(a + b, i) == Times(a, i) + Times(b, i)
  {
    if a == [] {
      assert a + b == b;
    } else {
      assert (a + b)[1..] == a[1..] + b;
      TimesSplit(a[1..], b, i);
    }
  }

  /** The picks of entry i in a window of n that wraps after 2^64 - c of them. */
  lemma WrapCount(c: nat, n: nat, i: nat)
    requires i < n <= TWO64 && c < TWO64 < c + n
    ensures Times(Picks(c, n, Slot(n)), i)
         == TWO64 / n - c / n + (if i < TWO64 % n then 1 else 0)
          - (if i < c % n then 1 else 0) + (if i < c + n - TWO64 then 1 else 0)
  {
    var w := c + n - TWO64;
    PicksSplit(c, TWO64 - c, w, Slot(n));
    TimesSplit(Picks(c, TWO64 - c, Slot(n)), Picks(0, w, Slot(n)), i);
    PickCount(c, TWO64 - c, Slot(n), i);
    ShareFormula(TWO64, n, i);
    ShareFormula(c, n, i);
    FairFromReset(w, n, i);
    DivModUnique(w, n, 0, w);
  }

  ghost predicate FairOver(c: nat, n: nat)
    requires n > 0
  {
    forall i: nat :: i < n ==> Times(Picks(c, n, Slot(n)), i) == 1
  }

  /** A window that crosses the wrap of the counter is fair exactly when the number of
      entries divides 2^64. */
  lemma FairAcrossWrapExactly(c: nat, n: nat)
    requires 0 < n <= TWO64 && c < TWO64 < c + n
    ensures FairOver(c, n) <==> TWO64 % n == 0
  {
    var w, q, e := c + n - TWO64, TWO64 / n, TWO64 % n;
    assert TWO64 == q * n + e;
    forall i: nat | i < n
      ensures Times(Picks(c, n, Slot(n)), i)
           == q - c / n + (if i < e then 1 else 0) - (if i < c % n then 1 else 0) + (if i < w then 1 else 0)
    {
      WrapCount(c, n, i);
    }
    if e + w < n {
      assert (q - 1) * n == q * n - n;
      assert q >= 1 by { Quotient(q, n, e, c, w); }
      DivModUnique(c, n, q - 1, e + w);
      assert e > 0 ==> Times(Picks(c, n, Slot(n)), 0) == 2;
    } else {
      DivModUnique(c, n, q, e + w - n);
      assert Times(Picks(c, n, Slot(n)), e + w - n) == 2;
    }
  }

  lemma Quotient(q: nat, n: nat, e: nat, c: nat, w: nat)
    requires q * n + e >= n && e < n
    ensures q >= 1
  {
  }

  // ----- how soon a given entry is picked -----

  function Ahead(c: nat, n: nat, w: nat): (d: nat)
    requires w < n
    ensures d < n
  {
    if c % n <= w then w - c % n else w - c % n + n
  }

  /** Picks that come before the first pick of entry w: less than one round, or less than
      two when the counter wraps on the way. */
  function Distance(c: nat, n: nat, w: nat): (d: nat)
    requires w < n && c < TWO64
    ensures d < 2 * n && (c + n <= TWO64 ==> d < n)
  {
    if c + Ahead(c, n, w) < TWO64 then Ahead(c, n, w) else TWO64 - c + w
  }

  lemma DistanceStep(c: nat, n: nat, w: nat)
    requires w < n <= TWO64 && c < TWO64
    ensures Distance(c, n, w) == 0 <==> c % n == w
    ensures c % n != w ==> Distance(Bump(c), n, w) == Distance(c, n, w) - 1
  {
    DivModStep(c, n);
    DivModUnique(0, n, 0, 0);
  }

  // ----- send: retry until an entry accepts -----

  /** The recursion of send over a fixed list: how many brokers were tried, the last one
      accepting, or None when fuel attempts did not suffice. */
  function Tries(c: nat, fuel: nat, accepts: seq<bool>): Option<nat>
    requires accepts != []
    decreases fuel
  {
    if fuel == 0 then None
    else if accepts[c % |accepts|] then Some(1)
    else
      match Tries(Bump(c), fuel - 1, accepts)
      case None => None
      case Some(t) => Some(t + 1)
  }

  lemma {:induction false} TriesWithin(c: nat, fuel: nat, accepts: seq<bool>, w: nat)
    requires c < TWO64 && w < |accepts| <= TWO64 && accepts[w]
    requires Distance(c, |accepts|, w) < fuel
    ensures Tries(c, fuel, accepts).Some? && Tries(c, fuel, accepts).value <= fuel
    decreases fuel
  {
    DistanceStep(c, |accepts|, w);
    if accepts[c % |accepts|] {
    } else {
      TriesWithin(Bump(c), fuel - 1, accepts, w);
    }
  }

  lemma {:induction false} NeverAccepted(c: nat, fuel: nat, accepts: seq<bool>)
    requires accepts != [] && true !in accepts
    ensures Tries(c, fuel, accepts) == None
    decreases fuel
  {
    if fuel == 0 {
    } else {
      NeverAccepted(Bump(c), fuel - 1, accepts);
    }
  }

  /** With the list fixed, the recursion of send ends exactly when some entry accepts: then
      within one round if the counter does not wrap, and within two if it does. With no
      accepting entry no number of attempts ends it. */
  lemma SendEndsExactly(c: nat, accepts: seq<bool>)
    requires c < TWO64 && 0 < |accepts| <= TWO64
    ensures true in accepts <==> exists fuel :: Tries(c, fuel, accepts).Some?
    ensures true in accepts ==> Tries(c, 2 * |accepts|, accepts).Some?
    ensures true in accepts && c + |accepts| <= TWO64 ==> Tries(c, |accepts|, accepts).Some?
  {
    var n := |accepts|;
    if true in accepts {
      var w: nat :| w < n && accepts[w];
      TriesWithin(c, 2 * n, accepts, w);
      if c + n <= TWO64 {
        TriesWithin(c, n, accepts, w);
      }
    } else {
      forall fuel: nat
        ensures Tries(c, fuel, accepts) == None
      {
        NeverAccepted(c, fuel, accepts);
      }
    }
  }

  // ----- send: while the list changes -----

  /** What one attempt of send finds: the list, a stream and its answer per entry, and the
      ticket. Anything may happen to them between two attempts. */
  datatype Snapshot<+S> = Snapshot(online: bool, entries: seq<(S, bool)>, ticket: nat)

  datatype Verdict<+S> = NoBroker | Refused | Accepted(stream: S)

  function Try<S>(s: Snapshot<S>): Verdict<S> {
    var n := |s.entries|;
    if !s.online || n == 0 then NoBroker
    else if s.entries[s.ticket % n].1 then Accepted(s.entries[s.ticket % n].0)
    else Refused
  }

  /** A broker is found exactly when the client is online and the list is not empty, and the
      ticket picks it. */
  lemma TriesTicket<S>(s: Snapshot<S>)
    ensures Try(s) == NoBroker <==> !s.online || s.entries == []
    ensures Try(s) != NoBroker ==>
      var (stream, accepts) := s.entries[s.ticket % |s.entries|];
      Try(s) == if accepts then Accepted(stream) else Refused
  {
  }

  datatype Sending = Sent | Failed | StillTrying

  /** How far send has come, the streams that have got the event, and how many brokers were
      tried. */
  datatype Progress<+S> = Progress(result: Sending, got: seq<S>, tries: nat)

  /** The recursion of send over its attempts. */
  function SendOver<S>(attempts: seq<Snapshot<S>>): Progress<S>
    decreases |attempts|
  {
    if attempts == [] then Progress(StillTrying, [], 0)
    else
      match Try(attempts[0])
      case NoBroker => Progress(Failed, [], 0)
      case Accepted(stream) => Progress(Sent, [stream], 1)
      case Refused =>
        var rest := SendOver(attempts[1..]);
        rest.(tries := rest.tries + 1)
  }

  /** The attempt k is the first that is not refused. */
  ghost predicate Settles<S>(attempts: seq<Snapshot<S>>, k: nat) {
    k < |attempts| && Try(attempts[k]) != Refused && forall j :: 0 <= j < k ==> Try(attempts[j]) == Refused
  }

  lemma SettlesTail<S>(attempts: seq<Snapshot<S>>, k: nat)
    requires attempts != [] && Try(attempts[0]) == Refused
    ensures Settles(attempts[1..], k) <==> Settles(attempts, k + 1)
    ensures !Settles(attempts, 0)
  {
    var rest := attempts[1..];
    if Settles(rest, k) {
      forall j | 0 <= j < k + 1
        ensures Try(attempts[j]) == Refused
      {
        assert j > 0 ==> attempts[j] == rest[j - 1];
      }
    }
    if Settles(attempts, k + 1) {
      forall j | 0 <= j < k
        ensures Try(rest[j]) == Refused
      {
        assert rest[j] == attempts[j + 1];
      }
    }
  }

  /** Whatever happens to the list between the attempts: send fails exactly when some attempt
      finds no broker and every earlier one was refused, it succeeds exactly when some
      attempt is accepted and every earlier one was refused, and it has put the event on one
      stream, that of the accepting attempt, when it succeeds and on none otherwise. */
  lemma {:induction false} SendOverExactly<S>(attempts: seq<Snapshot<S>>)
    ensures var Progress(r, got, tries) := SendOver(attempts);
      && (r == StillTrying <==> forall k: nat :: !Settles(attempts, k))
      && (r != StillTrying ==> exists k: nat :: Settles(attempts, k))
      && (forall k: nat :: Settles(attempts, k) ==>
            && (r == Failed <==> Try(attempts[k]) == NoBroker)
            && (r == Sent <==> Try(attempts[k]).Accepted?)
            && got == (if r == Sent then [Try(attempts[k]).stream] else [])
            && tries == (if r == Sent then k + 1 else k))
      && (got != [] ==> r == Sent)
    decreases |attempts|
  {
    if attempts == [] {
    } else if Try(attempts[0]) == Refused {
      SendOverExactly(attempts[1..]);
      forall k: nat
        ensures Settles(attempts[1..], k) <==> Settles(attempts, k + 1)
        ensures !Settles(attempts, 0)
      {
        SettlesTail(attempts, k);
      }
      forall k: nat | Settles(attempts, k)
        ensures k > 0 && Settles(attempts[1..], k - 1) && attempts[1..][k - 1] == attempts[k]
      {
        SettlesTail(attempts, k - 1);
      }
    } else {
      assert Settles(attempts, 0);
      assert forall k: nat :: Settles(attempts, k) ==> k == 0;
    }
  }

  /** The answers of the entries. */
  function Answers<S>(entries: seq<(S, bool)>): (accepts: seq<bool>)
    ensures |accepts| == |entries| && forall k :: 0 <= k < |entries| ==> accepts[k] == entries[k].1
  {
    seq(|entries|, k requires 0 <= k < |entries| => entries[k].1)
  }

  /** What send finds at ticket c. */
  function At<S>(c: nat, entries: seq<(S, bool)>): Snapshot<S> {
    Snapshot(entries != [], entries, c)
  }

  /** The attempts of one send while the list stays as it is and nobody else sends. */
  function Undisturbed<S>(c: nat, fuel: nat, entries: seq<(S, bool)>): seq<Snapshot<S>>
    decreases fuel
  {
    if fuel == 0 then [] else [At(c, entries)] + Undisturbed(Bump(c), fuel - 1, entries)
  }

  /** A refused attempt leaves the rest to the next one ... */
  lemma RefusedNext<S>(c: nat, fuel: nat, entries: seq<(S, bool)>)
    requires fuel > 0 && Try(At(c, entries)) == Refused
    ensures var rest := SendOver(Undisturbed(Bump(c), fuel - 1, entries));
      SendOver(Undisturbed(c, fuel, entries)) == rest.(tries := rest.tries + 1)
  {
    assert Undisturbed(c, fuel, entries)[1..] == Undisturbed(Bump(c), fuel - 1, entries);
  }

  /** ... and any other is the last. */
  lemma SettledNow<S>(c: nat, fuel: nat, entries: seq<(S, bool)>)
    requires fuel > 0 && Try(At(c, entries)) != Refused
    ensures SendOver(Undisturbed(c, fuel, entries)) ==
      if entries == [] then Progress(Failed, [], 0) else Progress(Sent, [entries[c % |entries|].0], 1)
  {
  }

  /** Over a fixed list the two forms of the recursion agree. */
  lemma {:induction false} TriesIsSendOver<S>(c: nat, fuel: nat, entries: seq<(S, bool)>)
    requires entries != []
    ensures var Progress(r, _, tries) := SendOver(Undisturbed(c, fuel, entries));
      Tries(c, fuel, Answers(entries)) == (if r == Sent then Some(tries) else None) && r != Failed
    decreases fuel
  {
    if fuel == 0 {
    } else {
      TriesIsSendOver(Bump(c), fuel - 1, entries);
      if Try(At(c, entries)) == Refused {
        RefusedNext(c, fuel, entries);
      } else {
        SettledNow(c, fuel, entries);
      }
    }
  }
}
