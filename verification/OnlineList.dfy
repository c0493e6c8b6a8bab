/** The list of online brokers that client/client.go rebuilds on connect and disconnect:
    what set computes as it is written, what its comment promises, and how they differ. */
module OnlineList {
  import opened BrokerLink

  /** The list without the entries of id: the loop of delete. */
  function Without(l: seq<Broker>, id: string): seq<Broker> {
    if l == [] then []
    else (if l[0].id == id then [] else [l[0]]) + Without(l[1..], id)
  }

  function Copies(bk: Broker, n: nat): seq<Broker> {
    seq(n, _ => bk)
  }

  /** set as written: the loop appends bk itself once for every entry of another id. */
  function SetAsWritten(l: seq<Broker>, bk: Broker): seq<Broker> {
    Copies(bk, |Without(l, bk.id)| + 1)
  }

  /** set as its comment describes it: the entries of other ids are kept. */
  function SetAsDocumented(l: seq<Broker>, bk: Broker): seq<Broker> {
    Without(l, bk.id) + [bk]
  }

  /** A broker came up (connect, with the broker found in the store) or went down. */
  datatype Change = Connect(bk: Broker) | Disconnect(id: string)

  function WrittenList(cs: seq<Change>): seq<Broker> {
    if cs == [] then []
    else
      var l := WrittenList(cs[..|cs| - 1]);
      match cs[|cs| - 1]
      case Connect(bk) => SetAsWritten(l, bk)
      case Disconnect(id) => Without(l, id)
  }

  function DocumentedList(cs: seq<Change>): seq<Broker> {
    if cs == [] then []
    else
      var l := DocumentedList(cs[..|cs| - 1]);
      match cs[|cs| - 1]
      case Connect(bk) => SetAsDocumented(l, bk)
      case Disconnect(id) => Without(l, id)
  }

  // ----- facts about Without -----

  lemma {:induction false} WithoutAll(l: seq<Broker>, id: string)
    ensures forall k :: 0 <= k < |Without(l, id)| ==> Without(l, id)[k] in l && Without(l, id)[k].id != id
    ensures forall k :: 0 <= k < |l| && l[k].id != id ==> l[k] in Without(l, id)
  {
    if l == [] {
    } else {
      WithoutAll(l[1..], id);
      assert l == [l[0]] + l[1..];
      var w := Without(l[1..], id);
      forall k | 0 <= k < |Without(l, id)|
        ensures Without(l, id)[k] in l && Without(l, id)[k].id != id
      {
        if l[0].id != id && k > 0 {
          assert Without(l, id)[k] == w[k - 1];
        }
      }
    }
  }

  lemma {:induction false} WithoutAppend(a: seq<Broker>, b: seq<Broker>, id: string)
    ensures Without(a + b, id) == Without(a, id) + Without(b, id)
  {
    if a == [] {
      assert a + b == b;
    } else {
      assert (a + b)[1..] == a[1..] + b;
      WithoutAppend(a[1..], b, id);
    }
  }

  // ----- the documented list -----

  /** c takes the broker id off the list, or moves it to the end. */
  predicate Touches(c: Change, id: string) {
    match c
    case Connect(bk) => bk.id == id
    case Disconnect(d) => d == id
  }

  /** The brokers whose connect is followed by no other change for their id, in the order
      of those connects. */
  function StillConnected(cs: seq<Change>): seq<Broker> {
    if cs == [] then []
    else if cs[0].Connect? && forall i :: 1 <= i < |cs| ==> !Touches(cs[i], cs[0].bk.id) then
      [cs[0].bk] + StillConnected(cs[1..])
    else
      StillConnected(cs[1..])
  }

  function TouchedId(c: Change): string {
    if c.Connect? then c.bk.id else c.id
  }

  lemma UntouchedNext(cs: seq<Change>, c: Change, id: string)
    requires cs != []
    ensures (forall i :: 1 <= i < |cs + [c]| ==> !Touches((cs + [c])[i], id)) <==>
            (forall i :: 1 <= i < |cs| ==> !Touches(cs[i], id)) && !Touches(c, id)
  {
    var all := cs + [c];
    assert all[|all| - 1] == c;
    assert forall i :: 1 <= i < |cs| ==> all[i] == cs[i];
  }

  lemma {:induction false} StillConnectedNext(cs: seq<Change>, c: Change)
    ensures StillConnected(cs + [c]) ==
      Without(StillConnected(cs), TouchedId(c)) + (if c.Connect? then [c.bk] else [])
  {
    if cs == [] {
      assert cs + [c] == [c];
      assert StillConnected([c][1..]) == [];
    } else {
      assert (cs + [c])[1..] == cs[1..] + [c];
      StillConnectedNext(cs[1..], c);
      if cs[0].Connect? {
        UntouchedNext(cs, c, cs[0].bk.id);
        WithoutAppend([cs[0].bk], StillConnected(cs[1..]), TouchedId(c));
      }
    }
  }

  /** The documented set and delete keep exactly the connected brokers, in the order in
      which they came up. */
  lemma {:induction false} DocumentedIsStillConnected(cs: seq<Change>)
    ensures DocumentedList(cs) == StillConnected(cs)
  {
    if cs == [] {
    } else {
      var n := |cs| - 1;
      DocumentedIsStillConnected(cs[..n]);
      StillConnectedNext(cs[..n], cs[n]);
      assert cs[..n] + [cs[n]] == cs;
    }
  }

  ghost predicate DistinctIds(l: seq<Broker>) {
    forall i, j :: 0 <= i < j < |l| ==> l[i].id != l[j].id
  }

  lemma DistinctJoin(a: seq<Broker>, b: seq<Broker>)
    requires DistinctIds(a) && DistinctIds(b)
    requires forall i, j :: 0 <= i < |a| && 0 <= j < |b| ==> a[i].id != b[j].id
    ensures DistinctIds(a + b)
  {
  }

  lemma {:induction false} WithoutDistinct(l: seq<Broker>, id: string)
    requires DistinctIds(l)
    ensures DistinctIds(Without(l, id))
  {
    if l == [] {
    } else {
      WithoutDistinct(l[1..], id);
      WithoutAll(l[1..], id);
      if l[0].id != id {
        var w := Without(l[1..], id);
        forall k | 0 <= k < |w|
          ensures w[k].id != l[0].id
        {
          var m :| 0 <= m < |l[1..]| && l[1..][m] == w[k];
          assert l[1 + m] == w[k];
        }
        DistinctJoin([l[0]], Without(l[1..], id));
      }
    }
  }

  /** ... and each of them exactly once. */
  lemma {:induction false} DocumentedOnce(cs: seq<Change>)
    ensures DistinctIds(DocumentedList(cs))
  {
    if cs == [] {
    } else {
      var n := |cs| - 1;
      DocumentedOnce(cs[..n]);
      var l := DocumentedList(cs[..n]);
      var id := TouchedId(cs[n]);
      WithoutDistinct(l, id);
      WithoutAll(l, id);
      if cs[n].Connect? {
        DistinctJoin(Without(l, id), [cs[n].bk]);
      }
    }
  }

  // ----- the list as written -----

  /** The connect at i is the latest one, and its broker has not gone down since. */
  ghost predicate LatestUp(cs: seq<Change>, i: int) {
    && 0 <= i < |cs| && cs[i].Connect?
    && forall j :: i < j < |cs| ==> cs[j].Disconnect? && cs[j].id != cs[i].bk.id
  }

  lemma LatestUpNext(cs: seq<Change>)
    requires cs != [] && cs[|cs| - 1].Disconnect?
    ensures var before, d := cs[..|cs| - 1], cs[|cs| - 1].id;
      forall i :: LatestUp(cs, i) <==> LatestUp(before, i) && before[i].bk.id != d
  {
    var before, d := cs[..|cs| - 1], cs[|cs| - 1].id;
    forall i
      ensures LatestUp(cs, i) <==> LatestUp(before, i) && before[i].bk.id != d
    {
    }
  }

  /** As written, every reachable list is constant: its entries are all the broker that came
      up last, and it is empty exactly when there is none or that broker went down. */
  lemma {:induction false} WrittenKeepsLatest(cs: seq<Change>)
    ensures WrittenList(cs) != [] <==> exists i :: LatestUp(cs, i)
    ensures forall i, k :: LatestUp(cs, i) && 0 <= k < |WrittenList(cs)| ==> WrittenList(cs)[k] == cs[i].bk
  {
    if cs == [] {
    } else {
      var n := |cs| - 1;
      var before := cs[..n];
      WrittenKeepsLatest(before);
      if cs[n].Connect? {
        assert LatestUp(cs, n);
      } else {
        var l, w := WrittenList(before), Without(WrittenList(before), cs[n].id);
        WithoutAll(l, cs[n].id);
        assert WrittenList(cs) == w;
        LatestUpNext(cs);
        if l != [] {
          var i :| LatestUp(before, i);
          assert l[0] == before[i].bk;
          assert w != [] ==> w[0] in l;
          if before[i].bk.id != cs[n].id {
            assert LatestUp(cs, i) && l[0] in w;
          }
        }
      }
    }
  }

  /** One step: the code does what its comment says exactly when no entry has another id. */
  lemma SetAgreesExactly(l: seq<Broker>, bk: Broker)
    ensures SetAsWritten(l, bk) == SetAsDocumented(l, bk) <==> forall k :: 0 <= k < |l| ==> l[k].id == bk.id
  {
    WithoutAll(l, bk.id);
    var w := Without(l, bk.id);
    if w != [] {
      assert w[0] in l && w[0].id != bk.id;
      assert SetAsWritten(l, bk)[0] == bk && SetAsDocumented(l, bk)[0] == w[0];
    } else {
      assert Copies(bk, 1) == [bk];
    }
  }

  /** Whole runs: code and comment agree throughout exactly when never more than one broker
      is connected at a time. */
  lemma AgreeThroughoutExactly(cs: seq<Change>)
    ensures (forall k :: 0 <= k <= |cs| ==> WrittenList(cs[..k]) == DocumentedList(cs[..k]))
       <==> (forall k :: 0 <= k <= |cs| ==> |StillConnected(cs[..k])| <= 1)
  {
    forall k | 0 <= k <= |cs|
      ensures DocumentedList(cs[..k]) == StillConnected(cs[..k])
    {
      DocumentedIsStillConnected(cs[..k]);
    }
    if forall k :: 0 <= k <= |cs| ==> |StillConnected(cs[..k])| <= 1 {
      forall k | 0 <= k <= |cs|
        ensures WrittenList(cs[..k]) == DocumentedList(cs[..k])
      {
        AgreeWhileSingle(cs, k);
      }
    }
    if forall k :: 0 <= k <= |cs| ==> WrittenList(cs[..k]) == DocumentedList(cs[..k]) {
      forall k | 0 <= k <= |cs|
        ensures |StillConnected(cs[..k])| <= 1
      {
        var l := WrittenList(cs[..k]);
        WrittenKeepsLatest(cs[..k]);
        if |l| > 1 {
          var i :| LatestUp(cs[..k], i);
          RepeatedId(l, cs[..k][i].bk);
        }
        DocumentedOnce(cs[..k]);
        assert l == DocumentedList(cs[..k]);
      }
    }
  }

  lemma RepeatedId(l: seq<Broker>, bk: Broker)
    requires |l| > 1 && forall k :: 0 <= k < |l| ==> l[k] == bk
    ensures !DistinctIds(l)
  {
    assert l[0].id == l[1].id;
  }

  lemma {:induction false} AgreeWhileSingle(cs: seq<Change>, k: nat)
    requires k <= |cs|
    requires forall j :: 0 <= j <= k ==> |DocumentedList(cs[..j])| <= 1
    ensures WrittenList(cs[..k]) == DocumentedList(cs[..k])
  {
    if k == 0 {
    } else {
      AgreeWhileSingle(cs, k - 1);
      assert cs[..k][..k - 1] == cs[..k - 1];
      if cs[k - 1].Connect? {
        assert |DocumentedList(cs[..k])| <= 1;
        assert DocumentedList(cs[..k]) == SetAsDocumented(DocumentedList(cs[..k - 1]), cs[k - 1].bk);
      }
    }
  }
}
