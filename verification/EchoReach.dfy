// Who hears of a copied text in the mesh of module Echo, when pastes may overtake stores.
module EchoReach {
  import opened Echo

  /** Somebody has sent the text to node j. */
  ghost predicate Heard(m: Mesh, j: nat) {
    exists l :: l in m.sent && l.to == j
  }

  /** Only node o's user copies. */
  predicate OnlyCopies(es: seq<Event>, o: nat) {
    forall k :: 0 <= k < |es| && es[k].UserCopy? ==> es[k].node == o
  }

  /** Whatever comes from another node than o, that node has heard of the text. */
  ghost predicate Sources(m: Mesh, o: nat) {
    && (forall l :: l in m.inFlight ==> l in m.sent)
    && (forall i :: i in m.pastes && i != o ==> Heard(m, i))
    && (forall l :: (l in m.firings || l in m.tested || l in m.stored || l in m.sent) && l.from != o ==> Heard(m, l.from))
  }

  lemma HeardStays(m: Mesh, e: Event)
    requires Enabled(m, e)
    ensures m.sent <= Apply(m, e).sent
    ensures forall j :: Heard(m, j) ==> Heard(Apply(m, e), j)
  {
    var t := Apply(m, e);
    assert forall l :: l in m.sent ==> l in t.sent;
  }

  lemma CopyKeepsSources(m: Mesh, e: Event, o: nat)
    requires Sources(m, o) && Enabled(m, e) && (e.Paste? || e == UserCopy(o))
    ensures Sources(Apply(m, e), o)
  {
    FiringsAfter(m, e);
    HeardStays(m, e);
    assert forall l :: l in Out(m.size, e.node) ==> l.from == e.node;
    hide Heard, Out;
  }

  lemma DeliverKeepsSources(m: Mesh, l: Link, o: nat)
    requires Sources(m, o) && Enabled(m, Deliver(l))
    ensures Sources(Apply(m, Deliver(l)), o)
  {
    HeardStays(m, Deliver(l));
    assert Heard(m, l.to);
    hide Heard, StoresOf;
  }

  lemma WriterKeepsSources(m: Mesh, e: Event, o: nat)
    requires Sources(m, o) && Enabled(m, e) && (e.Fire? || e.Record? || e.Send? || e.StoreOne?)
    ensures Sources(Apply(m, e), o)
  {
    HeardStays(m, e);
    hide Heard, Out, StoresOf;
  }

  lemma StepKeepsSources(m: Mesh, e: Event, o: nat)
    requires Sources(m, o) && Enabled(m, e) && (e.UserCopy? ==> e.node == o)
    ensures Sources(Apply(m, e), o)
  {
    hide Sources;
    match e
    case UserCopy(_) => CopyKeepsSources(m, e, o);
    case Paste(_) => CopyKeepsSources(m, e, o);
    case Deliver(l) => DeliverKeepsSources(m, l, o);
    case _ => WriterKeepsSources(m, e, o);
  }

  /** What a reader of node o has stored, or will store, is about nodes that have heard. */
  ghost predicate Fair(m: Mesh, o: nat) {
    && (forall s :: s in m.stores && s.entry.from == o ==> Heard(m, s.entry.to))
    && (forall l :: l in m.table && l.from == o ==> l in m.stored || Heard(m, l.to))
  }

  /** Node o is about to send to each other node, if that has not heard. */
  ghost predicate Reaching(m: Mesh, o: nat) {
    forall l :: l in Out(m.size, o) ==> l in m.firings || l in m.tested || l in m.stored || Heard(m, l.to)
  }

  lemma WriterReaches(m: Mesh, e: Event, o: nat)
    requires Fair(m, o) && Enabled(m, e) && (e.Fire? || e.Record? || e.Send? || e.StoreOne?)
    ensures Fair(Apply(m, e), o) && (Reaching(m, o) ==> Reaching(Apply(m, e), o))
  {
    HeardStays(m, e);
    if e.Send? {
      assert e.link in Apply(m, e).sent;
      assert Heard(Apply(m, e), e.link.to);
    }
    hide Heard, Out, StoresOf;
  }

  lemma CopyReaches(m: Mesh, e: Event, o: nat)
    requires Fair(m, o) && Enabled(m, e) && (e.Paste? || e == UserCopy(o))
    ensures Fair(Apply(m, e), o) && (Reaching(m, o) || e.UserCopy? ==> Reaching(Apply(m, e), o))
  {
    var t := Apply(m, e);
    HeardStays(m, e);
    assert forall l :: l in m.firings || l in Out(m.size, e.node) ==> l in t.firings;
    hide Heard, Out;
  }

  /** In a mesh of three, a text that comes back to o from a node o has not sent it to has gone
      through the third. */
  lemma BothHaveHeard(m: Mesh, l: Link, o: nat)
    requires m.size <= 3 && Inv(m) && Sources(m, o) && l in m.inFlight && l.to == o && Back(l) !in m.table
    ensures forall j: nat :: j < m.size && j != o ==> Heard(m, j)
  {
    var k := l.from;
    assert l in m.sent && IsLink(m.size, l) && Heard(m, k);
    var first :| first in m.sent && first.to == k;
    assert IsLink(m.size, first) && first.from != o;
    assert Heard(m, first.from);
    forall j: nat | j < m.size && j != o
      ensures Heard(m, j)
    {
      ThirdOfThree(m.size, o, k, first.from, j);
    }
  }

  lemma ThirdOfThree(n: nat, o: nat, a: nat, b: nat, j: nat)
    requires n <= 3 && o < n && a < n && b < n && j < n
    requires o != a && o != b && a != b && j != o
    ensures j == a || j == b
  {
  }

  /** What node o's reader is about to store is about nodes that have heard. */
  lemma DeliverIsFair(m: Mesh, l: Link, o: nat)
    requires m.size <= 3 && Inv(m) && Sources(m, o) && Fair(m, o) && Enabled(m, Deliver(l))
    ensures Fair(Apply(m, Deliver(l)), o)
  {
    HeardStays(m, Deliver(l));
    if Back(l) !in m.table {
      NewStoresAreFair(m, l, o);
    }
    hide Heard, Out, StoresOf, Inv, Sources;
  }

  lemma NewStoresAreFair(m: Mesh, l: Link, o: nat)
    requires m.size <= 3 && Inv(m) && Sources(m, o) && l in m.inFlight && Back(l) !in m.table
    ensures forall s :: s in StoresOf(m.size, Back(l)) && s.entry.from == o ==> Heard(m, s.entry.to)
  {
    if l.to == o {
      BothHaveHeard(m, l, o);
    }
    hide Heard, Inv, Sources;
    assert forall s :: s in StoresOf(m.size, Back(l)) ==> s.entry in Out(m.size, l.to);
  }

  lemma DeliverReaches(m: Mesh, l: Link, o: nat)
    requires Enabled(m, Deliver(l)) && Reaching(m, o)
    ensures Reaching(Apply(m, Deliver(l)), o)
  {
    HeardStays(m, Deliver(l));
    hide Heard, Out, StoresOf;
  }

  lemma StepReaches(m: Mesh, e: Event, o: nat)
    requires m.size <= 3 && Inv(m) && Sources(m, o) && Fair(m, o) && Enabled(m, e) && (e.UserCopy? ==> e.node == o)
    ensures Fair(Apply(m, e), o) && (Reaching(m, o) || e.UserCopy? ==> Reaching(Apply(m, e), o))
  {
    hide Inv, Sources, Fair, Reaching;
    match e
    case UserCopy(_) => CopyReaches(m, e, o);
    case Paste(_) => CopyReaches(m, e, o);
    case Deliver(l) =>
      DeliverIsFair(m, l, o);
      if Reaching(m, o) {
        DeliverReaches(m, l, o);
      }
    case _ => WriterReaches(m, e, o);
  }

  lemma {:induction false} RunReaches(m: Mesh, es: seq<Event>, o: nat)
    requires m.size <= 3 && Inv(m) && Sources(m, o) && Fair(m, o) && Legal(m, es) && OnlyCopies(es, o)
    ensures Reaching(m, o) || Copies(es) > 0 ==> Reaching(Exec(m, es), o)
    decreases |es|
  {
    hide Inv, Sources, Fair, Reaching, Apply, Enabled;
    if es != [] {
      assert OnlyCopies(es[1..], o);
      StepKeepsInv(m, es[0]);
      StepKeepsSources(m, es[0], o);
      StepReaches(m, es[0], o);
      RunReaches(Apply(m, es[0]), es[1..], o);
    }
  }

  /** In a mesh of up to three nodes, stores or no stores: when everything has come to its end,
      each other node has been sent what the user of node o has copied. */
  lemma SmallMeshReaches(m: Mesh, es: seq<Event>, o: nat, j: nat)
    requires Initial(m) && m.size <= 3 && o < m.size && j < m.size && j != o
    requires Legal(m, es) && OnlyCopies(es, o) && Copies(es) > 0 && AtEnd(Exec(m, es))
    ensures Heard(Exec(m, es), j)
  {
    RunReaches(m, es, o);
    RunKeepsInv(m, es);
    NothingPending(Exec(m, es));
    assert Link(o, j) in Out(m.size, o);
  }

  /** A reader's stores are made, one after the other. */
  lemma {:induction false} AllStores(m: Mesh) returns (es: seq<Event>)
    ensures Legal(m, es) && NoCopies(es)
    ensures var t := Exec(m, es);
            && t == m.(table := t.table, stores := {}) && m.table <= t.table
            && forall s :: s in m.stores ==> s.entry in t.table
    decreases |m.stores|
  {
    if m.stores == {} {
      es := [];
    } else {
      var s :| s in m.stores;
      var next := Apply(m, StoreOne(s));
      assert next.stores == m.stores - {s} && |next.stores| == |m.stores| - 1;
      var later := AllStores(next);
      Then(m, StoreOne(s), later);
      es := [StoreOne(s)] + later;
      forall u | u in m.stores
        ensures u.entry in Exec(m, es).table
      {
        assert u == s || u in next.stores;
      }
    }
  }

  /** Pastes at nodes whose entries are stored add only firings that the table stops. */
  lemma {:induction false} AllPastes(m: Mesh) returns (es: seq<Event>)
    requires forall i :: i in m.pastes ==> AllStored(m, i)
    requires forall l :: l in m.firings ==> l in m.table
    ensures Legal(m, es) && NoCopies(es)
    ensures var t := Exec(m, es);
            && t == m.(firings := t.firings, pastes := multiset{})
            && forall l :: l in t.firings ==> l in m.table
    decreases |m.pastes|
  {
    if m.pastes == multiset{} {
      es := [];
    } else {
      var i :| i in m.pastes;
      var next := Apply(m, Paste(i));
      assert |next.pastes| == |m.pastes| - 1;
      FiringsAfter(m, Paste(i));
      assert AllStored(m, i);
      forall j | j in next.pastes
        ensures AllStored(next, j)
      {
        assert j in m.pastes;
      }
      var later := AllPastes(next);
      Then(m, Paste(i), later);
      es := [Paste(i)] + later;
    }
  }

  /** And the writers drop them. */
  lemma {:induction false} AllDropped(m: Mesh) returns (es: seq<Event>)
    requires forall l :: l in m.firings ==> l in m.table && l !in m.tested && l !in m.stored
    ensures Legal(m, es) && NoCopies(es) && Exec(m, es) == m.(firings := multiset{})
    decreases |m.firings|
  {
    if m.firings == multiset{} {
      es := [];
    } else {
      var l :| l in m.firings;
      var next := Apply(m, Fire(l));
      assert |next.firings| == |m.firings| - 1;
      var later := AllDropped(next);
      Then(m, Fire(l), later);
      es := [Fire(l)] + later;
    }
  }

  ghost predicate StoredOrPending(m: Mesh, l: Link) {
    l in m.table || Pending(m.stores, l)
  }

  /** With all writers idle and everything that may still fire known, or about to be, nothing more
      is sent. */
  lemma Subsides(m: Mesh) returns (es: seq<Event>)
    requires m.tested == {} && m.stored == {} && m.inFlight == multiset{}
    requires forall l :: l in m.firings ==> StoredOrPending(m, l)
    requires forall i, l :: i in m.pastes && l in Out(m.size, i) ==> StoredOrPending(m, l)
    ensures Legal(m, es) && NoCopies(es) && AtEnd(Exec(m, es)) && Exec(m, es).sent == m.sent
  {
    var a := AllStores(m);
    var m1 := Exec(m, a);
    forall l | StoredOrPending(m, l)
      ensures l in m1.table
    {
      if l !in m.table {
        var s :| s in m.stores && s.entry == l;
      }
    }
    hide Legal, Exec, Enabled, Apply, Out, StoredOrPending;
    forall i | i in m1.pastes
      ensures AllStored(m1, i)
    {
      assert forall l :: l in Out(m.size, i) ==> StoredOrPending(m, l);
    }
    var b := AllPastes(m1);
    var m2 := Exec(m1, b);
    var c := AllDropped(m2);
    Onward(m1, b, c);
    Onward(m, a, b + c);
    es := a + (b + c);
    Empty(Exec(m2, c));
  }

  lemma Empty(m: Mesh)
    requires m.tested == {} && m.stored == {} && m.stores == {} && m.pastes == multiset{}
    requires m.firings == multiset{} && m.inFlight == multiset{}
    ensures AtEnd(m)
  {
  }

  /** A message is delivered, its paste overtakes the stores, and the text goes on over another
      link. */
  lemma Relays(m: Mesh, l: Link, on: Link) returns (es: seq<Event>)
    requires l in m.inFlight && Back(l) !in m.table && !Busy(m, Back(l))
    requires on in Out(m.size, l.to) && on !in m.table && m.tested == {} && m.stored == {} && m.pastes == multiset{}
    ensures Legal(m, es) && NoCopies(es)
    ensures Exec(m, es) == m.(inFlight := m.inFlight - multiset{l} + multiset{on}, table := m.table + {on},
                              sent := m.sent + [on], stores := m.stores + StoresOf(m.size, Back(l)),
                              firings := m.firings + multiset(Out(m.size, l.to)) - multiset{on})
  {
    hide StoresOf, Out;
    var m1 := Apply(m, Deliver(l));
    var m2 := Apply(m1, Paste(l.to));
    assert m2.pastes == multiset{};
    assert on in m2.firings;
    var goes := Goes(m2, on);
    hide Apply, Enabled, Exec, Legal;
    Then(m1, Paste(l.to), goes);
    Then(m, Deliver(l), [Paste(l.to)] + goes);
    es := [Deliver(l)] + ([Paste(l.to)] + goes);
  }

  lemma PendingStores(n: nat, stores: set<Store>, reader: Link)
    requires StoresOf(n, reader) <= stores
    ensures forall l :: l in Out(n, reader.from) ==> Pending(stores, l)
  {
    forall l | l in Out(n, reader.from)
      ensures Pending(stores, l)
    {
      NowPending(n, stores, reader, l);
    }
  }

  /** The first message goes out, to node a. */
  lemma GoesOut(m: Mesh, o: nat, a: nat) returns (es: seq<Event>)
    requires Initial(m) && o < m.size && a < m.size && o != a
    ensures Legal(Apply(m, UserCopy(o)), es) && NoCopies(es)
    ensures Exec(Apply(m, UserCopy(o)), es) == m.(firings := multiset(Out(m.size, o)) - multiset{Link(o, a)},
              table := {Link(o, a)}, inFlight := multiset{Link(o, a)}, sent := [Link(o, a)])
  {
    var there := Link(o, a);
    var m1 := Apply(m, UserCopy(o));
    assert there in Out(m.size, o);
    hide Out;
    es := Goes(m1, there);
  }

  /** The message from i to j goes on to k before the reader's stores. */
  lemma GoesOn(m: Mesh, i: nat, j: nat, k: nat) returns (es: seq<Event>)
    requires m.inFlight == multiset{Link(i, j)} && Link(j, i) !in m.table && !Busy(m, Link(j, i))
    requires k < m.size && k != j && Link(j, k) !in m.table
    requires m.tested == {} && m.stored == {} && m.pastes == multiset{}
    ensures Legal(m, es) && NoCopies(es)
    ensures var t := Exec(m, es);
            && t == m.(inFlight := multiset{Link(j, k)}, table := m.table + {Link(j, k)}, sent := m.sent + [Link(j, k)],
                       stores := m.stores + StoresOf(m.size, Link(j, i)), firings := t.firings)
            && forall l :: l in t.firings ==> l in m.firings || l in Out(m.size, j)
  {
    var l, on := Link(i, j), Link(j, k);
    assert on in Out(m.size, j);
    hide Out, StoresOf, Busy, Exec, Legal;
    es := Relays(m, l, on);
    assert m.inFlight - multiset{l} + multiset{on} == multiset{on};
  }

  lemma OnlyReader(m: Mesh, reader: Link, other: Link)
    requires m.stores == StoresOf(m.size, reader) && other != reader
    ensures !Busy(m, other)
  {
  }

  lemma OnlyReaders(m: Mesh, reader: Link, second: Link, other: Link)
    requires m.stores == StoresOf(m.size, reader) + StoresOf(m.size, second) && other != reader && other != second
    ensures !Busy(m, other)
  {
  }

  /** The text has gone from o to a and, faster than the stores, from a to b and from b to o. */
  ghost predicate BeenRound(m: Mesh, o: nat, a: nat, b: nat) {
    && m.sent == [Link(o, a), Link(a, b), Link(b, o)] && m.table == {Link(o, a), Link(a, b), Link(b, o)}
    && m.stores == StoresOf(m.size, Link(a, o)) + StoresOf(m.size, Link(b, a))
    && m.inFlight == multiset{Link(b, o)} && m.tested == {} && m.stored == {} && m.pastes == multiset{}
    && forall l :: l in m.firings ==> l in Out(m.size, o) || l in Out(m.size, a) || l in Out(m.size, b)
  }

  lemma GoesRound(m: Mesh, o: nat, a: nat, b: nat) returns (es: seq<Event>)
    requires Initial(m) && o < m.size && a < m.size && b < m.size && o != a && o != b && a != b
    ensures Legal(m, [UserCopy(o)] + es) && NoCopies(es)
    ensures var t := Exec(m, [UserCopy(o)] + es); t.size == m.size && BeenRound(t, o, a, b)
  {
    hide Out, StoresOf, Busy, Legal, Exec, Apply;
    var first := GoesOut(m, o, a);
    var m1 := Apply(m, UserCopy(o));
    var m2 := Exec(m1, first);
    NotBusy(m2, Link(a, o));
    var second := GoesOn(m2, o, a, b);
    var m3 := Exec(m2, second);
    assert m3.stores == StoresOf(m.size, Link(a, o));
    OnlyReader(m3, Link(a, o), Link(b, a));
    var third := GoesOn(m3, a, b, o);
    Onward(m2, second, third);
    Onward(m1, first, second + third);
    es := first + (second + third);
    assert Enabled(m, UserCopy(o));
    Then(m, UserCopy(o), es);
  }

  lemma NotBusy(m: Mesh, reader: Link)
    requires m.stores == {}
    ensures !Busy(m, reader)
  {
  }

  /** Back at o the text is pasted once more, and all that is pending is stopped by what the
      readers store. */
  lemma RoundSubsides(m: Mesh, o: nat, a: nat, b: nat) returns (es: seq<Event>)
    requires BeenRound(m, o, a, b) && o < m.size && o != a && o != b && a != b
    ensures Legal(m, es) && NoCopies(es) && AtEnd(Exec(m, es)) && Exec(m, es).sent == m.sent
  {
    hide Out, StoresOf, Busy, Legal, Exec;
    var back := Link(b, o);
    OnlyReaders(m, Link(a, o), Link(b, a), Back(back));
    assert Back(back) !in m.table;
    var next := Apply(m, Deliver(back));
    assert next.inFlight == multiset{} && next.pastes == multiset{o};
    PendingStores(m.size, next.stores, Link(a, o));
    PendingStores(m.size, next.stores, Link(b, a));
    PendingStores(m.size, next.stores, Link(o, b));
    hide Apply, Enabled, Pending;
    var last := Subsides(next);
    Then(m, Deliver(back), last);
    es := [Deliver(back)] + last;
  }

  /** From four nodes on there is a run, with one copy at o, at whose end a node has not been sent
      the text at all: it comes back to o from a node o has not sent it to yet, and the entries that
      o's reader then stores stop o's own writers; all other writers are stopped likewise. */
  lemma RaceLosesPeers(m: Mesh, o: nat, a: nat, b: nat) returns (es: seq<Event>)
    requires Initial(m) && o < m.size && a < m.size && b < m.size && o != a && o != b && a != b
    ensures Legal(m, es) && OnlyCopies(es, o) && Copies(es) > 0 && AtEnd(Exec(m, es))
    ensures forall j: nat :: Heard(Exec(m, es), j) <==> j == o || j == a || j == b
  {
    var round := GoesRound(m, o, a, b);
    var first := [UserCopy(o)] + round;
    hide Legal, Exec, AtEnd, BeenRound;
    var last := RoundSubsides(Exec(m, first), o, a, b);
    Onward(m, first, last);
    es := first + last;
    assert es[0] == UserCopy(o);
    RoundHeard(Exec(m, first), Exec(m, es), o, a, b);
  }

  lemma RoundHeard(m: Mesh, t: Mesh, o: nat, a: nat, b: nat)
    requires BeenRound(m, o, a, b) && t.sent == m.sent
    ensures forall j: nat :: Heard(t, j) <==> j == o || j == a || j == b
  {
    assert t.sent[0] in t.sent && t.sent[1] in t.sent && t.sent[2] in t.sent;
  }

  /** In every run in which node o's user, and nobody else, has copied the text and which has come
      to its end, every other node has been sent it. */
  ghost predicate AlwaysReaches(m: Mesh, o: nat) {
    forall es, j: nat ::
      Legal(m, es) && OnlyCopies(es, o) && Copies(es) > 0 && AtEnd(Exec(m, es)) && j < m.size && j != o
      ==> Heard(Exec(m, es), j)
  }

  /** The exact condition: every node is reached in every run, whatever overtakes what, if and only
      if the mesh has at most three nodes. */
  lemma ReachesExactly(m: Mesh, o: nat)
    requires Initial(m) && o < m.size
    ensures AlwaysReaches(m, o) <==> m.size <= 3
  {
    if m.size <= 3 {
      forall es, j: nat |
        Legal(m, es) && OnlyCopies(es, o) && Copies(es) > 0 && AtEnd(Exec(m, es)) && j < m.size && j != o
        ensures Heard(Exec(m, es), j)
      {
        SmallMeshReaches(m, es, o, j);
      }
    } else {
      var a, b, c := if o == 0 then 3 else 0, if o == 1 then 3 else 1, if o == 2 then 3 else 2;
      var es := RaceLosesPeers(m, o, a, b);
      hide AtEnd, Legal, Heard;
      assert !Heard(Exec(m, es), c);
    }
  }
}
