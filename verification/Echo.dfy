// Keeping one text from echoing around a mesh of peers: HandleDataPasteToCBProcess and
// HandleDataCopyProcess of data_sharing/client/p2p/p2p.go with the table CBData.
//
// One content circulates, so a table entry either holds its hash or does not.  Each link has a
// writer goroutine at its near end and a reader goroutine at its far end; the table is read and
// written without a common lock, so test, store and send are separate steps, and the reader
// stores its entries one by one.
module Echo {
  import opened Bytes

  /** From a node to one of its peers. */
  datatype Link = Link(from: nat, to: nat)

  function Back(l: Link): Link {
    Link(l.to, l.from)
  }

  /** The links from node i to the other nodes among the first k. */
  function Out(k: nat, i: nat): (ls: set<Link>)
    ensures forall l :: l in ls <==> l.from == i && l.to < k && l.to != i
  {
    set j | 0 <= j < k && j != i :: Link(i, j)
  }

  lemma {:induction false} OutSize(k: nat, i: nat)
    ensures |Out(k, i)| == if i < k then k - 1 else k
  {
    if k > 0 {
      OutSize(k - 1, i);
      if k - 1 == i {
        assert Out(k, i) == Out(k - 1, i);
      } else {
        assert Out(k, i) == Out(k - 1, i) + {Link(i, k - 1)};
      }
    }
  }

  /** A store that a reader still has to make: reader, and the entry. */
  datatype Store = Store(reader: Link, entry: Link)

  /** The mesh: entries that hold the hash, writers past their test and past their store, what is
      in flight, what readers still have to store, clipboard pastes under way, watchers about to
      fire, and the history of messages sent. */
  datatype Mesh = Mesh(
    size: nat,
    table: set<Link>,
    tested: set<Link>,
    stored: set<Link>,
    inFlight: multiset<Link>,
    stores: set<Store>,
    pastes: multiset<nat>,
    firings: multiset<Link>,
    sent: seq<Link>)

  datatype Event =
    | UserCopy(node: nat)     // the user copies the text at a node
    | Fire(link: Link)        // the link's writer gets the text from its watcher and tests
    | Record(link: Link)      // CBData.Store(ipAddr, ...)
    | Send(link: Link)        // WriteToSocket
    | Deliver(link: Link)     // the far reader reads the message and tests
    | StoreOne(store: Store)  // one round of CBData.Range
    | Paste(node: nat)        // an asynchronous GoSetupDstPasteText reaches the clipboard

  predicate IsLink(n: nat, l: Link) {
    l.from < n && l.to < n && l.from != l.to
  }

  predicate Busy(m: Mesh, reader: Link) {
    exists s :: s in m.stores && s.reader == reader
  }

  predicate Enabled(m: Mesh, e: Event) {
    match e
    case UserCopy(i) => i < m.size
    case Fire(l) => l in m.firings && l !in m.tested && l !in m.stored
    case Record(l) => l in m.tested
    case Send(l) => l in m.stored
    case Deliver(l) => l in m.inFlight && !Busy(m, Back(l))
    case StoreOne(s) => s in m.stores
    case Paste(i) => i in m.pastes
  }

  function Apply(m: Mesh, e: Event): Mesh
    requires Enabled(m, e)
  {
    match e
    case UserCopy(i) => m.(firings := m.firings + multiset(Out(m.size, i)))
    case Fire(l) =>
      var rest := m.(firings := m.firings - multiset{l});
      if l in m.table then rest else rest.(tested := m.tested + {l})
    case Record(l) => m.(table := m.table + {l}, tested := m.tested - {l}, stored := m.stored + {l})
    case Send(l) =>
      m.(stored := m.stored - {l}, inFlight := m.inFlight + multiset{l}, sent := m.sent + [l])
    case Deliver(l) =>
      var rest := m.(inFlight := m.inFlight - multiset{l});
      if Back(l) in m.table then rest
      else rest.(pastes := m.pastes + multiset{l.to},
                 stores := m.stores + StoresOf(m.size, Back(l)))
    case StoreOne(s) => m.(table := m.table + {s.entry}, stores := m.stores - {s})
    case Paste(i) =>
      m.(pastes := m.pastes - multiset{i}, firings := m.firings + multiset(Out(m.size, i)))
  }

  /** The entries a reader stores: all of its node's. */
  function StoresOf(n: nat, reader: Link): set<Store> {
    set l | l in Out(n, reader.from) :: Store(reader, l)
  }

  predicate Legal(m: Mesh, es: seq<Event>)
    decreases |es|
  {
    es == [] || (Enabled(m, es[0]) && Legal(Apply(m, es[0]), es[1..]))
  }

  function Exec(m: Mesh, es: seq<Event>): Mesh
    requires Legal(m, es)
    decreases |es|
  {
    if es == [] then m else Exec(Apply(m, es[0]), es[1..])
  }

  /** Connected nodes none of which has seen the text. */
  predicate Initial(m: Mesh) {
    m.table == {} && m.tested == {} && m.stored == {} && m.inFlight == multiset{}
    && m.stores == {} && m.pastes == multiset{} && m.firings == multiset{} && m.sent == []
  }

  // ---- At most once over each link ----

  ghost predicate Inv(m: Mesh) {
    && (forall j, k :: 0 <= j < k < |m.sent| ==> m.sent[j] != m.sent[k])
    && (forall l :: l in m.sent ==> l in m.table && IsLink(m.size, l))
    && (forall l :: l in m.tested || l in m.stored ==> l !in m.sent && IsLink(m.size, l))
    && m.tested !! m.stored
    && (forall l :: l in m.stored ==> l in m.table)
    && (forall l :: l in m.firings ==> IsLink(m.size, l))
    && (forall l :: l in m.inFlight ==> IsLink(m.size, l))
    && (forall i :: i in m.pastes ==> i < m.size)
  }

  lemma SendKeepsInv(m: Mesh, l: Link)
    requires Inv(m) && l in m.stored
    ensures Inv(Apply(m, Send(l)))
  {
    var t := Apply(m, Send(l));
    forall j, k | 0 <= j < k < |t.sent|
      ensures t.sent[j] != t.sent[k]
    {
      assert m.sent[j] in m.sent;
    }
  }

  lemma WriterKeepsInv(m: Mesh, e: Event)
    requires Inv(m) && Enabled(m, e) && (e.Fire? || e.Record? || e.StoreOne?)
    ensures Inv(Apply(m, e))
  {
  }

  lemma CopyKeepsInv(m: Mesh, e: Event)
    requires Inv(m) && Enabled(m, e) && (e.UserCopy? || e.Paste?)
    ensures Inv(Apply(m, e))
  {
    var i := e.node;
    var t := Apply(m, e);
    forall l | l in t.firings
      ensures IsLink(t.size, l)
    {
      assert l in m.firings || l in Out(m.size, i);
    }
  }

  lemma DeliverKeepsInv(m: Mesh, l: Link)
    requires Inv(m) && Enabled(m, Deliver(l))
    ensures Inv(Apply(m, Deliver(l)))
  {
    hide StoresOf;
    assert IsLink(m.size, l);
  }

  lemma StepKeepsInv(m: Mesh, e: Event)
    requires Inv(m) && Enabled(m, e)
    ensures Inv(Apply(m, e)) && Apply(m, e).size == m.size
  {
    hide Inv;
    match e
    case Send(l) => SendKeepsInv(m, l);
    case Deliver(l) => DeliverKeepsInv(m, l);
    case UserCopy(_) => CopyKeepsInv(m, e);
    case Paste(_) => CopyKeepsInv(m, e);
    case _ => WriterKeepsInv(m, e);
  }

  lemma {:induction false} RunKeepsInv(m: Mesh, es: seq<Event>)
    requires Inv(m) && Legal(m, es)
    ensures Inv(Exec(m, es)) && Exec(m, es).size == m.size
    decreases |es|
  {
    hide Inv, Apply, Enabled;
    if es != [] {
      StepKeepsInv(m, es[0]);
      RunKeepsInv(Apply(m, es[0]), es[1..]);
    }
  }

  /** Under any order of deliveries, firings and pastes each directed link carries the text at
      most once, and only links between two different nodes do. */
  lemma AtMostOncePerLink(m: Mesh, es: seq<Event>)
    requires Initial(m) && Legal(m, es)
    ensures var sent := Exec(m, es).sent;
            && (forall j, k :: 0 <= j < k < |sent| ==> sent[j] != sent[k])
            && (forall l :: l in sent ==> IsLink(m.size, l))
  {
    RunKeepsInv(m, es);
  }

  // ---- Counting links ----

  /** The links that leave the first k nodes. */
  function Rows(n: nat, k: nat): set<Link> {
    if k == 0 then {} else Rows(n, k - 1) + Out(n, k - 1)
  }

  lemma {:induction false} RowsHold(n: nat, k: nat, l: Link)
    requires k <= n
    ensures l in Rows(n, k) <==> IsLink(n, l) && l.from < k
  {
    if k > 0 {
      RowsHold(n, k - 1, l);
    }
  }

  lemma RowsGrow(n: nat, k: nat)
    requires k < n
    ensures |Rows(n, 0)| == 0 && |Rows(n, k + 1)| == |Rows(n, k)| + n - 1
  {
    var before, row := Rows(n, k), Out(n, k);
    OutSize(n, k);
    forall l | l in before
      ensures l !in row
    {
      RowsHold(n, k, l);
    }
    assert before !! row;
  }

  lemma {:induction false} RowsSize(n: nat, k: nat)
    requires k <= n && n > 0
    ensures |Rows(n, k)| == k * (n - 1)
  {
    hide Rows;
    RowsGrow(n, if k == 0 then 0 else k - 1);
    if k > 0 {
      RowsSize(n, k - 1);
      assert (k - 1) * (n - 1) + (n - 1) == k * (n - 1);
    }
  }

  lemma {:induction false} DistinctWithin(ls: seq<Link>, all: set<Link>)
    requires forall j, k :: 0 <= j < k < |ls| ==> ls[j] != ls[k]
    requires forall l :: l in ls ==> l in all
    ensures |ls| <= |all|
  {
    if ls != [] {
      var last := ls[|ls| - 1];
      var rest := ls[..|ls| - 1];
      assert last in ls;
      forall l | l in rest
        ensures l in all - {last}
      {
        assert l in ls;
      }
      DistinctWithin(rest, all - {last});
    }
  }

  lemma SentBound(m: Mesh)
    requires Inv(m)
    ensures |m.sent| <= m.size * (m.size - 1)
  {
    if m.size > 0 {
      RowsSize(m.size, m.size);
    }
    forall l: Link
      ensures l in m.sent ==> l in Rows(m.size, m.size)
    {
      RowsHold(m.size, m.size, l);
    }
    DistinctWithin(m.sent, Rows(m.size, m.size));
  }

  /** At most n(n-1) messages in all. */
  lemma EchoBound(m: Mesh, es: seq<Event>)
    requires Initial(m) && Legal(m, es)
    ensures |Exec(m, es).sent| <= m.size * (m.size - 1)
  {
    RunKeepsInv(m, es);
    SentBound(Exec(m, es));
  }

  // ---- Every run ends ----

  /** What a message in flight can still cause: its delivery, a paste and the firings that
      follow, and the stores of its reader. */
  function MessageWork(n: nat): nat {
    4 * n + 2
  }

  function PasteWork(n: nat): nat {
    3 * n + 1
  }

  /** The weights of all that is pending in a mesh of n. */
  function Weigh(n: nat, messages: int, firings: int, writing: int, pastes: int, stores: int): int {
    MessageWork(n) * messages + 3 * firings + writing + PasteWork(n) * pastes + stores
  }

  lemma Lighter(n: nat, messages: int, firings: int, writing: int, pastes: int, stores: int)
    ensures Weigh(n, messages - 1, firings, writing, pastes, stores)
         == Weigh(n, messages, firings, writing, pastes, stores) - MessageWork(n)
    ensures Weigh(n, messages, firings, writing, pastes + 1, stores)
         == Weigh(n, messages, firings, writing, pastes, stores) + PasteWork(n)
    ensures Weigh(n, messages - 1, firings, writing, pastes + 1, stores)
         == Weigh(n, messages, firings, writing, pastes, stores) - MessageWork(n) + PasteWork(n)
    ensures Weigh(n, messages, firings, writing, pastes - 1, stores)
         == Weigh(n, messages, firings, writing, pastes, stores) - PasteWork(n)
  {
  }

  /** Messages not yet sent, or in flight. */
  function Messages(m: Mesh): int {
    m.size * (m.size - 1) - |m.sent| + |m.inFlight|
  }

  /** An upper bound on the steps still to come without a further copy by the user. */
  function Work(m: Mesh): int {
    Weigh(m.size, Messages(m), |m.firings|, 2 * |m.tested| + |m.stored|, |m.pastes|, |m.stores|)
  }

  lemma {:induction false} StoresImage(ls: set<Link>, reader: Link)
    ensures |set l | l in ls :: Store(reader, l)| == |ls|
  {
    var image := set l | l in ls :: Store(reader, l);
    if ls == {} {
      assert image == {};
    } else {
      var l :| l in ls;
      StoresImage(ls - {l}, reader);
      assert image == (set k | k in ls - {l} :: Store(reader, k)) + {Store(reader, l)};
    }
  }

  lemma UnionSize<T>(a: set<T>, b: set<T>)
    ensures |a + b| <= |a| + |b|
  {
    assert a + b == a + (b - a);
  }

  lemma StoresOfSize(m: Mesh, l: Link)
    requires IsLink(m.size, l)
    ensures |m.stores + StoresOf(m.size, Back(l))| <= |m.stores| + m.size - 1
  {
    OutSize(m.size, l.to);
    StoresImage(Out(m.size, l.to), Back(l));
    UnionSize(m.stores, StoresOf(m.size, Back(l)));
  }

  lemma DeliverShrinks(m: Mesh, l: Link)
    requires Inv(m) && Enabled(m, Deliver(l))
    ensures Work(Apply(m, Deliver(l))) < Work(m)
  {
    hide Weigh, StoresOf;
    assert IsLink(m.size, l);
    var t := Apply(m, Deliver(l));
    var w := 2 * |m.tested| + |m.stored|;
    Lighter(m.size, Messages(m), |m.firings|, w, |m.pastes|, |m.stores|);
    assert |t.inFlight| == |m.inFlight| - 1;
    if Back(l) !in m.table {
      StoresOfSize(m, l);
      assert |t.pastes| == |m.pastes| + 1;
      StoresAdd(m.size, Messages(m) - 1, |m.firings|, w, |m.pastes| + 1, |m.stores|, |t.stores| - |m.stores|);
    }
  }

  lemma StoresAdd(n: nat, messages: int, firings: int, writing: int, pastes: int, stores: int, more: int)
    ensures Weigh(n, messages, firings, writing, pastes, stores + more)
         == Weigh(n, messages, firings, writing, pastes, stores) + more
    ensures Weigh(n, messages, firings + more, writing, pastes, stores)
         == Weigh(n, messages, firings, writing, pastes, stores) + 3 * more
    ensures Weigh(n, messages, firings, writing + more, pastes, stores)
         == Weigh(n, messages, firings, writing, pastes, stores) + more
  {
  }

  lemma OutBag(m: Mesh, i: nat)
    requires i < m.size
    ensures |m.firings + multiset(Out(m.size, i))| == |m.firings| + m.size - 1
  {
    OutSize(m.size, i);
  }

  lemma PasteShrinks(m: Mesh, i: nat)
    requires Inv(m) && Enabled(m, Paste(i))
    ensures Work(Apply(m, Paste(i))) < Work(m)
  {
    hide Weigh, Out;
    OutBag(m, i);
    var w := 2 * |m.tested| + |m.stored|;
    Lighter(m.size, Messages(m), |m.firings|, w, |m.pastes|, |m.stores|);
    StoresAdd(m.size, Messages(m), |m.firings|, w, |m.pastes| - 1, |m.stores|, m.size - 1);
  }

  function Weights(m: Mesh): int {
    3 * |m.firings| + 2 * |m.tested| + |m.stored| + |m.stores|
  }

  /** Work in terms of how the sizes change. */
  lemma SizesShrink(m: Mesh, t: Mesh)
    requires t.size == m.size && Messages(t) == Messages(m) && t.pastes == m.pastes
    requires Weights(t) < Weights(m)
    ensures Work(t) < Work(m)
  {
    hide Weigh, Messages;
    var w, v := 2 * |m.tested| + |m.stored|, 2 * |t.tested| + |t.stored|;
    StoresAdd(m.size, Messages(m), |m.firings|, w, |m.pastes|, |m.stores|, |t.stores| - |m.stores|);
    StoresAdd(m.size, Messages(m), |m.firings|, w, |m.pastes|, |t.stores|, |t.firings| - |m.firings|);
    StoresAdd(m.size, Messages(m), |t.firings|, w, |m.pastes|, |t.stores|, v - w);
  }

  /** A writer's or reader's own step takes away at least as much as it adds. */
  lemma WriterSizes(m: Mesh, e: Event)
    requires Enabled(m, e) && (e.Fire? || e.Record? || e.Send? || e.StoreOne?)
    ensures Weights(Apply(m, e)) < Weights(m)
  {
    hide Out, StoresOf;
    var t := Apply(m, e);
    match e {
      case Fire(l) => assert |t.firings| == |m.firings| - 1 && |t.tested| <= |m.tested| + 1;
      case Record(l) => assert |t.tested| == |m.tested| - 1 && |t.stored| <= |m.stored| + 1;
      case Send(l) => assert |t.stored| == |m.stored| - 1;
      case StoreOne(s) => assert |t.stores| == |m.stores| - 1;
    }
  }

  lemma WriterShrinks(m: Mesh, e: Event)
    requires Inv(m) && Enabled(m, e) && (e.Fire? || e.Record? || e.Send? || e.StoreOne?)
    ensures Work(Apply(m, e)) < Work(m)
  {
    hide Work, Inv;
    WriterSizes(m, e);
    WriterMessages(m, e);
    hide Apply, Messages;
    SizesShrink(m, Apply(m, e));
  }

  lemma WriterMessages(m: Mesh, e: Event)
    requires Enabled(m, e) && (e.Fire? || e.Record? || e.Send? || e.StoreOne?)
    ensures var t := Apply(m, e); t.size == m.size && Messages(t) == Messages(m) && t.pastes == m.pastes
  {
    hide Out, StoresOf;
  }

  lemma WorkShrinks(m: Mesh, e: Event)
    requires Inv(m) && Enabled(m, e) && !e.UserCopy?
    ensures Work(Apply(m, e)) < Work(m)
  {
    hide Work;
    match e
    case Deliver(l) => DeliverShrinks(m, l);
    case Paste(i) => PasteShrinks(m, i);
    case _ => WriterShrinks(m, e);
  }

  lemma CopyAdds(m: Mesh, i: nat)
    requires i < m.size
    ensures Work(Apply(m, UserCopy(i))) <= Work(m) + 3 * m.size
  {
    hide Weigh, Out;
    OutBag(m, i);
    StoresAdd(m.size, Messages(m), |m.firings|, 2 * |m.tested| + |m.stored|, |m.pastes|, |m.stores|, m.size - 1);
  }

  function Copies(es: seq<Event>): nat {
    if es == [] then 0 else (if es[0].UserCopy? then 1 else 0) + Copies(es[1..])
  }

  lemma WeightNonNegative(n: nat, messages: int, firings: nat, writing: nat, pastes: nat, stores: nat)
    requires messages >= 0
    ensures Weigh(n, messages, firings, writing, pastes, stores) >= 0
  {
    assert MessageWork(n) * messages >= 0;
    assert PasteWork(n) * pastes >= 0;
  }

  lemma WorkNonNegative(m: Mesh)
    requires Inv(m)
    ensures Work(m) >= 0
  {
    hide Weigh, Inv;
    SentBound(m);
    WeightNonNegative(m.size, Messages(m), |m.firings|, 2 * |m.tested| + |m.stored|, |m.pastes|, |m.stores|);
  }

  lemma {:induction false} RunsEnd(m: Mesh, es: seq<Event>)
    requires Inv(m) && Legal(m, es)
    ensures |es| <= Work(m) + (3 * m.size + 1) * Copies(es)
    decreases |es|
  {
    hide Work, Inv;
    if es == [] {
      WorkNonNegative(m);
    } else {
      var t := Apply(m, es[0]);
      StepKeepsInv(m, es[0]);
      RunsEnd(t, es[1..]);
      if es[0].UserCopy? {
        CopyAdds(m, es[0].node);
        assert (3 * m.size + 1) * (1 + Copies(es[1..])) == (3 * m.size + 1) * Copies(es[1..]) + (3 * m.size + 1);
      } else {
        WorkShrinks(m, es[0]);
      }
    }
  }

  /** Echoes die out: a run in which the user copies c times has no more steps than a fixed amount
      for the mesh and a fixed amount for each copy. */
  lemma EveryRunEnds(m: Mesh, es: seq<Event>)
    requires Initial(m) && Legal(m, es)
    ensures |es| <= (4 * m.size + 2) * (m.size * (m.size - 1)) + (3 * m.size + 1) * Copies(es)
  {
    RunsEnd(m, es);
  }

  // ---- When nothing is sent back ----

  /** Only node o copies the text, and a paste reaches the clipboard of another node only when the
      table holds all entries of that node. */
  ghost predicate Calm(m: Mesh, e: Event, o: nat) {
    match e
    case UserCopy(i) => i == o
    case Paste(i) => i == o || AllStored(m, i)
    case _ => true
  }

  ghost predicate AllStored(m: Mesh, i: nat) {
    forall l :: l in Out(m.size, i) ==> l in m.table
  }

  ghost predicate CalmRun(m: Mesh, es: seq<Event>, o: nat)
    requires Legal(m, es)
    decreases |es|
  {
    es == [] || (Calm(m, es[0], o) && CalmRun(Apply(m, es[0]), es[1..], o))
  }

  /** Whatever is on its way comes from node o, or will be stopped by the table. */
  ghost predicate OneSource(m: Mesh, o: nat) {
    && (forall l :: l in m.firings ==> l.from == o || l in m.table)
    && (forall l :: l in m.tested || l in m.stored || l in m.inFlight || l in m.sent ==> l.from == o)
  }

  /** What fires after a copy or a paste fired before or leaves the node. */
  lemma FiringsAfter(m: Mesh, e: Event)
    requires Enabled(m, e) && (e.UserCopy? || e.Paste?)
    ensures forall l :: l in Apply(m, e).firings ==> l in m.firings || l in Out(m.size, e.node)
  {
  }

  lemma CopyIsCalm(m: Mesh, e: Event, o: nat)
    requires OneSource(m, o) && Enabled(m, e) && Calm(m, e, o) && (e.UserCopy? || e.Paste?)
    ensures OneSource(Apply(m, e), o)
  {
    FiringsAfter(m, e);
    assert forall l :: l in Out(m.size, e.node) ==> l.from == e.node;
    hide Out;
  }

  lemma DeliverIsCalm(m: Mesh, l: Link, o: nat)
    requires OneSource(m, o) && Enabled(m, Deliver(l))
    ensures OneSource(Apply(m, Deliver(l)), o)
  {
    hide StoresOf;
  }

  lemma WriterIsCalm(m: Mesh, e: Event, o: nat)
    requires OneSource(m, o) && Enabled(m, e) && (e.Fire? || e.Record? || e.Send? || e.StoreOne?)
    ensures OneSource(Apply(m, e), o)
  {
    hide Out, StoresOf;
  }

  lemma CalmStep(m: Mesh, e: Event, o: nat)
    requires OneSource(m, o) && Enabled(m, e) && Calm(m, e, o)
    ensures OneSource(Apply(m, e), o)
  {
    hide OneSource;
    match e
    case UserCopy(_) => CopyIsCalm(m, e, o);
    case Paste(_) => CopyIsCalm(m, e, o);
    case Deliver(l) => DeliverIsCalm(m, l, o);
    case _ => WriterIsCalm(m, e, o);
  }

  lemma {:induction false} CalmRunKeepsSource(m: Mesh, es: seq<Event>, o: nat)
    requires OneSource(m, o) && Legal(m, es) && CalmRun(m, es, o)
    ensures OneSource(Exec(m, es), o)
    decreases |es|
  {
    hide OneSource, Calm, Apply, Enabled;
    if es != [] {
      CalmStep(m, es[0], o);
      CalmRunKeepsSource(Apply(m, es[0]), es[1..], o);
    }
  }

  /** What the table is for: if every paste at another node finds all entries of that node stored,
      the text travels only from the node where it was copied, at most once to each peer; no node
      sends it back or on. */
  lemma NoEcho(m: Mesh, es: seq<Event>, o: nat)
    requires Initial(m) && Legal(m, es) && CalmRun(m, es, o) && o < m.size
    ensures var sent := Exec(m, es).sent;
            (forall l :: l in sent ==> l.from == o) && |sent| <= m.size - 1
  {
    CalmRunKeepsSource(m, es, o);
    AtMostOncePerLink(m, es);
    OutSize(m.size, o);
    DistinctWithin(Exec(m, es).sent, Out(m.size, o));
  }

  // ---- Every peer is sent the text ----

  /** Nothing of node o is stored but by its own writers. */
  ghost predicate OwnEntries(m: Mesh, o: nat) {
    && (forall s :: s in m.stores ==> s.entry.from != o)
    && (forall l :: l in m.table && l.from == o ==> l in m.stored || l in m.sent)
  }

  /** The text is on its way from node o to each of its peers, or has been sent there. */
  ghost predicate Spread(m: Mesh, o: nat) {
    forall l :: l in Out(m.size, o) ==> l in m.firings || l in m.tested || l in m.stored || l in m.sent
  }

  lemma WriterSpreads(m: Mesh, e: Event, o: nat)
    requires OwnEntries(m, o) && Enabled(m, e) && (e.Fire? || e.Record? || e.Send? || e.StoreOne?)
    ensures OwnEntries(Apply(m, e), o) && (Spread(m, o) ==> Spread(Apply(m, e), o))
  {
    hide Out, StoresOf;
  }

  lemma DeliverSpreads(m: Mesh, l: Link, o: nat)
    requires Inv(m) && OneSource(m, o) && OwnEntries(m, o) && Enabled(m, Deliver(l))
    ensures OwnEntries(Apply(m, Deliver(l)), o) && (Spread(m, o) ==> Spread(Apply(m, Deliver(l)), o))
  {
    assert IsLink(m.size, l) && l.from == o;
    hide Out;
  }

  lemma CopySpreads(m: Mesh, e: Event, o: nat)
    requires OwnEntries(m, o) && Enabled(m, e) && Calm(m, e, o) && (e.UserCopy? || e.Paste?)
    ensures OwnEntries(Apply(m, e), o) && (Spread(m, o) || e.UserCopy? ==> Spread(Apply(m, e), o))
  {
    var t := Apply(m, e);
    assert forall l :: l in m.firings || l in Out(m.size, e.node) ==> l in t.firings;
    hide Out;
  }

  lemma StepSpreads(m: Mesh, e: Event, o: nat)
    requires Inv(m) && OneSource(m, o) && OwnEntries(m, o) && Enabled(m, e) && Calm(m, e, o)
    ensures OwnEntries(Apply(m, e), o) && (Spread(m, o) || e.UserCopy? ==> Spread(Apply(m, e), o))
  {
    hide Inv, OneSource, OwnEntries, Spread;
    match e
    case UserCopy(_) => CopySpreads(m, e, o);
    case Paste(_) => CopySpreads(m, e, o);
    case Deliver(l) => DeliverSpreads(m, l, o);
    case _ => WriterSpreads(m, e, o);
  }

  lemma {:induction false} RunSpreads(m: Mesh, es: seq<Event>, o: nat)
    requires Inv(m) && OneSource(m, o) && OwnEntries(m, o) && Legal(m, es) && CalmRun(m, es, o)
    ensures Spread(m, o) || Copies(es) > 0 ==> Spread(Exec(m, es), o)
    decreases |es|
  {
    hide Inv, OneSource, OwnEntries, Spread, Calm, Apply, Enabled;
    if es != [] {
      StepKeepsInv(m, es[0]);
      CalmStep(m, es[0], o);
      StepSpreads(m, es[0], o);
      RunSpreads(Apply(m, es[0]), es[1..], o);
    }
  }

  /** Nothing can happen any more but a further copy by the user. */
  ghost predicate AtEnd(m: Mesh) {
    forall e :: Enabled(m, e) ==> e.UserCopy?
  }

  lemma NothingPending(m: Mesh)
    requires AtEnd(m)
    ensures m.tested == {} && m.stored == {} && m.stores == {} && m.pastes == multiset{}
    ensures m.firings == multiset{} && m.inFlight == multiset{}
  {
    assert forall l :: Enabled(m, Record(l)) <==> l in m.tested;
    assert forall l :: Enabled(m, Send(l)) <==> l in m.stored;
    assert forall s :: Enabled(m, StoreOne(s)) <==> s in m.stores;
    assert forall i :: Enabled(m, Paste(i)) <==> i in m.pastes;
    assert forall l :: Enabled(m, Fire(l)) <==> l in m.firings && l !in m.tested && l !in m.stored;
    assert forall l :: Enabled(m, Deliver(l)) <==> l in m.inFlight && !Busy(m, Back(l));
  }

  /** When a calm run in which node o's user has copied the text has come to its end, the text has
      been sent from o to each other node, exactly once, and to nobody from anywhere else. */
  lemma EveryPeerIsSent(m: Mesh, es: seq<Event>, o: nat)
    requires Initial(m) && Legal(m, es) && CalmRun(m, es, o) && o < m.size
    requires Copies(es) > 0 && AtEnd(Exec(m, es))
    ensures var sent := Exec(m, es).sent;
            && (forall j: nat :: j < m.size && j != o <==> Link(o, j) in sent)
            && |sent| == m.size - 1
            && (forall j, k :: 0 <= j < k < |sent| ==> sent[j] != sent[k])
  {
    RunKeepsInv(m, es);
    RunSpreads(m, es, o);
    NoEcho(m, es, o);
    AtMostOncePerLink(m, es);
    hide Legal, Exec, CalmRun, Inv, Spread, AtEnd, OneSource, OwnEntries;
    SpreadAtEnd(Exec(m, es), o);
  }

  lemma SpreadAtEnd(m: Mesh, o: nat)
    requires Inv(m) && Spread(m, o) && AtEnd(m) && o < m.size
    requires (forall l :: l in m.sent ==> l.from == o) && |m.sent| <= m.size - 1
    ensures forall j: nat :: j < m.size && j != o <==> Link(o, j) in m.sent
    ensures |m.sent| == m.size - 1
  {
    NothingPending(m);
    hide AtEnd;
    forall j: nat | j < m.size && j != o
      ensures Link(o, j) in m.sent
    {
      assert Link(o, j) in Out(m.size, o);
    }
    OutSize(m.size, o);
    SetWithin(Out(m.size, o), m.sent);
  }

  lemma {:induction false} SetWithin(all: set<Link>, ls: seq<Link>)
    requires forall l :: l in all ==> l in ls
    ensures |all| <= |ls|
  {
    if ls == [] {
      assert all == {};
    } else {
      forall l | l in all - {ls[0]}
        ensures l in ls[1..]
      {
      }
      SetWithin(all - {ls[0]}, ls[1..]);
    }
  }

  // ---- A node that has stored everything pastes no more ----

  lemma StepPastesNoMore(m: Mesh, e: Event, i: nat)
    requires Inv(m) && AllStored(m, i) && Enabled(m, e)
    ensures AllStored(Apply(m, e), i) && Apply(m, e).pastes[i] <= m.pastes[i]
  {
    match e
    case Deliver(l) => assert IsLink(m.size, l) && (l.to == i ==> Back(l) in Out(m.size, i));
    case _ =>
  }

  /** Over any run: a node whose entries are all stored ignores whatever still reaches it. */
  lemma {:induction false} StoredPastesNoMore(m: Mesh, es: seq<Event>, i: nat)
    requires Inv(m) && AllStored(m, i) && Legal(m, es)
    ensures AllStored(Exec(m, es), i) && Exec(m, es).pastes[i] <= m.pastes[i]
    decreases |es|
  {
    hide Inv, AllStored, Apply, Enabled;
    if es != [] {
      StepKeepsInv(m, es[0]);
      StepPastesNoMore(m, es[0], i);
      StoredPastesNoMore(Apply(m, es[0]), es[1..], i);
    }
  }

  // ---- Exactly then ----

  lemma Then(m: Mesh, e: Event, later: seq<Event>)
    requires Enabled(m, e) && Legal(Apply(m, e), later)
    ensures Legal(m, [e] + later) && Exec(m, [e] + later) == Exec(Apply(m, e), later)
  {
    hide Enabled, Apply;
    assert ([e] + later)[1..] == later;
  }

  /** The user copies nothing. */
  predicate NoCopies(es: seq<Event>) {
    forall k :: 0 <= k < |es| ==> !es[k].UserCopy?
  }

  /** From a watcher that has fired: the text goes out over the link. */
  lemma Goes(m: Mesh, l: Link) returns (es: seq<Event>)
    requires l in m.firings && l !in m.tested && l !in m.stored && l !in m.table
    ensures Legal(m, es) && NoCopies(es)
    ensures Exec(m, es) == m.(firings := m.firings - multiset{l}, table := m.table + {l},
                              inFlight := m.inFlight + multiset{l}, sent := m.sent + [l])
  {
    var m1 := Apply(m, Fire(l));
    var m2 := Apply(m1, Record(l));
    var m3 := Apply(m2, Send(l));
    assert m1.tested - {l} == m.tested && (m.stored + {l}) - {l} == m.stored;
    Then(m2, Send(l), []);
    Then(m1, Record(l), [Send(l)] + []);
    es := [Fire(l)] + ([Record(l)] + ([Send(l)] + []));
    Then(m, Fire(l), [Record(l)] + ([Send(l)] + []));
  }

  ghost predicate SentFrom(m: Mesh, i: nat) {
    exists l :: l in m.sent && l.from == i
  }

  /** Some continuation, whatever it is, makes node i send the text. */
  ghost predicate CanSend(m: Mesh, i: nat) {
    exists es :: Legal(m, es) && SentFrom(Exec(m, es), i)
  }

  /** Node i has sent nothing, is about to send nothing, and its table stops whatever fires. */
  ghost predicate Muted(m: Mesh, i: nat) {
    && AllStored(m, i)
    && (forall l :: l in m.tested || l in m.stored || l in m.sent ==> l.from != i)
    && (forall l :: l in m.firings && l.from == i ==> l in m.table)
  }

  lemma CopyStaysMuted(m: Mesh, e: Event, i: nat)
    requires Muted(m, i) && Enabled(m, e) && (e.UserCopy? || e.Paste?)
    ensures Muted(Apply(m, e), i)
  {
    FiringsAfter(m, e);
    assert forall l :: l in Out(m.size, e.node) ==> l.from == e.node;
    hide Out;
  }

  lemma DeliverStaysMuted(m: Mesh, l: Link, i: nat)
    requires Muted(m, i) && Enabled(m, Deliver(l))
    ensures Muted(Apply(m, Deliver(l)), i)
  {
    hide StoresOf, Out;
  }

  lemma WriterStaysMuted(m: Mesh, e: Event, i: nat)
    requires Muted(m, i) && Enabled(m, e) && (e.Fire? || e.Record? || e.Send? || e.StoreOne?)
    ensures Muted(Apply(m, e), i)
  {
    hide Out, StoresOf;
  }

  lemma MutedStep(m: Mesh, e: Event, i: nat)
    requires Muted(m, i) && Enabled(m, e)
    ensures Muted(Apply(m, e), i)
  {
    hide Muted;
    match e
    case UserCopy(_) => CopyStaysMuted(m, e, i);
    case Paste(_) => CopyStaysMuted(m, e, i);
    case Deliver(l) => DeliverStaysMuted(m, l, i);
    case _ => WriterStaysMuted(m, e, i);
  }

  lemma {:induction false} StaysMuted(m: Mesh, es: seq<Event>, i: nat)
    requires Muted(m, i) && Legal(m, es)
    ensures Muted(Exec(m, es), i)
    decreases |es|
  {
    hide Muted, Apply, Enabled;
    if es != [] {
      MutedStep(m, es[0], i);
      StaysMuted(Apply(m, es[0]), es[1..], i);
    }
  }

  lemma PasteFires(m: Mesh, i: nat, o: nat, l: Link)
    requires OneSource(m, o) && i in m.pastes && i != o && l in Out(m.size, i) && l !in m.table
    ensures CanSend(Apply(m, Paste(i)), i)
  {
    var t := Apply(m, Paste(i));
    var es := Goes(t, l);
    assert l in Exec(t, es).sent && l.from == i;
  }

  lemma PasteMutes(m: Mesh, i: nat, o: nat)
    requires OneSource(m, o) && i in m.pastes && i != o && AllStored(m, i)
    ensures Muted(Apply(m, Paste(i)), i)
  {
  }

  /** The exact condition.  After any calm run a paste at another node can be followed by that node
      sending the text back or on, in some continuation, if and only if some entry of the node is
      not yet in the table. */
  lemma EchoExactly(m: Mesh, es: seq<Event>, o: nat, i: nat)
    requires Initial(m) && Legal(m, es) && CalmRun(m, es, o) && i != o
    requires i in Exec(m, es).pastes
    ensures CanSend(Apply(Exec(m, es), Paste(i)), i) <==> !AllStored(Exec(m, es), i)
  {
    var now := Exec(m, es);
    CalmRunKeepsSource(m, es, o);
    if AllStored(now, i) {
      PasteMutes(now, i, o);
      var t := Apply(now, Paste(i));
      forall later | Legal(t, later)
        ensures !SentFrom(Exec(t, later), i)
      {
        StaysMuted(t, later, i);
      }
    } else {
      var l :| l in Out(now.size, i) && l !in now.table;
      PasteFires(now, i, o, l);
    }
  }

  // ---- Stores before pastes ----

  /** No reader of the pasting node has a store left to make. */
  ghost predicate Settled(m: Mesh, e: Event, o: nat) {
    match e
    case UserCopy(i) => i == o
    case Paste(i) => forall s :: s in m.stores ==> s.entry.from != i
    case _ => true
  }

  ghost predicate SettledRun(m: Mesh, es: seq<Event>, o: nat)
    requires Legal(m, es)
    decreases |es|
  {
    es == [] || (Settled(m, es[0], o) && SettledRun(Apply(m, es[0]), es[1..], o))
  }

  ghost predicate Pending(stores: set<Store>, entry: Link) {
    exists s :: s in stores && s.entry == entry
  }

  /** Whoever is about to paste has its entries, or a reader is about to store them. */
  ghost predicate Tracked(m: Mesh) {
    forall i, l :: i in m.pastes && l in Out(m.size, i) ==> l in m.table || Pending(m.stores, l)
  }

  lemma StillPending(before: set<Store>, now: set<Store>, entry: Link)
    requires before <= now && Pending(before, entry)
    ensures Pending(now, entry)
  {
    var s :| s in before && s.entry == entry;
    assert s in now;
  }

  lemma NowPending(n: nat, now: set<Store>, reader: Link, entry: Link)
    requires StoresOf(n, reader) <= now && entry in Out(n, reader.from)
    ensures Pending(now, entry)
  {
    assert Store(reader, entry) in StoresOf(n, reader);
  }

  lemma DeliverTracked(m: Mesh, l: Link)
    requires Tracked(m) && Enabled(m, Deliver(l))
    ensures Tracked(Apply(m, Deliver(l)))
  {
    hide Out, StoresOf, Pending;
    var t := Apply(m, Deliver(l));
    forall i, k | i in t.pastes && k in Out(t.size, i) && k !in t.table
      ensures Pending(t.stores, k)
    {
      if i in m.pastes {
        StillPending(m.stores, t.stores, k);
      } else {
        NowPending(m.size, t.stores, Back(l), k);
      }
    }
  }

  lemma StoreTracked(m: Mesh, s: Store)
    requires Tracked(m) && Enabled(m, StoreOne(s))
    ensures Tracked(Apply(m, StoreOne(s)))
  {
    var t := Apply(m, StoreOne(s));
    forall i, k | i in t.pastes && k in Out(t.size, i) && k !in t.table
      ensures Pending(t.stores, k)
    {
      var u :| u in m.stores && u.entry == k;
      assert u in t.stores;
    }
  }

  lemma StepTracked(m: Mesh, e: Event)
    requires Tracked(m) && Enabled(m, e)
    ensures Tracked(Apply(m, e))
  {
    match e
    case Deliver(l) => DeliverTracked(m, l);
    case StoreOne(s) => StoreTracked(m, s);
    case _ =>
      assert Apply(m, e).stores == m.stores && m.table <= Apply(m, e).table;
      hide Out, Pending;
  }

  lemma {:induction false} SettledIsCalm(m: Mesh, es: seq<Event>, o: nat)
    requires Tracked(m) && Legal(m, es) && SettledRun(m, es, o)
    ensures CalmRun(m, es, o)
    decreases |es|
  {
    hide Apply, Out;
    if es != [] {
      StepTracked(m, es[0]);
      SettledIsCalm(Apply(m, es[0]), es[1..], o);
    }
  }

  lemma {:induction false} Onward(m: Mesh, first: seq<Event>, second: seq<Event>)
    requires Legal(m, first) && Legal(Exec(m, first), second)
    ensures Legal(m, first + second) && Exec(m, first + second) == Exec(Exec(m, first), second)
    decreases |first|
  {
    hide Enabled, Apply;
    if first == [] {
      assert first + second == second;
    } else {
      assert (first + second)[1..] == first[1..] + second;
      Onward(Apply(m, first[0]), first[1..], second);
    }
  }

  /** A message is delivered and its paste overtakes the reader's stores. */
  lemma Overtakes(m: Mesh, l: Link) returns (es: seq<Event>)
    requires IsLink(m.size, l) && l in m.inFlight && m.stores == {} && Back(l) !in m.table
    ensures Legal(m, es)
    ensures var t := Exec(m, es);
            && Back(l) in t.firings && t.table == m.table && t.sent == m.sent
            && t.tested == m.tested && t.stored == m.stored
  {
    hide StoresOf;
    var m1 := Apply(m, Deliver(l));
    assert l.to in m1.pastes;
    Then(m1, Paste(l.to), []);
    es := [Deliver(l)] + ([Paste(l.to)] + []);
    Then(m, Deliver(l), [Paste(l.to)] + []);
    assert Back(l) in Out(m.size, l.to);
  }

  /** A run in which readers finish their stores before their pastes land is calm. */
  lemma StoresFirst(m: Mesh, es: seq<Event>, o: nat)
    requires Initial(m) && Legal(m, es) && SettledRun(m, es, o)
    ensures CalmRun(m, es, o)
  {
    SettledIsCalm(m, es, o);
  }

  /** As a run from the start: a paste that overtakes the stores of its reader sends the text back
      to where it came from. */
  lemma RaceEchoes(m: Mesh) returns (es: seq<Event>)
    requires Initial(m) && m.size >= 2
    ensures Legal(m, es) && Exec(m, es).sent == [Link(0, 1), Link(1, 0)]
  {
    var there := Link(0, 1);
    var m1 := Apply(m, UserCopy(0));
    assert there in m1.firings;
    var out := Goes(m1, there);
    var m2 := Exec(m1, out);
    assert m2.sent == [there] && m2.stores == {} && Back(there) !in m2.table;
    hide Legal, Exec, Enabled, Apply, Out;
    var across := Overtakes(m2, there);
    var home := Goes(Exec(m2, across), Back(there));
    Onward(m2, across, home);
    Onward(m1, out, across + home);
    es := [UserCopy(0)] + (out + (across + home));
    CopyFirst(m, out + (across + home));
  }

  lemma CopyFirst(m: Mesh, later: seq<Event>)
    requires m.size > 0 && Legal(Apply(m, UserCopy(0)), later)
    ensures Legal(m, [UserCopy(0)] + later)
    ensures Exec(m, [UserCopy(0)] + later) == Exec(Apply(m, UserCopy(0)), later)
  {
    Then(m, UserCopy(0), later);
  }
}
