/**
 What live rewiring does to packets: a node that passes everything on can be inserted into an edge, or
 removed from between others, without a packet ending differently, except where a removal changes
 which edge takes it.
 */
module RewiredRuns {
  import opened Wrappers
  import opened Packets
  import opened Modules
  import opened Digraphs
  import opened Graphs
  import opened Walks
  import opened Traces
  import opened Rewiring
  import opened RewiredRouting
  import opened ParallelExecution
  import opened ParallelOutcome

  /** The module takes every packet and passes it on. */
  ghost predicate PassesAll(m: Module) {
    m.maxPayload.None? && forall h, p :: m.Process(h, p) == Forward(p)
  }

  /** `net` is `net'` with the node `n`, which passes everything on, skipped. */
  ghost predicate Bypasses(net: Net, net': Net, n: NodeId) {
    && n !in net.modules && net'.modules.Keys == net.modules.Keys + {n}
    && (forall x :: x in net.modules ==> net'.modules[x] == net.modules[x])
    && PassesAll(net'.modules[n])
    && forall x, o :: x != n ==> Skips(net, net', n, x, o)
  }

  ghost predicate Skips(net: Net, net': Net, n: NodeId, x: NodeId, o: Outcome) {
    var d := Decide(net, x, o);
    d == Past(net', n, Decide(net', x, o)) && (d.Continue? ==> d.to != n) && (Decide(net', x, o) != d ==> d.Continue?)
  }

  /** Away from `n`, the modules have been handed the same packets, up to traces. */
  ghost predicate SameLogs(handed: Logs, handed': Logs, n: NodeId) {
    forall x :: x != n ==> StripAll(LogAt(handed, x)) == StripAll(LogAt(handed', x))
  }

  ghost predicate AllBlind(net: Net) { forall x :: x in net.modules ==> TraceBlind(net.modules[x]) }

  /** The same run but for calls at `n` and what traces say. */
  ghost predicate Alike(run: Run, run': Run, n: NodeId) {
    && StripEnding(run'.ending) == StripEnding(run.ending)
    && Without(run'.Path(), n) == run.Path() && SameLogs(run.handed, run'.handed, n)
  }

  lemma RefusesAlike(net: Net, net': Net, n: NodeId, x: NodeId, p: Packet, p': Packet)
    requires Bypasses(net, net', n) && x != n && Strip(p) == Strip(p')
    ensures Refused(net', x, p') == Refused(net, x, p)
  {
    assert p.payload == Strip(p).payload == Strip(p').payload == p'.payload;
  }

  lemma RecordsAlike(
    net: Net, net': Net, n: NodeId, handed: Logs, handed': Logs, x: NodeId, q: Packet, q': Packet)
    requires Bypasses(net, net', n) && SameLogs(handed, handed', n) && AllBlind(net)
    requires x in net.modules && Strip(q) == Strip(q')
    ensures SameLogs(Record(net, handed, x, q), Record(net', handed', x, q'), n)
    ensures StripOutcome(net.modules[x].Process(LogAt(handed, x), q)) ==
            StripOutcome(net'.modules[x].Process(LogAt(handed', x), q'))
  {
    BlindProcesses(net.modules[x], LogAt(handed, x), LogAt(handed', x), q, q');
    var h, h' := Record(net, handed, x, q), Record(net', handed', x, q');
    forall y | y != n ensures StripAll(LogAt(h, y)) == StripAll(LogAt(h', y)) {
      if y != x { assert LogAt(h, y) == LogAt(handed, y) && LogAt(h', y) == LogAt(handed', y); }
    }
  }

  /** Where a packet goes from one node, up to traces, with `n` and without. */
  lemma DecidesAlike(net: Net, net': Net, n: NodeId, x: NodeId, o: Outcome, o': Outcome)
    requires Bypasses(net, net', n) && x != n && StripOutcome(o) == StripOutcome(o')
    ensures var d, d' := Decide(net, x, o), Decide(net', x, o');
            && StripDecision(d) == StripDecision(Past(net', n, d'))
            && (d.Continue? ==> d.to != n)
            && (d'.Continue? && d'.to == n ==> d.Continue?)
  {
    assert Skips(net, net', n, x, o) && Skips(net, net', n, x, o');
    DecidesBlind(net, x, o, o');
  }

  lemma PathAfter(run: Run, x: NodeId, q: Packet, n: NodeId)
    ensures run.After([Hop(x, q)]).Path() == [x] + run.Path()
    ensures Without(run.After([Hop(x, q)]).Path(), n) == (if x == n then [] else [x]) + Without(run.Path(), n)
  {
    assert ([x] + run.Path())[1..] == run.Path();
    assert run.After([Hop(x, q)]).Path() == [x] + run.Path();
  }

  lemma AlikeOn(run: Run, run': Run, x: NodeId, q: Packet, q': Packet, n: NodeId)
    requires Alike(run, run', n) && x != n
    ensures Alike(run.After([Hop(x, q)]), run'.After([Hop(x, q')]), n)
  {
    PathAfter(run, x, q, n);
    PathAfter(run', x, q', n);
  }

  lemma AlikeIn(run: Run, run': Run, n: NodeId, s': Packet)
    requires Alike(run, run', n)
    ensures Alike(run, run'.After([Hop(n, s')]), n)
  {
    PathAfter(run', n, s', n);
  }

  /** The call at `n` itself is in nobody's way. */
  lemma BypassLogs(net': Net, h: Logs, h': Logs, n: NodeId, s': Packet)
    requires SameLogs(h, h', n) && n in net'.modules
    ensures SameLogs(h, Record(net', h', n, s'), n)
  {
    forall y | y != n ensures StripAll(LogAt(h, y)) == StripAll(LogAt(Record(net', h', n, s'), y)) {
      assert LogAt(Record(net', h', n, s'), y) == LogAt(h', y);
    }
  }

  /** The call at `n`: one more hop, which changes nothing but the trace. */
  lemma ThroughBypass(net: Net, net': Net, n: NodeId, t: NodeId, handed': Logs, p': Packet, fuel': nat)
    requires Bypasses(net, net', n) && fuel' > 0
    requires Decide(net', n, Forward(p')).Continue? && Decide(net', n, Forward(p')).to == t
    ensures var q' := p'.RecordHop(n);
            Walk(net', handed', n, p', fuel') ==
            Walk(net', Record(net', handed', n, q'), t, q', fuel' - 1).After([Hop(n, q')])
  {
    var q' := p'.RecordHop(n);
    HopsAreTrace(p', n);
    DecidesBlind(net', n, Forward(p'), Forward(q'));
    assert PassesAll(net'.modules[n]);
  }

  /** Every run that ends ends the same where `n` is skipped; with `n` it makes at most twice the calls. */
  lemma {:induction false} BypassedRun(
    net: Net, net': Net, n: NodeId, handed: Logs, handed': Logs,
    x: NodeId, p: Packet, p': Packet, fuel: nat, fuel': nat)
    requires Bypasses(net, net', n) && AllBlind(net) && SameLogs(handed, handed', n)
    requires x != n && Strip(p) == Strip(p') && fuel' >= 2 * fuel
    requires !Walk(net, handed, x, p, fuel).ending.StillRunning?
    ensures Alike(Walk(net, handed, x, p, fuel), Walk(net', handed', x, p', fuel'), n)
    decreases fuel, 0
  {
    RefusesAlike(net, net', n, x, p, p');
    if Refused(net, x, p).None? {
      var q, q' := p.RecordHop(x), p'.RecordHop(x);
      HopsAreTrace(p, x);
      HopsAreTrace(p', x);
      RecordsAlike(net, net', n, handed, handed', x, q, q');
      var o, o' := net.modules[x].Process(LogAt(handed, x), q), net'.modules[x].Process(LogAt(handed', x), q');
      DecidesAlike(net, net', n, x, o, o');
      var h, h' := Record(net, handed, x, q), Record(net', handed', x, q');
      match Decide(net, x, o)
      case Stop(_) =>
        assert [x][1..] == [] && Walk(net, handed, x, p, fuel).Path() == [x];
        assert Walk(net', handed', x, p', fuel').Path() == [x];
      case Continue(to, next) =>
        var d' := Decide(net', x, o');
        GoesOn(net, net', n, h, h', to, next, d', fuel, fuel');
        AlikeOn(Walk(net, h, to, next, fuel - 1), Walk(net', h', d'.to, d'.packet, fuel' - 1), x, q, q', n);
    } else {
      assert Walk(net', handed', x, p', fuel').Path() == [] == Walk(net, handed, x, p, fuel).Path();
    }
  }

  lemma LandsOn(net': Net, n: NodeId, to: NodeId, next: Packet, d': Decision)
    requires d'.Continue? && to != n && StripDecision(Continue(to, next)) == StripDecision(Past(net', n, d'))
    ensures Strip(next) == Strip(d'.packet)
    ensures if d'.to == n then Decide(net', n, Forward(d'.packet)) == Continue(to, d'.packet) else d'.to == to
  {
  }

  lemma {:induction false} GoesOn(
    net: Net, net': Net, n: NodeId, h: Logs, h': Logs, to: NodeId, next: Packet, d': Decision, fuel: nat, fuel': nat)
    requires Bypasses(net, net', n) && AllBlind(net) && SameLogs(h, h', n)
    requires to != n && d'.Continue? && fuel > 0 && fuel' >= 2 * fuel
    requires StripDecision(Continue(to, next)) == StripDecision(Past(net', n, d'))
    requires !Walk(net, h, to, next, fuel - 1).ending.StillRunning?
    ensures Alike(Walk(net, h, to, next, fuel - 1), Walk(net', h', d'.to, d'.packet, fuel' - 1), n)
    decreases fuel - 1, 2
  {
    LandsOn(net', n, to, next, d');
    if d'.to == n {
      GoesThrough(net, net', n, h, h', to, next, d'.packet, fuel, fuel');
    } else {
      BypassedRun(net, net', n, h, h', to, next, d'.packet, fuel - 1, fuel' - 1);
    }
  }

  lemma {:induction false} GoesThrough(
    net: Net, net': Net, n: NodeId, h: Logs, h': Logs, to: NodeId, next: Packet, next': Packet, fuel: nat, fuel': nat)
    requires Bypasses(net, net', n) && AllBlind(net) && SameLogs(h, h', n)
    requires to != n && fuel > 0 && fuel' >= 2 * fuel && Strip(next) == Strip(next')
    requires Decide(net', n, Forward(next')) == Continue(to, next')
    requires !Walk(net, h, to, next, fuel - 1).ending.StillRunning?
    ensures Alike(Walk(net, h, to, next, fuel - 1), Walk(net', h', n, next', fuel' - 1), n)
    decreases fuel - 1, 1
  {
    var s' := next'.RecordHop(n);
    HopsAreTrace(next', n);
    ThroughBypass(net, net', n, to, h', next', fuel' - 1);
    BypassLogs(net', h, h', n, s');
    BypassedRun(net, net', n, h, Record(net', h', n, s'), to, next, s', fuel - 1, fuel' - 2);
    AlikeIn(Walk(net, h, to, next, fuel - 1), Walk(net', Record(net', h', n, s'), to, s', fuel' - 2), n, s');
  }

  // ----- Inserting --------------------------------------------------------

  /** `n` comes right after `a` and nowhere else, and after every `a` that goes on. */
  ghost predicate Woven(path': seq<NodeId>, a: NodeId, n: NodeId) {
    && (forall i :: 0 <= i < |path'| && path'[i] == n ==> i > 0 && path'[i - 1] == a)
    && (forall i :: 0 < i < |path'| && path'[i - 1] == a ==> path'[i] == n)
  }

  /** The network after `m` went in as node `n` after `a`. */
  ghost predicate Inserted(net: Net, net': Net, g: Graph, a: NodeId, n: NodeId, m: Module) {
    && Splices(g, a, n) && Runs(net, g) && Runs(net', g.InsertAfter(a, n, m.nodeType).0)
    && net'.modules == net.modules[n := m]
  }

  lemma InsertBypasses(net: Net, net': Net, g: Graph, a: NodeId, n: NodeId, m: Module)
    requires Inserted(net, net', g, a, n, m) && Targets(g.edges, a) != [] && !m.nodeType.Sink? && PassesAll(m)
    ensures Bypasses(net, net', n)
  {
    forall x, o | x != n ensures Skips(net, net', n, x, o) {
      if o.Forward? {
        InsertKeepsRouting(net, net', g, a, n, m.nodeType, x, o.packet);
        InsertKeepsRouting(net, net', g, a, n, m.nodeType, n, o.packet);
        if Decide(net, x, o).Continue? {
          var k := AcceptingFirst(net.edges, x, o.packet);
          assert net.edges[k] in net.edges;
        }
      }
    }
  }

  /** The only way into `n` is from `a`, and from `a` there is no other way. */
  lemma InsertLinks(g: Graph, a: NodeId, n: NodeId, kind: NodeType, x: NodeId, y: NodeId)
    requires Splices(g, a, n) && Targets(g.edges, a) != []
    ensures var g' := g.InsertAfter(a, n, kind).0;
            && g'.Links() == Spliced(g.Links(), a, n, Targets(g.edges, a)[0])
            && (a, Targets(g.edges, a)[0]) in g.Links()
            && ((x, y) in g'.Links() ==> (y == n <==> x == a))
  {
    var free := g.(allowed := {});
    InsertedLinks(free, a, n, kind);
    assert g.InsertAfter(a, n, kind).0.edges == free.InsertAfter(a, n, kind).0.edges;
    FreshIsUnlinked(g, n);
    TargetsLink(g, a, y);
    var t := Targets(g.edges, a)[0];
    assert Targets(g.edges, a) == [t];
    if (x, y) in g.Links() { assert (x, y).1 != n; }
  }

  /**
   A node that passes everything on goes into an edge. Every execution that ends ends as before, with
   the same packets at all other modules and the same path, except that `n` comes after every `a` the
   packet left; packets the cut edge refused still stop at `a`.
   */
  lemma InsertKeepsRuns(
    net: Net, net': Net, g: Graph, a: NodeId, n: NodeId, m: Module,
    handed: Logs, entry: NodeId, p: Packet, fuel: nat, fuel': nat)
    requires Inserted(net, net', g, a, n, m) && Targets(g.edges, a) != [] && !m.nodeType.Sink? && PassesAll(m)
    requires AllBlind(net) && entry != n && fuel' >= 2 * fuel
    requires !Execute(net, handed, entry, p, fuel).ending.StillRunning?
    ensures var run, run' := Execute(net, handed, entry, p, fuel), Execute(net', handed, entry, p, fuel');
            && StripEnding(run'.ending) == StripEnding(run.ending)
            && Without(run'.Path(), n) == run.Path() && Woven(run'.Path(), a, n)
            && SameLogs(run.handed, run'.handed, n)
  {
    assert entry in net.entries <==> entry in net'.entries;
    if entry in net.entries {
      InsertBypasses(net, net', g, a, n, m);
      BypassedRun(net, net', n, handed, handed, entry, p, p, fuel, fuel');
      var run' := Walk(net', handed, entry, p, fuel');
      PathIsWalk(net', handed, entry, p, fuel');
      StartsAtEntry(net', handed, entry, p, fuel');
      var path' := run'.Path();
      forall i | 0 < i < |path'| ensures path'[i] == n <==> path'[i - 1] == a {
        InsertLinks(g, a, n, m.nodeType, path'[i - 1], path'[i]);
        assert (path'[i - 1], path'[i - 1 + 1]) in net'.Links();
      }
    }
  }

  lemma StartsAtEntry(net: Net, handed: Logs, entry: NodeId, p: Packet, fuel: nat)
    ensures var path := Walk(net, handed, entry, p, fuel).Path();
            path != [] ==> path[0] == entry
  {
  }

  // ----- Removing ---------------------------------------------------------

  /** The network after `n` went and its neighbours were bridged. */
  ghost predicate Removed(net: Net, net': Net, g: Graph, n: NodeId) {
    && g.WellFormed() && n in g.nodes && g.RemoveAndReconnect(n).1.Ok?
    && Runs(net, g) && Runs(net', g.RemoveAndReconnect(n).0)
    && net'.modules == net.modules - {n}
  }

  lemma RemovalBypasses(net: Net, net': Net, g: Graph, n: NodeId)
    requires Removed(net, net', g, n) && n !in g.exits && Targets(g.edges, n) != [] && PassesAll(net.modules[n])
    requires forall x, p :: (x, n) in g.Links() && x !in g.exits ==> Settled(g.edges, x, p, n)
    ensures Bypasses(net', net, n)
  {
    RemovedEdges(g, n);
    forall x, o | x != n ensures Skips(net', net, n, x, o) {
      if o.Forward? { RemovalSkips(net, net', g, n, x, o.packet); }
    }
  }

  lemma RemovalSkips(net: Net, net': Net, g: Graph, n: NodeId, x: NodeId, p: Packet)
    requires Removed(net, net', g, n) && n !in g.exits && Targets(g.edges, n) != [] && x != n
    requires (x, n) in g.Links() && x !in g.exits ==> Settled(g.edges, x, p, n)
    ensures Skips(net', net, n, x, Forward(p))
  {
    RemovedEdges(g, n);
    WithoutIn(g.exits, n, x);
    TargetsLink(g, n, Targets(g.edges, n)[0]);
    if x !in g.exits {
      var k := RemovalRoutes(net, net', g, n, x, p);
      if (x, n) in g.Links() {
        RemovalKeepsStepExactlyWhen(net, net', g, n, x, p);
      } else {
        RemovalKeepsOthers(net, net', g, n, x, p);
        var i := AcceptingFirst(g.edges, x, p);
        if Accepting(g.edges, x, p) != [] {
          assert g.edges[i].Link() == (x, g.edges[i].to);
        }
      }
    }
  }

  /**
   A node that passes everything on is removed. If each of its predecessors would have sent every
   packet where its edges now send it, every execution that ends ends as before, with the same packets
   at all other modules and the same path without `n`.
   */
  lemma RemovalKeepsRuns(
    net: Net, net': Net, g: Graph, n: NodeId, handed: Logs, entry: NodeId, p: Packet, fuel: nat, fuel': nat)
    requires Removed(net, net', g, n) && n !in g.exits && Targets(g.edges, n) != [] && PassesAll(net.modules[n])
    requires forall x, q :: (x, n) in g.Links() && x !in g.exits ==> Settled(g.edges, x, q, n)
    requires AllBlind(net') && entry != n && fuel >= 2 * fuel'
    requires !Execute(net', handed, entry, p, fuel').ending.StillRunning?
    ensures Alike(Execute(net', handed, entry, p, fuel'), Execute(net, handed, entry, p, fuel), n)
  {
    WithoutIn(g.entries, n, entry);
    RemovedEdges(g, n);
    if entry in net.entries {
      RemovalBypasses(net, net', g, n);
      BypassedRun(net', net, n, handed, handed, entry, p, p, fuel', fuel);
    } else {
      assert Execute(net', handed, entry, p, fuel').Path() == [];
      assert Execute(net, handed, entry, p, fuel).Path() == [];
    }
  }

  /** A straight stretch of unconditioned edges satisfies the guard for every packet. */
  lemma StraightIsSettled(edges: seq<Edge>, x: NodeId, p: Packet, n: NodeId, t: NodeId)
    requires Targets(edges, x) == [n] && Targets(edges, n) == [t]
    requires forall e :: e in edges && (e.from == x || e.from == n) ==> e.condition.None?
    ensures Settled(edges, x, p, n)
  {
    AcceptingPlain(edges, x, p);
    AcceptingPlain(edges, n, p);
    forall k: nat | k < |edges| ensures !Avoids(edges[k], x, p, n) {
      TargetsIn(edges, x, edges[k].to);
      assert edges[k].from == x ==> edges[k].Link() == (x, edges[k].to);
    }
  }

  lemma {:induction false} AcceptingPlain(edges: seq<Edge>, x: NodeId, p: Packet)
    requires forall e :: e in edges && e.from == x ==> e.condition.None?
    ensures |Accepting(edges, x, p)| == |Targets(edges, x)|
    ensures forall i :: 0 <= i < |Targets(edges, x)| ==> Accepting(edges, x, p)[i].to == Targets(edges, x)[i]
  {
    if edges != [] {
      assert edges[0] in edges;
      AcceptingPlain(edges[1..], x, p);
    }
  }
}
