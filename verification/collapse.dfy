/**
 Collapsing: the graph is replaced by one with at most one edge fewer than
 the number of people whose net flow is not zero, giving everyone the same
 net flow as before. Flows are computed, split into a creditor and a
 debtor list, each sorted by magnitude, settled greedily, and the
 resulting debts are added to a graph with the same people and no debts.
 */
module Collapsing {
  import opened Graphs
  import opened Flows
  import opened Settlement
  import opened Edits
  import opened Cancellation

  /** The net flow of every node, as `__get_nodes` returns it. */
  function FlowMap(g: Graph, order: seq<Name>): (r: map<Name, real>)
    ensures r.Keys == g.Keys
  {
    map p | p in g :: Flow(g, p, order)
  }

  /** A graph without debts has no flows. */
  lemma {:induction false} NoDebtsNoFlow(g: Graph, p: Name, s: seq<Name>)
    requires forall x :: x in g ==> g[x] == map[]
    ensures Flow(g, p, s) == 0.0
  {
    if s != [] {
      NoDebtsNoFlow(g, p, s[1..]);
    }
  }

  /** The members of a prefix of a sequence without repeats exclude the next one. */
  lemma PrefixExcludesNext(order: seq<Name>, i: nat)
    requires Distinct(order) && i < |order|
    ensures order[i] !in order[..i]
  {
    forall k | 0 <= k < i ensures order[..i][k] != order[i] {
      assert order[..i][k] == order[k];
    }
  }

  /** `flows` holds the net flow of every node of `g` in the graph `sub`. */
  ghost predicate Tracks(g: Graph, order: seq<Name>, sub: Graph, flows: map<Name, real>)
  {
    flows.Keys == g.Keys && sub.Keys == g.Keys && forall p :: p in g ==> flows[p] == Flow(sub, p, order)
  }

  /**
   `sub` holds the debts of `g` owed to the first `i` creditors of
   `order`, and those owed to creditor `order[i]` by the debtors `processed`.
   */
  ghost predicate Gathered(g: Graph, order: seq<Name>, i: nat, processed: set<Name>, sub: Graph)
    requires i < |order|
  {
    forall x, y :: Get(sub, x, y) ==
      if x in order[..i] || (x == order[i] && y in processed) then Get(g, x, y) else None
  }

  /** One turn of the inner loop of `__get_nodes`, taking the debt `p2` owes `order[i]`. */
  lemma NodeStep(g: Graph, order: seq<Name>, i: nat, processed: set<Name>, sub: Graph,
                 flows: map<Name, real>, p2: Name, sub': Graph, flows': map<Name, real>)
    requires WellFormed(g) && IsOrder(g, order) && i < |order|
    requires Tracks(g, order, sub, flows) && Gathered(g, order, i, processed, sub)
    requires p2 in g[order[i]] && p2 !in processed
    requires sub' == Credit(sub, order[i], p2, g[order[i]][p2])
    requires var f1 := flows[order[i] := flows[order[i]] + g[order[i]][p2]];
      flows' == f1[p2 := f1[p2] - g[order[i]][p2]]
    ensures Tracks(g, order, sub', flows') && Gathered(g, order, i, processed + {p2}, sub')
  {
    var p1 := order[i];
    var value := g[p1][p2];
    PrefixExcludesNext(order, i);
    assert Amount(sub, p1, p2) == 0.0 by {
      assert Get(sub, p1, p2) == None;
    }
    forall p | p in g
      ensures flows'[p] == Flow(sub', p, order)
    {
      FlowOneEdge(sub, sub', p1, p2, p, order);
    }
  }

  /** `sub` holds exactly the debts of `g` owed to the first `i` creditors of `order`. */
  ghost predicate Upto(g: Graph, order: seq<Name>, i: nat, sub: Graph)
    requires i <= |order|
  {
    forall x, y :: Get(sub, x, y) == if x in order[..i] then Get(g, x, y) else None
  }

  /** Starting creditor `order[i]`'s row. */
  lemma NodeRowStart(g: Graph, order: seq<Name>, i: nat, sub: Graph)
    requires i < |order| && Upto(g, order, i, sub)
    ensures Gathered(g, order, i, {}, sub)
  {
  }

  /** Finishing creditor `order[i]`'s row finishes the first `i + 1` creditors. */
  lemma NodeRowDone(g: Graph, order: seq<Name>, i: nat, sub: Graph)
    requires i < |order| && order[i] in g
    requires Gathered(g, order, i, g[order[i]].Keys, sub)
    ensures Upto(g, order, i + 1, sub)
  {
    assert order[..i + 1] == order[..i] + [order[i]];
  }

  /** Once every creditor is done, `sub` is the whole graph. */
  lemma NodesDone(g: Graph, order: seq<Name>, sub: Graph)
    requires IsOrder(g, order) && sub.Keys == g.Keys && Upto(g, order, |order|, sub)
    ensures sub == g
  {
    assert order[..|order|] == order;
    GraphExt(sub, g);
  }

  /** The inner loop of `__get_nodes`: the debts owed to creditor `order[i]`, in any order. */
  method RowFlows(g: Graph, order: seq<Name>, i: nat, flows: map<Name, real>, ghost sub: Graph)
    returns (flows': map<Name, real>, ghost sub': Graph)
    requires WellFormed(g) && IsOrder(g, order) && i < |order|
    requires Tracks(g, order, sub, flows) && Upto(g, order, i, sub)
    ensures Tracks(g, order, sub', flows') && Upto(g, order, i + 1, sub')
  {
    var p1 := order[i];
    flows', sub' := flows, sub;
    var row := g[p1].Keys;
    ghost var processed: set<Name> := {};
    NodeRowStart(g, order, i, sub);
    while row != {}
      invariant row <= g[p1].Keys && processed == g[p1].Keys - row
      invariant Tracks(g, order, sub', flows') && Gathered(g, order, i, processed, sub')
      decreases row
    {
      var p2 :| p2 in row;
      flows', sub' := DebtFlow(g, order, i, processed, flows', sub', p2);
      TakeOne(g[p1].Keys, row, p2);
      row := row - {p2};
      processed := processed + {p2};
    }
    NodeRowDone(g, order, i, sub');
  }

  /** The body of the inner loop of `__get_nodes` for the debt `p2` owes `order[i]`. */
  method DebtFlow(g: Graph, order: seq<Name>, i: nat, ghost processed: set<Name>,
                  flows: map<Name, real>, ghost sub: Graph, p2: Name)
    returns (flows': map<Name, real>, ghost sub': Graph)
    requires WellFormed(g) && IsOrder(g, order) && i < |order|
    requires Tracks(g, order, sub, flows) && Gathered(g, order, i, processed, sub)
    requires p2 in g[order[i]] && p2 !in processed
    ensures Tracks(g, order, sub', flows') && Gathered(g, order, i, processed + {p2}, sub')
  {
    var p1 := order[i];
    var value := g[p1][p2];
    sub' := Credit(sub, p1, p2, value);
    flows' := flows[p1 := flows[p1] + value];
    flows' := flows'[p2 := flows'[p2] - value];
    NodeStep(g, order, i, processed, sub, flows, p2, sub', flows');
  }

  /**
   `__get_nodes`: every node starts at zero, then each debt `value` owed
   by `p2` to `p1` adds `value` to `p1` and takes it from `p2`. Creditors
   are visited in `order` and each creditor's debtors in any order.
   */
  method NodeFlows(g: Graph, order: seq<Name>) returns (flows: map<Name, real>)
    requires WellFormed(g) && IsOrder(g, order)
    ensures flows == FlowMap(g, order)
  {
    flows := map p | p in g :: 0.0;
    ghost var sub := FromNames(order);
    forall p | p in g ensures Flow(sub, p, order) == 0.0 {
      NoDebtsNoFlow(sub, p, order);
    }
    var i := 0;
    while i < |order|
      invariant i <= |order|
      invariant Tracks(g, order, sub, flows) && Upto(g, order, i, sub)
    {
      flows, sub := RowFlows(g, order, i, flows, sub);
      i := i + 1;
    }
    NodesDone(g, order, sub);
  }

  /** Which side of the settlement a flow belongs to. */
  datatype Sign = Plus | Minus

  predicate HasSign(x: real, sign: Sign)
  {
    if sign == Plus then x > 0.0 else x < 0.0
  }

  /** The names of `es`, in their order, form a subsequence of `names`. */
  predicate InOrder(es: seq<Entry>, names: seq<Name>)
    decreases |names|
  {
    if es == [] then true
    else if names == [] then false
    else (es[0].name == names[0] && InOrder(es[1..], names[1..])) || InOrder(es, names[1..])
  }

  /**
   The `[person, flow]` entries of `names`, in that order, whose flow has
   the given sign: `pos_flows` for `Plus`, `neg_flows` for `Minus`.
   */
  function WithSign(flows: map<Name, real>, names: seq<Name>, sign: Sign): (r: seq<Entry>)
    requires forall i :: 0 <= i < |names| ==> names[i] in flows
    ensures forall i :: 0 <= i < |r| ==> HasSign(r[i].amount, sign)
    ensures forall i :: 0 <= i < |r| ==> r[i].name in flows && r[i].amount == flows[r[i].name]
    ensures InOrder(r, names)
    ensures forall n :: Named(r, n) <==> n in names && HasSign(flows[n], sign)
    ensures Distinct(names) ==>
      forall n :: Held(r, n) == if n in names && HasSign(flows[n], sign) then flows[n] else 0.0
  {
    if names == [] then []
    else
      var n := names[0];
      var rest := WithSign(flows, names[1..], sign);
      NamedCons(Entry(n, flows[n]), rest);
      assert ([Entry(n, flows[n])] + rest)[1..] == rest;
      assert forall m :: m in names <==> m == n || m in names[1..] by {
        assert names == [n] + names[1..];
      }
      assert Distinct(names) ==> Distinct(names[1..]) && n !in names[1..] by {
        if Distinct(names) {
          DistinctTail(names);
        }
      }
      if HasSign(flows[n], sign) then [Entry(n, flows[n])] + rest else rest
  }

  /** The number of people of `names` whose flow is not zero. */
  function NonZero(flows: map<Name, real>, names: seq<Name>): nat
    requires forall i :: 0 <= i < |names| ==> names[i] in flows
  {
    if names == [] then 0 else (if flows[names[0]] != 0.0 then 1 else 0) + NonZero(flows, names[1..])
  }

  /** The positive and the negative entries together are the people with a nonzero flow. */
  lemma {:induction false} SignedCount(flows: map<Name, real>, names: seq<Name>)
    requires forall i :: 0 <= i < |names| ==> names[i] in flows
    ensures |WithSign(flows, names, Plus)| + |WithSign(flows, names, Minus)| == NonZero(flows, names)
  {
    if names != [] {
      SignedCount(flows, names[1..]);
    }
  }

  /** The positive and negative totals add up to the sum of all flows. */
  lemma {:induction false} SignedTotals(g: Graph, flows: map<Name, real>, names: seq<Name>, s: seq<Name>)
    requires forall i :: 0 <= i < |names| ==> names[i] in flows && flows[names[i]] == Flow(g, names[i], s)
    ensures Total(WithSign(flows, names, Plus)) + Total(WithSign(flows, names, Minus)) == FlowSum(g, names, s)
  {
    if names != [] {
      SignedTotals(g, flows, names[1..], s);
    }
  }

  /**
   `pos_flows` (for `Plus`) or `neg_flows` (for `Minus`) once sorted: the
   entries of that sign by decreasing magnitude, equal ones in list order.
   */
  function Sorted(flows: map<Name, real>, names: seq<Name>, sign: Sign): (r: seq<Entry>)
    requires forall i :: 0 <= i < |names| ==> names[i] in flows
    ensures sign == Plus ==> AllPositive(r)
    ensures sign == Minus ==> AllNegative(r)
    ensures Descending(r)
    ensures forall n :: Named(r, n) <==> n in names && HasSign(flows[n], sign)
    ensures |r| == |WithSign(flows, names, sign)|
    ensures Total(r) == Total(WithSign(flows, names, sign))
    ensures Distinct(names) ==>
      forall n :: Held(r, n) == if n in names && HasSign(flows[n], sign) then flows[n] else 0.0
  {
    var s := WithSign(flows, names, sign);
    SortKeepsEntries(s);
    SortKeepsHeld(s, "");
    assert forall n :: Held(SortByMagnitude(s), n) == Held(s, n) by {
      forall n ensures Held(SortByMagnitude(s), n) == Held(s, n) {
        SortKeepsHeld(s, n);
      }
    }
    SortByMagnitude(s)
  }

  /** The settlement of the sorted positive and negative flows. */
  function Settled(flows: map<Name, real>, names: seq<Name>): (r: State)
    requires forall i :: 0 <= i < |names| ==> names[i] in flows
    ensures forall e :: e in r.edges ==> e.creditor in names && e.debtor in names
    ensures forall e :: e in r.edges ==> e.amount > 0.0
    ensures forall e :: e in r.edges ==> flows[e.creditor] > 0.0 && flows[e.debtor] < 0.0
  {
    Settle(Sorted(flows, names, Plus), Sorted(flows, names, Minus))
  }

  /** Every debt of `es` runs between two people of `g`. */
  ghost predicate Among(es: seq<Edge>, g: Graph)
  {
    forall e :: e in es ==> e.creditor in g && e.debtor in g
  }

  /**
   Adds the debts `es` one after another, each as a single-debtor `add`
   (whose creditor and debtor are both nodes).
   */
  function Build(g: Graph, es: seq<Edge>): (r: Graph)
    requires Among(es, g)
    ensures r.Keys == g.Keys
    ensures WellFormed(g) ==> WellFormed(r)
  {
    if es == [] then g
    else
      assert es[0] in es;
      Build(Credit(g, es[0].creditor, es[0].debtor, es[0].amount), es[1..])
  }

  /** Some debt of `es` runs from `x` to `y`. */
  predicate Links(es: seq<Edge>, x: Name, y: Name)
  {
    exists i :: 0 <= i < |es| && es[i].creditor == x && es[i].debtor == y
  }

  /** Every debt in `g` is a positive amount. */
  ghost predicate PositiveEdges(g: Graph)
  {
    forall x, y :: Get(g, x, y).Some? ==> Get(g, x, y).value > 0.0
  }

  /** Every edge of a built graph was in the start graph or is one of the debts `es`. */
  lemma {:induction false} BuildLinks(g: Graph, es: seq<Edge>)
    requires Among(es, g)
    ensures forall x, y :: Get(Build(g, es), x, y).Some? ==> Get(g, x, y).Some? || Links(es, x, y)
  {
    if es != [] {
      var e := es[0];
      assert e in es;
      var g' := Credit(g, e.creditor, e.debtor, e.amount);
      BuildLinks(g', es[1..]);
      forall x, y | Links(es[1..], x, y) ensures Links(es, x, y) {
        var k :| 0 <= k < |es[1..]| && es[1..][k].creditor == x && es[1..][k].debtor == y;
        assert es[k + 1] == es[1..][k];
      }
      assert Links(es, e.creditor, e.debtor);
    }
  }

  /** Adding positive debts to a graph of positive debts keeps every debt positive. */
  lemma {:induction false} BuildPositive(g: Graph, es: seq<Edge>)
    requires Among(es, g) && PositiveEdges(g)
    requires forall e :: e in es ==> e.amount > 0.0
    ensures PositiveEdges(Build(g, es))
  {
    if es != [] {
      var e := es[0];
      assert e in es;
      var g' := Credit(g, e.creditor, e.debtor, e.amount);
      assert Amount(g, e.creditor, e.debtor) >= 0.0 by {
        assert Get(g, e.creditor, e.debtor).Some? ==> Get(g, e.creditor, e.debtor).value > 0.0;
      }
      assert PositiveEdges(g');
      BuildPositive(g', es[1..]);
    }
  }

  /** Adding the debts `es` moves exactly their flows. */
  lemma {:induction false} BuildFlow(g: Graph, es: seq<Edge>, p: Name, s: seq<Name>)
    requires Distinct(s) && Among(es, g)
    requires forall e :: e in es ==> e.creditor in s && e.debtor in s
    ensures Flow(Build(g, es), p, s) == Flow(g, p, s) + EdgeFlow(es, p)
  {
    if es != [] {
      var e := es[0];
      assert e in es;
      var g' := Credit(g, e.creditor, e.debtor, e.amount);
      FlowOneEdge(g, g', e.creditor, e.debtor, p, s);
      BuildFlow(g', es[1..], p, s);
    }
  }

  /** The number of debts owed to the people `s`. */
  function EdgeCount(g: Graph, s: seq<Name>): nat
  {
    if s == [] then 0 else (if s[0] in g then |g[s[0]]| else 0) + EdgeCount(g, s[1..])
  }

  /** A graph without debts counts no debts. */
  lemma {:induction false} NoDebtsNoEdges(g: Graph, s: seq<Name>)
    requires forall x :: x in g ==> g[x] == map[]
    ensures EdgeCount(g, s) == 0
  {
    if s != [] {
      NoDebtsNoEdges(g, s[1..]);
    }
  }

  /** One `add` creates at most one debt. */
  lemma {:induction false} CreditCount(g: Graph, c: Name, d: Name, a: real, s: seq<Name>)
    requires c in g && Distinct(s)
    ensures EdgeCount(Credit(g, c, d, a), s) <= EdgeCount(g, s) + (if c in s then 1 else 0)
  {
    if s != [] {
      DistinctTail(s);
      CreditCount(g, c, d, a, s[1..]);
      if s[0] == c {
        var row := g[c][d := if d in g[c] then g[c][d] + a else a];
        assert row.Keys == g[c].Keys + {d};
        assert |row.Keys| <= |g[c].Keys| + |{d}|;
      }
    }
  }

  /** Adding the debts `es` creates at most `|es|` debts. */
  lemma {:induction false} BuildCount(g: Graph, es: seq<Edge>, s: seq<Name>)
    requires Among(es, g)
    requires Distinct(s)
    ensures EdgeCount(Build(g, es), s) <= EdgeCount(g, s) + |es|
  {
    if es != [] {
      assert es[0] in es;
      CreditCount(g, es[0].creditor, es[0].debtor, es[0].amount, s);
      BuildCount(Credit(g, es[0].creditor, es[0].debtor, es[0].amount), es[1..], s);
    }
  }

  /**
   `collapse`: the settlement of the flows, added to a graph with the same
   people and no debts. It depends on `g` only through the flows.
   */
  function Collapsed(g: Graph, order: seq<Name>): (r: Graph)
    requires WellFormed(g) && IsOrder(g, order)
    ensures r.Keys == g.Keys
    ensures WellFormed(r)
  {
    var flows := FlowMap(g, order);
    var st := Settled(flows, order);
    Build(FromNames(order), st.edges)
  }

  /** When the flows sum to zero, the settlement uses up both lists. */
  lemma SettledExhausts(g: Graph, order: seq<Name>)
    requires IsOrder(g, order)
    ensures Settled(FlowMap(g, order), order).pos == [] && Settled(FlowMap(g, order), order).neg == []
  {
    var flows := FlowMap(g, order);
    SignedTotals(g, flows, order, order);
    FlowsSumToZero(g, order);
    SettleExhausts(Sorted(flows, order, Plus), Sorted(flows, order, Minus));
  }

  /** What the settlement's debts give each person is what the lists held for them. */
  lemma SettledFlow(flows: map<Name, real>, names: seq<Name>, p: Name)
    requires forall i :: 0 <= i < |names| ==> names[i] in flows
    requires Distinct(names)
    ensures var st := Settled(flows, names);
      st.pos == [] && st.neg == [] ==> EdgeFlow(st.edges, p) == if p in names then flows[p] else 0.0
  {
    SettleKeepsFlow(Sorted(flows, names, Plus), Sorted(flows, names, Minus), p);
  }

  /** Collapsing changes nobody's net flow. */
  lemma CollapseKeepsFlow(g: Graph, order: seq<Name>)
    requires WellFormed(g) && IsOrder(g, order)
    ensures forall p :: p in g ==> Flow(Collapsed(g, order), p, order) == Flow(g, p, order)
  {
    var flows := FlowMap(g, order);
    var st := Settled(flows, order);
    SettledExhausts(g, order);
    forall p | p in g ensures Flow(Collapsed(g, order), p, order) == Flow(g, p, order) {
      SettledFlow(flows, order, p);
      BuildFlow(FromNames(order), st.edges, p, order);
      NoDebtsNoFlow(FromNames(order), p, order);
    }
  }

  /**
   Every debt of the collapsed graph is a positive amount owed by someone
   with a negative flow to someone with a positive flow; in particular
   people whose flow is zero owe and are owed nothing.
   */
  lemma CollapseEdges(g: Graph, order: seq<Name>)
    requires WellFormed(g) && IsOrder(g, order)
    ensures forall x, y :: Get(Collapsed(g, order), x, y).Some? ==>
      Flow(g, x, order) > 0.0 && Flow(g, y, order) < 0.0 && Get(Collapsed(g, order), x, y).value > 0.0
    ensures forall p, y :: Flow(g, p, order) == 0.0 ==>
      Get(Collapsed(g, order), p, y) == None && Get(Collapsed(g, order), y, p) == None
  {
    forall x, y | Get(Collapsed(g, order), x, y).Some?
      ensures Flow(g, x, order) > 0.0 && Flow(g, y, order) < 0.0 && Get(Collapsed(g, order), x, y).value > 0.0
    {
      CollapseEdge(g, order, x, y);
    }
  }

  /** Every debt of the collapsed graph is positive and comes from the settlement. */
  lemma CollapsedDebts(g: Graph, order: seq<Name>)
    requires WellFormed(g) && IsOrder(g, order)
    ensures PositiveEdges(Collapsed(g, order))
    ensures forall x, y :: Get(Collapsed(g, order), x, y).Some? ==> Links(Settled(FlowMap(g, order), order).edges, x, y)
  {
    var st := Settled(FlowMap(g, order), order);
    var empty := FromNames(order);
    var r := Build(empty, st.edges);
    assert Collapsed(g, order) == r;
    assert PositiveEdges(empty) by {
      forall a, b ensures Get(empty, a, b) == None {
      }
    }
    assert PositiveEdges(r) by {
      BuildPositive(empty, st.edges);
    }
    assert forall x, y :: Get(r, x, y).Some? ==> Links(st.edges, x, y) by {
      BuildLinks(empty, st.edges);
    }
  }

  /** One debt of the collapsed graph. */
  lemma CollapseEdge(g: Graph, order: seq<Name>, x: Name, y: Name)
    requires WellFormed(g) && IsOrder(g, order)
    requires Get(Collapsed(g, order), x, y).Some?
    ensures Flow(g, x, order) > 0.0 && Flow(g, y, order) < 0.0 && Get(Collapsed(g, order), x, y).value > 0.0
  {
    var flows := FlowMap(g, order);
    var st := Settled(flows, order);
    CollapsedDebts(g, order);
    assert Links(st.edges, x, y);
    var k :| 0 <= k < |st.edges| && st.edges[k].creditor == x && st.edges[k].debtor == y;
    assert st.edges[k] in st.edges;
  }

  /**
   The collapsed graph has fewer debts than there are people with a
   nonzero flow, and none when everyone's flow is zero.
   */
  lemma CollapseEdgeCount(g: Graph, order: seq<Name>)
    requires WellFormed(g) && IsOrder(g, order)
    ensures var k := NonZero(FlowMap(g, order), order);
      EdgeCount(Collapsed(g, order), order) <= if k > 0 then k - 1 else 0
  {
    var flows := FlowMap(g, order);
    var st := Settled(flows, order);
    SignedCount(flows, order);
    BuildCount(FromNames(order), st.edges, order);
    NoDebtsNoEdges(FromNames(order), order);
  }

  /** Collapsing sees a graph only through its flows. */
  lemma CollapsedByFlows(g1: Graph, g2: Graph, order: seq<Name>)
    requires WellFormed(g1) && IsOrder(g1, order)
    requires WellFormed(g2) && IsOrder(g2, order)
    requires forall p :: p in g1 ==> Flow(g1, p, order) == Flow(g2, p, order)
    ensures Collapsed(g1, order) == Collapsed(g2, order)
  {
    assert FlowMap(g1, order) == FlowMap(g2, order);
  }

  /** Collapsing a collapsed graph changes nothing. */
  lemma CollapseIdempotent(g: Graph, order: seq<Name>)
    requires WellFormed(g) && IsOrder(g, order)
    ensures Collapsed(Collapsed(g, order), order) == Collapsed(g, order)
  {
    CollapseKeepsFlow(g, order);
    CollapsedByFlows(Collapsed(g, order), g, order);
  }

  /** Cancelling first does not change what collapsing gives. */
  lemma CollapseAfterCancel(g: Graph, order: seq<Name>)
    requires WellFormed(g) && IsOrder(g, order)
    ensures Collapsed(Cancelled(g, order), order) == Collapsed(g, order)
  {
    forall p | p in g ensures Flow(Cancelled(g, order), p, order) == Flow(g, p, order) {
      CancelKeepsFlow(g, order, p, order);
    }
    CollapsedByFlows(Cancelled(g, order), g, order);
  }

  /** Adding one debt and then the rest. */
  lemma BuildCons(g: Graph, e: Edge, es: seq<Edge>)
    requires e.creditor in g && e.debtor in g && Among(es, g)
    ensures Among([e] + es, g)
    ensures Build(g, [e] + es) == Build(Credit(g, e.creditor, e.debtor, e.amount), es)
  {
    assert ([e] + es)[0] == e && ([e] + es)[1..] == es;
  }

  /** Every person named in `s` is a node of `g`. */
  ghost predicate Within(s: seq<Entry>, g: Graph)
  {
    forall n :: Named(s, n) ==> n in g
  }

  /** The settlement of lists of nodes adds debts between nodes. */
  lemma SettleAmong(pos: seq<Entry>, neg: seq<Entry>, g: Graph)
    requires Within(pos, g) && Within(neg, g)
    ensures Among(Settle(pos, neg).edges, g)
  {
  }

  /**
   One turn of the `while` loop of `collapse`: the head debtor owes the
   head creditor the smaller magnitude, added with a single-debtor `add`;
   the settled head is popped and the other head keeps the remainder.
   */
  method SettleStep(r: Graph, pos: seq<Entry>, neg: seq<Entry>) returns (r': Graph, pos': seq<Entry>, neg': seq<Entry>)
    requires pos != [] && neg != [] && Within(pos, r) && Within(neg, r)
    ensures r'.Keys == r.Keys && Within(pos', r') && Within(neg', r')
    ensures |pos'| + |neg'| < |pos| + |neg|
    ensures Among(Settle(pos, neg).edges, r) && Among(Settle(pos', neg').edges, r')
    ensures Build(r', Settle(pos', neg').edges) == Build(r, Settle(pos, neg).edges)
  {
    var credit := pos[0].amount;
    var debit := neg[0].amount;
    var creditor := pos[0].name;
    var debtor := neg[0].name;
    assert creditor in r && debtor in r by {
      assert Named(pos, creditor) && Named(neg, debtor);
    }
    NamedTail(pos);
    NamedTail(neg);
    var amount: real;
    if Abs(credit) == Abs(debit) {
      amount, pos', neg' := credit, pos[1..], neg[1..];
    } else if Abs(credit) < Abs(debit) {
      amount, pos', neg' := credit, pos[1..], [Entry(debtor, debit + credit)] + neg[1..];
      NamedHead(neg, neg');
    } else {
      amount, pos', neg' := Abs(debit), [Entry(creditor, credit + debit)] + pos[1..], neg[1..];
      NamedHead(pos, pos');
    }
    var rest := Settle(pos', neg').edges;
    assert Settle(pos, neg).edges == [Edge(creditor, debtor, amount)] + rest;
    SettleAmong(pos', neg', r);
    BuildCons(r, Edge(creditor, debtor, amount), rest);
    var added := AddSingle(r, creditor, debtor, amount);
    r' := added.value;
    SettleAmong(pos', neg', r');
  }

  /**
   The `while` loop of `collapse`: settles the heads of the two lists
   until one of them is empty.
   */
  method SettleInto(r0: Graph, pos0: seq<Entry>, neg0: seq<Entry>) returns (r: Graph)
    requires Within(pos0, r0) && Within(neg0, r0)
    ensures Among(Settle(pos0, neg0).edges, r0)
    ensures r == Build(r0, Settle(pos0, neg0).edges)
  {
    SettleAmong(pos0, neg0, r0);
    r := r0;
    var pos, neg := pos0, neg0;
    while pos != [] && neg != []
      invariant Within(pos, r) && Within(neg, r) && Among(Settle(pos, neg).edges, r)
      invariant Build(r, Settle(pos, neg).edges) == Build(r0, Settle(pos0, neg0).edges)
      decreases |pos| + |neg|
    {
      r, pos, neg := SettleStep(r, pos, neg);
    }
  }

  /**
   `collapse` as the source runs it: flows from `NodeFlows`, the two
   sorted lists, a graph with the same people and no debts, then the
   settlement loop.
   */
  method Collapse(g: Graph, order: seq<Name>) returns (r: Graph)
    requires WellFormed(g) && IsOrder(g, order)
    ensures r == Collapsed(g, order)
    ensures r.Keys == g.Keys
    ensures forall p :: p in g ==> Flow(r, p, order) == Flow(g, p, order)
  {
    var flows := NodeFlows(g, order);
    var pos := Sorted(flows, order, Plus);
    var neg := Sorted(flows, order, Minus);
    r := FromNames(order);
    r := SettleInto(r, pos, neg);
    assert r == Collapsed(g, order);
    CollapseKeepsFlow(g, order);
  }

  /** `cleanup`: `cancel`, then `collapse`. */
  method Cleanup(g: Graph, order: seq<Name>) returns (r: Graph)
    requires WellFormed(g) && IsOrder(g, order)
    ensures r == Collapsed(g, order)
    ensures r.Keys == g.Keys
    ensures forall p :: p in g ==> Flow(r, p, order) == Flow(g, p, order)
  {
    var cancelled := Cancel(g, order);
    r := Collapse(cancelled, order);
    CollapseAfterCancel(g, order);
  }
}
