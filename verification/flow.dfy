/**
 Net flow: what a person is owed minus what they owe. The graph is summed
 over a sequence of participants; when the sequence lists every node once
 and the graph is well formed, this is the per-person total the source
 accumulates edge by edge.
 */
module Flows {
  import opened Graphs

  /** The net flow between `p` and one other participant `x`. */
  function Between(g: Graph, p: Name, x: Name): real
  {
    Amount(g, p, x) - Amount(g, x, p)
  }

  /** `p`'s net flow, counted over the participants `s`. */
  function Flow(g: Graph, p: Name, s: seq<Name>): real
  {
    if s == [] then 0.0 else Between(g, p, s[0]) + Flow(g, p, s[1..])
  }

  /** What the participants `s` owe `p`. */
  function Owed(g: Graph, p: Name, s: seq<Name>): real
  {
    if s == [] then 0.0 else Amount(g, p, s[0]) + Owed(g, p, s[1..])
  }

  /** What `p` owes the participants `s`. */
  function Owes(g: Graph, p: Name, s: seq<Name>): real
  {
    if s == [] then 0.0 else Amount(g, s[0], p) + Owes(g, p, s[1..])
  }

  /** The flows of the people `ps`, each counted over the participants `s`. */
  function FlowSum(g: Graph, ps: seq<Name>, s: seq<Name>): real
  {
    if ps == [] then 0.0 else Flow(g, ps[0], s) + FlowSum(g, ps[1..], s)
  }

  /** Everything owed to the people `ps` by the participants `s`. */
  function OwedSum(g: Graph, ps: seq<Name>, s: seq<Name>): real
  {
    if ps == [] then 0.0 else Owed(g, ps[0], s) + OwedSum(g, ps[1..], s)
  }

  /** Everything the people `ps` owe the participants `s`. */
  function OwesSum(g: Graph, ps: seq<Name>, s: seq<Name>): real
  {
    if ps == [] then 0.0 else Owes(g, ps[0], s) + OwesSum(g, ps[1..], s)
  }

  /** A flow is what one is owed minus what one owes. */
  lemma {:induction false} FlowIsOwedMinusOwes(g: Graph, p: Name, s: seq<Name>)
    ensures Flow(g, p, s) == Owed(g, p, s) - Owes(g, p, s)
  {
    if s != [] {
      FlowIsOwedMinusOwes(g, p, s[1..]);
    }
  }

  lemma {:induction false} FlowSumSplits(g: Graph, ps: seq<Name>, s: seq<Name>)
    ensures FlowSum(g, ps, s) == OwedSum(g, ps, s) - OwesSum(g, ps, s)
  {
    if ps != [] {
      FlowIsOwedMinusOwes(g, ps[0], s);
      FlowSumSplits(g, ps[1..], s);
    }
  }

  /** Nobody owes anything to no one. */
  lemma {:induction false} OwesNobody(g: Graph, ps: seq<Name>)
    ensures OwesSum(g, ps, []) == 0.0
  {
    if ps != [] {
      OwesNobody(g, ps[1..]);
    }
  }

  /** Taking the first creditor off the list of creditors `s`. */
  lemma {:induction false} OwesPeel(g: Graph, ps: seq<Name>, s: seq<Name>)
    requires s != []
    ensures OwesSum(g, ps, s) == Owed(g, s[0], ps) + OwesSum(g, ps, s[1..])
  {
    if ps != [] {
      OwesPeel(g, ps[1..], s);
    }
  }

  /** What `ps` are owed by `s` is what `s` owe `ps`. */
  lemma {:induction false} OwedIsOwes(g: Graph, ps: seq<Name>, s: seq<Name>)
    ensures OwedSum(g, ps, s) == OwesSum(g, s, ps)
  {
    if ps == [] {
      OwesNobody(g, s);
    } else {
      OwedIsOwes(g, ps[1..], s);
      OwesPeel(g, s, ps);
    }
  }

  /** The flows of all participants add up to zero. */
  lemma FlowsSumToZero(g: Graph, order: seq<Name>)
    ensures FlowSum(g, order, order) == 0.0
  {
    FlowSumSplits(g, order, order);
    OwedIsOwes(g, order, order);
  }

  /** Flows agree when every pairwise net flow agrees. */
  lemma {:induction false} FlowCongruent(g1: Graph, g2: Graph, p: Name, s: seq<Name>)
    requires forall x :: x in s ==> Between(g1, p, x) == Between(g2, p, x)
    ensures Flow(g1, p, s) == Flow(g2, p, s)
  {
    if s != [] {
      FlowCongruent(g1, g2, p, s[1..]);
    }
  }

  /**
   Changing the single edge c->d by `delta` moves `delta` of flow from
   the debtor `d` to the creditor `c` and leaves every other flow alone.
   */
  lemma {:induction false} FlowOneEdge(g1: Graph, g2: Graph, c: Name, d: Name, p: Name, s: seq<Name>)
    requires Distinct(s)
    requires forall x, y :: (x, y) != (c, d) ==> Amount(g1, x, y) == Amount(g2, x, y)
    ensures Flow(g2, p, s) == Flow(g1, p, s)
      + (if p == c && d in s then Amount(g2, c, d) - Amount(g1, c, d) else 0.0)
      - (if p == d && c in s then Amount(g2, c, d) - Amount(g1, c, d) else 0.0)
  {
    if s != [] {
      DistinctTail(s);
      FlowOneEdge(g1, g2, c, d, p, s[1..]);
      assert d in s <==> d == s[0] || d in s[1..];
      assert c in s <==> c == s[0] || c in s[1..];
    }
  }
}
