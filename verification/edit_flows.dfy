/**
 How the edge edits move net flow: each changes one debt, so it moves the
 change from the debtor's flow to the creditor's and leaves everyone
 else's flow alone.
 */
module EditFlows {
  import opened Graphs
  import opened Flows
  import opened Edits

  /** Graphs whose edges agree away from c->d have equal amounts there. */
  lemma AmountsAgree(g1: Graph, g2: Graph, c: Name, d: Name)
    requires forall a, b :: (a, b) != (c, d) ==> Get(g2, a, b) == Get(g1, a, b)
    ensures forall a, b :: (a, b) != (c, d) ==> Amount(g1, a, b) == Amount(g2, a, b)
  {
    forall a, b | (a, b) != (c, d) ensures Amount(g1, a, b) == Amount(g2, a, b) {
      assert Get(g2, a, b) == Get(g1, a, b);
    }
  }

  /** `add` with a single debtor moves `x` of flow from `d` to `c`. */
  lemma AddSingleFlow(g: Graph, c: Name, d: Name, x: real, p: Name, order: seq<Name>)
    requires IsOrder(g, order) && c in g && d in g
    ensures AddSingle(g, c, d, x).Ok?
    ensures Flow(AddSingle(g, c, d, x).value, p, order) ==
      Flow(g, p, order) + (if p == c then x else 0.0) - (if p == d then x else 0.0)
  {
    var r := AddSingle(g, c, d, x).value;
    AmountsAgree(g, r, c, d);
    FlowOneEdge(g, r, c, d, p, order);
  }

  /**
   `remove` takes `x` off the debt, or the whole debt when `x` is larger,
   moving that much flow back from `c` to `d`.
   */
  lemma RemoveFlow(g: Graph, c: Name, d: Name, x: real, p: Name, order: seq<Name>)
    requires IsOrder(g, order) && WellFormed(g) && Get(g, c, d).Some?
    ensures Remove(g, c, d, x).Ok?
    ensures var taken := if g[c][d] - x < 0.0 then g[c][d] else x;
      Flow(Remove(g, c, d, x).value, p, order) ==
        Flow(g, p, order) - (if p == c then taken else 0.0) + (if p == d then taken else 0.0)
  {
    var r := Remove(g, c, d, x).value;
    AmountsAgree(g, r, c, d);
    FlowOneEdge(g, r, c, d, p, order);
  }

  /** `forgive` moves the whole debt's flow back from `c` to `d`. */
  lemma ForgiveFlow(g: Graph, c: Name, d: Name, p: Name, order: seq<Name>)
    requires IsOrder(g, order) && WellFormed(g) && Get(g, c, d).Some?
    ensures Forgive(g, c, d).Ok?
    ensures Flow(Forgive(g, c, d).value, p, order) ==
      Flow(g, p, order) - (if p == c then g[c][d] else 0.0) + (if p == d then g[c][d] else 0.0)
  {
    var r := Forgive(g, c, d).value;
    AmountsAgree(g, r, c, d);
    FlowOneEdge(g, r, c, d, p, order);
  }
}
