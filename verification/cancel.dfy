/**
 Cancellation: for every pair of people who each owe the other a positive
 amount, the smaller debt is netted out of the larger one. The loop visits
 creditors in the dictionary's iteration order `order` and, for each, the
 debtors present when the visit starts.
 */
module Cancellation {
  import opened Graphs
  import opened Flows

  predicate Positive(o: Option<real>)
  {
    o.Some? && o.value > 0.0
  }

  /**
   x owes y and y owes x, both strictly positive amounts. With `x == y`
   this is a positive self-debt.
   */
  predicate Reciprocal(g: Graph, x: Name, y: Name)
  {
    Positive(Get(g, x, y)) && Positive(Get(g, y, x))
  }

  /**
   The edge x->y once the pair {x, y} has been netted, where `xFirst` says
   whether x was the visiting creditor. The larger debt keeps the
   difference and the smaller is deleted; on a tie the visiting creditor's
   edge is deleted and the other is left at zero. A self-debt is deleted.
   */
  function Netted(g: Graph, x: Name, y: Name, xFirst: bool): Option<real>
  {
    var d := Amount(g, x, y) - Amount(g, y, x);
    if x == y then None
    else if d > 0.0 then Some(d)
    else if d < 0.0 then None
    else if xFirst then None
    else Some(0.0)
  }

  /**
   The body of the inner loop for creditor p and debtor q: when each owes
   the other a positive amount the pair is netted with p as the visiting
   creditor; otherwise nothing changes.
   */
  function CancelPair(g: Graph, p: Name, q: Name): (r: Graph)
    ensures r.Keys == g.Keys
    ensures forall x, y ::
              Get(r, x, y) ==
                if Reciprocal(g, p, q) && x == p && y == q then Netted(g, p, q, true)
                else if Reciprocal(g, p, q) && x == q && y == p then Netted(g, q, p, false)
                else Get(g, x, y)
  {
    if Reciprocal(g, p, q) then
      var newdebt := g[p][q] - g[q][p];
      if newdebt > 0.0 then
        var g1 := g[p := g[p][q := newdebt]];
        g1[q := g1[q] - {p}]
      else
        var g1 := g[q := g[q][p := -newdebt]];
        g1[p := g1[p] - {q}]
    else
      g
  }

  /** The position of `x` in `order` (`|order|` when absent). */
  function IndexOf(order: seq<Name>, x: Name): nat
  {
    if order == [] then 0 else if order[0] == x then 0 else 1 + IndexOf(order[1..], x)
  }

  lemma {:induction false} IndexOfAt(order: seq<Name>, k: nat)
    requires Distinct(order) && k < |order|
    ensures IndexOf(order, order[k]) == k
  {
    if k > 0 {
      DistinctTail(order);
      assert order[k] == order[1..][k - 1];
      IndexOfAt(order[1..], k - 1);
    }
  }

  /** x is visited before y. */
  predicate Before(order: seq<Name>, x: Name, y: Name)
  {
    IndexOf(order, x) < IndexOf(order, y)
  }

  /** The edge x->y after cancellation: the reference definition of `cancel`. */
  function CancelledEdge(g: Graph, order: seq<Name>, x: Name, y: Name): Option<real>
  {
    if Reciprocal(g, x, y) then Netted(g, x, y, Before(order, x, y)) else Get(g, x, y)
  }

  /** The graph `cancel` leaves, edge by edge. */
  function Cancelled(g: Graph, order: seq<Name>): (r: Graph)
    ensures r.Keys == g.Keys
    ensures forall x, y :: Get(r, x, y) == CancelledEdge(g, order, x, y)
    ensures forall x, y :: !Reciprocal(r, x, y)
    ensures forall x, y :: Between(r, x, y) == Between(g, x, y)
    ensures forall x, y :: !Reciprocal(g, x, y) ==> Get(r, x, y) == Get(g, x, y)
    ensures WellFormed(g) ==> WellFormed(r)
  {
    map x | x in g :: map y | y in g[x] && CancelledEdge(g, order, x, y).Some? :: CancelledEdge(g, order, x, y).value
  }

  /**
   On a tie the creditor visited first loses their edge and the other
   keeps a zero edge.
   */
  lemma CancelTie(g: Graph, order: seq<Name>, x: Name, y: Name)
    requires Reciprocal(g, x, y) && x != y && g[x][y] == g[y][x] && Before(order, x, y)
    ensures Get(Cancelled(g, order), x, y) == None
    ensures Get(Cancelled(g, order), y, x) == Some(0.0)
  {
  }

  /** Cancelling twice is cancelling once. */
  lemma CancelIdempotent(g: Graph, order: seq<Name>)
    ensures Cancelled(Cancelled(g, order), order) == Cancelled(g, order)
  {
    var c := Cancelled(g, order);
    GraphExt(Cancelled(c, order), c);
  }

  /** Cancelling changes nobody's net flow. */
  lemma {:induction false} CancelKeepsFlow(g: Graph, order: seq<Name>, p: Name, s: seq<Name>)
    ensures Flow(Cancelled(g, order), p, s) == Flow(g, p, s)
  {
    FlowCongruent(Cancelled(g, order), g, p, s);
  }

  /** Whether the pair {x, y} has been visited once `i` creditors are done. */
  ghost predicate Visited(order: seq<Name>, i: nat, x: Name, y: Name)
    requires i <= |order|
  {
    x in order[..i] || y in order[..i]
  }

  /** Once its pair has been visited an edge is as `CancelledEdge` gives it; before that it is as in `g`. */
  ghost function Expected(g: Graph, order: seq<Name>, done: bool, x: Name, y: Name): Option<real>
  {
    if done then CancelledEdge(g, order, x, y) else Get(g, x, y)
  }

  /** The outer loop's view: the pairs of the first `i` creditors are done. */
  ghost predicate Progress(g: Graph, order: seq<Name>, i: nat, r: Graph)
    requires i <= |order|
  {
    forall x, y :: Get(r, x, y) == Expected(g, order, Visited(order, i, x, y), x, y)
  }

  /** The inner loop's view: the pairs of `p` with the debtors in `processed` are done too. */
  ghost predicate MidRow(g: Graph, order: seq<Name>, i: nat, processed: set<Name>, r: Graph)
    requires i < |order|
  {
    forall x, y :: Get(r, x, y) == Expected(g, order,
      Visited(order, i, x, y) || (x == order[i] && y in processed) || (y == order[i] && x in processed), x, y)
  }

  /** A pair once netted is no longer reciprocal. */
  lemma NettedNotReciprocal(g: Graph, r: Graph, order: seq<Name>, x: Name, y: Name)
    requires Get(r, x, y) == CancelledEdge(g, order, x, y)
    requires Get(r, y, x) == CancelledEdge(g, order, y, x)
    ensures !Reciprocal(r, x, y)
  {
  }

  /** One turn of the inner loop keeps the inner loop's view. */
  lemma InnerStep(g: Graph, order: seq<Name>, i: nat, processed: set<Name>, r: Graph, q: Name)
    requires IsOrder(g, order) && WellFormed(g) && i < |order|
    requires MidRow(g, order, i, processed, r)
    requires q !in processed && Get(r, order[i], q).Some?
    ensures MidRow(g, order, i, processed + {q}, CancelPair(r, order[i], q))
  {
    var p := order[i];
    var r' := CancelPair(r, p, q);
    assert Get(g, p, q).Some?;
    assert q in g;
    var j :| 0 <= j < |order| && order[j] == q;
    IndexOfAt(order, i);
    IndexOfAt(order, j);
    if q in order[..i] {
      var k :| 0 <= k < i && order[..i][k] == q;
      assert order[k] == q;
      assert !Reciprocal(r, p, q) by {
        NettedNotReciprocal(g, r, order, p, q);
      }
    } else {
      assert p !in order[..i] by {
        forall k | 0 <= k < i ensures order[..i][k] != p {
          assert order[..i][k] == order[k];
        }
      }
      if q != p {
        assert j > i;
        assert Before(order, p, q) && !Before(order, q, p);
      }
      assert Get(r, p, q) == Get(g, p, q);
      assert Get(r, q, p) == Get(g, q, p);
    }
  }

  /** Finishing the row of creditor `order[i]` finishes all of that creditor's pairs. */
  lemma RowDone(g: Graph, order: seq<Name>, i: nat, snap: set<Name>, r: Graph)
    requires IsOrder(g, order) && i < |order|
    requires MidRow(g, order, i, snap, r)
    requires forall y :: y !in snap && y !in order[..i] ==> Get(g, order[i], y) == None
    ensures Progress(g, order, i + 1, r)
  {
    var p := order[i];
    assert order[..i + 1] == order[..i] + [p];
    forall x, y
      ensures Get(r, x, y) == Expected(g, order, Visited(order, i + 1, x, y), x, y)
    {
      var before := Visited(order, i, x, y) || (x == p && y in snap) || (y == p && x in snap);
      if before != Visited(order, i + 1, x, y) {
        if x == p && y !in order[..i] && y !in snap {
          assert Get(g, p, y) == None;
        } else {
          assert y == p && x !in order[..i] && x !in snap;
          assert Get(g, p, x) == None;
        }
      }
    }
  }

  /** What a creditor's turn starts from. */
  lemma RowStart(g: Graph, order: seq<Name>, i: nat, r: Graph)
    requires IsOrder(g, order) && i < |order|
    requires Progress(g, order, i, r) && order[i] in r
    ensures MidRow(g, order, i, {}, r)
    ensures forall y :: y !in r[order[i]] && y !in order[..i] ==> Get(g, order[i], y) == None
  {
    var p := order[i];
    assert p !in order[..i] by {
      forall k | 0 <= k < i ensures order[..i][k] != p {
        assert order[..i][k] == order[k];
      }
    }
    forall y | y !in r[p] && y !in order[..i]
      ensures Get(g, p, y) == None
    {
      assert Get(r, p, y) == None && !Visited(order, i, p, y);
    }
  }

  /** After the last creditor's turn the graph is the cancelled graph. */
  lemma Finish(g: Graph, order: seq<Name>, r: Graph)
    requires IsOrder(g, order) && r.Keys == g.Keys
    requires Progress(g, order, |order|, r)
    ensures r == Cancelled(g, order)
  {
    assert order[..|order|] == order;
    GraphExt(r, Cancelled(g, order));
  }

  /**
   `cancel`: for each creditor p in `order`, for each debtor q of p at the
   start of p's turn (in any order), nets out the pair {p, q} when each
   owes the other a positive amount.
   */
  method Cancel(g: Graph, order: seq<Name>) returns (r: Graph)
    requires WellFormed(g) && IsOrder(g, order)
    ensures r == Cancelled(g, order)
    ensures forall p :: Flow(r, p, order) == Flow(g, p, order)
  {
    r := g;
    var i := 0;
    while i < |order|
      invariant i <= |order|
      invariant r.Keys == g.Keys
      invariant Progress(g, order, i, r)
    {
      var p := order[i];
      var row := r[p].Keys;
      ghost var snap := row;
      ghost var processed: set<Name> := {};
      RowStart(g, order, i, r);
      while row != {}
        invariant r.Keys == g.Keys
        invariant row <= snap && processed == snap - row
        invariant forall y :: y in row ==> Get(r, p, y).Some?
        invariant MidRow(g, order, i, processed, r)
        decreases row
      {
        var q :| q in row;
        InnerStep(g, order, i, processed, r, q);
        TakeOne(snap, row, q);
        r := CancelPair(r, p, q);
        row := row - {q};
        processed := processed + {q};
      }
      RowDone(g, order, i, snap, r);
      i := i + 1;
    }
    Finish(g, order, r);
    forall p ensures Flow(r, p, order) == Flow(g, p, order) {
      CancelKeepsFlow(g, order, p, order);
    }
  }
}
