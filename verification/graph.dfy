/**
 The debt graph: a map from each creditor to the debts owed to them,
 `creditor -> {debtor -> amount}`. Amounts are exact reals, so the exact
 comparisons the algorithms make are sound.
 */
module Graphs {

  type Name = string

  type Graph = map<Name, map<Name, real>>

  /** The ways an operation on the graph can fail. */
  datatype Error =
    | DebtNotFound            // remove/forgive on a missing creditor->debtor edge
    | DebtorNotFound(who: Name) // add with a debtor who is not a node
    | CreditorNotFound        // add with a creditor who is not a node
    | EmptyDebtors            // a split over an empty list divides by zero
    | PersonNotFound          // remove_person/rename_person of an unknown name

  datatype Result<T> = Ok(value: T) | Err(error: Error)

  datatype Option<T> = None | Some(value: T)

  /** The edge x->y, if there is one. */
  function Get(g: Graph, x: Name, y: Name): Option<real>
  {
    if x in g && y in g[x] then Some(g[x][y]) else None
  }

  /** The amount y owes x, zero when there is no edge. */
  function Amount(g: Graph, x: Name, y: Name): real
  {
    if x in g && y in g[x] then g[x][y] else 0.0
  }

  /** Every debtor that appears is itself a node of the graph. */
  ghost predicate WellFormed(g: Graph)
  {
    forall x, y :: x in g && y in g[x] ==> y in g
  }

  /** No name occurs twice in `s`. */
  ghost predicate Distinct(s: seq<Name>)
  {
    forall i, j :: 0 <= i < j < |s| ==> s[i] != s[j]
  }

  /** Dropping the first name keeps a sequence free of repeats. */
  lemma DistinctTail(s: seq<Name>)
    requires Distinct(s) && s != []
    ensures Distinct(s[1..]) && s[0] !in s[1..]
  {
    forall i, j | 0 <= i < j < |s[1..]|
      ensures s[1..][i] != s[1..][j]
    {
      assert s[1..][i] == s[i + 1] && s[1..][j] == s[j + 1];
    }
    forall i | 0 <= i < |s[1..]|
      ensures s[1..][i] != s[0]
    {
      assert s[1..][i] == s[i + 1];
    }
  }

  /** Moving `x` from the rest `row` of `all` to what is done. */
  lemma TakeOne(all: set<Name>, row: set<Name>, x: Name)
    requires x in row && row <= all
    ensures (all - row) + {x} == all - (row - {x})
  {
  }

  /**
   `order` lists every node of `g` exactly once: it stands for the
   iteration order of the graph's dictionary.
   */
  ghost predicate IsOrder(g: Graph, order: seq<Name>)
  {
    Distinct(order) && (forall p :: p in g <==> p in order)
  }

  /**
   Adds `a` to the debt `d` owes `c`, creating the edge when it is absent.
   This is the mutation shared by every path of `add`.
   */
  function Credit(g: Graph, c: Name, d: Name, a: real): (r: Graph)
    requires c in g
    ensures r.Keys == g.Keys
    ensures Get(r, c, d) == Some(Amount(g, c, d) + a)
    ensures forall x, y :: (x, y) != (c, d) ==> Get(r, x, y) == Get(g, x, y)
    ensures WellFormed(g) && d in g ==> WellFormed(r)
  {
    g[c := g[c][d := if d in g[c] then g[c][d] + a else a]]
  }

  /** Two graphs with the same nodes and the same edges are equal. */
  lemma GraphExt(g1: Graph, g2: Graph)
    requires g1.Keys == g2.Keys
    requires forall x, y :: Get(g1, x, y) == Get(g2, x, y)
    ensures g1 == g2
  {
    forall x | x in g1
      ensures g1[x] == g2[x]
    {
      forall y
        ensures y in g1[x] <==> y in g2[x]
        ensures y in g1[x] ==> g1[x][y] == g2[x][y]
      {
        assert Get(g1, x, y) == Get(g2, x, y);
      }
    }
  }
}
