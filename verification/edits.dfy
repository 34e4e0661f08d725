/**
 The edge-level edits of a debt graph: construction from a list of names,
 `remove`, `forgive`, the two forms of `add`, and the person operations.
 Each failing operation returns an `Err` and leaves the caller's graph as
 it was, since the graph is a value.
 */
module Edits {
  import opened Graphs

  /** A graph whose nodes are `names` and which has no debts. */
  function FromNames(names: seq<Name>): (r: Graph)
    ensures forall p :: p in r <==> p in names
    ensures forall p :: p in r ==> r[p] == map[]
    ensures WellFormed(r)
  {
    map p | p in names :: map[]
  }

  /**
   Takes `x` off the debt `d` owes `c`. A result below zero deletes the
   edge; a result of exactly zero keeps a zero edge.
   */
  function Remove(g: Graph, c: Name, d: Name, x: real): (r: Result<Graph>)
    ensures r.Err? <==> Get(g, c, d) == None
    ensures r.Err? ==> r.error == DebtNotFound
    ensures r.Ok? ==> r.value.Keys == g.Keys
    ensures r.Ok? ==> Get(r.value, c, d) == (if g[c][d] - x < 0.0 then None else Some(g[c][d] - x))
    ensures r.Ok? ==> forall a, b :: (a, b) != (c, d) ==> Get(r.value, a, b) == Get(g, a, b)
    ensures r.Ok? && WellFormed(g) ==> WellFormed(r.value)
  {
    if c in g && d in g[c] then
      var rest := g[c][d] - x;
      if rest < 0.0 then Ok(g[c := g[c] - {d}]) else Ok(g[c := g[c][d := rest]])
    else
      Err(DebtNotFound)
  }

  /** Deletes the whole debt `d` owes `c`. */
  function Forgive(g: Graph, c: Name, d: Name): (r: Result<Graph>)
    ensures r.Err? <==> Get(g, c, d) == None
    ensures r.Err? ==> r.error == DebtNotFound
    ensures r.Ok? ==> r.value.Keys == g.Keys && Get(r.value, c, d) == None
    ensures r.Ok? ==> forall a, b :: (a, b) != (c, d) ==> Get(r.value, a, b) == Get(g, a, b)
    ensures r.Ok? && WellFormed(g) ==> WellFormed(r.value)
  {
    if c in g && d in g[c] then Ok(g[c := g[c] - {d}]) else Err(DebtNotFound)
  }

  /**
   `add` with a single debtor: `d` now owes `c` a further `x`. The debtor
   is checked before the creditor; nothing stops `d == c`.
   */
  function AddSingle(g: Graph, c: Name, d: Name, x: real): (r: Result<Graph>)
    ensures d !in g ==> r == Err(DebtorNotFound(d))
    ensures d in g && c !in g ==> r == Err(CreditorNotFound)
    ensures r.Ok? <==> c in g && d in g
    ensures r.Ok? ==> r.value.Keys == g.Keys
    ensures r.Ok? ==> Get(r.value, c, d) == Some(Amount(g, c, d) + x)
    ensures r.Ok? ==> forall a, b :: (a, b) != (c, d) ==> Get(r.value, a, b) == Get(g, a, b)
    ensures r.Ok? && WellFormed(g) ==> WellFormed(r.value)
  {
    if d !in g then Err(DebtorNotFound(d))
    else if c !in g then Err(CreditorNotFound)
    else Ok(Credit(g, c, d, x))
  }

  /** How many times `y` occurs in `ds`. */
  function Count(ds: seq<Name>, y: Name): nat
  {
    if ds == [] then 0 else (if ds[0] == y then 1 else 0) + Count(ds[1..], y)
  }

  /** The first name of `ds` that is not a node of `g`, if any. */
  function FirstUnknown(g: Graph, ds: seq<Name>): (r: Option<Name>)
    ensures r == None <==> forall i :: 0 <= i < |ds| ==> ds[i] in g
    ensures r.Some? ==> r.value in ds && r.value !in g
    ensures r.Some? ==> exists k :: 0 <= k < |ds| && ds[k] == r.value && forall i :: 0 <= i < k ==> ds[i] in g
  {
    if ds == [] then None
    else if ds[0] !in g then Some(ds[0])
    else FirstUnknown(g, ds[1..])
  }

  /** `n` shares of `share`, added one at a time as the split loop does. */
  function Shares(n: nat, share: real): real
  {
    if n == 0 then 0.0 else share + Shares(n - 1, share)
  }

  /** Adding `n` shares one at a time adds `n * share`. */
  lemma {:induction false} SharesProduct(n: nat, share: real)
    ensures Shares(n, share) == n as real * share
  {
    if n > 0 {
      SharesProduct(n - 1, share);
      assert n as real * share == (n - 1) as real * share + share;
    }
  }

  /**
   The mutating loop of the split: each occurrence of a debtor other than
   `c` adds `share` to that debtor's debt to `c`.
   */
  function SplitInto(g: Graph, c: Name, ds: seq<Name>, share: real): (r: Graph)
    requires c in g
    ensures r.Keys == g.Keys
    ensures forall y {:trigger Amount(r, c, y)} :: y != c ==> Amount(r, c, y) == Amount(g, c, y) + Shares(Count(ds, y), share)
    ensures forall y :: y in r[c] <==> y in g[c] || (y != c && y in ds)
    ensures Get(r, c, c) == Get(g, c, c)
    ensures forall a, b :: a != c ==> Get(r, a, b) == Get(g, a, b)
    ensures WellFormed(g) && (forall i :: 0 <= i < |ds| ==> ds[i] in g) ==> WellFormed(r)
  {
    if ds == [] then g
    else
      var g' := if ds[0] != c then Credit(g, c, ds[0], share) else g;
      var r := SplitInto(g', c, ds[1..], share);
      SplitStep(g, g', r, c, ds, share);
      r
  }

  /** One turn of the split loop, from the loop's remaining turns. */
  lemma SplitStep(g: Graph, g': Graph, r: Graph, c: Name, ds: seq<Name>, share: real)
    requires c in g && ds != []
    requires g' == if ds[0] != c then Credit(g, c, ds[0], share) else g
    requires forall y {:trigger Amount(r, c, y)} :: y != c ==> Amount(r, c, y) == Amount(g', c, y) + Shares(Count(ds[1..], y), share)
    ensures forall y {:trigger Amount(r, c, y)} :: y != c ==> Amount(r, c, y) == Amount(g, c, y) + Shares(Count(ds, y), share)
  {
    forall y | y != c
      ensures Amount(r, c, y) == Amount(g, c, y) + Shares(Count(ds, y), share)
    {
      if y == ds[0] {
        assert Get(g', c, y) == Some(Amount(g, c, y) + share);
        assert Count(ds, y) == Count(ds[1..], y) + 1;
      } else {
        assert Get(g', c, y) == Get(g, c, y);
      }
    }
  }

  /** One debtor's part of `x` split over the list `ds`. */
  function Share(x: real, ds: seq<Name>): real
    requires |ds| > 0
  {
    x / |ds| as real
  }

  /**
   `add` with a list of debtors: the amount is divided by the length of
   the list (the creditor counts if listed) and each listed debtor other
   than the creditor owes the creditor one share more. Every debtor is
   checked before anything changes.
   */
  function AddSplit(g: Graph, c: Name, ds: seq<Name>, x: real): (r: Result<Graph>)
    ensures r.Ok? <==> |ds| > 0 && c in g && forall i :: 0 <= i < |ds| ==> ds[i] in g
    ensures r.Err? && r.error.DebtorNotFound? ==> r.error.who in ds && r.error.who !in g
    ensures r.Err? && r.error.DebtorNotFound? ==>
      exists k :: 0 <= k < |ds| && ds[k] == r.error.who && forall i :: 0 <= i < k ==> ds[i] in g
    ensures FirstUnknown(g, ds).Some? ==> r == Err(DebtorNotFound(FirstUnknown(g, ds).value))
    ensures (forall i :: 0 <= i < |ds| ==> ds[i] in g) && |ds| == 0 ==> r == Err(EmptyDebtors)
    ensures (forall i :: 0 <= i < |ds| ==> ds[i] in g) && |ds| > 0 && c !in g ==> r == Err(CreditorNotFound)
    ensures r.Ok? ==> r.value.Keys == g.Keys
    ensures r.Ok? ==> forall y {:trigger Amount(r.value, c, y)} :: y != c ==>
      Amount(r.value, c, y) == Amount(g, c, y) + Shares(Count(ds, y), Share(x, ds))
    ensures r.Ok? ==> forall y :: y in r.value[c] <==> y in g[c] || (y != c && y in ds)
    ensures r.Ok? ==> Get(r.value, c, c) == Get(g, c, c)
    ensures r.Ok? ==> forall a, b :: a != c ==> Get(r.value, a, b) == Get(g, a, b)
    ensures r.Ok? && WellFormed(g) ==> WellFormed(r.value)
  {
    match FirstUnknown(g, ds)
    case Some(d) => Err(DebtorNotFound(d))
    case None =>
      if |ds| == 0 then Err(EmptyDebtors)
      else if c !in g then Err(CreditorNotFound)
      else
        var share := Share(x, ds);
        var r := SplitInto(g, c, ds, share);
        Ok(r)
  }

  /** Adds `p` as a node with no receivables, replacing any it had. */
  function AddPerson(g: Graph, p: Name): (r: Graph)
    ensures r.Keys == g.Keys + {p}
    ensures r[p] == map[]
    ensures forall a, b :: a != p ==> Get(r, a, b) == Get(g, a, b)
    ensures WellFormed(g) ==> WellFormed(r)
  {
    g[p := map[]]
  }

  /** Deletes node `p` together with every debt owed to it or by it. */
  function RemovePerson(g: Graph, p: Name): (r: Result<Graph>)
    ensures r.Err? <==> p !in g
    ensures r.Err? ==> r.error == PersonNotFound
    ensures r.Ok? ==> r.value.Keys == g.Keys - {p}
    ensures r.Ok? ==> forall a, b :: Get(r.value, a, b) == if a == p || b == p then None else Get(g, a, b)
    ensures r.Ok? && WellFormed(g) ==> WellFormed(r.value)
  {
    if p !in g then Err(PersonNotFound)
    else Ok(map x | x in g && x != p :: g[x] - {p})
  }

  /** `n` after renaming `from` to `to`. */
  function Rename(n: Name, from: Name, to: Name): Name
  {
    if n == from then to else n
  }

  /** One row after its debtor `from` has been moved to `to`. */
  function Redirect(row: map<Name, real>, from: Name, to: Name): map<Name, real>
  {
    if from in row then row[to := row[from]] - {from} else row
  }

  /**
   The three steps of `rename_person` as written: `to` gets `from`'s row,
   every row moves its `from` debtor to `to`, and node `from` is deleted.
   */
  function Renamed(g: Graph, from: Name, to: Name): Graph
    requires from in g
  {
    var g1 := g[to := g[from]];
    (map x | x in g1 :: Redirect(g1[x], from, to)) - {from}
  }

  /**
   `rename_person` as written. When `to == from` the steps above delete
   the person together with every debt owed to them or by them; for
   distinct names it is the corrected `RenamePerson` below.
   */
  function RenamePersonAsWritten(g: Graph, from: Name, to: Name): (r: Result<Graph>)
    ensures r.Err? <==> from !in g
    ensures r.Err? ==> r.error == PersonNotFound
    ensures r.Ok? && from != to ==> r.value.Keys == g.Keys - {from} + {to}
    ensures from != to ==> r == RenamePerson(g, from, to)
  {
    if from !in g then Err(PersonNotFound) else Ok(Renamed(g, from, to))
  }

  /** Renaming a person to their own name removes them. */
  lemma RenameToSelfRemoves(g: Graph, p: Name)
    requires p in g
    ensures RenamePersonAsWritten(g, p, p) == RemovePerson(g, p)
    ensures p !in RenamePersonAsWritten(g, p, p).value
  {
    var r := Renamed(g, p, p);
    var s := RemovePerson(g, p).value;
    assert r.Keys == s.Keys;
    forall x | x in r
      ensures r[x] == s[x]
    {
      assert r[x] == Redirect(g[x], p, p) && s[x] == g[x] - {p};
      if p in g[x] {
        assert g[x][p := g[x][p]] == g[x];
      }
    }
    assert r == s;
  }

  /**
   With a fresh `to`, the renamed graph has exactly the edges of `g`, each
   end renamed.
   */
  lemma RenamedEdges(g: Graph, from: Name, to: Name)
    requires from in g
    ensures WellFormed(g) && to !in g ==> Renamed(g, from, to).Keys == g.Keys - {from} + {to}
    ensures WellFormed(g) && to !in g ==> WellFormed(Renamed(g, from, to))
    ensures WellFormed(g) && to !in g ==> forall a, b :: a != to && b != to ==>
      Get(Renamed(g, from, to), Rename(a, from, to), Rename(b, from, to)) == Get(g, a, b)
  {
    var r := Renamed(g, from, to);
    forall a, b | WellFormed(g) && to !in g && a != to && b != to
      ensures Get(r, Rename(a, from, to), Rename(b, from, to)) == Get(g, a, b)
    {
      if a in g {
        assert r[Rename(a, from, to)] == Redirect(g[a], from, to);
        assert to !in g[a];
      }
    }
  }

  /**
   `rename_person` with the rename to one's own name made a no-op. This is
   the version the rest of the model uses.
   */
  function RenamePerson(g: Graph, from: Name, to: Name): (r: Result<Graph>)
    ensures r.Err? <==> from !in g
    ensures r.Err? ==> r.error == PersonNotFound
    ensures r.Ok? ==> r.value.Keys == g.Keys - {from} + {to}
    ensures from in g && from == to ==> r == Ok(g)
    ensures r.Ok? && WellFormed(g) && to !in g ==> forall a, b :: a != to && b != to ==>
      Get(r.value, Rename(a, from, to), Rename(b, from, to)) == Get(g, a, b)
    ensures r.Ok? && WellFormed(g) ==> WellFormed(r.value)
  {
    if from !in g then Err(PersonNotFound)
    else if from == to then Ok(g)
    else
      RenamedEdges(g, from, to);
      Ok(Renamed(g, from, to))
  }

  /** Removing what was just added to an existing, non-negative debt gives the graph back. */
  lemma RemoveUndoesAdd(g: Graph, c: Name, d: Name, x: real)
    requires c in g && d in g && Get(g, c, d).Some? && g[c][d] >= 0.0
    ensures AddSingle(g, c, d, x).Ok?
    ensures Remove(AddSingle(g, c, d, x).value, c, d, x) == Ok(g)
  {
    var r := Remove(AddSingle(g, c, d, x).value, c, d, x).value;
    GraphExt(r, g);
  }

  /**
   Removing what was just added to a debt that did not exist leaves a debt
   of zero behind, not the graph as it was; forgiving that zero debt gives
   the graph back.
   */
  lemma RemoveAfterFreshAdd(g: Graph, c: Name, d: Name, x: real)
    requires c in g && d in g && Get(g, c, d) == None
    ensures AddSingle(g, c, d, x).Ok? && Remove(AddSingle(g, c, d, x).value, c, d, x).Ok?
    ensures var r := Remove(AddSingle(g, c, d, x).value, c, d, x).value;
      Get(r, c, d) == Some(0.0) && r != g && Forgive(r, c, d) == Ok(g)
  {
    var r := Remove(AddSingle(g, c, d, x).value, c, d, x).value;
    assert Get(r, c, d) != Get(g, c, d);
    GraphExt(Forgive(r, c, d).value, g);
  }

  /** Forgiving a debt that was just created gives the graph back. */
  lemma ForgiveUndoesFreshAdd(g: Graph, c: Name, d: Name, x: real)
    requires c in g && d in g && Get(g, c, d) == None
    ensures AddSingle(g, c, d, x).Ok?
    ensures Forgive(AddSingle(g, c, d, x).value, c, d) == Ok(g)
  {
    GraphExt(Forgive(AddSingle(g, c, d, x).value, c, d).value, g);
  }

  /** Removing a person who was just added gives the graph back. */
  lemma RemovePersonUndoesAddPerson(g: Graph, p: Name)
    requires WellFormed(g) && p !in g
    ensures RemovePerson(AddPerson(g, p), p) == Ok(g)
  {
    var r := RemovePerson(AddPerson(g, p), p).value;
    forall a, b ensures Get(r, a, b) == Get(g, a, b) {
      if a in g && b == p {
        assert p !in g[a];
      }
    }
    GraphExt(r, g);
  }

  /** Renaming a person to a fresh name and back gives the graph back. */
  lemma RenameRoundTrip(g: Graph, from: Name, to: Name)
    requires WellFormed(g) && from in g && to !in g
    ensures RenamePerson(g, from, to).Ok?
    ensures RenamePerson(RenamePerson(g, from, to).value, to, from) == Ok(g)
  {
    var h := RenamePerson(g, from, to).value;
    assert from !in h && to in h;
    var r := RenamePerson(h, to, from).value;
    forall x, y ensures Get(r, x, y) == Get(g, x, y) {
      if x == to {
      } else if y == to {
        assert Get(g, x, y) == None by {
          if x in g {
            assert to !in g[x];
          }
        }
        assert Get(r, x, y) == None by {
          if x in r {
            assert to !in r[x];
          }
        }
      } else {
        var a, b := Rename(x, from, to), Rename(y, from, to);
        assert a != from && b != from;
        assert Rename(a, to, from) == x && Rename(b, to, from) == y;
        assert Get(r, x, y) == Get(h, a, b);
      }
    }
    GraphExt(r, g);
  }
}
