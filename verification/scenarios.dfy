/**
 The repository's test scenarios, stated as facts about the model: the
 three-person graph the manipulation tests start from and what each edit
 makes of it.
 */
module Scenarios {
  import opened Graphs
  import opened Edits
  import opened Cancellation

  /** alice is owed 20 by bob and 5 by charlie; bob is owed 10 by alice. */
  function Start(): Graph
  {
    map["alice" := map["bob" := 20.0, "charlie" := 5.0], "bob" := map["alice" := 10.0], "charlie" := map[]]
  }

  lemma ConstructFromNames()
    ensures FromNames(["a", "b", "c"]) == map["a" := map[], "b" := map[], "c" := map[]]
  {
    var r := FromNames(["a", "b", "c"]);
    var want: Graph := map["a" := map[], "b" := map[], "c" := map[]];
    assert r.Keys == want.Keys by {
      assert "a" in r && "b" in r && "c" in r;
    }
    GraphExt(r, want);
  }

  lemma RemovePartly()
    ensures Remove(Start(), "alice", "bob", 5.0) ==
      Ok(map["alice" := map["bob" := 15.0, "charlie" := 5.0], "bob" := map["alice" := 10.0], "charlie" := map[]])
  {
    var g := Start();
    var want := map["alice" := map["bob" := 15.0, "charlie" := 5.0], "bob" := map["alice" := 10.0], "charlie" := map[]];
    var row := g["alice"]["bob" := 15.0];
    assert row == want["alice"];
    assert Remove(g, "alice", "bob", 5.0) == Ok(g["alice" := row]);
    assert g["alice" := row].Keys == want.Keys;
    GraphExt(g["alice" := row], want);
  }

  lemma RemoveTooMuch()
    ensures Remove(Start(), "alice", "bob", 25.0) ==
      Ok(map["alice" := map["charlie" := 5.0], "bob" := map["alice" := 10.0], "charlie" := map[]])
  {
    var g := Start();
    var want := map["alice" := map["charlie" := 5.0], "bob" := map["alice" := 10.0], "charlie" := map[]];
    var row := g["alice"] - {"bob"};
    assert row.Keys == want["alice"].Keys;
    assert row == want["alice"];
    assert Remove(g, "alice", "bob", 25.0) == Ok(g["alice" := row]);
    assert g["alice" := row].Keys == want.Keys;
    GraphExt(g["alice" := row], want);
  }

  lemma RemoveMissing()
    ensures Remove(Start(), "charlie", "bob", 4.0) == Err(DebtNotFound)
  {
  }

  lemma ForgiveDebt()
    ensures Forgive(Start(), "bob", "alice") ==
      Ok(map["alice" := map["bob" := 20.0, "charlie" := 5.0], "bob" := map[], "charlie" := map[]])
  {
    var g := Start();
    var want := map["alice" := map["bob" := 20.0, "charlie" := 5.0], "bob" := map[], "charlie" := map[]];
    var row := g["bob"] - {"alice"};
    assert row.Keys == {};
    assert Forgive(g, "bob", "alice") == Ok(g["bob" := row]);
    assert g["bob" := row].Keys == want.Keys;
    GraphExt(g["bob" := row], want);
  }

  lemma ForgiveMissing()
    ensures Forgive(Start(), "bob", "charlie") == Err(DebtNotFound)
  {
  }

  lemma AddToDebt()
    ensures AddSingle(Start(), "alice", "bob", 5.0) ==
      Ok(map["alice" := map["bob" := 25.0, "charlie" := 5.0], "bob" := map["alice" := 10.0], "charlie" := map[]])
  {
    var g := Start();
    var want := map["alice" := map["bob" := 25.0, "charlie" := 5.0], "bob" := map["alice" := 10.0], "charlie" := map[]];
    var row := g["alice"]["bob" := 25.0];
    assert row == want["alice"];
    assert AddSingle(g, "alice", "bob", 5.0) == Ok(g["alice" := row]);
    assert g["alice" := row].Keys == want.Keys;
    GraphExt(g["alice" := row], want);
  }

  /** What the split gives once alice and bob have each been charged 5 by charlie. */
  function SplitResult(): Graph
  {
    map["alice" := map["bob" := 20.0, "charlie" := 5.0], "bob" := map["alice" := 10.0],
        "charlie" := map["alice" := 5.0, "bob" := 5.0]]
  }

  /** The split loop charging alice and then bob 5 each. */
  lemma ChargeAliceBob()
    ensures SplitInto(Start(), "charlie", ["alice", "bob"], 5.0) == SplitResult()
  {
    ChargeSteps();
    Charged();
  }

  lemma Charged()
    ensures Start()["charlie" := map["alice" := 5.0, "bob" := 5.0]] == SplitResult()
  {
    var g2 := Start()["charlie" := map["alice" := 5.0, "bob" := 5.0]];
    assert g2.Keys == SplitResult().Keys;
    GraphExt(g2, SplitResult());
  }

  lemma ChargeSteps()
    ensures SplitInto(Start(), "charlie", ["alice", "bob"], 5.0) == Start()["charlie" := map["alice" := 5.0, "bob" := 5.0]]
  {
    var g := Start();
    var ds := ["alice", "bob"];
    var g1 := g["charlie" := map["alice" := 5.0]];
    var g2 := g["charlie" := map["alice" := 5.0, "bob" := 5.0]];
    assert Credit(g, "charlie", "alice", 5.0) == g1;
    assert Credit(g1, "charlie", "bob", 5.0) == g2;
    assert ds[1..] == ["bob"] && ds[1..][1..] == [];
  }

  lemma AddSplitTwo()
    ensures AddSplit(Start(), "charlie", ["alice", "bob"], 10.0) == Ok(SplitResult())
  {
    var ds := ["alice", "bob"];
    assert FirstUnknown(Start(), ds) == None;
    assert Share(10.0, ds) == 5.0;
    ChargeAliceBob();
  }

  /** The creditor counts in the division but owes nothing to themself. */
  lemma AddSplitWithCreditor()
    ensures AddSplit(Start(), "charlie", ["charlie", "alice", "bob"], 15.0) == Ok(SplitResult())
  {
    var ds := ["charlie", "alice", "bob"];
    assert FirstUnknown(Start(), ds) == None;
    assert Share(15.0, ds) == 5.0;
    assert ds[1..] == ["alice", "bob"];
    assert SplitInto(Start(), "charlie", ds, 5.0) == SplitInto(Start(), "charlie", ds[1..], 5.0);
    ChargeAliceBob();
  }

  /** If A owes B 10 and B owes A 3, cancelling leaves A owing B 7. */
  lemma CancelExample()
    ensures Cancelled(map["B" := map["A" := 10.0], "A" := map["B" := 3.0]], ["B", "A"]) ==
      map["B" := map["A" := 7.0], "A" := map[]]
  {
    var g := map["B" := map["A" := 10.0], "A" := map["B" := 3.0]];
    var order := ["B", "A"];
    var want: Graph := map["B" := map["A" := 7.0], "A" := map[]];
    assert IndexOf(order, "B") == 0 && IndexOf(order, "A") == 1 by {
      assert order[1..] == ["A"];
    }
    assert CancelledEdge(g, order, "B", "A") == Some(7.0);
    assert CancelledEdge(g, order, "A", "B") == None;
    var r := Cancelled(g, order);
    assert r.Keys == want.Keys;
    assert r["B"].Keys == want["B"].Keys;
    assert r["A"].Keys == want["A"].Keys;
    GraphExt(r, want);
  }
}
