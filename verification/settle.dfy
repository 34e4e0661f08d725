/**
 The greedy settlement at the heart of `collapse`: two lists of
 (person, flow) entries, the net creditors with positive flows and the net
 debtors with negative flows, each sorted by decreasing magnitude, are
 matched head against head until one list runs out.
 */
module Settlement {
  import opened Graphs

  /** A `[person, flow]` pair of the positive or negative flow list. */
  datatype Entry = Entry(name: Name, amount: real)

  /** `debtor` owes `creditor` the `amount`. */
  datatype Edge = Edge(creditor: Name, debtor: Name, amount: real)

  /** The edges produced and what is left of the two lists when the loop stops. */
  datatype State = State(edges: seq<Edge>, pos: seq<Entry>, neg: seq<Entry>)

  function Abs(x: real): real
  {
    if x < 0.0 then -x else x
  }

  function Min(x: real, y: real): real
  {
    if x <= y then x else y
  }

  predicate AllPositive(s: seq<Entry>)
  {
    forall i :: 0 <= i < |s| ==> s[i].amount > 0.0
  }

  predicate AllNegative(s: seq<Entry>)
  {
    forall i :: 0 <= i < |s| ==> s[i].amount < 0.0
  }

  /** Some entry of `s` belongs to `n`. */
  predicate Named(s: seq<Entry>, n: Name)
  {
    exists i :: 0 <= i < |s| && s[i].name == n
  }

  /** The sum of the amounts of `s`. */
  function Total(s: seq<Entry>): real
  {
    if s == [] then 0.0 else s[0].amount + Total(s[1..])
  }

  /** The sum of the amounts `s` records for `n`. */
  function Held(s: seq<Entry>, n: Name): real
  {
    if s == [] then 0.0 else (if s[0].name == n then s[0].amount else 0.0) + Held(s[1..], n)
  }

  /** What the edges `es` give `n`: owed to `n` minus owed by `n`. */
  function EdgeFlow(es: seq<Edge>, n: Name): real
  {
    if es == [] then 0.0
    else
      (if es[0].creditor == n then es[0].amount else 0.0)
      - (if es[0].debtor == n then es[0].amount else 0.0)
      + EdgeFlow(es[1..], n)
  }

  /** Magnitudes never increase along `s`: each is at least the next one. */
  predicate Descending(s: seq<Entry>)
  {
    forall i :: 0 < i < |s| ==> Abs(s[i - 1].amount) >= Abs(s[i].amount)
  }

  /** Puts `x` in front of the first entry of `t` no larger than it. */
  function Insert(x: Entry, t: seq<Entry>): (r: seq<Entry>)
    requires Descending(t)
    ensures Descending(r)
    ensures multiset(r) == multiset(t) + multiset{x}
    ensures |r| == |t| + 1
    ensures r[0] == x || (t != [] && r[0] == t[0])
  {
    if t == [] || Abs(t[0].amount) <= Abs(x.amount) then [x] + t
    else
      var rest := Insert(x, t[1..]);
      assert multiset(t) == multiset{t[0]} + multiset(t[1..]) by {
        assert t == [t[0]] + t[1..];
      }
      [t[0]] + rest
  }

  /**
   Sorts by decreasing magnitude, keeping entries of equal magnitude in
   their original order, as a stable sort on the flow does.
   */
  function SortByMagnitude(s: seq<Entry>): (r: seq<Entry>)
    ensures Descending(r)
    ensures multiset(r) == multiset(s)
    ensures |r| == |s|
  {
    if s == [] then []
    else
      assert s == [s[0]] + s[1..];
      Insert(s[0], SortByMagnitude(s[1..]))
  }

  /**
   The settlement loop. The head creditor is paid by the head debtor the
   smaller of their two magnitudes; whichever side is fully settled is
   dropped and the other side's head keeps the remainder, without being
   re-sorted. The loop stops as soon as either list is empty.
   */
  function Settle(pos: seq<Entry>, neg: seq<Entry>): (r: State)
    ensures r.pos == [] || r.neg == []
    ensures |r.edges| + |r.pos| + |r.neg| <= |pos| + |neg|
    ensures |pos| + |neg| > 0 ==> |r.edges| < |pos| + |neg|
    ensures forall e :: e in r.edges ==> Named(pos, e.creditor) && Named(neg, e.debtor)
    ensures AllPositive(pos) && AllNegative(neg) ==>
      AllPositive(r.pos) && AllNegative(r.neg) && forall e :: e in r.edges ==> e.amount > 0.0
    decreases |pos| + |neg|
  {
    if pos == [] || neg == [] then State([], pos, neg)
    else
      var credit := pos[0].amount;
      var debit := neg[0].amount;
      var creditor := pos[0].name;
      var debtor := neg[0].name;
      if Abs(credit) == Abs(debit) then
        var rest := Settle(pos[1..], neg[1..]);
        NamedTail(pos);
        NamedTail(neg);
        State([Edge(creditor, debtor, credit)] + rest.edges, rest.pos, rest.neg)
      else if Abs(credit) < Abs(debit) then
        var neg' := [Entry(debtor, debit + credit)] + neg[1..];
        var rest := Settle(pos[1..], neg');
        NamedTail(pos);
        NamedHead(neg, neg');
        State([Edge(creditor, debtor, credit)] + rest.edges, rest.pos, rest.neg)
      else
        var pos' := [Entry(creditor, credit + debit)] + pos[1..];
        var rest := Settle(pos', neg[1..]);
        NamedHead(pos, pos');
        NamedTail(neg);
        State([Edge(creditor, debtor, Abs(debit))] + rest.edges, rest.pos, rest.neg)
  }

  /**
   The first debt the loop makes: the head creditor is paid by the head
   debtor the smaller of their two magnitudes.
   */
  lemma SettleHead(pos: seq<Entry>, neg: seq<Entry>)
    requires pos != [] && neg != [] && pos[0].amount > 0.0
    ensures var es := Settle(pos, neg).edges;
      es != [] && es[0] == Edge(pos[0].name, neg[0].name, Min(pos[0].amount, Abs(neg[0].amount)))
  {
  }

  lemma NamedTail(s: seq<Entry>)
    requires s != []
    ensures forall n :: Named(s[1..], n) ==> Named(s, n)
  {
    forall n | Named(s[1..], n) ensures Named(s, n) {
      var i :| 0 <= i < |s[1..]| && s[1..][i].name == n;
      assert s[i + 1].name == n;
    }
  }

  lemma NamedHead(s: seq<Entry>, s': seq<Entry>)
    requires s != [] && s' != [] && s'[0].name == s[0].name && s'[1..] == s[1..]
    ensures forall n :: Named(s', n) ==> Named(s, n)
  {
    forall n | Named(s', n) ensures Named(s, n) {
      var i :| 0 <= i < |s'| && s'[i].name == n;
      if i > 0 {
        assert s'[i] == s'[1..][i - 1] == s[1..][i - 1] == s[i];
      }
    }
  }

  /** The names of a list are its head's name and the names of its tail. */
  lemma NamedCons(e: Entry, rest: seq<Entry>)
    ensures forall n :: Named([e] + rest, n) <==> n == e.name || Named(rest, n)
  {
    var s := [e] + rest;
    forall n ensures Named(s, n) <==> n == e.name || Named(rest, n) {
      if Named(rest, n) {
        var k :| 0 <= k < |rest| && rest[k].name == n;
        assert s[k + 1] == rest[k];
      }
      if Named(s, n) && n != e.name {
        var k :| 0 <= k < |s| && s[k].name == n;
        assert s[k] == rest[k - 1];
      }
      assert s[0] == e;
    }
  }

  /** A non-empty list of negative entries has a negative total. */
  lemma {:induction false} NegativeTotal(s: seq<Entry>)
    requires AllNegative(s)
    ensures s != [] ==> Total(s) < 0.0
    ensures s == [] ==> Total(s) == 0.0
  {
    if s != [] {
      NegativeTotal(s[1..]);
    }
  }

  /** A non-empty list of positive entries has a positive total. */
  lemma {:induction false} PositiveTotal(s: seq<Entry>)
    requires AllPositive(s)
    ensures s != [] ==> Total(s) > 0.0
    ensures s == [] ==> Total(s) == 0.0
  {
    if s != [] {
      PositiveTotal(s[1..]);
    }
  }

  /** The tails of signed lists keep their signs. */
  lemma SignsTail(s: seq<Entry>)
    requires s != []
    ensures AllPositive(s) ==> AllPositive(s[1..])
    ensures AllNegative(s) ==> AllNegative(s[1..])
  {
    assert forall i :: 0 <= i < |s[1..]| ==> s[1..][i] == s[i + 1];
  }

  /** Replacing the head of a signed list by an entry of the same sign keeps the sign. */
  lemma SignsNewHead(s: seq<Entry>, e: Entry)
    requires s != []
    ensures ([e] + s[1..])[1..] == s[1..]
    ensures AllPositive(s) && e.amount > 0.0 ==> AllPositive([e] + s[1..])
    ensures AllNegative(s) && e.amount < 0.0 ==> AllNegative([e] + s[1..])
  {
    var s' := [e] + s[1..];
    assert forall i :: 0 < i < |s'| ==> s'[i] == s[i];
  }

  /** The debt list of one settlement step followed by the rest. */
  lemma EdgeFlowCons(e: Edge, es: seq<Edge>, n: Name)
    ensures EdgeFlow([e] + es, n) ==
      (if e.creditor == n then e.amount else 0.0) - (if e.debtor == n then e.amount else 0.0) + EdgeFlow(es, n)
  {
    assert ([e] + es)[1..] == es;
  }

  /** What is left of the lists after the loop's first turn is what is left after the rest. */
  lemma SettleLists(pos: seq<Entry>, neg: seq<Entry>)
    requires pos != [] && neg != []
    ensures var credit := pos[0].amount;
      var debit := neg[0].amount;
      var r := Settle(pos, neg);
      var r' := if Abs(credit) == Abs(debit) then Settle(pos[1..], neg[1..])
        else if Abs(credit) < Abs(debit) then Settle(pos[1..], [Entry(neg[0].name, debit + credit)] + neg[1..])
        else Settle([Entry(pos[0].name, credit + debit)] + pos[1..], neg[1..]);
      r.pos == r'.pos && r.neg == r'.neg
  {
  }

  /**
   When the creditors' total matches the debtors' total, the loop ends
   with both lists empty: everyone is settled.
   */
  lemma {:induction false} SettleExhausts(pos: seq<Entry>, neg: seq<Entry>)
    requires AllPositive(pos) && AllNegative(neg)
    requires Total(pos) + Total(neg) == 0.0
    ensures Settle(pos, neg).pos == [] && Settle(pos, neg).neg == []
    decreases |pos| + |neg|
  {
    if pos == [] || neg == [] {
      PositiveTotal(pos);
      NegativeTotal(neg);
    } else {
      var credit := pos[0].amount;
      var debit := neg[0].amount;
      SignsTail(pos);
      SignsTail(neg);
      SettleLists(pos, neg);
      if Abs(credit) == Abs(debit) {
        SettleExhausts(pos[1..], neg[1..]);
      } else if Abs(credit) < Abs(debit) {
        var neg' := [Entry(neg[0].name, debit + credit)] + neg[1..];
        SignsNewHead(neg, Entry(neg[0].name, debit + credit));
        assert Total(neg') == debit + credit + Total(neg[1..]);
        SettleExhausts(pos[1..], neg');
      } else {
        var pos' := [Entry(pos[0].name, credit + debit)] + pos[1..];
        SignsNewHead(pos, Entry(pos[0].name, credit + debit));
        assert Total(pos') == credit + debit + Total(pos[1..]);
        SettleExhausts(pos', neg[1..]);
      }
    }
  }

  /**
   Each settlement moves flow from the lists to the edges: for every
   person, the edges plus what is left in the lists equal what the lists
   started with.
   */
  lemma {:induction false} SettleKeepsFlow(pos: seq<Entry>, neg: seq<Entry>, n: Name)
    requires AllPositive(pos) && AllNegative(neg)
    ensures var r := Settle(pos, neg);
      EdgeFlow(r.edges, n) + Held(r.pos, n) + Held(r.neg, n) == Held(pos, n) + Held(neg, n)
    decreases |pos| + |neg|
  {
    if pos != [] && neg != [] {
      var credit := pos[0].amount;
      var debit := neg[0].amount;
      var creditor := pos[0].name;
      var debtor := neg[0].name;
      SignsTail(pos);
      SignsTail(neg);
      assert Held(pos, n) == (if creditor == n then credit else 0.0) + Held(pos[1..], n);
      assert Held(neg, n) == (if debtor == n then debit else 0.0) + Held(neg[1..], n);
      if Abs(credit) == Abs(debit) {
        var rest := Settle(pos[1..], neg[1..]);
        assert Settle(pos, neg) == State([Edge(creditor, debtor, credit)] + rest.edges, rest.pos, rest.neg);
        EdgeFlowCons(Edge(creditor, debtor, credit), rest.edges, n);
        SettleKeepsFlow(pos[1..], neg[1..], n);
        assert debit == -credit;
      } else if Abs(credit) < Abs(debit) {
        var neg' := [Entry(debtor, debit + credit)] + neg[1..];
        SignsNewHead(neg, Entry(debtor, debit + credit));
        var rest := Settle(pos[1..], neg');
        assert Settle(pos, neg) == State([Edge(creditor, debtor, credit)] + rest.edges, rest.pos, rest.neg);
        EdgeFlowCons(Edge(creditor, debtor, credit), rest.edges, n);
        SettleKeepsFlow(pos[1..], neg', n);
        assert Held(neg', n) == (if debtor == n then debit + credit else 0.0) + Held(neg[1..], n);
      } else {
        var pos' := [Entry(creditor, credit + debit)] + pos[1..];
        SignsNewHead(pos, Entry(creditor, credit + debit));
        var rest := Settle(pos', neg[1..]);
        assert Settle(pos, neg) == State([Edge(creditor, debtor, -debit)] + rest.edges, rest.pos, rest.neg);
        EdgeFlowCons(Edge(creditor, debtor, -debit), rest.edges, n);
        SettleKeepsFlow(pos', neg[1..], n);
        assert Held(pos', n) == (if creditor == n then credit + debit else 0.0) + Held(pos[1..], n);
      }
    }
  }

  /** Inserting keeps every person's holding. */
  lemma {:induction false} InsertKeepsHeld(x: Entry, t: seq<Entry>, n: Name)
    requires Descending(t)
    ensures Held(Insert(x, t), n) == Held([x] + t, n)
    ensures Total(Insert(x, t)) == Total([x] + t)
  {
    if t != [] && Abs(t[0].amount) > Abs(x.amount) {
      InsertKeepsHeld(x, t[1..], n);
      assert ([x] + t)[1..] == t;
      assert ([x] + t[1..])[1..] == t[1..];
    }
  }

  /** Sorting keeps every person's holding and the total. */
  lemma {:induction false} SortKeepsHeld(s: seq<Entry>, n: Name)
    ensures Held(SortByMagnitude(s), n) == Held(s, n)
    ensures Total(SortByMagnitude(s)) == Total(s)
  {
    if s != [] {
      SortKeepsHeld(s[1..], n);
      InsertKeepsHeld(s[0], SortByMagnitude(s[1..]), n);
      assert [s[0]] + s[1..] == s;
    }
  }

  /** Sorting keeps the names and the signs. */
  lemma SortKeepsEntries(s: seq<Entry>)
    ensures forall n :: Named(SortByMagnitude(s), n) <==> Named(s, n)
    ensures AllPositive(s) ==> AllPositive(SortByMagnitude(s))
    ensures AllNegative(s) ==> AllNegative(SortByMagnitude(s))
  {
    var r := SortByMagnitude(s);
    assert forall e :: e in r <==> e in s by {
      forall e ensures e in r <==> e in s {
        assert e in r <==> e in multiset(r);
        assert e in s <==> e in multiset(s);
      }
    }
    forall n ensures Named(r, n) <==> Named(s, n) {
      if Named(r, n) {
        var i :| 0 <= i < |r| && r[i].name == n;
        assert r[i] in s;
      }
      if Named(s, n) {
        var i :| 0 <= i < |s| && s[i].name == n;
        assert s[i] in r;
      }
    }
    if AllPositive(s) {
      forall i | 0 <= i < |r| ensures r[i].amount > 0.0 {
        assert r[i] in s;
      }
    }
    if AllNegative(s) {
      forall i | 0 <= i < |r| ensures r[i].amount < 0.0 {
        assert r[i] in s;
      }
    }
  }
}
