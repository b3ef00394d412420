/** The reference implementation: one flat list of resting orders that every
    question is answered by scanning. */
module Oracle {
  import opened Types
  import opened Sequences
  import opened Matching
  import opened Invariant
  import opened Structure

  // ---------- sorting ----------

  /** Bids before asks, then price-time priority. */
  predicate Precedes(a: Resting, b: Resting) {
    if a.side != b.side then a.side.Buy? else Ahead(a.side, a, b)
  }

  ghost predicate InOrder(s: seq<Resting>) {
    forall i, j :: 0 <= i < j < |s| ==> Precedes(s[i], s[j])
  }

  function Place(x: Resting, s: seq<Resting>): seq<Resting> {
    if s == [] || Precedes(x, s[0]) then [x] + s else [s[0]] + Place(x, s[1..])
  }

  function Sort(s: seq<Resting>): seq<Resting> {
    if s == [] then [] else Place(s[0], Sort(s[1..]))
  }

  /** Taking an element out and placing it again changes nothing. */
  lemma {:induction false} PlaceBack(s: seq<Resting>, k: nat)
    requires InOrder(s) && k < |s|
    ensures Place(s[k], RemoveAt(s, k)) == s
    decreases |s|
  {
    hide RemoveAt;
    var rest := RemoveAt(s, k);
    if k == 0 {
      assert rest == s[1..];
    } else {
      assert Precedes(s[0], s[k]);
      PlaceBack(s[1..], k - 1);
      assert rest[1..] == RemoveAt(s[1..], k - 1);
    }
  }

  lemma RemoveFromMultiset<T>(s: seq<T>, k: nat)
    requires k < |s|
    ensures multiset(RemoveAt(s, k)) == multiset(s) - multiset{s[k]}
  {
    assert s == s[..k] + [s[k]] + s[k + 1..];
  }

  lemma InsertIntoMultiset<T>(s: seq<T>, k: nat, x: T)
    requires k <= |s|
    ensures multiset(InsertAt(s, k, x)) == multiset(s) + multiset{x}
  {
    assert s == s[..k] + s[k..];
  }

  /** There is only one way to put the same orders in order. */
  lemma {:induction false} SortIsUnique(s: seq<Resting>, u: seq<Resting>)
    requires InOrder(u) && multiset(s) == multiset(u)
    ensures Sort(s) == u
  {
    if s == [] {
      assert |u| == |multiset(u)|;
    } else {
      assert s == [s[0]] + s[1..];
      assert s[0] in multiset(u);
      var k :| 0 <= k < |u| && u[k] == s[0];
      RemoveFromMultiset(u, k);
      SortIsUnique(s[1..], RemoveAt(u, k));
      PlaceBack(u, k);
    }
  }

  // ---------- the flat list ----------

  /** The list holds the orders of both sides, in no particular order. */
  ghost predicate Holds(orders: seq<Resting>, book: BySide<seq<Resting>>) {
    multiset(orders) == multiset(book.bids) + multiset(book.asks)
  }

  lemma HeldOnItsSide(orders: seq<Resting>, st: State, k: nat) returns (j: nat)
    requires Holds(orders, st.book) && BookOk(st.book, st.nextSeq)
    requires k < |orders|
    ensures
      var s := st.book.On(orders[k].side);
      j < |s| && s[j] == orders[k]
  {
    assert orders[k] in multiset(st.book.bids) + multiset(st.book.asks);
    var s := st.book.On(orders[k].side);
    assert orders[k] in s;
    j :| 0 <= j < |s| && s[j] == orders[k];
  }

  lemma HeldIfResting(orders: seq<Resting>, st: State, side: Side, j: nat)
    requires Holds(orders, st.book) && j < |st.book.On(side)|
    ensures st.book.On(side)[j] in orders
  {
    assert st.book.On(side)[j] in multiset(st.book.bids) + multiset(st.book.asks);
  }

  lemma HoldsSize(orders: seq<Resting>, book: BySide<seq<Resting>>)
    requires Holds(orders, book)
    ensures |orders| == |book.bids| + |book.asks|
  {
    assert |multiset(orders)| == |orders|;
  }

  /** Replacing one order in the list and on its side alike. */
  lemma ReplaceHolds(orders: seq<Resting>, book: BySide<seq<Resting>>, k: nat, side: Side, s: seq<Resting>, r: Resting)
    requires Holds(orders, book) && k < |orders|
    requires multiset(s) == multiset(book.On(side)) - multiset{orders[k]} + multiset{r}
    requires orders[k] in book.On(side)
    ensures Holds(orders[k := r], book.With(side, s))
  {
  }

  lemma RemoveHolds(orders: seq<Resting>, book: BySide<seq<Resting>>, k: nat, side: Side, j: nat)
    requires Holds(orders, book) && k < |orders|
    requires j < |book.On(side)| && book.On(side)[j] == orders[k]
    ensures Holds(RemoveAt(orders, k), book.With(side, RemoveAt(book.On(side), j)))
  {
    RemoveFromMultiset(orders, k);
    RemoveFromMultiset(book.On(side), j);
  }

  // ---------- the best order to trade with ----------

  predicate Candidate(t: Taker, r: Resting) {
    r.side != t.side && Marketable(t, r.price)
  }

  /** best is the order the taker would trade with first, of the first n. */
  ghost predicate IsBest(orders: seq<Resting>, t: Taker, best: Option<nat>, n: nat)
    requires n <= |orders|
  {
    && (best.None? ==> forall i :: 0 <= i < n ==> !Candidate(t, orders[i]))
    && (best.Some? ==>
          && best.value < n && Candidate(t, orders[best.value])
          && forall i :: 0 <= i < n && Candidate(t, orders[i]) ==>
               !Ahead(t.side.Opposite(), orders[i], orders[best.value]))
  }

  /** If the taker accepts any order of a side it accepts the best one. */
  lemma BestIsMarketable(makers: seq<Resting>, t: Taker, j: nat)
    requires Sorted(t.side.Opposite(), makers) && j < |makers| && Marketable(t, makers[j].price)
    ensures Marketable(t, makers[0].price)
  {
    assert j > 0 ==> Ahead(t.side.Opposite(), makers[0], makers[j]);
  }

  /** The best order of a full scan is the first of the other side. */
  lemma BestIsHead(orders: seq<Resting>, st: State, t: Taker, best: Option<nat>)
    requires Holds(orders, st.book) && BookOk(st.book, st.nextSeq)
    requires IsBest(orders, t, best, |orders|)
    ensures
      var makers := st.book.On(t.side.Opposite());
      if best.None? then makers == [] || !Marketable(t, makers[0].price)
      else makers != [] && Marketable(t, makers[0].price) && orders[best.value] == makers[0]
  {
    var makers := st.book.On(t.side.Opposite());
    if makers != [] {
      HeldIfResting(orders, st, t.side.Opposite(), 0);
      var k :| 0 <= k < |orders| && orders[k] == makers[0];
      assert makers[0].side == t.side.Opposite();
      assert Candidate(t, orders[k]) <==> Marketable(t, makers[0].price);
    }
    if best.Some? {
      var j := HeldOnItsSide(orders, st, best.value);
      BestIsMarketable(makers, t, j);
    }
  }

  // ---------- the fill-or-kill pre-check ----------

  function Candidates(t: Taker, orders: seq<Resting>): seq<Resting> {
    if orders == [] then []
    else (if Candidate(t, orders[0]) then [orders[0]] else []) + Candidates(t, orders[1..])
  }

  /** How many orders from the front the taker's price bound accepts. */
  function Depth(makers: seq<Resting>, t: Taker): (n: nat)
    ensures n <= |makers|
    ensures forall i :: 0 <= i < n ==> Marketable(t, makers[i].price)
    ensures n < |makers| ==> !Marketable(t, makers[n].price)
  {
    if makers == [] || !Marketable(t, makers[0].price) then 0 else 1 + Depth(makers[1..], t)
  }

  lemma {:induction false} CandidatesCount(t: Taker, orders: seq<Resting>, x: Resting)
    ensures multiset(Candidates(t, orders))[x] == if Candidate(t, x) then multiset(orders)[x] else 0
  {
    if orders != [] {
      CandidatesCount(t, orders[1..], x);
      assert orders == [orders[0]] + orders[1..];
    }
  }

  /** Within the depth every order is a candidate, beyond it none is. */
  lemma DepthSplits(st: State, t: Taker)
    requires BookOk(st.book, st.nextSeq)
    ensures
      var makers := st.book.On(t.side.Opposite());
      forall j :: 0 <= j < |makers| ==> (Candidate(t, makers[j]) <==> j < Depth(makers, t))
  {
    hide Depth;
    var makers := st.book.On(t.side.Opposite());
    var d := Depth(makers, t);
    forall j | d < j < |makers|
      ensures !Marketable(t, makers[j].price)
    {
      assert Ahead(t.side.Opposite(), makers[d], makers[j]);
    }
  }

  /** The candidates of a side that splits like this are its front. */
  lemma FrontCount(makers: seq<Resting>, t: Taker, d: nat, x: Resting)
    requires d <= |makers|
    requires forall j :: 0 <= j < |makers| ==> (Candidate(t, makers[j]) <==> j < d)
    ensures multiset(makers[..d])[x] == if Candidate(t, x) then multiset(makers)[x] else 0
  {
    assert makers == makers[..d] + makers[d..];
    assert Candidate(t, x) ==> x !in makers[d..];
    assert !Candidate(t, x) ==> x !in makers[..d];
  }

  lemma DepthCount(st: State, t: Taker, x: Resting)
    requires BookOk(st.book, st.nextSeq)
    ensures
      var makers := st.book.On(t.side.Opposite());
      multiset(makers[..Depth(makers, t)])[x]
      == if Candidate(t, x) then multiset(st.book.bids)[x] + multiset(st.book.asks)[x] else 0
  {
    hide Depth;
    hide Sorted;
    hide Uncrossed;
    hide DistinctIds;
    hide DisjointIds;
    var own, makers := st.book.On(t.side), st.book.On(t.side.Opposite());
    DepthSplits(st, t);
    FrontCount(makers, t, Depth(makers, t), x);
    assert Candidate(t, x) ==> x !in own;
  }

  /** Sorting the candidates of the flat list gives the acceptable orders of the
      other side, best first. */
  lemma SortedCandidates(orders: seq<Resting>, st: State, t: Taker)
    requires Holds(orders, st.book) && BookOk(st.book, st.nextSeq)
    ensures
      var makers := st.book.On(t.side.Opposite());
      Sort(Candidates(t, orders)) == makers[..Depth(makers, t)]
  {
    hide Sort;
    hide Candidates;
    var makers := st.book.On(t.side.Opposite());
    var front := makers[..Depth(makers, t)];
    forall x: Resting
      ensures multiset(Candidates(t, orders))[x] == multiset(front)[x]
    {
      CandidatesCount(t, orders, x);
      DepthCount(st, t, x);
    }
    assert multiset(Candidates(t, orders)) == multiset(front);
    SortIsUnique(Candidates(t, orders), front);
  }

  lemma {:induction false} FillableInDepth(makers: seq<Resting>, t: Taker)
    ensures Fillable(makers[..Depth(makers, t)], t) == Fillable(makers, t)
  {
    if makers != [] && Marketable(t, makers[0].price) {
      FillableInDepth(makers[1..], t);
      assert makers[..Depth(makers, t)][1..] == makers[1..][..Depth(makers[1..], t)];
    }
  }

  /** The snapshot of the flat list is both sides, best first. */
  lemma SortedSnapshot(orders: seq<Resting>, st: State)
    requires Holds(orders, st.book) && BookOk(st.book, st.nextSeq)
    ensures Sort(orders) == st.book.bids + st.book.asks
  {
    SortIsUnique(orders, st.book.bids + st.book.asks);
  }

  // ---------- the sweep ----------

  /** Trading with the best order, in the list and on its side alike. */
  lemma FillHolds(orders: seq<Resting>, book: BySide<seq<Resting>>, k: nat, side: Side, fill: Qty)
    requires Holds(orders, book) && k < |orders|
    requires book.On(side) != [] && orders[k] == book.On(side)[0] && fill <= orders[k].qty
    ensures
      var r := orders[k].(qty := orders[k].qty - fill);
      Holds(if r.qty == 0 then RemoveAt(orders, k) else orders[k := r], book.With(side, Filled(book.On(side), fill)))
  {
    var s := book.On(side);
    if fill == orders[k].qty {
      RemoveHolds(orders, book, k, side, 0);
      assert RemoveAt(s, 0) == s[1..];
    } else {
      var r := orders[k].(qty := orders[k].qty - fill);
      ReplaceHolds(orders, book, k, side, Filled(s, fill), r);
    }
  }

  class Oracle {
    const capacity: nat
    var orders: seq<Resting>
    var nextSeq: nat
    var nextTradeId: nat
    /** What the list means. */
    ghost var model: State

    ghost predicate Valid()
      reads this
    {
      && Invariant.Valid(model) && Holds(orders, model.book)
      && model == State(capacity, model.book, nextSeq, nextTradeId)
    }

    constructor (capacity: nat)
      ensures Valid() && model == Initial(capacity)
    {
      this.capacity := capacity;
      orders, nextSeq, nextTradeId := [], 0, 0;
      model := Initial(capacity);
    }

    method Find(id: OrderId) returns (found: Option<nat>)
      ensures found.None? ==> !HasId(orders, id)
      ensures found.Some? ==> found.value < |orders| && orders[found.value].id == id
    {
      for i := 0 to |orders|
        invariant forall n :: 0 <= n < i ==> orders[n].id != id
      {
        if orders[i].id == id {
          return Some(i);
        }
      }
      return None;
    }

    method BestOpposite(t: Taker) returns (best: Option<nat>)
      ensures IsBest(orders, t, best, |orders|)
    {
      best := None;
      for i := 0 to |orders|
        invariant IsBest(orders, t, best, i)
      {
        if Candidate(t, orders[i]) && (best.None? || Ahead(t.side.Opposite(), orders[i], orders[best.value])) {
          best := Some(i);
        }
      }
    }

    /** The orders the taker could trade with, as they come. */
    method Gather(t: Taker) returns (candidates: seq<Resting>)
      ensures candidates == Candidates(t, orders)
    {
      candidates := [];
      for i := 0 to |orders|
        invariant candidates + Candidates(t, orders[i..]) == Candidates(t, orders)
      {
        assert orders[i..][1..] == orders[i + 1..];
        if Candidate(t, orders[i]) {
          candidates := candidates + [orders[i]];
        }
      }
    }

    method FillableBeforeSelfTrade(t: Taker) returns (total: nat)
      requires Holds(orders, model.book) && BookOk(model.book, model.nextSeq)
      ensures total == Fillable(model.book.On(t.side.Opposite()), t)
    {
      hide Fillable;
      hide BookOk;
      hide Sort;
      hide Candidates;
      hide Depth;
      var candidates := Gather(t);
      candidates := Sort(candidates);
      SortedCandidates(orders, model, t);
      ghost var makers := model.book.On(t.side.Opposite());
      FillableInDepth(makers, t);
      total := 0;
      assert candidates[0..] == candidates;
      for i := 0 to |candidates|
        invariant total + Fillable(candidates[i..], t) == Fillable(makers, t)
      {
        FillableFrom(candidates, t, i);
        if candidates[i].account == t.account {
          return;
        }
        total := total + candidates[i].qty;
      }
      assert candidates[|candidates|..] == [];
      FillableNone(t);
    }

    /** The position in the list and on its side of the order with an id. */
    lemma Lookup(k: nat) returns (j: nat)
      requires Holds(orders, model.book) && BookOk(model.book, model.nextSeq) && k < |orders|
      ensures
        var id, side := orders[k].id, orders[k].side;
        && Rests(model, id) && SideOf(model, id) == side
        && j < |model.book.On(side)| && model.book.On(side)[j] == orders[k] && Position(model.book.On(side), id) == j
    {
      hide BookOk;
      j := HeldOnItsSide(orders, model, k);
      Located(model, orders[k].id, orders[k].side, j);
    }

    method Cancel(id: OrderId) returns (ok: bool)
      requires Valid()
      modifies this
      ensures Valid()
      ensures (model, Outcome(ok, 0, false, false, [])) == CancelOrder(old(model), id)
    {
      hide BookOk;
      ghost var st := model;
      CancelKeepsValid(st, id);
      nextSeq := nextSeq + 1;
      var found := Find(id);
      if found.None? {
        FlatNotHeld(orders, st, id);
        model := Tick(model);
        return false;
      }
      ghost var j := Lookup(found.value);
      RemoveHolds(orders, st.book, found.value, orders[found.value].side, j);
      orders := RemoveAt(orders, found.value);
      model := CancelOrder(st, id).0;
      return true;
    }

    /** Modifies the order at position k. */
    method ModifyAt(k: nat, price: Price, qty: Qty, seqNo: nat, ghost st: State) returns (ok: bool)
      requires Holds(orders, st.book) && BookOk(st.book, st.nextSeq) && seqNo == st.nextSeq
      requires k < |orders| && qty > 0
      modifies this`orders
      ensures ok == ModifyOrder(st, old(orders)[k].id, price, qty).1.ok
      ensures Holds(orders, ModifyOrder(st, old(orders)[k].id, price, qty).0.book)
    {
      hide BookOk;
      hide Holds;
      hide IsBest;
      hide InsertPos;
      var r := orders[k];
      ghost var j := HeldOnItsSide(orders, st, k);
      Located(st, r.id, r.side, j);
      if price == r.price && qty <= r.qty {
        RequantifyHolds(orders, st.book, k, r.side, j, qty);
        orders := orders[k := r.(qty := qty)];
        return true;
      }
      var t := Taker(r.id, r.side, AtLimit(price), r.account);
      var best := BestOpposite(t);
      BestIsHead(orders, st, t, best);
      if best.Some? {
        return false;
      }
      var moved := r.(price := price, qty := qty, seqNo := seqNo);
      RepositionHolds(orders, st.book, k, r.side, j, moved);
      orders := orders[k := moved];
      return true;
    }

    method Modify(id: OrderId, price: Price, qty: Qty) returns (ok: bool)
      requires Valid()
      modifies this
      ensures Valid()
      ensures (model, Outcome(ok, 0, false, false, [])) == ModifyOrder(old(model), id, price, qty)
    {
      hide BookOk;
      hide Holds;
      hide Insert;
      ghost var st := model;
      ModifyKeepsValid(st, id, price, qty);
      var seqNo := nextSeq;
      nextSeq := nextSeq + 1;
      model := ModifyOrder(st, id, price, qty).0;
      if qty == 0 {
        return false;
      }
      var found := Find(id);
      if found.None? {
        FlatNotHeld(orders, st, id);
        return false;
      }
      ok := ModifyAt(found.value, price, qty, seqNo, st);
    }

    /** One trade with the best order. */
    method FillOne(t: Taker, k: nat, qty: Qty, seqNo: nat) returns (trade: Trade, left: Qty)
      requires Holds(orders, model.book) && BookOk(model.book, model.nextSeq)
      requires k < |orders| && qty > 0
      requires
        var makers := model.book.On(t.side.Opposite());
        makers != [] && orders[k] == makers[0] && Marketable(t, makers[0].price) && makers[0].account != t.account
      modifies this`orders, this`nextTradeId, this`model
      ensures Holds(orders, model.book) && BookOk(model.book, model.nextSeq)
      ensures nextTradeId == old(nextTradeId) + 1
      ensures model == old(model).(book := old(model.book).With(t.side.Opposite(), model.book.On(t.side.Opposite())))
      ensures Sweep(old(model.book.On(t.side.Opposite())), t, qty, seqNo, old(nextTradeId))
              == After([trade], Sweep(model.book.On(t.side.Opposite()), t, left, seqNo, nextTradeId))
      ensures |orders| < old(|orders|) || (|orders| == old(|orders|) && left < qty)
    {
      hide BookOk;
      hide Holds;
      hide Sweep;
      ghost var makers := model.book.On(t.side.Opposite());
      var fill := Min(qty, orders[k].qty);
      SweepStep(makers, t, qty, seqNo, nextTradeId);
      FillHolds(orders, model.book, k, t.side.Opposite(), fill);
      FillKeepsBook(model.book, t.side.Opposite(), fill, model.nextSeq);
      trade := Trade(orders[k].id, t.id, orders[k].price, fill, nextTradeId, seqNo);
      nextTradeId := nextTradeId + 1;
      left := qty - fill;
      orders := orders[k := orders[k].(qty := orders[k].qty - fill)];
      if orders[k].qty == 0 {
        assert RemoveAt(orders, k) == RemoveAt(old(orders), k);
        orders := RemoveAt(orders, k);
      }
      model := model.(book := model.book.With(t.side.Opposite(), Filled(makers, fill)));
    }

    /** Trades with the best order again and again. */
    method SweepOrders(t: Taker, qty: Qty, seqNo: nat) returns (trades: seq<Trade>, left: Qty, stp: bool)
      requires Holds(orders, model.book) && BookOk(model.book, model.nextSeq)
      modifies this`orders, this`nextTradeId, this`model
      ensures Holds(orders, model.book) && BookOk(model.book, model.nextSeq)
      ensures Swept(model.book.On(t.side.Opposite()), trades, left, stp)
              == Sweep(old(model.book.On(t.side.Opposite())), t, qty, seqNo, old(nextTradeId))
      ensures model == old(model).(book := old(model.book).With(t.side.Opposite(), model.book.On(t.side.Opposite())))
      ensures nextTradeId == old(nextTradeId) + |trades|
    {
      hide BookOk;
      hide Holds;
      hide IsBest;
      ghost var sw := Sweep(model.book.On(t.side.Opposite()), t, qty, seqNo, nextTradeId);
      trades, left, stp := [], qty, false;
      while left > 0
        invariant Holds(orders, model.book) && BookOk(model.book, model.nextSeq)
        invariant After(trades, Sweep(model.book.On(t.side.Opposite()), t, left, seqNo, nextTradeId)) == sw
        invariant model == old(model).(book := old(model.book).With(t.side.Opposite(), model.book.On(t.side.Opposite())))
        invariant nextTradeId == old(nextTradeId) + |trades|
        decreases |orders|, left
      {
        var best := BestOpposite(t);
        BestIsHead(orders, model, t, best);
        if best.None? {
          return;
        }
        if orders[best.value].account == t.account {
          stp := true;
          return;
        }
        var trade;
        trade, left := FillOne(t, best.value, left, seqNo);
        AfterAfter(trades, [trade], Sweep(model.book.On(t.side.Opposite()), t, left, seqNo, nextTradeId));
        trades := trades + [trade];
      }
    }

    method Submit(t: Taker, qty: Qty, tif: TimeInForce) returns (r: Outcome)
      requires Valid()
      modifies this
      ensures Valid()
      ensures (model, r) == Add(Exact, old(model), t, qty, tif)
    {
      hide BookOk;
      hide Sweep;
      hide Insert;
      ghost var st := model;
      AddKeepsValid(Exact, st, t, qty, tif);
      var seqNo := nextSeq;
      nextSeq := nextSeq + 1;
      r := REJECTED;
      var found := Find(t.id);
      if found.Some? {
        ghost var j := Lookup(found.value);
      } else {
        FlatNotHeld(orders, st, t.id);
      }
      if qty == 0 || found.Some? {
        model := Tick(st);
        return;
      }
      if tif.FOK? {
        var fillable := FillableBeforeSelfTrade(t);
        if fillable < qty {
          model := Tick(st);
          return Outcome(true, 0, false, false, []);
        }
      }
      var trades, left, stp := SweepOrders(t, qty, seqNo);
      r := Outcome(true, 0, stp, false, trades);
      HoldsSize(orders, model.book);
      if tif.GTC? && t.bound.AtLimit? && !stp && left > 0 {
        if |orders| >= capacity {
          r := r.(exhausted := true);
        } else {
          var resting := Resting(t.side, t.bound.price, t.id, left, t.account, seqNo);
          InsertHolds(orders, model.book, t.side, resting);
          orders := orders + [resting];
          r := r.(restingQty := left);
        }
      }
      model := Add(Exact, st, t, qty, tif).0;
    }

    method Snapshot() returns (out: seq<Resting>)
      requires Valid()
      ensures out == model.book.bids + model.book.asks
    {
      out := Sort(orders);
      SortedSnapshot(orders, model);
    }

    /** Runs one command, whatever its kind. */
    method Apply(c: Command) returns (r: Outcome)
      requires Valid()
      modifies this
      ensures Valid()
      ensures (model, r) == Step(Exact, old(model), c)
    {
      match c.kind
      case Limit =>
        r := Submit(LimitTaker(c), c.qty, c.tif);
      case Market =>
        r := Submit(MarketTaker(c), c.qty, IOC);
      case Cancel =>
        var ok := Cancel(c.id);
        r := Outcome(ok, 0, false, false, []);
      case Modify =>
        var ok := Modify(c.id, c.price, c.qty);
        r := Outcome(ok, 0, false, false, []);
    }
  }

  lemma FlatNotHeld(orders: seq<Resting>, st: State, id: OrderId)
    requires Holds(orders, st.book) && !HasId(orders, id)
    ensures !Rests(st, id)
  {
    if Rests(st, id) {
      HeldIfResting(orders, st, SideOf(st, id), Position(st.book.On(SideOf(st, id)), id));
    }
  }

  lemma RequantifyHolds(orders: seq<Resting>, book: BySide<seq<Resting>>, k: nat, side: Side, j: nat, qty: Qty)
    requires Holds(orders, book) && k < |orders|
    requires j < |book.On(side)| && book.On(side)[j] == orders[k]
    ensures
      var r := orders[k].(qty := qty);
      Holds(orders[k := r], book.With(side, book.On(side)[j := r]))
  {
  }

  lemma RepositionHolds(orders: seq<Resting>, book: BySide<seq<Resting>>, k: nat, side: Side, j: nat, r: Resting)
    requires Holds(orders, book) && k < |orders|
    requires j < |book.On(side)| && book.On(side)[j] == orders[k]
    ensures Holds(orders[k := r], book.With(side, Insert(side, RemoveAt(book.On(side), j), r)))
  {
    var s := book.On(side);
    RemoveFromMultiset(s, j);
    InsertIntoMultiset(RemoveAt(s, j), InsertPos(side, RemoveAt(s, j), r.price), r);
    ReplaceHolds(orders, book, k, side, Insert(side, RemoveAt(s, j), r), r);
  }

  lemma InsertHolds(orders: seq<Resting>, book: BySide<seq<Resting>>, side: Side, r: Resting)
    requires Holds(orders, book)
    ensures Holds(orders + [r], book.With(side, Insert(side, book.On(side), r)))
  {
    InsertIntoMultiset(book.On(side), InsertPos(side, book.On(side), r.price), r);
  }

  lemma FillableNone(t: Taker)
    ensures Fillable([], t) == 0
  {
  }
}
