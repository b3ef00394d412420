/** What each command promises, said of prices, accounts and quantities alone:
    which commands are accepted, what an order may trade with, when it stops,
    what rests and what stays as it was. */
module Promises {
  import opened Types
  import opened Sequences
  import opened Matching
  import opened Invariant
  import opened Sweeping

  /** The taker of an add. */
  function TakerOf(c: Command): Taker {
    if c.kind.Limit? then LimitTaker(c) else MarketTaker(c)
  }

  /** A market order may trade at any price, a limit order at its limit or better. */
  lemma BoundMeans(c: Command, price: Price)
    requires c.kind.Limit? || c.kind.Market?
    ensures Marketable(TakerOf(c), price)
            <==> c.kind.Market? || if c.side.Buy? then price <= c.price else price >= c.price
  {
  }

  /** The makers before position n are what the order may trade with: n is where
      the price goes beyond its limit or an order of its own account comes. */
  ghost predicate MayTake(c: Command, makers: seq<Resting>, n: nat) {
    && n <= |makers|
    && (forall i :: 0 <= i < n ==>
          && makers[i].account != c.account
          && (c.kind.Market? || if c.side.Buy? then makers[i].price <= c.price else makers[i].price >= c.price))
    && (n < |makers| ==>
          || makers[n].account == c.account
          || (c.kind.Limit? && if c.side.Buy? then makers[n].price > c.price else makers[n].price < c.price))
  }

  lemma ReachIs(c: Command, makers: seq<Resting>, n: nat)
    requires c.kind.Limit? || c.kind.Market?
    requires MayTake(c, makers, n)
    ensures Reach(makers, TakerOf(c)) == n
  {
    var t := TakerOf(c);
    var d := Reach(makers, t);
    if d < n {
      BoundMeans(c, makers[d].price);
    } else if n < d {
      BoundMeans(c, makers[n].price);
    }
  }

  // ---------- which commands are accepted ----------

  /** New orders need a quantity and a fresh id, cancels a resting order, and
      modifies both a quantity and a resting order, at a price that no order of
      the other side would trade with. */
  lemma AcceptedIff(w: Width, st: State, c: Command)
    requires Valid(st)
    ensures Step(w, st, c).1.ok <==>
              match c.kind
              case Limit => c.qty > 0 && !Rests(st, c.id)
              case Market => c.qty > 0 && !Rests(st, c.id)
              case Cancel => Rests(st, c.id)
              case Modify =>
                && c.qty > 0 && Rests(st, c.id)
                && (HasId(st.book.bids, c.id) ==> forall j :: 0 <= j < |st.book.asks| ==> st.book.asks[j].price > c.price)
                && (HasId(st.book.asks, c.id) ==> forall j :: 0 <= j < |st.book.bids| ==> st.book.bids[j].price < c.price)
  {
    hide Sweep;
    hide Fillable;
    hide InsertPos;
    hide DistinctIds;
    if c.kind.Modify? && c.qty > 0 && Rests(st, c.id) {
      var side := SideOf(st, c.id);
      var s, opposite := st.book.On(side), st.book.On(side.Opposite());
      var k := Position(s, c.id);
      OneSideOnly(st, c.id, side);
      if !WouldCross(st, side, c.price) {
        NoCrossWithBest(side, opposite, c.price);
      }
      assert s[k].price == c.price ==> forall j :: 0 <= j < |opposite| ==> opposite[j].price != c.price;
    }
  }

  lemma OneSideOnly(st: State, id: OrderId, side: Side)
    requires Valid(st) && HasId(st.book.On(side), id)
    ensures !HasId(st.book.On(side.Opposite()), id)
  {
  }

  /** A command that is not accepted only takes a sequence number. */
  lemma RejectedChangesNothing(w: Width, st: State, c: Command)
    requires !Step(w, st, c).1.ok
    ensures Step(w, st, c).0 == State(st.capacity, st.book, st.nextSeq + 1, st.nextTrade)
    ensures Step(w, st, c).1 == Outcome(false, 0, false, false, [])
  {
    hide Sweep;
    hide Fillable;
    hide InsertPos;
  }

  // ---------- what an order trades ----------

  /** Every order that is not killed takes what it may, in turn, at the
      makers' prices, until it is filled; it is stopped exactly when it then
      lacks quantity and comes to an order of its own account within its limit. */
  lemma TakesWhatItMay(w: Width, st: State, c: Command, n: nat)
    requires Valid(st) && (c.kind.Limit? || c.kind.Market?) && c.qty > 0 && !Rests(st, c.id)
    requires c.kind.Limit? && c.tif.FOK? ==> Step(w, st, c).1.trades != []
    requires MayTake(c, st.book.On(c.side.Opposite()), n)
    ensures
      var makers := st.book.On(c.side.Opposite());
      var r := Step(w, st, c).1;
      var offered := Total(makers[..n]);
      && Traded(r.trades) == (if offered < c.qty then offered else c.qty)
      && |r.trades| <= n
      && (forall i :: 0 <= i < |r.trades| ==>
            && Total(makers[..i]) < c.qty
            && r.trades[i] == Trade(makers[i].id, c.id, makers[i].price, Min(makers[i].qty, c.qty - Total(makers[..i])),
                                    st.nextTrade + i, st.nextSeq))
      && (r.stp <==>
            && offered < c.qty && n < |makers| && makers[n].account == c.account
            && (c.kind.Market? || if c.side.Buy? then makers[n].price <= c.price else makers[n].price >= c.price))
  {
    hide Sweep;
    hide Fillable;
    hide InsertPos;
    hide Rests;
    hide Step;
    hide Valid;
    var makers, t := st.book.On(c.side.Opposite()), TakerOf(c);
    ReachIs(c, makers, n);
    AddIsSwept(w, st, c);
    QuantityLeft(makers, t, c.qty, st.nextSeq, st.nextTrade);
    SweepConserves(makers, t, c.qty, st.nextSeq, st.nextTrade);
    SweepGoesOn(makers, t, c.qty, st.nextSeq, st.nextTrade);
    MakersHoldQuantity(st, c.side.Opposite());
    if n < |makers| {
      BoundMeans(c, makers[n].price);
    }
    var trades := Step(w, st, c).1.trades;
    forall i | 0 <= i < |trades|
      ensures Total(makers[..i]) < c.qty
      ensures trades[i] == Trade(makers[i].id, c.id, makers[i].price, Min(makers[i].qty, c.qty - Total(makers[..i])),
                                 st.nextTrade + i, st.nextSeq)
    {
      TradesAreGreedy(makers, t, c.qty, st.nextSeq, st.nextTrade, i);
    }
  }

  lemma MakersHoldQuantity(st: State, side: Side)
    requires Valid(st)
    ensures forall i :: 0 <= i < |st.book.On(side)| ==> st.book.On(side)[i].qty > 0
  {
  }

  /** An accepted add that is not killed sweeps the other side. */
  lemma AddIsSwept(w: Width, st: State, c: Command)
    requires (c.kind.Limit? || c.kind.Market?) && c.qty > 0 && !Rests(st, c.id)
    requires c.kind.Limit? && c.tif.FOK? ==> Step(w, st, c).1.trades != []
    ensures
      var sw := Sweep(st.book.On(c.side.Opposite()), TakerOf(c), c.qty, st.nextSeq, st.nextTrade);
      var (st', r) := Step(w, st, c);
      && r.ok && r.trades == sw.trades && r.stp == sw.stp && st'.book.On(c.side.Opposite()) == sw.makers
  {
    hide Sweep;
    hide Fillable;
    hide InsertPos;
    hide Rests;
  }

  /** A fill-or-kill order is filled completely if what it may take adds up to
      enough, in the width given, and otherwise nothing but its sequence number
      is taken. */
  lemma FillsOrKills(w: Width, st: State, c: Command, n: nat)
    requires c.kind.Limit? && c.tif.FOK? && c.qty > 0 && !Rests(st, c.id)
    requires MayTake(c, st.book.On(c.side.Opposite()), n)
    ensures
      var (st', r) := Step(w, st, c);
      var offered := Total(st.book.On(c.side.Opposite())[..n]);
      && r.ok && r.restingQty == 0 && !r.stp && !r.exhausted
      && if (if w.Exact? then offered else offered % 0x1_0000_0000) >= c.qty
         then Traded(r.trades) == c.qty
         else st' == State(st.capacity, st.book, st.nextSeq + 1, st.nextTrade) && r.trades == []
  {
    hide Rests;
    hide Add;
    ReachIs(c, st.book.On(c.side.Opposite()), n);
    FillableIsReach(st.book.On(c.side.Opposite()), LimitTaker(c));
    FillOrKill(w, st, LimitTaker(c), c.qty);
  }

  /** No order trades beyond its limit or with its own account. */
  lemma TradesWithinLimit(w: Width, st: State, c: Command, i: nat)
    requires Valid(st) && i < |Step(w, st, c).1.trades|
    ensures
      var trade := Step(w, st, c).1.trades[i];
      var makers := st.book.On(c.side.Opposite());
      && i < |makers| && makers[i].id == trade.maker && makers[i].price == trade.price
      && makers[i].account != c.account
      && (c.kind.Market? || (c.kind.Limit? && if c.side.Buy? then trade.price <= c.price else trade.price >= c.price))
  {
    hide Sweep;
    hide Fillable;
    hide InsertPos;
    hide Rests;
    if c.kind.Limit? || c.kind.Market? {
      var makers, t := st.book.On(c.side.Opposite()), TakerOf(c);
      AddIsSwept(w, st, c);
      MakersHoldQuantity(st, c.side.Opposite());
      TradesAreGreedy(makers, t, c.qty, st.nextSeq, st.nextTrade, i);
      BoundMeans(c, makers[i].price);
    }
  }

  /** What an accepted order that is not killed leaves on the other side, while
      it still lacks quantity: nothing it may trade with. A market order leaves
      nothing at all, a limit order only prices beyond its limit, unless an order
      of its own account comes first, and that is when it is stopped. */
  lemma LeavesNothingItMayTake(w: Width, st: State, c: Command)
    requires Valid(st) && (c.kind.Limit? || c.kind.Market?) && Step(w, st, c).1.ok
    requires c.kind.Limit? && c.tif.FOK? ==> Step(w, st, c).1.trades != []
    ensures
      var (st', r) := Step(w, st, c);
      var rest := st'.book.On(c.side.Opposite());
      && (r.stp <==>
            && Traded(r.trades) < c.qty && rest != [] && rest[0].account == c.account
            && (c.kind.Market? || if c.side.Buy? then rest[0].price <= c.price else rest[0].price >= c.price))
      && (Traded(r.trades) < c.qty && !r.stp ==>
            if c.kind.Market? then rest == []
            else forall j :: 0 <= j < |rest| ==> if c.side.Buy? then rest[j].price > c.price else rest[j].price < c.price)
  {
    hide Sweep;
    hide Fillable;
    hide InsertPos;
    hide Rests;
    hide Sorted;
    hide Uncrossed;
    var makers, t := st.book.On(c.side.Opposite()), TakerOf(c);
    AddIsSwept(w, st, c);
    MakersHoldQuantity(st, c.side.Opposite());
    SweepConserves(makers, t, c.qty, st.nextSeq, st.nextTrade);
    SweepLeavesTail(makers, t, c.qty, st.nextSeq, st.nextTrade);
    StoppedAtHead(makers, t, c.qty, st.nextSeq, st.nextTrade);
    var rest := Step(w, st, c).0.book.On(c.side.Opposite());
    StepKeepsValid(w, st, c);
    if rest != [] {
      BoundMeans(c, rest[0].price);
      WorseBehind(c.side.Opposite(), rest);
    }
  }

  /** What stops a sweep is the order now in front. */
  lemma {:induction false} StoppedAtHead(makers: seq<Resting>, t: Taker, qty: Qty, seqNo: nat, tradeId: nat)
    ensures
      var sw := Sweep(makers, t, qty, seqNo, tradeId);
      sw.stp <==> sw.left > 0 && sw.makers != [] && Marketable(t, sw.makers[0].price) && sw.makers[0].account == t.account
  {
    if qty == 0 || makers == [] || !Marketable(t, makers[0].price) || makers[0].account == t.account {
    } else if qty >= makers[0].qty {
      StoppedAtHead(makers[1..], t, qty - makers[0].qty, seqNo, tradeId + 1);
    }
  }

  lemma WorseBehind(side: Side, s: seq<Resting>)
    requires Sorted(side, s) && s != []
    ensures forall j :: 0 <= j < |s| ==> if side.Buy? then s[j].price <= s[0].price else s[j].price >= s[0].price
  {
    forall j | 0 < j < |s|
      ensures if side.Buy? then s[j].price <= s[0].price else s[j].price >= s[0].price
    {
      assert Ahead(side, s[0], s[j]);
    }
  }

  // ---------- what rests ----------

  /** Only what an accepted, unstopped good-till-cancelled limit order still lacks
      can rest. It does so if there is room for one more order; otherwise the
      pool is reported full. Without it the order's own side stays as it was. */
  lemma RestsIff(w: Width, st: State, c: Command)
    requires Valid(st)
    ensures
      var (st', r) := Step(w, st, c);
      var wants := c.kind.Limit? && c.tif.GTC? && r.ok && !r.stp && Traded(r.trades) < c.qty;
      var full := |st.book.On(c.side)| + |st'.book.On(c.side.Opposite())| >= st.capacity;
      && (r.exhausted <==> wants && full)
      && r.restingQty == (if wants && !full then c.qty - Traded(r.trades) else 0)
      && ((c.kind.Limit? || c.kind.Market?) && r.restingQty == 0 ==> st'.book.On(c.side) == st.book.On(c.side))
  {
    hide Sweep;
    hide Fillable;
    hide InsertPos;
    hide Rests;
    hide Valid;
    SweepConserves(st.book.On(c.side.Opposite()), TakerOf(c), c.qty, st.nextSeq, st.nextTrade);
  }

  /** What rests is one order more, with what it still lacks and the command's
      number; the others of its side keep their order. */
  lemma RestsInPlace(w: Width, st: State, c: Command) returns (k: nat)
    requires Step(w, st, c).1.restingQty > 0
    ensures
      var (st', r) := Step(w, st, c);
      var own := st'.book.On(c.side);
      && k < |own| && r.restingQty == c.qty - Traded(r.trades)
      && own[k] == Resting(c.side, c.price, c.id, r.restingQty, c.account, st.nextSeq)
      && RemoveAt(own, k) == st.book.On(c.side)
  {
    hide Sweep;
    hide Fillable;
    hide InsertPos;
    hide InsertAt;
    hide RemoveAt;
    hide Rests;
    var makers, own := st.book.On(c.side.Opposite()), st.book.On(c.side);
    SweepConserves(makers, TakerOf(c), c.qty, st.nextSeq, st.nextTrade);
    k := InsertPos(c.side, own, c.price);
    var left := Sweep(makers, TakerOf(c), c.qty, st.nextSeq, st.nextTrade).left;
    TakenBack(own, k, Resting(c.side, c.price, c.id, left, c.account, st.nextSeq));
  }

  lemma TakenBack(s: seq<Resting>, k: nat, r: Resting)
    requires k <= |s|
    ensures RemoveAt(InsertAt(s, k, r), k) == s
  {
  }

  // ---------- what stays as it was ----------

  /** An accepted cancel takes out the order with that id and nothing else. */
  lemma CancelTakesOne(w: Width, st: State, c: Command, side: Side, r: Resting)
    requires Valid(st) && c.kind.Cancel? && Step(w, st, c).1.ok
    ensures r in Step(w, st, c).0.book.On(side) <==> r in st.book.On(side) && r.id != c.id
    ensures Step(w, st, c).1 == Outcome(true, 0, false, false, [])
  {
    var from := SideOf(st, c.id);
    var s := st.book.On(from);
    OneSideOnly(st, c.id, from);
    OthersBut(s, Position(s, c.id), r);
    assert side != from ==> !HasId(st.book.On(side), c.id);
  }

  /** Without order k, what is left are the orders with other ids. */
  lemma OthersBut(s: seq<Resting>, k: nat, r: Resting)
    requires DistinctIds(s) && k < |s|
    ensures r in RemoveAt(s, k) <==> r in s && r.id != s[k].id
  {
    if r in s && r.id != s[k].id {
      var i :| 0 <= i < |s| && s[i] == r;
      assert RemoveAt(s, k)[if i < k then i else i - 1] == r;
    }
  }

  /** An accepted modify gives the order its new price and quantity, and a new
      number unless it stays at its price with no more quantity, and changes
      nothing else. */
  lemma ModifyChangesOne(w: Width, st: State, c: Command, side: Side, r: Resting) returns (before: Resting)
    requires Valid(st) && c.kind.Modify? && Step(w, st, c).1.ok
    ensures before.id == c.id && (before in st.book.bids || before in st.book.asks)
    ensures
      var keeps := c.price == before.price && c.qty <= before.qty;
      var after := before.(price := c.price, qty := c.qty, seqNo := if keeps then before.seqNo else st.nextSeq);
      r in Step(w, st, c).0.book.On(side) <==> (r in st.book.On(side) && r.id != c.id) || (r == after && side == before.side)
    ensures Step(w, st, c).1 == Outcome(true, 0, false, false, [])
  {
    hide InsertPos;
    hide InsertAt;
    hide Uncrossed;
    hide Sorted;
    var from := SideOf(st, c.id);
    var s := st.book.On(from);
    var k := Position(s, c.id);
    before := s[k];
    assert before.side == from;
    OneSideOnly(st, c.id, from);
    assert side != from ==> !HasId(st.book.On(side), c.id);
    OthersBut(s, k, r);
    var rest := RemoveAt(s, k);
    var moved := before.(price := c.price, qty := c.qty, seqNo := st.nextSeq);
    InsertedOne(rest, InsertPos(from, rest, c.price), moved, r);
    UpdatedOne(s, k, before.(qty := c.qty), r);
  }

  lemma InsertedOne(s: seq<Resting>, k: nat, x: Resting, r: Resting)
    requires k <= |s|
    ensures r in InsertAt(s, k, x) <==> r in s || r == x
  {
    InsertedMembers(s, k, x);
  }

  lemma UpdatedOne(s: seq<Resting>, k: nat, x: Resting, r: Resting)
    requires DistinctIds(s) && k < |s| && x.id == s[k].id
    ensures r in s[k := x] <==> (r in s && r.id != x.id) || r == x
  {
    var u := s[k := x];
    assert u[k] == x;
    if r in s && r.id != x.id {
      var i :| 0 <= i < |s| && s[i] == r;
      assert u[i] == r;
    }
    if r in u && r != x {
      var i :| 0 <= i < |u| && u[i] == r;
      assert s[i] == r && i != k;
    }
  }

  /** No command but a good-till-cancelled limit order that rests brings an id
      into the book, and it brings its own, on its side. */
  lemma NewIdsAreResting(w: Width, st: State, c: Command, side: Side, id: OrderId)
    requires Valid(st)
    requires HasId(Step(w, st, c).0.book.On(side), id) && !HasId(st.book.On(side), id)
    ensures c.kind.Limit? && c.tif.GTC? && Step(w, st, c).1.ok && Step(w, st, c).1.restingQty > 0
    ensures id == c.id && side == c.side
  {
    hide Step;
    hide Valid;
    var s := Step(w, st, c).0.book.On(side);
    var i := Position(s, id);
    if !Step(w, st, c).1.ok {
      RejectedChangesNothing(w, st, c);
    } else if c.kind.Cancel? {
      CancelTakesOne(w, st, c, side, s[i]);
    } else if c.kind.Modify? {
      var before := ModifyChangesOne(w, st, c, side, s[i]);
      SideOfResting(st, before);
    } else if side == c.side {
      RestsIff(w, st, c);
      if Step(w, st, c).1.restingQty > 0 {
        var k := RestsInPlace(w, st, c);
        OneMore(s, k);
      }
    } else {
      assert side == c.side.Opposite();
      AddOnlyTakes(w, st, c);
    }
  }

  lemma OneMore(s: seq<Resting>, k: nat)
    requires k < |s|
    ensures forall i :: 0 <= i < |s| && i != k ==> HasId(RemoveAt(s, k), s[i].id)
  {
    forall i | 0 <= i < |s| && i != k
      ensures HasId(RemoveAt(s, k), s[i].id)
    {
      assert RemoveAt(s, k)[if i < k then i else i - 1] == s[i];
    }
  }

  lemma SideOfResting(st: State, r: Resting)
    requires Valid(st) && (r in st.book.bids || r in st.book.asks)
    ensures HasId(st.book.On(r.side), r.id)
  {
    if r in st.book.bids {
      var i :| 0 <= i < |st.book.bids| && st.book.bids[i] == r;
    } else {
      var i :| 0 <= i < |st.book.asks| && st.book.asks[i] == r;
    }
  }

  lemma AddOnlyTakes(w: Width, st: State, c: Command)
    requires Valid(st) && (c.kind.Limit? || c.kind.Market?)
    ensures forall id :: HasId(Step(w, st, c).0.book.On(c.side.Opposite()), id) ==> HasId(st.book.On(c.side.Opposite()), id)
  {
    hide Sweep;
    hide Fillable;
    hide InsertPos;
    hide Rests;
    hide HasId;
    var makers := st.book.On(c.side.Opposite());
    MakersHoldQuantity(st, c.side.Opposite());
    SweepLeavesTail(makers, TakerOf(c), c.qty, st.nextSeq, st.nextTrade);
    TailOrders(Sweep(makers, TakerOf(c), c.qty, st.nextSeq, st.nextTrade).makers, makers);
  }

  // ---------- the order of the book ----------

  /** In every reachable book the higher bid and the lower ask come first, and of
      two at one price the earlier; and every bid is below every ask. */
  lemma PriceThenTime(st: State)
    requires Valid(st)
    ensures forall i, j :: 0 <= i < j < |st.book.bids| ==>
              var a, b := st.book.bids[i], st.book.bids[j];
              a.price > b.price || (a.price == b.price && a.seqNo < b.seqNo)
    ensures forall i, j :: 0 <= i < j < |st.book.asks| ==>
              var a, b := st.book.asks[i], st.book.asks[j];
              a.price < b.price || (a.price == b.price && a.seqNo < b.seqNo)
    ensures forall i, j :: 0 <= i < |st.book.bids| && 0 <= j < |st.book.asks| ==> st.book.bids[i].price < st.book.asks[j].price
  {
    forall i, j | 0 <= i < j < |st.book.bids|
      ensures Ahead(Buy, st.book.bids[i], st.book.bids[j])
    {
    }
    forall i, j | 0 <= i < j < |st.book.asks|
      ensures Ahead(Sell, st.book.asks[i], st.book.asks[j])
    {
    }
  }
}
