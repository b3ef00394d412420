/** What holds of the book in every reachable state. */
module Invariant {
  import opened Types
  import opened Sequences
  import opened Matching

  ghost predicate SideOk(side: Side, s: seq<Resting>, nextSeq: nat) {
    && Sorted(side, s)
    && forall i :: 0 <= i < |s| ==> s[i].side == side && s[i].qty > 0 && s[i].seqNo < nextSeq
  }

  ghost predicate DistinctIds(s: seq<Resting>) {
    forall i, j :: 0 <= i < j < |s| ==> s[i].id != s[j].id
  }

  ghost predicate DisjointIds(s: seq<Resting>, u: seq<Resting>) {
    forall i, j :: 0 <= i < |s| && 0 <= j < |u| ==> s[i].id != u[j].id
  }

  /** No bid reaches any ask, so nothing that rests could still trade. */
  ghost predicate Uncrossed(book: BySide<seq<Resting>>) {
    forall i, j :: 0 <= i < |book.bids| && 0 <= j < |book.asks| ==> book.bids[i].price < book.asks[j].price
  }

  ghost predicate BookOk(book: BySide<seq<Resting>>, nextSeq: nat) {
    && SideOk(Buy, book.bids, nextSeq)
    && SideOk(Sell, book.asks, nextSeq)
    && DistinctIds(book.bids) && DistinctIds(book.asks)
    && DisjointIds(book.bids, book.asks)
    && Uncrossed(book)
  }

  ghost predicate Valid(st: State) {
    && BookOk(st.book, st.nextSeq)
    && |st.book.bids| + |st.book.asks| <= st.capacity
  }

  lemma InitialIsValid(capacity: nat)
    ensures Valid(Initial(capacity))
  {
  }

  // ---------- edits of one side ----------

  /** s is the tail of u, where only the first order may have lost quantity. */
  ghost predicate TailOf(s: seq<Resting>, u: seq<Resting>) {
    && |s| <= |u|
    && (forall i :: 1 <= i < |s| ==> s[i] == u[|u| - |s| + i])
    && (s != [] ==>
          var head := u[|u| - |s|];
          0 < s[0].qty <= head.qty && s[0] == head.(qty := s[0].qty))
  }

  lemma TailOfRest(s: seq<Resting>, u: seq<Resting>)
    requires u != [] && TailOf(s, u[1..])
    ensures TailOf(s, u)
  {
  }

  lemma {:induction false} SweepLeavesTail(makers: seq<Resting>, t: Taker, qty: Qty, seqNo: nat, tradeId: nat)
    requires forall i :: 0 <= i < |makers| ==> makers[i].qty > 0
    ensures TailOf(Sweep(makers, t, qty, seqNo, tradeId).makers, makers)
    ensures
      var sw := Sweep(makers, t, qty, seqNo, tradeId);
      sw.left > 0 && !sw.stp && sw.makers != [] ==> !Marketable(t, sw.makers[0].price)
  {
    if qty == 0 || makers == [] || !Marketable(t, makers[0].price) || makers[0].account == t.account {
    } else if qty >= makers[0].qty {
      SweepLeavesTail(makers[1..], t, qty - makers[0].qty, seqNo, tradeId + 1);
      TailOfRest(Sweep(makers, t, qty, seqNo, tradeId).makers, makers);
    }
  }

  lemma TailKeepsOk(side: Side, s: seq<Resting>, u: seq<Resting>, nextSeq: nat)
    requires TailOf(s, u)
    requires SideOk(side, u, nextSeq) && DistinctIds(u)
    ensures SideOk(side, s, nextSeq) && DistinctIds(s)
  {
    assert forall i :: 0 <= i < |s| ==> s[i].id == u[|u| - |s| + i].id && s[i].seqNo == u[|u| - |s| + i].seqNo;
  }

  lemma RemoveKeepsOk(side: Side, s: seq<Resting>, k: nat, nextSeq: nat)
    requires k < |s|
    requires SideOk(side, s, nextSeq) && DistinctIds(s)
    ensures SideOk(side, RemoveAt(s, k), nextSeq) && DistinctIds(RemoveAt(s, k))
    ensures !HasId(RemoveAt(s, k), s[k].id)
  {
  }

  lemma InsertKeepsSorted(side: Side, s: seq<Resting>, r: Resting)
    requires Sorted(side, s)
    requires forall i :: 0 <= i < |s| ==> s[i].seqNo < r.seqNo
    ensures Sorted(side, Insert(side, s, r))
  {
    var k := InsertPos(side, s, r.price);
    var u := Insert(side, s, r);
    forall i, j | 0 <= i < j < |u|
      ensures Ahead(side, u[i], u[j])
    {
      if j == k {
        assert u[i] == s[i];
      } else if i == k {
        assert u[j] == s[j - 1];
        assert k == j - 1 || Ahead(side, s[k], s[j - 1]);
      }
    }
  }

  lemma InsertKeepsOk(side: Side, s: seq<Resting>, r: Resting, nextSeq: nat)
    requires SideOk(side, s, nextSeq) && DistinctIds(s)
    requires r.side == side && r.qty > 0 && r.seqNo == nextSeq
    requires !HasId(s, r.id)
    ensures SideOk(side, Insert(side, s, r), nextSeq + 1) && DistinctIds(Insert(side, s, r))
  {
    InsertKeepsSorted(side, s, r);
  }

  // ---------- commands ----------

  lemma BookOkMonotone(book: BySide<seq<Resting>>, n: nat, m: nat)
    requires BookOk(book, n) && n <= m
    ensures BookOk(book, m)
  {
  }

  /** Every order of a tail is an order of the whole, but for its quantity. */
  lemma TailOrders(s: seq<Resting>, u: seq<Resting>)
    requires TailOf(s, u)
    ensures |s| <= |u|
    ensures forall i :: 0 <= i < |s| ==> s[i].id == u[|u| - |s| + i].id && s[i].price == u[|u| - |s| + i].price
    ensures forall id :: HasId(s, id) ==> HasId(u, id)
  {
    assert forall i :: 0 <= i < |s| ==> s[i].id == u[|u| - |s| + i].id;
  }

  /** Shrinking one side from its best end keeps the book in order. */
  lemma TailKeepsBook(book: BySide<seq<Resting>>, side: Side, s: seq<Resting>, nextSeq: nat)
    requires BookOk(book, nextSeq)
    requires TailOf(s, book.On(side))
    ensures BookOk(book.With(side, s), nextSeq)
    ensures forall id :: HasId(s, id) ==> HasId(book.On(side), id)
  {
    hide SideOk;
    hide DistinctIds;
    hide TailOf;
    hide HasId;
    TailKeepsOk(side, s, book.On(side), nextSeq);
    TailOrders(s, book.On(side));
  }

  lemma FillKeepsBook(book: BySide<seq<Resting>>, side: Side, fill: Qty, nextSeq: nat)
    requires BookOk(book, nextSeq)
    requires book.On(side) != [] && fill <= book.On(side)[0].qty
    ensures BookOk(book.With(side, Filled(book.On(side), fill)), nextSeq)
  {
    TailKeepsBook(book, side, Filled(book.On(side), fill), nextSeq);
  }

  lemma RemoveKeepsBook(book: BySide<seq<Resting>>, side: Side, k: nat, nextSeq: nat)
    requires BookOk(book, nextSeq)
    requires k < |book.On(side)|
    ensures BookOk(book.With(side, RemoveAt(book.On(side), k)), nextSeq)
    ensures !HasId(RemoveAt(book.On(side), k), book.On(side)[k].id)
    ensures !HasId(book.On(side.Opposite()), book.On(side)[k].id)
    ensures book.On(side)[k].side == side
  {
    RemoveKeepsOk(side, book.On(side), k, nextSeq);
  }

  /** A price that does not trade with the best order trades with none. */
  lemma NoCrossWithBest(side: Side, opposite: seq<Resting>, price: Price)
    requires Sorted(side.Opposite(), opposite)
    requires opposite != [] ==> Better(side, opposite[0].price, price)
    ensures forall j :: 0 <= j < |opposite| ==> Better(side, opposite[j].price, price)
  {
    forall j | 0 < j < |opposite|
      ensures Better(side, opposite[j].price, price)
    {
      assert Ahead(side.Opposite(), opposite[0], opposite[j]);
    }
  }

  lemma InsertKeepsApart(s: seq<Resting>, k: nat, r: Resting, side: Side, opposite: seq<Resting>)
    requires k <= |s|
    requires DisjointIds(s, opposite) && !HasId(opposite, r.id)
    requires forall i, j :: 0 <= i < |s| && 0 <= j < |opposite| ==> Better(side, opposite[j].price, s[i].price)
    requires forall j :: 0 <= j < |opposite| ==> Better(side, opposite[j].price, r.price)
    ensures DisjointIds(InsertAt(s, k, r), opposite)
    ensures forall i, j :: 0 <= i <= |s| && 0 <= j < |opposite| ==>
              Better(side, opposite[j].price, InsertAt(s, k, r)[i].price)
  {
    var u := InsertAt(s, k, r);
    assert forall i :: 0 <= i < |u| ==> u[i] == if i < k then s[i] else if i == k then r else s[i - 1];
  }

  /** An order may rest where it would not trade. */
  lemma InsertKeepsBook(st: State, side: Side, r: Resting)
    requires BookOk(st.book, st.nextSeq)
    requires r.side == side && r.qty > 0 && r.seqNo == st.nextSeq
    requires !Rests(st, r.id)
    requires !WouldCross(st, side, r.price)
    ensures BookOk(st.book.With(side, Insert(side, st.book.On(side), r)), st.nextSeq + 1)
  {
    hide InsertAt;
    hide InsertPos;
    hide Sorted;
    hide DistinctIds;
    var s := st.book.On(side);
    var opposite := st.book.On(side.Opposite());
    InsertKeepsOk(side, s, r, st.nextSeq);
    NoCrossWithBest(side, opposite, r.price);
    InsertKeepsApart(s, InsertPos(side, s, r.price), r, side, opposite);
  }

  /** The book after a sweep, before anything rests. */
  function SweptBook(st: State, t: Taker, qty: Qty): State {
    st.(book := st.book.With(t.side.Opposite(),
                             Sweep(st.book.On(t.side.Opposite()), t, qty, st.nextSeq, st.nextTrade).makers))
  }

  lemma SweepKeepsValid(st: State, t: Taker, qty: Qty)
    requires Valid(st)
    ensures Valid(SweptBook(st, t, qty))
    ensures !Rests(st, t.id) ==> !Rests(SweptBook(st, t, qty), t.id)
    ensures
      var sw := Sweep(st.book.On(t.side.Opposite()), t, qty, st.nextSeq, st.nextTrade);
      t.bound.AtLimit? && !sw.stp && sw.left > 0 ==> !WouldCross(SweptBook(st, t, qty), t.side, t.bound.price)
  {
    var opposite := t.side.Opposite();
    var makers := st.book.On(opposite);
    var sw := Sweep(makers, t, qty, st.nextSeq, st.nextTrade);
    SweepLeavesTail(makers, t, qty, st.nextSeq, st.nextTrade);
    assert |sw.makers| <= |makers|;
    TailKeepsBook(st.book, opposite, sw.makers, st.nextSeq);
  }

  lemma AddKeepsValid(w: Width, st: State, t: Taker, qty: Qty, tif: TimeInForce)
    requires Valid(st)
    ensures Valid(Add(w, st, t, qty, tif).0)
    ensures Add(w, st, t, qty, tif).0.capacity == st.capacity
    ensures Add(w, st, t, qty, tif).0.nextSeq == st.nextSeq + 1
  {
    hide Sweep;
    hide BookOk;
    hide InsertPos;
    hide Fillable;
    hide Rests;
    hide WouldCross;
    var sw := Sweep(st.book.On(t.side.Opposite()), t, qty, st.nextSeq, st.nextTrade);
    var swept := SweptBook(st, t, qty);
    SweepKeepsValid(st, t, qty);
    BookOkMonotone(st.book, st.nextSeq, st.nextSeq + 1);
    BookOkMonotone(swept.book, st.nextSeq, st.nextSeq + 1);
    if !Rests(st, t.id) && t.bound.AtLimit? && !sw.stp && sw.left > 0 {
      InsertKeepsBook(swept, t.side, Resting(t.side, t.bound.price, t.id, sw.left, t.account, st.nextSeq));
    }
  }

  lemma CancelKeepsValid(st: State, id: OrderId)
    requires Valid(st)
    ensures Valid(CancelOrder(st, id).0)
  {
    BookOkMonotone(st.book, st.nextSeq, st.nextSeq + 1);
    if Rests(st, id) {
      var side := SideOf(st, id);
      RemoveKeepsBook(st.book, side, Position(st.book.On(side), id), st.nextSeq + 1);
    }
  }

  lemma ReduceKeepsBook(book: BySide<seq<Resting>>, side: Side, k: nat, qty: Qty, nextSeq: nat)
    requires BookOk(book, nextSeq)
    requires k < |book.On(side)| && qty > 0
    ensures BookOk(book.With(side, book.On(side)[k := book.On(side)[k].(qty := qty)]), nextSeq)
  {
    var s := book.On(side);
    var u := s[k := s[k].(qty := qty)];
    assert forall i :: 0 <= i < |s| ==> u[i].id == s[i].id && u[i].price == s[i].price && u[i].seqNo == s[i].seqNo;
  }

  lemma ModifyKeepsValid(st: State, id: OrderId, price: Price, qty: Qty)
    requires Valid(st)
    ensures Valid(ModifyOrder(st, id, price, qty).0)
  {
    hide BookOk;
    hide InsertPos;
    BookOkMonotone(st.book, st.nextSeq, st.nextSeq + 1);
    if qty > 0 && Rests(st, id) {
      var side := SideOf(st, id);
      var s := st.book.On(side);
      var k := Position(s, id);
      ReduceKeepsBook(st.book, side, k, qty, st.nextSeq + 1);
      RemoveKeepsBook(st.book, side, k, st.nextSeq);
      if !WouldCross(st, side, price) {
        var removed := st.(book := st.book.With(side, RemoveAt(s, k)));
        InsertKeepsBook(removed, side, s[k].(price := price, qty := qty, seqNo := st.nextSeq));
      }
    }
  }

  /** Every command leaves a valid book valid: in particular it is never
      crossed, whatever stopped the command half way. */
  lemma StepKeepsValid(w: Width, st: State, c: Command)
    requires Valid(st)
    ensures Valid(Step(w, st, c).0)
    ensures Step(w, st, c).0.capacity == st.capacity
    ensures Step(w, st, c).0.nextSeq == st.nextSeq + 1
  {
    match c.kind
    case Limit => AddKeepsValid(w, st, LimitTaker(c), c.qty, c.tif);
    case Market => AddKeepsValid(w, st, MarketTaker(c), c.qty, IOC);
    case Cancel => CancelKeepsValid(st, c.id);
    case Modify => ModifyKeepsValid(st, c.id, c.price, c.qty);
  }

  lemma {:induction false} RunKeepsValid(w: Width, st: State, cs: seq<Command>)
    requires Valid(st)
    ensures Valid(Run(w, st, cs).0)
    ensures Run(w, st, cs).0.nextSeq == st.nextSeq + |cs|
    ensures |Run(w, st, cs).1| == |cs|
    decreases |cs|
  {
    if cs != [] {
      StepKeepsValid(w, st, cs[0]);
      RunKeepsValid(w, Step(w, st, cs[0]).0, cs[1..]);
    }
  }
}
