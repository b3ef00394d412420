/** The meaning of the matching engine: one sequence of resting orders for each
    side, best first, and what each command does to the two of them. */
module Matching {
  import opened Types
  import opened Sequences

  datatype State = State(
    capacity: nat, book: BySide<seq<Resting>>, nextSeq: nat, nextTrade: nat)

  function Initial(capacity: nat): State {
    State(capacity, BySide([], []), 0, 0)
  }

  // ---------- price-time priority ----------

  /** Price first, then the order of arrival. */
  predicate Ahead(side: Side, a: Resting, b: Resting) {
    if a.price != b.price then Better(side, a.price, b.price) else a.seqNo < b.seqNo
  }

  ghost predicate Sorted(side: Side, s: seq<Resting>) {
    forall i, j :: 0 <= i < j < |s| ==> Ahead(side, s[i], s[j])
  }

  /** Where an order at this price goes: behind every order at least as good. */
  function InsertPos(side: Side, s: seq<Resting>, price: Price): (k: nat)
    ensures k <= |s|
    ensures forall i :: 0 <= i < k ==> !Better(side, price, s[i].price)
    ensures k < |s| ==> Better(side, price, s[k].price)
  {
    if s == [] || Better(side, price, s[0].price) then 0
    else 1 + InsertPos(side, s[1..], price)
  }

  function Insert(side: Side, s: seq<Resting>, r: Resting): seq<Resting> {
    InsertAt(s, InsertPos(side, s, r.price), r)
  }

  // ---------- the sweep ----------

  /** The worst price a taker accepts; a market order accepts any. */
  datatype Bound = Anywhere | AtLimit(price: Price)

  datatype Taker = Taker(id: OrderId, side: Side, bound: Bound, account: Account)

  predicate Marketable(t: Taker, price: Price) {
    match t.bound
    case Anywhere => true
    case AtLimit(limit) => if t.side.Buy? then price <= limit else price >= limit
  }

  /** The makers left, the trades made, the quantity left, and whether an order
      of the taker's own account stopped the sweep. */
  datatype Swept = Swept(makers: seq<Resting>, trades: seq<Trade>, left: Qty, stp: bool)

  function Fill(t: Taker, maker: Resting, qty: Qty, seqNo: nat, tradeId: nat): Trade {
    Trade(maker.id, t.id, maker.price, Min(qty, maker.qty), tradeId, seqNo)
  }

  function Sweep(makers: seq<Resting>, t: Taker, qty: Qty, seqNo: nat, tradeId: nat): Swept {
    if qty == 0 || makers == [] || !Marketable(t, makers[0].price) then
      Swept(makers, [], qty, false)
    else if makers[0].account == t.account then
      Swept(makers, [], qty, true)
    else if qty < makers[0].qty then
      Swept([makers[0].(qty := makers[0].qty - qty)] + makers[1..], [Fill(t, makers[0], qty, seqNo, tradeId)], 0, false)
    else
      After([Fill(t, makers[0], qty, seqNo, tradeId)],
            Sweep(makers[1..], t, qty - makers[0].qty, seqNo, tradeId + 1))
  }

  function After(trades: seq<Trade>, s: Swept): Swept {
    s.(trades := trades + s.trades)
  }

  /** The makers after the best of them gave up some quantity. */
  function Filled(makers: seq<Resting>, fill: Qty): seq<Resting>
    requires makers != [] && fill <= makers[0].qty
  {
    if fill < makers[0].qty then makers[0 := makers[0].(qty := makers[0].qty - fill)] else makers[1..]
  }

  /** A sweep is its first fill and the sweep from there. */
  lemma SweepStep(makers: seq<Resting>, t: Taker, qty: Qty, seqNo: nat, tradeId: nat)
    requires qty > 0 && makers != [] && Marketable(t, makers[0].price) && makers[0].account != t.account
    ensures
      var fill := Min(qty, makers[0].qty);
      Sweep(makers, t, qty, seqNo, tradeId)
      == After([Fill(t, makers[0], qty, seqNo, tradeId)], Sweep(Filled(makers, fill), t, qty - fill, seqNo, tradeId + 1))
  {
    if qty < makers[0].qty {
      assert Filled(makers, qty) == [makers[0].(qty := makers[0].qty - qty)] + makers[1..];
    }
  }

  lemma AfterAfter(first: seq<Trade>, second: seq<Trade>, s: Swept)
    ensures After(first + second, s) == After(first, After(second, s))
  {
    assert first + second + s.trades == first + (second + s.trades);
  }

  /** The quantity on offer before the price bound or an own order is reached. */
  function Fillable(makers: seq<Resting>, t: Taker): nat {
    if makers == [] || !Marketable(t, makers[0].price) || makers[0].account == t.account then 0
    else makers[0].qty + Fillable(makers[1..], t)
  }

  /** Adding up in a 32-bit word loses multiples of 2^32 and nothing else. */
  lemma WordSum(a: nat, b: nat, rest: nat)
    ensures Wrap(Wrap(a + b) + rest) == Wrap(a + (b + rest))
    ensures a < TWO32 ==> Wrap(a) == a
  {
  }

  lemma FillableFrom(makers: seq<Resting>, t: Taker, p: nat)
    requires p < |makers|
    ensures Fillable(makers[p..], t)
         == if !Marketable(t, makers[p].price) || makers[p].account == t.account then 0
            else makers[p].qty + Fillable(makers[p + 1..], t)
  {
    assert makers[p..][1..] == makers[p + 1..];
  }

  // ---------- commands ----------

  /** How the fill-or-kill pre-check adds up: in a 32-bit word, as the engine
      does, or without overflow, as the oracle does. */
  datatype Width = Word32 | Exact

  function Available(w: Width, makers: seq<Resting>, t: Taker): nat {
    if w.Word32? then Wrap(Fillable(makers, t)) else Fillable(makers, t)
  }

  predicate HasId(s: seq<Resting>, id: OrderId) {
    exists i :: 0 <= i < |s| && s[i].id == id
  }

  predicate Rests(st: State, id: OrderId) {
    HasId(st.book.bids, id) || HasId(st.book.asks, id)
  }

  function Position(s: seq<Resting>, id: OrderId): (k: nat)
    requires HasId(s, id)
    ensures k < |s| && s[k].id == id
  {
    if s[0].id == id then 0 else
      assert HasId(s[1..], id) by {
        var i :| 0 <= i < |s| && s[i].id == id;
        assert s[1..][i - 1].id == id;
      }
      1 + Position(s[1..], id)
  }

  function SideOf(st: State, id: OrderId): (side: Side)
    requires Rests(st, id)
    ensures HasId(st.book.On(side), id)
  {
    if HasId(st.book.bids, id) then Buy else Sell
  }

  function Tick(st: State): State {
    st.(nextSeq := st.nextSeq + 1)
  }

  function Add(w: Width, st: State, t: Taker, qty: Qty, tif: TimeInForce): (State, Outcome) {
    if qty == 0 || Rests(st, t.id) then (Tick(st), REJECTED)
    else if tif.FOK? && Available(w, st.book.On(t.side.Opposite()), t) < qty then
      (Tick(st), Outcome(true, 0, false, false, []))
    else
      var sw := Sweep(st.book.On(t.side.Opposite()), t, qty, st.nextSeq, st.nextTrade);
      var st' := Tick(st).(book := st.book.With(t.side.Opposite(), sw.makers),
                           nextTrade := st.nextTrade + |sw.trades|);
      Settle(st', t, sw, tif, st.nextSeq)
  }

  /** After the sweep: rest what is left of a good-till-cancelled limit order. */
  function Settle(st: State, t: Taker, sw: Swept, tif: TimeInForce, seqNo: nat): (State, Outcome) {
    if !tif.GTC? || t.bound.Anywhere? || sw.stp || sw.left == 0 then
      (st, Outcome(true, 0, sw.stp, false, sw.trades))
    else if |st.book.bids| + |st.book.asks| >= st.capacity then
      (st, Outcome(true, 0, false, true, sw.trades))
    else
      var r := Resting(t.side, t.bound.price, t.id, sw.left, t.account, seqNo);
      (st.(book := st.book.With(t.side, Insert(t.side, st.book.On(t.side), r))),
       Outcome(true, sw.left, false, false, sw.trades))
  }

  function Remove(st: State, id: OrderId): State
    requires Rests(st, id)
  {
    var side := SideOf(st, id);
    var s := st.book.On(side);
    st.(book := st.book.With(side, RemoveAt(s, Position(s, id))))
  }

  function CancelOrder(st: State, id: OrderId): (State, Outcome) {
    if !Rests(st, id) then (Tick(st), REJECTED)
    else (Tick(Remove(st, id)), Outcome(true, 0, false, false, []))
  }

  /** Would an order at this price trade against the best of the other side? */
  predicate WouldCross(st: State, side: Side, price: Price) {
    var opposite := st.book.On(side.Opposite());
    opposite != [] && if side.Buy? then price >= opposite[0].price else price <= opposite[0].price
  }

  function ModifyOrder(st: State, id: OrderId, price: Price, qty: Qty): (State, Outcome) {
    if qty == 0 || !Rests(st, id) then (Tick(st), REJECTED)
    else
      var side := SideOf(st, id);
      var s := st.book.On(side);
      var k := Position(s, id);
      if price == s[k].price && qty <= s[k].qty then
        (Tick(st).(book := st.book.With(side, s[k := s[k].(qty := qty)])),
         Outcome(true, 0, false, false, []))
      else if WouldCross(st, side, price) then (Tick(st), REJECTED)
      else
        var r := s[k].(price := price, qty := qty, seqNo := st.nextSeq);
        (Tick(st).(book := st.book.With(side, Insert(side, RemoveAt(s, k), r))),
         Outcome(true, 0, false, false, []))
  }

  function LimitTaker(c: Command): Taker {
    Taker(c.id, c.side, AtLimit(c.price), c.account)
  }

  function MarketTaker(c: Command): Taker {
    Taker(c.id, c.side, Anywhere, c.account)
  }

  function Step(w: Width, st: State, c: Command): (State, Outcome) {
    match c.kind
    case Limit => Add(w, st, LimitTaker(c), c.qty, c.tif)
    case Market => Add(w, st, MarketTaker(c), c.qty, IOC)
    case Cancel => CancelOrder(st, c.id)
    case Modify => ModifyOrder(st, c.id, c.price, c.qty)
  }

  /** The outcome of every command of a run, in order. */
  function Run(w: Width, st: State, cs: seq<Command>): (State, seq<Outcome>)
    decreases |cs|
  {
    if cs == [] then (st, [])
    else
      var (st1, outcome) := Step(w, st, cs[0]);
      var (st2, rest) := Run(w, st1, cs[1..]);
      (st2, [outcome] + rest)
  }

  /** One command more at the end of a run. */
  lemma {:induction false} RunAppend(w: Width, st: State, cs: seq<Command>, c: Command)
    ensures
      var (st1, outcomes) := Run(w, st, cs);
      var (st2, r) := Step(w, st1, c);
      Run(w, st, cs + [c]) == (st2, outcomes + [r])
    decreases |cs|
  {
    hide Step;
    if cs == [] {
      assert cs + [c] == [c] && [c][1..] == [];
      var (next, r) := Step(w, st, c);
      assert Run(w, next, []) == (next, []);
      assert [r] + [] == [] + [r];
    } else {
      assert (cs + [c])[1..] == cs[1..] + [c];
      var (next, first) := Step(w, st, cs[0]);
      RunAppend(w, next, cs[1..], c);
      var (st1, outcomes) := Run(w, next, cs[1..]);
      assert [first] + (outcomes + [Step(w, st1, c).1]) == ([first] + outcomes) + [Step(w, st1, c).1];
    }
  }
}
