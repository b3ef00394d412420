/** What holds over whole runs: sequence and trade numbers, conservation of
    quantity, time priority, and what a repositioning modify amounts to. */
module Histories {
  import opened Types
  import opened Sequences
  import opened Matching
  import opened Invariant
  import opened Structure
  import opened Sweeping

  // ---------- numbers ----------

  /** The trades of a run in the order they were made. */
  function AllTrades(outcomes: seq<Outcome>): seq<Trade> {
    if outcomes == [] then [] else outcomes[0].trades + AllTrades(outcomes[1..])
  }

  ghost predicate Numbered(trades: seq<Trade>, tradeId: nat) {
    forall i :: 0 <= i < |trades| ==> trades[i].tradeId == tradeId + i
  }

  lemma {:induction false} SweepNumbers(makers: seq<Resting>, t: Taker, qty: Qty, seqNo: nat, tradeId: nat)
    ensures
      var trades := Sweep(makers, t, qty, seqNo, tradeId).trades;
      Numbered(trades, tradeId) && forall i :: 0 <= i < |trades| ==> trades[i].seqNo == seqNo && trades[i].taker == t.id
  {
    if qty == 0 || Reach(makers, t) == 0 || qty < makers[0].qty {
    } else {
      SweepNumbers(makers[1..], t, qty - makers[0].qty, seqNo, tradeId + 1);
    }
  }

  lemma StepNumbers(w: Width, st: State, c: Command)
    ensures
      var (st', r) := Step(w, st, c);
      && st'.nextSeq == st.nextSeq + 1
      && st'.nextTrade == st.nextTrade + |r.trades|
      && Numbered(r.trades, st.nextTrade)
      && forall i :: 0 <= i < |r.trades| ==> r.trades[i].seqNo == st.nextSeq && r.trades[i].taker == c.id
  {
    hide Sweep;
    if c.kind.Limit? || c.kind.Market? {
      var t := if c.kind.Limit? then LimitTaker(c) else MarketTaker(c);
      SweepNumbers(st.book.On(c.side.Opposite()), t, c.qty, st.nextSeq, st.nextTrade);
    }
  }

  /** Command i of a run takes sequence number i whatever its outcome, its trades
      carry that number, and trade numbers run on without a gap. */
  lemma {:induction false} RunNumbers(w: Width, st: State, cs: seq<Command>)
    ensures
      var (st', outcomes) := Run(w, st, cs);
      && |outcomes| == |cs|
      && st'.nextSeq == st.nextSeq + |cs|
      && st'.nextTrade == st.nextTrade + |AllTrades(outcomes)|
      && Numbered(AllTrades(outcomes), st.nextTrade)
      && forall i, k :: 0 <= i < |cs| && 0 <= k < |outcomes[i].trades| ==>
           outcomes[i].trades[k].seqNo == st.nextSeq + i && outcomes[i].trades[k].taker == cs[i].id
    decreases |cs|
  {
    hide Step;
    if cs != [] {
      StepNumbers(w, st, cs[0]);
      var (st1, first) := Step(w, st, cs[0]);
      RunNumbers(w, st1, cs[1..]);
      var (st', outcomes) := Run(w, st, cs);
      var rest := Run(w, st1, cs[1..]).1;
      assert outcomes == [first] + rest && outcomes[1..] == rest;
      forall i, k | 0 <= i < |cs| && 0 <= k < |outcomes[i].trades|
        ensures outcomes[i].trades[k].seqNo == st.nextSeq + i && outcomes[i].trades[k].taker == cs[i].id
      {
        if i > 0 {
          assert outcomes[i] == rest[i - 1] && cs[i] == cs[1..][i - 1];
        }
      }
    }
  }

  // ---------- conservation ----------

  function Holdings(st: State): nat {
    Total(st.book.bids) + Total(st.book.asks)
  }

  /** What a cancel takes out of the book, or a modify adds to it. */
  function Adjustment(w: Width, st: State, c: Command): int {
    if !Step(w, st, c).1.ok || !Rests(st, c.id) then 0
    else
      var s := st.book.On(SideOf(st, c.id));
      match c.kind
      case Cancel => 0 - s[Position(s, c.id)].qty
      case Modify => c.qty - s[Position(s, c.id)].qty
      case Limit | Market => 0
  }

  lemma {:induction false} TotalAppend(s: seq<Resting>, u: seq<Resting>)
    ensures Total(s + u) == Total(s) + Total(u)
  {
    if s == [] {
      assert s + u == u;
    } else {
      assert (s + u)[1..] == s[1..] + u;
      TotalAppend(s[1..], u);
    }
  }

  lemma TotalRemove(s: seq<Resting>, k: nat)
    requires k < |s|
    ensures Total(RemoveAt(s, k)) == Total(s) - s[k].qty
  {
    TotalAppend(s[..k], s[k + 1..]);
    TotalAppend(s[..k], s[k..]);
    assert s == s[..k] + s[k..];
    assert s[k..][1..] == s[k + 1..];
  }

  lemma TotalInsert(s: seq<Resting>, k: nat, r: Resting)
    requires k <= |s|
    ensures Total(InsertAt(s, k, r)) == Total(s) + r.qty
  {
    TotalRemove(InsertAt(s, k, r), k);
    assert RemoveAt(InsertAt(s, k, r), k) == s;
  }

  lemma TotalUpdate(s: seq<Resting>, k: nat, r: Resting)
    requires k < |s|
    ensures Total(s[k := r]) == Total(s) - s[k].qty + r.qty
  {
    TotalRemove(s, k);
    TotalRemove(s[k := r], k);
    assert RemoveAt(s[k := r], k) == RemoveAt(s, k);
  }

  /** What an accepted add was for was traded, rests, or was dropped. */
  lemma AddConserves(w: Width, st: State, t: Taker, qty: Qty, tif: TimeInForce)
    ensures
      var (st', r) := Add(w, st, t, qty, tif);
      && Traded(r.trades) + r.restingQty <= qty
      && (r.ok && tif.GTC? && t.bound.AtLimit? && !r.stp && !r.exhausted ==> Traded(r.trades) + r.restingQty == qty)
      && Holdings(st') == Holdings(st) + r.restingQty - Traded(r.trades)
  {
    hide Sweep;
    hide Fillable;
    hide Rests;
    var makers := st.book.On(t.side.Opposite());
    SweepConserves(makers, t, qty, st.nextSeq, st.nextTrade);
    var sw := Sweep(makers, t, qty, st.nextSeq, st.nextTrade);
    var own := st.book.On(t.side);
    if t.bound.AtLimit? {
      var r := Resting(t.side, t.bound.price, t.id, sw.left, t.account, st.nextSeq);
      TotalInsert(own, InsertPos(t.side, own, r.price), r);
    }
  }

  lemma ModifyConserves(st: State, id: OrderId, price: Price, qty: Qty)
    requires ModifyOrder(st, id, price, qty).1.ok
    ensures
      var s := st.book.On(SideOf(st, id));
      Holdings(ModifyOrder(st, id, price, qty).0) == Holdings(st) + qty - s[Position(s, id)].qty
  {
    hide InsertPos;
    var side := SideOf(st, id);
    var s := st.book.On(side);
    var k := Position(s, id);
    var r := s[k].(price := price, qty := qty, seqNo := st.nextSeq);
    TotalUpdate(s, k, s[k].(qty := qty));
    TotalRemove(s, k);
    TotalInsert(RemoveAt(s, k), InsertPos(side, RemoveAt(s, k), price), r);
  }

  /** One command changes the quantity that rests by what it rested, less what
      it traded, adjusted by a cancel or a modify. */
  lemma StepConserves(w: Width, st: State, c: Command)
    requires Valid(st)
    ensures
      var (st', r) := Step(w, st, c);
      Holdings(st') == Holdings(st) + r.restingQty - Traded(r.trades) + Adjustment(w, st, c)
  {
    hide Sweep;
    hide BookOk;
    match c.kind
    case Limit => AddConserves(w, st, LimitTaker(c), c.qty, c.tif);
    case Market => AddConserves(w, st, MarketTaker(c), c.qty, IOC);
    case Cancel =>
      if Rests(st, c.id) {
        var s := st.book.On(SideOf(st, c.id));
        TotalRemove(s, Position(s, c.id));
      }
    case Modify =>
      if ModifyOrder(st, c.id, c.price, c.qty).1.ok {
        ModifyConserves(st, c.id, c.price, c.qty);
      }
  }

  /** Everything that entered the book less everything that left it. */
  function Flow(w: Width, st: State, cs: seq<Command>): int
    decreases |cs|
  {
    if cs == [] then 0
    else
      var (st', r) := Step(w, st, cs[0]);
      r.restingQty - Traded(r.trades) + Adjustment(w, st, cs[0]) + Flow(w, st', cs[1..])
  }

  /** Over any run the quantity that rests is all that rested, less all that was
      traded, less all that was cancelled, plus the net of all modifies. */
  lemma {:induction false} RunConserves(w: Width, st: State, cs: seq<Command>)
    requires Valid(st)
    ensures Holdings(Run(w, st, cs).0) == Holdings(st) + Flow(w, st, cs)
    decreases |cs|
  {
    hide Step;
    hide Valid;
    if cs != [] {
      StepConserves(w, st, cs[0]);
      StepKeepsValid(w, st, cs[0]);
      RunConserves(w, Step(w, st, cs[0]).0, cs[1..]);
    }
  }

  // ---------- time priority ----------

  /** The command is a modify that is accepted and sends this order to the back. */
  predicate Repositions(st: State, c: Command, id: OrderId) {
    && c.kind.Modify? && c.id == id && Rests(st, id) && ModifyOrder(st, id, c.price, c.qty).1.ok
    && var s := st.book.On(SideOf(st, id));
       !(c.price == s[Position(s, id)].price && c.qty <= s[Position(s, id)].qty)
  }

  /** r is what is left of the order u: same place in the queue, less quantity. */
  predicate RestOf(r: Resting, u: Resting) {
    r.qty <= u.qty && r == u.(qty := r.qty)
  }

  /** Every order of a side that has an id resting in u before is the rest of
      that order. */
  ghost predicate Continues(s: seq<Resting>, u: seq<Resting>) {
    forall i, j :: 0 <= i < |s| && 0 <= j < |u| && s[i].id == u[j].id ==> RestOf(s[i], u[j])
  }

  lemma TailContinues(s: seq<Resting>, u: seq<Resting>)
    requires TailOf(s, u) && DistinctIds(u)
    ensures Continues(s, u)
  {
    forall i, j | 0 <= i < |s| && 0 <= j < |u| && s[i].id == u[j].id
      ensures RestOf(s[i], u[j])
    {
      var k := |u| - |s| + i;
      assert u[k].id == s[i].id;
      assert k == j;
    }
  }

  lemma InsertContinues(s: seq<Resting>, u: seq<Resting>, k: nat, r: Resting)
    requires Continues(s, u) && !HasId(u, r.id) && k <= |s|
    ensures Continues(InsertAt(s, k, r), u)
  {
    var s' := InsertAt(s, k, r);
    assert forall i :: 0 <= i < |s'| ==> s'[i] == if i < k then s[i] else if i == k then r else s[i - 1];
  }

  lemma RemoveContinues(u: seq<Resting>, k: nat)
    requires DistinctIds(u) && k < |u|
    ensures Continues(RemoveAt(u, k), u)
  {
  }

  lemma UpdateContinues(u: seq<Resting>, k: nat, qty: Qty)
    requires DistinctIds(u) && k < |u| && qty <= u[k].qty
    ensures Continues(u[k := u[k].(qty := qty)], u)
  {
  }

  lemma SameContinues(u: seq<Resting>)
    requires DistinctIds(u)
    ensures Continues(u, u)
  {
  }

  lemma AddContinues(w: Width, st: State, t: Taker, qty: Qty, tif: TimeInForce, side: Side)
    requires Valid(st)
    ensures Continues(Add(w, st, t, qty, tif).0.book.On(side), st.book.On(side))
  {
    hide Sweep;
    hide Fillable;
    hide TailOf;
    hide Continues;
    hide InsertPos;
    hide InsertAt;
    var makers := st.book.On(t.side.Opposite());
    var own := st.book.On(t.side);
    SweepTail(st, t, qty);
    var sw := Sweep(makers, t, qty, st.nextSeq, st.nextTrade);
    TailContinues(sw.makers, makers);
    SameContinues(st.book.bids);
    SameContinues(st.book.asks);
    if t.bound.AtLimit? && !Rests(st, t.id) {
      var r := Resting(t.side, t.bound.price, t.id, sw.left, t.account, st.nextSeq);
      InsertContinues(own, own, InsertPos(t.side, own, r.price), r);
    }
  }

  lemma SweepTail(st: State, t: Taker, qty: Qty)
    requires Valid(st)
    ensures
      var makers := st.book.On(t.side.Opposite());
      TailOf(Sweep(makers, t, qty, st.nextSeq, st.nextTrade).makers, makers)
  {
    SweepLeavesTail(st.book.On(t.side.Opposite()), t, qty, st.nextSeq, st.nextTrade);
  }

  lemma MoveContinues(u: seq<Resting>, k: nat, pos: nat, r: Resting, i: nat, j: nat)
    requires DistinctIds(u) && k < |u| && pos < |u| && r.id == u[k].id
    requires i < |u| && j < |u| && InsertAt(RemoveAt(u, k), pos, r)[i].id == u[j].id != r.id
    ensures RestOf(InsertAt(RemoveAt(u, k), pos, r)[i], u[j])
  {
    RemoveContinues(u, k);
    var s := RemoveAt(u, k);
    assert InsertAt(s, pos, r)[i] == if i < pos then s[i] else if i == pos then r else s[i - 1];
  }

  lemma ModifyContinues(st: State, c: Command, side: Side, i: nat, j: nat)
    requires Valid(st)
    requires i < |ModifyOrder(st, c.id, c.price, c.qty).0.book.On(side)| && j < |st.book.On(side)|
    requires ModifyOrder(st, c.id, c.price, c.qty).0.book.On(side)[i].id == st.book.On(side)[j].id
    requires c.kind.Modify? && !Repositions(st, c, st.book.On(side)[j].id)
    ensures RestOf(ModifyOrder(st, c.id, c.price, c.qty).0.book.On(side)[i], st.book.On(side)[j])
  {
    hide SideOk;
    hide InsertPos;
    hide InsertAt;
    hide RemoveAt;
    hide Uncrossed;
    SameContinues(st.book.On(side));
    if c.qty > 0 && Rests(st, c.id) && SideOf(st, c.id) == side {
      var u := st.book.On(side);
      var k := Position(u, c.id);
      if c.price == u[k].price && c.qty <= u[k].qty {
        UpdateContinues(u, k, c.qty);
      } else if !WouldCross(st, side, c.price) {
        var r := u[k].(price := c.price, qty := c.qty, seqNo := st.nextSeq);
        MoveContinues(u, k, InsertPos(side, RemoveAt(u, k), c.price), r, i, j);
      }
    }
  }

  /** Unless a command sends an order to the back, the order keeps its price and
      its number for as long as it rests. */
  lemma StepContinues(w: Width, st: State, c: Command, side: Side, i: nat, j: nat)
    requires Valid(st)
    requires i < |Step(w, st, c).0.book.On(side)| && j < |st.book.On(side)|
    requires Step(w, st, c).0.book.On(side)[i].id == st.book.On(side)[j].id
    requires !Repositions(st, c, st.book.On(side)[j].id)
    ensures RestOf(Step(w, st, c).0.book.On(side)[i], st.book.On(side)[j])
  {
    hide Sweep;
    hide SideOk;
    hide Uncrossed;
    hide ModifyOrder;
    hide Add;
    match c.kind
    case Limit => AddContinues(w, st, LimitTaker(c), c.qty, c.tif, side);
    case Market => AddContinues(w, st, MarketTaker(c), c.qty, IOC, side);
    case Cancel =>
      SameContinues(st.book.On(side));
      if Rests(st, c.id) {
        var u := st.book.On(SideOf(st, c.id));
        RemoveContinues(u, Position(u, c.id));
      }
    case Modify => ModifyContinues(st, c, side, i, j);
  }

  /** The orders x and y rest on one side at one price, x in front. */
  ghost predicate InFront(st: State, side: Side, x: OrderId, y: OrderId) {
    var s := st.book.On(side);
    exists i, j :: 0 <= i < j < |s| && s[i].id == x && s[j].id == y && s[i].price == s[j].price
  }

  /** Both orders stay in the book and neither is sent to the back. */
  ghost predicate Undisturbed(w: Width, st: State, side: Side, x: OrderId, y: OrderId, cs: seq<Command>)
    decreases |cs|
  {
    cs != [] ==>
      var next := Step(w, st, cs[0]).0;
      && !Repositions(st, cs[0], x) && !Repositions(st, cs[0], y)
      && HasId(next.book.On(side), x) && HasId(next.book.On(side), y)
      && Undisturbed(w, next, side, x, y, cs[1..])
  }

  lemma StepKeepsPriority(w: Width, st: State, c: Command, side: Side, x: OrderId, y: OrderId)
    requires Valid(st) && InFront(st, side, x, y)
    requires !Repositions(st, c, x) && !Repositions(st, c, y)
    requires HasId(Step(w, st, c).0.book.On(side), x) && HasId(Step(w, st, c).0.book.On(side), y)
    ensures InFront(Step(w, st, c).0, side, x, y)
  {
    hide Step;
    hide Repositions;
    var s, s' := st.book.On(side), Step(w, st, c).0.book.On(side);
    var i, j :| 0 <= i < j < |s| && s[i].id == x && s[j].id == y && s[i].price == s[j].price;
    assert Ahead(side, s[i], s[j]);
    var i', j' := Position(s', x), Position(s', y);
    StepContinues(w, st, c, side, i', i);
    StepContinues(w, st, c, side, j', j);
    StepKeepsValid(w, st, c);
    assert j' < i' ==> Ahead(side, s'[j'], s'[i']);
    assert i' == j' ==> x == y;
  }

  /** Of two orders at one price the one in front stays in front over any run,
      for as long as both rest and neither is sent to the back. */
  lemma {:induction false} RunKeepsPriority(w: Width, st: State, side: Side, x: OrderId, y: OrderId, cs: seq<Command>)
    requires Valid(st) && InFront(st, side, x, y) && Undisturbed(w, st, side, x, y, cs)
    ensures InFront(Run(w, st, cs).0, side, x, y)
    decreases |cs|
  {
    hide Step;
    hide Valid;
    hide InFront;
    hide Repositions;
    if cs != [] {
      StepKeepsPriority(w, st, cs[0], side, x, y);
      StepKeepsValid(w, st, cs[0]);
      RunKeepsPriority(w, Step(w, st, cs[0]).0, side, x, y, cs[1..]);
    }
  }

  /** And one that is sent to the back of a level goes behind every order there. */
  lemma RepositionedGoesLast(w: Width, st: State, c: Command, y: OrderId)
    requires Valid(st) && Repositions(st, c, c.id) && y != c.id
    requires
      var s := st.book.On(SideOf(st, c.id));
      HasId(s, y) && s[Position(s, y)].price == c.price
    ensures InFront(Step(w, st, c).0, SideOf(st, c.id), y, c.id)
  {
    hide BookOk;
    hide InsertPos;
    var side := SideOf(st, c.id);
    var s := st.book.On(side);
    var k, j := Position(s, c.id), Position(s, y);
    var rest := RemoveAt(s, k);
    var pos := InsertPos(side, rest, c.price);
    var order := s[k].(price := c.price, qty := c.qty, seqNo := st.nextSeq);
    var s' := InsertAt(rest, pos, order);
    var j' := if j < k then j else j - 1;
    assert rest[j'] == s[j];
    EqualsInFront(st, side, k, c.price);
    assert j' < pos && s'[j'] == s[j] && s'[pos] == order;
    assert Step(w, st, c).0.book.On(side) == s';
  }

  /** Every order at its new price is in front of the place an order moves to. */
  lemma EqualsInFront(st: State, side: Side, k: nat, price: Price)
    requires Valid(st) && k < |st.book.On(side)|
    ensures
      var rest := RemoveAt(st.book.On(side), k);
      forall j :: 0 <= j < |rest| && rest[j].price == price ==> j < InsertPos(side, rest, price)
  {
    hide InsertPos;
    var s := st.book.On(side);
    var rest := RemoveAt(s, k);
    var pos := InsertPos(side, rest, price);
    RemoveKeepsOk(side, s, k, st.nextSeq);
    forall j | pos < j < |rest|
      ensures rest[j].price != price
    {
      assert Ahead(side, rest[pos], rest[j]);
    }
  }

  // ---------- a repositioning modify ----------

  /** A modify that loses priority does what cancelling the order and submitting
      it again would do, without a trade; only the order's number differs, by
      the one command more. */
  lemma ModifyIsCancelAndAdd(w: Width, st: State, c: Command)
    requires Valid(st) && Repositions(st, c, c.id)
    ensures
      var side := SideOf(st, c.id);
      var before := st.book.On(side)[Position(st.book.On(side), c.id)];
      var modified := ModifyOrder(st, c.id, c.price, c.qty).0;
      var (resubmitted, r) :=
        Add(w, CancelOrder(st, c.id).0, Taker(c.id, side, AtLimit(c.price), before.account), c.qty, GTC);
      && r == Outcome(true, c.qty, false, false, [])
      && HasId(modified.book.On(side), c.id)
      && var pos := Position(modified.book.On(side), c.id);
         var order := modified.book.On(side)[pos];
         && order == before.(price := c.price, qty := c.qty, seqNo := st.nextSeq)
         && resubmitted.book
            == modified.book.With(side, modified.book.On(side)[pos := order.(seqNo := st.nextSeq + 1)])
  {
    hide BookOk;
    hide InsertPos;
    var side := SideOf(st, c.id);
    var s := st.book.On(side);
    var k := Position(s, c.id);
    var rest := RemoveAt(s, k);
    var order := s[k].(price := c.price, qty := c.qty, seqNo := st.nextSeq);
    var pos := InsertPos(side, rest, c.price);
    var modified := ModifyOrder(st, c.id, c.price, c.qty).0;
    ModifyKeepsValid(st, c.id, c.price, c.qty);
    assert modified.book.On(side)[pos] == order;
    Located(modified, c.id, side, pos);
    RemoveKeepsBook(st.book, side, k, st.nextSeq);
    var cancelled := CancelOrder(st, c.id).0;
    assert !Rests(cancelled, c.id);
    assert InsertAt(rest, pos, order.(seqNo := st.nextSeq + 1))
        == InsertAt(rest, pos, order)[pos := order.(seqNo := st.nextSeq + 1)];
  }
}
