/** The baseline workload generator. It runs a book of its own and shadows which
    orders rest there, so that every cancel it emits names a live order. */
module Workload {
  import opened Types
  import opened Sequences
  import opened Matching
  import opened Invariant
  import opened Sweeping
  import Book

  // ---------- the shadow of the book ----------

  /** live lists the ids and where tells the place of each. */
  ghost predicate Indexed(live: seq<OrderId>, place: map<OrderId, nat>) {
    && (forall i :: 0 <= i < |live| ==> live[i] in place && place[live[i]] == i)
    && (forall id :: id in place ==> place[id] < |live| && live[place[id]] == id)
  }

  ghost predicate TracksSide(remaining: map<OrderId, Qty>, s: seq<Resting>) {
    forall j :: 0 <= j < |s| ==> s[j].id in remaining && remaining[s[j].id] == s[j].qty
  }

  /** remaining holds the quantity of every resting order and nothing else. */
  ghost predicate Tracks(remaining: map<OrderId, Qty>, book: BySide<seq<Resting>>) {
    && TracksSide(remaining, book.bids)
    && TracksSide(remaining, book.asks)
    && forall id :: id in remaining ==> HasId(book.bids, id) || HasId(book.asks, id)
  }

  class Shadow {
    var live: seq<OrderId>
    var place: map<OrderId, nat>
    var remaining: map<OrderId, Qty>

    ghost predicate Valid()
      reads this
    {
      Indexed(live, place) && place.Keys == remaining.Keys
    }

    constructor ()
      ensures Valid() && live == [] && remaining == map[]
    {
      live, place, remaining := [], map[], map[];
    }

    /** Swaps the last id into the place of the one that goes. */
    method Forget(id: OrderId)
      requires Valid() && id in remaining
      modifies this
      ensures Valid() && remaining == old(remaining) - {id}
    {
      var i := place[id];
      live := live[i := live[|live| - 1]];
      place := place[live[i] := i];
      live := live[..|live| - 1];
      place := place - {id};
      remaining := remaining - {id};
    }

    method Remember(id: OrderId, qty: Qty)
      requires Valid() && id !in remaining
      modifies this
      ensures Valid() && remaining == old(remaining)[id := qty]
    {
      place := place[id := |live|];
      live := live + [id];
      remaining := remaining[id := qty];
    }

    /** Takes a trade off the quantity of its maker. */
    method Fill(id: OrderId, qty: Qty)
      requires Valid() && id in remaining && qty <= remaining[id]
      modifies this
      ensures Valid()
      ensures remaining == if old(remaining[id]) == qty then old(remaining) - {id}
                           else old(remaining)[id := old(remaining[id]) - qty]
    {
      remaining := remaining[id := remaining[id] - qty];
      if remaining[id] == 0 {
        Forget(id);
        assert remaining == old(remaining) - {id};
      }
    }
  }

  // ---------- what each command does to the shadow ----------

  /** Two shadows that agree on every id but one. */
  ghost predicate AgreeBut(a: map<OrderId, Qty>, b: map<OrderId, Qty>, id: OrderId) {
    && (forall other :: other in a && other != id ==> other in b && b[other] == a[other])
    && (forall other :: other in b && other != id ==> other in a)
  }

  /** Replacing one order of a side by the orders of that side without it, and
      perhaps a new version of it. */
  lemma ChangeTracks(remaining: map<OrderId, Qty>, remaining': map<OrderId, Qty>, book: BySide<seq<Resting>>,
                     side: Side, s': seq<Resting>, id: OrderId)
    requires Tracks(remaining, book) && AgreeBut(remaining, remaining', id)
    requires !HasId(book.On(side.Opposite()), id)
    requires forall j :: 0 <= j < |s'| && s'[j].id != id ==> s'[j] in book.On(side)
    requires forall j :: 0 <= j < |s'| && s'[j].id == id ==> id in remaining' && remaining'[id] == s'[j].qty
    requires forall other :: HasId(book.On(side), other) && other != id ==> HasId(s', other)
    requires id in remaining' ==> HasId(s', id)
    ensures Tracks(remaining', book.With(side, s'))
  {
    var o := book.On(side.Opposite());
    forall j | 0 <= j < |s'|
      ensures s'[j].id in remaining' && remaining'[s'[j].id] == s'[j].qty
    {
      if s'[j].id != id {
        var s := book.On(side);
        var i :| 0 <= i < |s| && s[i] == s'[j];
      }
    }
  }

  /** What is on a side after its best order was filled. */
  lemma FilledOrders(o: seq<Resting>, fill: Qty)
    requires o != [] && DistinctIds(o) && fill <= o[0].qty
    ensures
      var o' := Filled(o, fill);
      && (forall j :: 0 <= j < |o'| && o'[j].id != o[0].id ==> o'[j] in o)
      && (forall j :: 0 <= j < |o'| && o'[j].id == o[0].id ==> fill < o[0].qty && o'[j].qty == o[0].qty - fill)
      && (forall other :: HasId(o, other) && other != o[0].id ==> HasId(o', other))
      && (fill < o[0].qty ==> HasId(o', o[0].id))
  {
    var o' := Filled(o, fill);
    var k := if fill == o[0].qty then 1 else 0;
    assert forall j :: 1 - k <= j < |o'| ==> o'[j] == o[j + k];
    forall other | HasId(o, other) && other != o[0].id
      ensures HasId(o', other)
    {
      var i := Position(o, other);
      assert o'[i - k].id == other;
    }
    if fill < o[0].qty {
      assert o'[0].id == o[0].id;
    }
  }

  lemma FillTracks(remaining: map<OrderId, Qty>, book: BySide<seq<Resting>>, side: Side, fill: Qty, nextSeq: nat)
    requires BookOk(book, nextSeq) && Tracks(remaining, book)
    requires book.On(side) != [] && fill <= book.On(side)[0].qty
    ensures
      var r := book.On(side)[0];
      && r.id in remaining && remaining[r.id] == r.qty
      && Tracks(if fill == r.qty then remaining - {r.id} else remaining[r.id := r.qty - fill],
                book.With(side, Filled(book.On(side), fill)))
  {
    hide SideOk;
    hide Uncrossed;
    hide DistinctIds;
    hide Filled;
    var o := book.On(side);
    var r := o[0];
    FilledOrders(o, fill);
    var remaining' := if fill == r.qty then remaining - {r.id} else remaining[r.id := r.qty - fill];
    ChangeTracks(remaining, remaining', book, side, Filled(o, fill), r.id);
  }

  lemma RemoveTracks(remaining: map<OrderId, Qty>, st: State, id: OrderId)
    requires Valid(st) && Tracks(remaining, st.book) && Rests(st, id)
    ensures Tracks(remaining - {id}, Remove(st, id).book)
  {
    hide SideOk;
    hide Uncrossed;
    var side := SideOf(st, id);
    var s := st.book.On(side);
    var k := Position(s, id);
    var s' := RemoveAt(s, k);
    forall other | HasId(s, other) && other != id
      ensures HasId(s', other)
    {
      var i := Position(s, other);
      assert s'[if i < k then i else i - 1].id == other;
    }
    ChangeTracks(remaining, remaining - {id}, st.book, side, s', id);
  }

  lemma InsertTracks(remaining: map<OrderId, Qty>, st: State, side: Side, k: nat, r: Resting)
    requires Tracks(remaining, st.book) && !Rests(st, r.id) && k <= |st.book.On(side)|
    ensures r.id !in remaining
    ensures Tracks(remaining[r.id := r.qty], st.book.With(side, InsertAt(st.book.On(side), k, r)))
  {
    var s := st.book.On(side);
    var s' := InsertAt(s, k, r);
    assert forall j :: 0 <= j < |s'| ==> s'[j] == if j < k then s[j] else if j == k then r else s[j - 1];
    forall id | id in remaining[r.id := r.qty]
      ensures HasId(st.book.With(side, s').bids, id) || HasId(st.book.With(side, s').asks, id)
    {
      if id == r.id {
        assert s'[k].id == id;
      } else if HasId(s, id) {
        var i := Position(s, id);
        assert s'[if i < k then i else i + 1].id == id;
      }
    }
  }

  /** The first trade of a sweep, if it makes any. */
  lemma FirstTrade(makers: seq<Resting>, t: Taker, qty: Qty, seqNo: nat, tradeId: nat)
    requires Sweep(makers, t, qty, seqNo, tradeId).trades != []
    ensures makers != [] && qty > 0
    ensures
      var fill := Min(qty, makers[0].qty);
      && Sweep(makers, t, qty, seqNo, tradeId).trades[0] == Fill(t, makers[0], qty, seqNo, tradeId)
      && Sweep(makers, t, qty, seqNo, tradeId)
         == After([Fill(t, makers[0], qty, seqNo, tradeId)],
                  Sweep(Filled(makers, fill), t, qty - fill, seqNo, tradeId + 1))
  {
    SweepStep(makers, t, qty, seqNo, tradeId);
  }

  /** Brings the shadow up to date with the first trade of a sweep. */
  method TakeTrade(shadow: Shadow, trade: Trade, ghost book: BySide<seq<Resting>>, ghost t: Taker, ghost qty: Qty,
                   ghost seqNo: nat, ghost tradeId: nat) returns (ghost book': BySide<seq<Resting>>, ghost left: Qty)
    requires shadow.Valid() && Tracks(shadow.remaining, book) && BookOk(book, seqNo)
    requires
      var trades := Sweep(book.On(t.side.Opposite()), t, qty, seqNo, tradeId).trades;
      trades != [] && trades[0] == trade
    modifies shadow
    ensures shadow.Valid() && Tracks(shadow.remaining, book') && BookOk(book', seqNo)
    ensures shadow.remaining.Keys <= old(shadow.remaining.Keys)
    ensures book' == book.With(t.side.Opposite(), book'.On(t.side.Opposite()))
    ensures
      var before := Sweep(book.On(t.side.Opposite()), t, qty, seqNo, tradeId);
      var after := Sweep(book'.On(t.side.Opposite()), t, left, seqNo, tradeId + 1);
      after.trades == before.trades[1..] && after.makers == before.makers
  {
    hide BookOk;
    hide Tracks;
    hide Sweep;
    ghost var side := t.side.Opposite();
    ghost var makers := book.On(side);
    FirstTrade(makers, t, qty, seqNo, tradeId);
    ghost var fill := Min(qty, makers[0].qty);
    FillTracks(shadow.remaining, book, side, fill, seqNo);
    FillKeepsBook(book, side, fill, seqNo);
    shadow.Fill(trade.maker, trade.qty);
    book', left := book.With(side, Filled(makers, fill)), qty - fill;
  }

  /** Brings the shadow up to date with the trades of one sweep. */
  method TakeTrades(shadow: Shadow, trades: seq<Trade>, ghost st: State, ghost t: Taker, ghost qty: Qty)
    requires shadow.Valid() && Tracks(shadow.remaining, st.book) && BookOk(st.book, st.nextSeq)
    requires trades == Sweep(st.book.On(t.side.Opposite()), t, qty, st.nextSeq, st.nextTrade).trades
    modifies shadow
    ensures shadow.Valid()
    ensures Tracks(shadow.remaining, SweptBook(st, t, qty).book)
    ensures shadow.remaining.Keys <= old(shadow.remaining.Keys)
  {
    hide BookOk;
    hide Tracks;
    hide Sweep;
    ghost var side := t.side.Opposite();
    ghost var book, left := st.book, qty;
    ghost var sw := Sweep(book.On(side), t, qty, st.nextSeq, st.nextTrade);
    for i := 0 to |trades|
      invariant shadow.Valid() && shadow.remaining.Keys <= old(shadow.remaining.Keys)
      invariant Sweep(book.On(side), t, left, st.nextSeq, st.nextTrade + i).trades == trades[i..]
      invariant Sweep(book.On(side), t, left, st.nextSeq, st.nextTrade + i).makers == sw.makers
      invariant book == st.book.With(side, book.On(side))
      invariant Tracks(shadow.remaining, book) && BookOk(book, st.nextSeq)
    {
      book, left := TakeTrade(shadow, trades[i], book, t, left, st.nextSeq, st.nextTrade + i);
      assert trades[i..][1..] == trades[i + 1..];
    }
    NoTrades(book.On(side), t, left, st.nextSeq, st.nextTrade + |trades|);
  }

  lemma NoTrades(makers: seq<Resting>, t: Taker, qty: Qty, seqNo: nat, tradeId: nat)
    requires Sweep(makers, t, qty, seqNo, tradeId).trades == []
    ensures Sweep(makers, t, qty, seqNo, tradeId).makers == makers
  {
  }

  // ---------- random draws ----------

  /** A source of numbers; which ones it yields does not matter here. */
  class Rng {
    const stream: nat -> nat
    var drawn: nat

    constructor (stream: nat -> nat)
    {
      this.stream := stream;
      drawn := 0;
    }

    method Below(n: nat) returns (r: nat)
      requires n > 0
      modifies this
      ensures r == stream(old(drawn)) % n && drawn == old(drawn) + 1
    {
      r := stream(drawn) % n;
      drawn := drawn + 1;
    }
  }

  const SCALE: nat := 0x100_0000_0000

  /** The sum of 2^40 / rank, rounded down, over the ranks up to r. */
  function ZipfWeight(r: nat): nat {
    if r == 0 then 0 else ZipfWeight(r - 1) + SCALE / r
  }

  lemma Shares(a: nat, m: nat, r: nat)
    requires 0 < m <= r
    ensures m * (a / r) <= a
  {
    var share := a / r;
    assert a == r * share + a % r;
    assert r * share == m * share + (r - m) * share;
  }

  lemma TimesSum(m: nat, a: int, b: int)
    ensures m * (a + b) == m * a + m * b
  {
  }

  lemma TimesLarger(m: nat, a: int, b: int)
    requires m > 0 && a > b
    ensures m * a > m * b
  {
    TimesSum(m, b, a - b);
  }

  lemma TimesMore(m: nat, a: nat, b: nat)
    requires a <= b
    ensures a * m <= b * m
  {
  }

  /** Each of the k ranks behind m weighs at most a share of 1 / m. */
  lemma {:induction false} WeightsBehind(m: nat, k: nat)
    requires m > 0
    ensures m * (ZipfWeight(m + k) - ZipfWeight(m)) <= k * SCALE
    decreases k
  {
    if k > 0 {
      WeightsBehind(m, k - 1);
      Shares(SCALE, m, m + k);
      TimesSum(m, ZipfWeight(m + k - 1) - ZipfWeight(m), SCALE / (m + k));
    }
  }

  /** Twice as many ranks weigh at most one 2^40 more. */
  lemma WeightDoubled(m: nat, k: nat)
    requires 0 < m && k <= m
    ensures ZipfWeight(m + k) <= ZipfWeight(m) + SCALE
  {
    hide ZipfWeight;
    WeightsBehind(m, k);
    if ZipfWeight(m + k) - ZipfWeight(m) > SCALE {
      TimesLarger(m, ZipfWeight(m + k) - ZipfWeight(m), SCALE);
    }
  }

  /** So the weights grow like a logarithm and fit 64 bits easily. */
  lemma {:induction false} WeightBound(r: nat, e: nat)
    requires r <= Power2(e)
    ensures ZipfWeight(r) <= SCALE * (e + 1)
    decreases e
  {
    if r <= 1 {
      assert ZipfWeight(0) == 0 && ZipfWeight(1) == SCALE;
    } else {
      var m := (r + 1) / 2;
      WeightBound(m, e - 1);
      WeightDoubled(m, r - m);
    }
  }

  lemma WeightFits(r: nat)
    requires r < TWO32
    ensures ZipfWeight(r) < 0x1_0000_0000_0000_0000
  {
    assert Power2(8) == 256;
    assert Power2(16) == 0x1_0000;
    assert Power2(24) == 0x100_0000;
    assert Power2(32) == TWO32;
    WeightBound(r, 32);
  }

  /** The table's loop counter, a 32-bit word, after k rounds. */
  function Counter(k: nat): Qty {
    Wrap(1 + k)
  }

  /** The counter gets past n, and the loop ends, unless n is the largest
      32-bit number: then the counter wraps to zero, which is divided by. */
  lemma CounterPassesIff(n: Qty)
    ensures (exists k: nat :: Counter(k) > n) <==> n < NIL
  {
    if n < NIL {
      assert Counter(n) > n;
    }
  }

  method ZipfCdf(n: Qty) returns (cdf: seq<OrderId>)
    requires n < NIL
    ensures |cdf| == n
    ensures forall i :: 0 <= i < n ==> cdf[i] == ZipfWeight(i + 1)
    ensures forall i, j :: 0 <= i < j < n ==> cdf[i] < cdf[j]
  {
    cdf := [];
    var sum: OrderId := 0;
    var r: Index := 1;
    while r <= n
      invariant 1 <= r <= n + 1
      invariant |cdf| == r - 1 && sum == ZipfWeight(r - 1)
      invariant forall i :: 0 <= i < r - 1 ==> cdf[i] == ZipfWeight(i + 1) <= sum
      invariant forall i, j :: 0 <= i < j < r - 1 ==> cdf[i] < cdf[j]
    {
      WeightIsPositive(r);
      WeightFits(r);
      sum := sum + SCALE / r;
      cdf := cdf + [sum];
      r := r + 1;
    }
  }

  lemma WeightIsPositive(r: nat)
    requires 0 < r < TWO32
    ensures SCALE / r > 0
  {
    assert SCALE == r * (SCALE / r) + SCALE % r;
  }

  /** The first position whose value is above u. */
  method UpperBound(cdf: seq<OrderId>, u: nat) returns (k: nat)
    requires forall i, j :: 0 <= i < j < |cdf| ==> cdf[i] < cdf[j]
    ensures k <= |cdf|
    ensures forall i :: 0 <= i < k ==> cdf[i] <= u
    ensures forall i :: k <= i < |cdf| ==> cdf[i] > u
  {
    k := 0;
    var rest: nat := |cdf|;
    while rest > 0
      invariant k + rest <= |cdf|
      invariant forall i :: 0 <= i < k ==> cdf[i] <= u
      invariant forall i :: k + rest <= i < |cdf| ==> cdf[i] > u
    {
      var half := rest / 2;
      if cdf[k + half] <= u {
        k := k + half + 1;
        rest := rest - half - 1;
      } else {
        rest := half;
      }
    }
  }

  // ---------- prices ----------

  datatype Params = Params(
    mid: Price, maxOffset: Qty, crossShift: Qty, cancelPercent: Qty, targetResting: Qty, maxQty: Qty)

  /** The price of an order of this rank. */
  function PriceAt(p: Params, side: Side, rank: nat): int {
    var offset := rank - p.crossShift;
    if side.Buy? then p.mid - offset else p.mid + offset
  }

  predicate IsPrice(x: int) {
    -0x8000_0000_0000_0000 <= x < 0x8000_0000_0000_0000
  }

  /** The prices of the first and the last rank fit 64 bits on both sides. */
  predicate PricesFit(p: Params) {
    && IsPrice(PriceAt(p, Buy, 1)) && IsPrice(PriceAt(p, Sell, 1))
    && IsPrice(PriceAt(p, Buy, p.maxOffset)) && IsPrice(PriceAt(p, Sell, p.maxOffset))
  }

  /** That is what it takes for no price to overflow. */
  lemma PricesFitIff(p: Params)
    requires p.maxOffset > 0
    ensures PricesFit(p) <==> forall side, rank :: 1 <= rank <= p.maxOffset ==> IsPrice(PriceAt(p, side, rank))
  {
  }

  /** The draw u selects the rank: the first whose cumulative weight is above it. */
  ghost predicate Selects(cdf: seq<OrderId>, u: nat, rank: nat) {
    && 1 <= rank <= |cdf|
    && u < cdf[rank - 1]
    && (rank > 1 ==> cdf[rank - 2] <= u)
  }

  /** The span the parameters speak of: maxOffset to either side of the middle. */
  predicate InSpan(p: Params, price: int) {
    p.mid - p.maxOffset <= price <= p.mid + p.maxOffset
  }

  /** Every price that can be drawn lies in the span if and only if crossShift is
      at most maxOffset + 1: it is the first rank, across the middle, that leaves
      it, and the first rank can always be drawn. */
  lemma SpanHoldsIff(p: Params, cdf: seq<OrderId>)
    requires |cdf| == p.maxOffset > 0 && forall i :: 0 <= i < |cdf| ==> cdf[i] == ZipfWeight(i + 1)
    ensures (forall side, u, rank :: Selects(cdf, u, rank) ==> InSpan(p, PriceAt(p, side, rank)))
            <==> p.crossShift <= p.maxOffset + 1
  {
    assert ZipfWeight(0) == 0 && cdf[0] == SCALE;
    assert Selects(cdf, 0, 1);
    assert InSpan(p, PriceAt(p, Buy, 1)) <==> p.crossShift <= p.maxOffset + 1;
  }

  /** With maxOffset 1 and crossShift 3 every buy lands at mid + 2. */
  lemma SpanFails(cdf: seq<OrderId>, u: nat, rank: nat)
    requires |cdf| == 1 && Selects(cdf, u, rank)
    ensures
      var p := Params(100_000, 1, 3, 30, 3000, 100);
      PriceAt(p, Buy, rank) == p.mid + 2 && !InSpan(p, PriceAt(p, Buy, rank))
  {
  }

  // ---------- the generator ----------

  const PPM: nat := 1_000_000
  const MAX_CANCEL_PPM: nat := 900_000
  const BOOK_CAPACITY: Index := 0x1_0000

  /** The shadow describes the generator's book, whose ids are all below next. */
  ghost predicate InStep(book: Book.Book, shadow: Shadow, next: nat)
    reads book.Repr(), shadow
  {
    && book.Valid() && shadow.Valid() && shadow !in book.Repr()
    && book.model.capacity == BOOK_CAPACITY
    && Tracks(shadow.remaining, book.model.book)
    && forall id :: id in shadow.remaining ==> id < next
  }

  lemma TrackedRests(remaining: map<OrderId, Qty>, st: State, id: OrderId)
    requires Tracks(remaining, st.book)
    ensures id in remaining <==> Rests(st, id)
  {
  }

  /** Cancels a live order. */
  method EmitCancel(book: Book.Book, shadow: Shadow, id: OrderId, ghost next: nat)
    requires InStep(book, shadow, next) && id in shadow.remaining
    modifies book.Repr(), shadow
    ensures InStep(book, shadow, next)
    ensures (book.model, Outcome(true, 0, false, false, [])) == CancelOrder(old(book.model), id)
  {
    hide Book.Book.Valid;
    hide Tracks;
    hide Indexed;
    ghost var st := book.model;
    BookStateValid(book);
    TrackedRests(shadow.remaining, st, id);
    RemoveTracks(shadow.remaining, st, id);
    var ok := book.CancelOrder(id);
    shadow.Forget(id);
  }

  lemma BookStateValid(book: Book.Book)
    requires book.Valid()
    ensures Valid(book.model)
  {
  }

  /** Submits a fresh order and brings the shadow up to date. */
  method EmitLimit(book: Book.Book, shadow: Shadow, id: OrderId, side: Side, price: Price, qty: Qty, account: Account)
    requires InStep(book, shadow, id) && qty > 0
    modifies book.Repr(), shadow
    ensures InStep(book, shadow, id + 1)
    ensures
      var (st', r) := Add(Word32, old(book.model), Taker(id, side, AtLimit(price), account), qty, GTC);
      book.model == st' && r.ok
  {
    hide Book.Book.Valid;
    hide Tracks;
    hide Indexed;
    hide Sweep;
    hide BookOk;
    ghost var st := book.model;
    ghost var t := Taker(id, side, AtLimit(price), account);
    BookStateValid(book);
    TrackedRests(shadow.remaining, st, id);
    SweepKeepsValid(st, t, qty);
    var r := book.AddLimitOrder(id, side, price, qty, account, GTC);
    TakeTrades(shadow, r.trades, st, t, qty);
    ghost var swept := SweptBook(st, t, qty);
    if r.restingQty > 0 {
      ghost var resting := Resting(side, price, id, r.restingQty, account, st.nextSeq);
      InsertTracks(shadow.remaining, swept, side, InsertPos(side, swept.book.On(side), price), resting);
      shadow.Remember(id, r.restingQty);
    }
  }

  ghost predicate AllOk(outcomes: seq<Outcome>) {
    forall i :: 0 <= i < |outcomes| ==> outcomes[i].ok
  }

  /** The parameters a draw can be made with: there is something to draw from
      and every price fits. */
  ghost predicate Usable(p: Params) {
    p.maxOffset > 0 && p.maxQty > 0 && p.targetResting > 0 && PricesFit(p)
  }

  ghost predicate TableFor(p: Params, cdf: seq<OrderId>) {
    && |cdf| == p.maxOffset
    && (forall i :: 0 <= i < |cdf| ==> cdf[i] == ZipfWeight(i + 1))
    && forall i, j :: 0 <= i < j < |cdf| ==> cdf[i] < cdf[j]
  }

  /** The cumulative weights of all ranks. */
  ghost function Table(p: Params): seq<OrderId> {
    seq<OrderId>(p.maxOffset, i requires 0 <= i < p.maxOffset => WeightOf(i + 1))
  }

  function WeightOf(r: nat): OrderId
    requires r < TWO32
  {
    WeightFits(r);
    ZipfWeight(r)
  }

  lemma TableIsPositive(p: Params, cdf: seq<OrderId>)
    requires TableFor(p, cdf) && p.maxOffset > 0
    ensures cdf[0] == SCALE && cdf[|cdf| - 1] > 0
  {
    assert ZipfWeight(0) == 0;
  }

  /** The price is that of some rank a draw can select. */
  ghost predicate PriceDrawn(p: Params, cdf: seq<OrderId>, c: Command) {
    exists u, rank :: Selects(cdf, u, rank) && c.price == PriceAt(p, c.side, rank)
  }

  /** The limit order that three draws from d on make: they decide its side, the
      rank of its price and its quantity. */
  ghost predicate LimitDrawn(p: Params, cdf: seq<OrderId>, stream: nat -> nat, d: nat, c: Command) {
    && c.kind.Limit? && c.tif.GTC? && c.account == Wrap(c.id)
    && c.side == (if stream(d) % 2 == 0 then Buy else Sell)
    && p.maxQty > 0 && c.qty == stream(d + 2) % p.maxQty + 1
    && |cdf| > 0 && cdf[|cdf| - 1] > 0
    && exists rank :: Selects(cdf, stream(d + 1) % cdf[|cdf| - 1], rank) && c.price == PriceAt(p, c.side, rank)
  }

  /** A limit order drawn at random. */
  method DrawLimit(p: Params, rng: Rng, cdf: seq<OrderId>, id: OrderId) returns (c: Command, ghost rank: nat)
    requires Usable(p) && TableFor(p, cdf)
    modifies rng
    ensures rng.drawn == old(rng.drawn) + 3
    ensures c.id == id && LimitDrawn(p, cdf, rng.stream, old(rng.drawn), c)
  {
    TableIsPositive(p, cdf);
    var coin := rng.Below(2);
    var side := if coin == 0 then Buy else Sell;
    var u := rng.Below(cdf[|cdf| - 1]);
    var at := UpperBound(cdf, u);
    rank := at + 1;
    PricesFitIff(p);
    assert IsPrice(PriceAt(p, side, rank));
    var offset: int := at + 1 - p.crossShift as int;
    var price: Price := if side.Buy? then p.mid as int - offset else p.mid as int + offset;
    var lots := rng.Below(p.maxQty);
    c := Command(Limit, id, side, GTC, price, lots + 1, Wrap(id));
  }

  /** The ids of a book's orders. */
  function RestingIds(book: BySide<seq<Resting>>): (ids: seq<OrderId>)
    ensures |ids| == |book.bids| + |book.asks|
    ensures forall i :: 0 <= i < |book.bids| ==> ids[i] == book.bids[i].id
    ensures forall i :: 0 <= i < |book.asks| ==> ids[|book.bids| + i] == book.asks[i].id
  {
    seq(|book.bids|, i requires 0 <= i < |book.bids| => book.bids[i].id)
    + seq(|book.asks|, i requires 0 <= i < |book.asks| => book.asks[i].id)
  }

  lemma RestingIdsDistinct(book: BySide<seq<Resting>>)
    requires DistinctIds(book.bids) && DistinctIds(book.asks) && DisjointIds(book.bids, book.asks)
    ensures Distinct(RestingIds(book))
  {
    var ids, n := RestingIds(book), |book.bids|;
    forall i, j | 0 <= i < j < |ids|
      ensures ids[i] != ids[j]
    {
      if i < n {
        assert ids[i] == book.bids[i].id && ids[j] == if j < n then book.bids[j].id else book.asks[j - n].id;
      } else {
        assert ids[i] == book.asks[i - n].id && ids[j] == book.asks[j - n].id;
      }
    }
  }

  lemma TrackedIds(remaining: map<OrderId, Qty>, book: BySide<seq<Resting>>, id: OrderId)
    requires Tracks(remaining, book)
    ensures id in remaining <==> id in RestingIds(book)
  {
    var ids := RestingIds(book);
    if HasId(book.bids, id) {
      assert ids[Position(book.bids, id)] == id;
    } else if HasId(book.asks, id) {
      assert ids[|book.bids| + Position(book.asks, id)] == id;
    }
    if id in ids {
      var i :| 0 <= i < |ids| && ids[i] == id;
      assert id == if i < |book.bids| then book.bids[i].id else book.asks[i - |book.bids|].id;
    }
  }

  /** Exactly as many ids are live as orders rest. */
  lemma LiveRest(live: seq<OrderId>, place: map<OrderId, nat>, remaining: map<OrderId, Qty>, book: BySide<seq<Resting>>)
    requires Indexed(live, place) && place.Keys == remaining.Keys && Tracks(remaining, book)
    requires DistinctIds(book.bids) && DistinctIds(book.asks) && DisjointIds(book.bids, book.asks)
    ensures |live| == |book.bids| + |book.asks|
  {
    hide Tracks;
    hide DistinctIds;
    hide DisjointIds;
    hide RestingIds;
    var ids := RestingIds(book);
    RestingIdsDistinct(book);
    forall id
      ensures id in live <==> id in ids
    {
      TrackedIds(remaining, book, id);
      assert id in place.Keys <==> id in remaining.Keys;
      assert id in live <==> id in place;
    }
    assert Distinct(live);
    DistinctWithin(live, set x | x in ids);
    MembersSize(ids);
    DistinctWithin(ids, set x | x in live);
    MembersSize(live);
  }

  lemma LiveFits(book: Book.Book, shadow: Shadow, next: nat)
    requires InStep(book, shadow, next)
    ensures |shadow.live| == |book.model.book.bids| + |book.model.book.asks| <= BOOK_CAPACITY
  {
    hide Book.Book.Valid;
    hide Indexed;
    hide Tracks;
    hide DistinctIds;
    hide DisjointIds;
    BookStateValid(book);
    LiveRest(shadow.live, shadow.place, shadow.remaining, book.model.book);
  }

  /** How likely a cancel is, in millionths. The product fits 64 bits. */
  function CancelPpm(p: Params, live: nat): (ppm: nat)
    requires p.targetResting > 0 && live <= BOOK_CAPACITY
    ensures ppm <= MAX_CANCEL_PPM
  {
    var percent: nat := p.cancelPercent;
    TimesMore(live, percent * (PPM / 100), TWO32 * (PPM / 100));
    var product: OrderId := percent * (PPM / 100) * live;
    var ppm := product as nat / p.targetResting as nat;
    if ppm < MAX_CANCEL_PPM then ppm else MAX_CANCEL_PPM
  }

  /** With target_resting orders live the share of cancels is cancel_percent, up
      to nine in ten, and it never falls as more orders are live. */
  lemma CancelShare(p: Params, live: nat, more: nat)
    requires 0 < p.targetResting && live <= more <= BOOK_CAPACITY
    ensures live == p.targetResting ==>
              CancelPpm(p, live) == (if p.cancelPercent < 90 then 10_000 * p.cancelPercent else 900_000)
    ensures CancelPpm(p, live) <= CancelPpm(p, more)
    ensures CancelPpm(p, 0) == 0
  {
    var percent: nat := p.cancelPercent;
    var unit := percent * (PPM / 100);
    TimesMore(unit, live, more);
    QuotientGrows(live * unit, more * unit, p.targetResting);
    assert live * unit == unit * live && more * unit == unit * more;
    if live == p.targetResting {
      WholeQuotient(unit, live);
      assert live * unit == unit * live;
    }
  }

  lemma Divided(a: nat, n: nat) returns (q: nat, r: nat)
    requires n > 0
    ensures q == a / n && r < n && a == n * q + r
  {
    q, r := a / n, a % n;
  }

  lemma OneMoreTime(n: nat, a: nat, b: nat)
    requires a > b
    ensures n * a >= n * b + n
  {
    TimesSum(n, b, a - b);
    TimesMore(n, 1, a - b);
    assert (a - b) * n == n * (a - b);
  }

  lemma QuotientGrows(a: nat, b: nat, n: nat)
    requires a <= b && n > 0
    ensures a / n <= b / n
  {
    var p, r := Divided(a, n);
    var q, t := Divided(b, n);
    if p > q {
      OneMoreTime(n, p, q);
    }
  }

  lemma WholeQuotient(a: nat, n: nat)
    requires n > 0
    ensures (n * a) / n == a
  {
    var q, r := Divided(n * a, n);
    if q > a {
      OneMoreTime(n, q, a);
    } else if a > q {
      OneMoreTime(n, a, q);
    }
  }

  /** A limit order as the generator makes them, or a cancel. */
  ghost predicate Drawn(p: Params, cdf: seq<OrderId>, c: Command, next: nat) {
    || c.kind.Cancel?
    || (c.kind.Limit? && c.id == next && c.account == Wrap(c.id) && 0 < c.qty <= p.maxQty && PriceDrawn(p, cdf, c))
  }

  lemma CancelIsDrawn(p: Params, cdf: seq<OrderId>, c: Command, next: nat)
    requires c.kind.Cancel?
    ensures Drawn(p, cdf, c, next)
  {
  }

  lemma LimitIsDrawn(p: Params, cdf: seq<OrderId>, stream: nat -> nat, d: nat, c: Command)
    requires LimitDrawn(p, cdf, stream, d, c)
    ensures Drawn(p, cdf, c, c.id) && c.kind.Limit? && c.tif.GTC? && c.qty > 0
  {
  }

  /** Draws one command, runs it on the generator's book and shadows it. */
  method Emit(p: Params, rng: Rng, cdf: seq<OrderId>, book: Book.Book, shadow: Shadow, next: OrderId)
      returns (c: Command, next': nat)
    requires Usable(p) && TableFor(p, cdf)
    requires InStep(book, shadow, next) && rng !in book.Repr()
    modifies rng, shadow, book.Repr()
    ensures InStep(book, shadow, next')
    ensures Drawn(p, cdf, c, next) && next <= next' <= next + 1
    ensures book.model == Step(Word32, old(book.model), c).0 && Step(Word32, old(book.model), c).1.ok
    ensures
      var d, live := old(rng.drawn), old(shadow.live);
      && |live| <= BOOK_CAPACITY
      && if live != [] && rng.stream(d) % 1_000_000 < CancelPpm(p, |live|)
         then c == Command(Cancel, live[rng.stream(d + 1) % |live|], Buy, GTC, 0, 0, 0) && rng.drawn == d + 2 && next' == next
         else
           var first := if live == [] then d else d + 1;
           c.id == next && LimitDrawn(p, cdf, rng.stream, first, c) && rng.drawn == first + 3 && next' == next + 1
  {
    hide InStep;
    hide Step;
    hide TableFor;
    hide Selects;
    hide PriceAt;
    hide PricesFit;
    hide LimitDrawn;
    hide CancelPpm;
    hide Drawn;
    next' := next;
    LiveFits(book, shadow, next);
    var cancelPpm := CancelPpm(p, |shadow.live|);
    var cancel := false;
    if shadow.live != [] {
      var draw := rng.Below(PPM);
      cancel := draw < cancelPpm;
    }
    if cancel {
      var k := rng.Below(|shadow.live|);
      c := Command(Cancel, shadow.live[k], Buy, GTC, 0, 0, 0);
      LiveIsTracked(book, shadow, next, k);
      StepOfCancel(book.model, c);
      EmitCancel(book, shadow, c.id, next);
      CancelIsDrawn(p, cdf, c, next);
    } else {
      ghost var rank;
      ghost var first := rng.drawn;
      c, rank := DrawLimit(p, rng, cdf, next);
      LimitIsDrawn(p, cdf, rng.stream, first, c);
      StepOfLimit(book.model, c);
      EmitLimit(book, shadow, c.id, c.side, c.price, c.qty, c.account);
      next' := next + 1;
    }
  }

  // ---------- the whole workload ----------

  /** Where the generator stands: its book, how many numbers it has drawn, and the
      id of the next limit order. */
  datatype Point = Point(st: State, drawn: nat, next: nat)

  /** A cancel is due: the draw falls within the share of cancels for as many
      orders as rest. */
  ghost predicate CancelDue(p: Params, stream: nat -> nat, at: Point) {
    var n := |at.st.book.bids| + |at.st.book.asks|;
    0 < n <= BOOK_CAPACITY && p.targetResting > 0 && stream(at.drawn) % 1_000_000 < CancelPpm(p, n)
  }

  /** The draw that decides the first property of a limit order. */
  ghost function LimitDraw(at: Point): nat {
    if at.st.book.bids == [] && at.st.book.asks == [] then at.drawn else at.drawn + 1
  }

  /** The command is the next one from here: a cancel of a resting order if that
      is due, and the drawn limit order otherwise. */
  ghost predicate IsNext(p: Params, cdf: seq<OrderId>, stream: nat -> nat, at: Point, c: Command) {
    if CancelDue(p, stream, at) then c == Command(Cancel, c.id, Buy, GTC, 0, 0, 0) && Rests(at.st, c.id)
    else c.id == at.next && LimitDrawn(p, cdf, stream, LimitDraw(at), c)
  }

  ghost function Onward(p: Params, stream: nat -> nat, at: Point, c: Command): Point {
    var st := Step(Word32, at.st, c).0;
    if CancelDue(p, stream, at) then Point(st, at.drawn + 2, at.next) else Point(st, LimitDraw(at) + 3, at.next + 1)
  }

  ghost function Reached(p: Params, stream: nat -> nat, at: Point, cs: seq<Command>): Point
    decreases |cs|
  {
    if cs == [] then at else Reached(p, stream, Onward(p, stream, at, cs[0]), cs[1..])
  }

  /** Every command of the list is the next one where it stands. */
  ghost predicate Generated(p: Params, cdf: seq<OrderId>, stream: nat -> nat, at: Point, cs: seq<Command>)
    decreases |cs|
  {
    cs != [] ==> IsNext(p, cdf, stream, at, cs[0]) && Generated(p, cdf, stream, Onward(p, stream, at, cs[0]), cs[1..])
  }

  /** One round of the generator, which counts the live orders instead of the
      resting ones, takes the next command. */
  lemma RoundIsNext(p: Params, cdf: seq<OrderId>, stream: nat -> nat, at: Point, live: nat, c: Command, after: Point)
    requires p.targetResting > 0 && live == |at.st.book.bids| + |at.st.book.asks| <= BOOK_CAPACITY
    requires (after.st, true) == (Step(Word32, at.st, c).0, Step(Word32, at.st, c).1.ok)
    requires
      if live > 0 && stream(at.drawn) % 1_000_000 < CancelPpm(p, live)
      then c == Command(Cancel, c.id, Buy, GTC, 0, 0, 0) && after.drawn == at.drawn + 2 && after.next == at.next
      else
        var first := if live == 0 then at.drawn else at.drawn + 1;
        c.id == at.next && LimitDrawn(p, cdf, stream, first, c) && after.drawn == first + 3 && after.next == at.next + 1
    ensures IsNext(p, cdf, stream, at, c) && Onward(p, stream, at, c) == after
  {
    hide Step;
    hide LimitDrawn;
    hide CancelPpm;
    if CancelDue(p, stream, at) {
      AcceptedCancelRests(at.st, c);
    }
  }

  lemma {:induction false} GeneratedAppend(p: Params, cdf: seq<OrderId>, stream: nat -> nat, at: Point, cs: seq<Command>, c: Command)
    requires Generated(p, cdf, stream, at, cs) && IsNext(p, cdf, stream, Reached(p, stream, at, cs), c)
    ensures Generated(p, cdf, stream, at, cs + [c])
    ensures Reached(p, stream, at, cs + [c]) == Onward(p, stream, Reached(p, stream, at, cs), c)
    decreases |cs|
  {
    hide IsNext;
    hide Onward;
    if cs == [] {
      assert cs + [c] == [c] && [c][1..] == [];
    } else {
      assert (cs + [c])[1..] == cs[1..] + [c];
      GeneratedAppend(p, cdf, stream, Onward(p, stream, at, cs[0]), cs[1..], c);
    }
  }

  /** What is promised of every command of a workload of this many. */
  ghost predicate WellMade(p: Params, c: Command, ops: nat) {
    || c.kind.Cancel?
    || (&& c.kind.Limit? && 1 <= c.id <= ops && c.account == Wrap(c.id) && 0 < c.qty <= p.maxQty
        && (p.crossShift <= p.maxOffset + 1 ==> InSpan(p, c.price)))
  }

  lemma DrawnIsWellMade(p: Params, cdf: seq<OrderId>, c: Command, next: nat, ops: nat)
    requires Drawn(p, cdf, c, next) && TableFor(p, cdf) && p.maxOffset > 0 && 1 <= next <= ops
    ensures WellMade(p, c, ops)
  {
    SpanHoldsIff(p, cdf);
  }

  /** Generates a workload. Every command of it takes effect when it is run in
      order on a fresh book: every cancel names an order resting at that point,
      and every limit order carries a fresh id. With ids that fit the account
      number no order ever meets one of its own account. */
  method Generate(p: Params, rng: Rng, hash: OrderId -> nat, ops: nat) returns (out: seq<Command>)
    requires p.maxOffset < NIL && (ops > 0 ==> Usable(p))
    requires ops < 0x1_0000_0000_0000_0000
    modifies rng
    ensures |out| == ops
    ensures Generated(p, Table(p), rng.stream, Point(Initial(65536), old(rng.drawn), 1), out)
    ensures forall i :: 0 <= i < ops ==> WellMade(p, out[i], ops)
    ensures AllOk(Run(Word32, Initial(BOOK_CAPACITY), out).1)
    ensures ops < TWO32 ==> NoneStopped(Run(Word32, Initial(BOOK_CAPACITY), out).1)
  {
    hide Run;
    hide Step;
    hide InStep;
    hide AllOk;
    hide WellMade;
    hide Drawn;
    hide TableFor;
    hide LimitDrawn;
    hide CancelPpm;
    hide Generated;
    hide Reached;
    hide IsNext;
    hide Onward;
    hide Book.Book.Valid;
    var cdf := ZipfCdf(p.maxOffset);
    MadeTable(p, cdf);
    ghost var start := Point(Initial(BOOK_CAPACITY), rng.drawn, 1);
    NoneGenerated(p, cdf, rng.stream, start);
    var book, shadow := Start(hash);
    out := [];
    var next: nat := 1;
    for i := 0 to ops
      invariant fresh(book.Repr()) && fresh(shadow) && InStep(book, shadow, next) && 1 <= next <= i + 1
      invariant |out| == i && forall k :: 0 <= k < i ==> WellMade(p, out[k], ops)
      invariant book.model == Run(Word32, Initial(BOOK_CAPACITY), out).0
      invariant AllOk(Run(Word32, Initial(BOOK_CAPACITY), out).1)
      invariant Generated(p, cdf, rng.stream, start, out)
      invariant Reached(p, rng.stream, start, out) == Point(book.model, rng.drawn, next)
    {
      var c;
      ghost var id := next;
      ghost var at := Point(book.model, rng.drawn, next);
      ghost var live := |shadow.live|;
      LiveFits(book, shadow, next);
      c, next := Emit(p, rng, cdf, book, shadow, next);
      DrawnIsWellMade(p, cdf, c, id, ops);
      RoundIsNext(p, cdf, rng.stream, at, live, c, Point(book.model, rng.drawn, next));
      GeneratedAppend(p, cdf, rng.stream, start, out, c);
      RunAppend(Word32, Initial(BOOK_CAPACITY), out, c);
      ghost var (st, outcomes) := Run(Word32, Initial(BOOK_CAPACITY), out);
      AllOkAppend(outcomes, Step(Word32, st, c).1);
      out := out + [c];
    }
    if ops < TWO32 {
      WellMadeIsOwn(p, out, ops);
      StartsOwn();
      RunNeverStops(Word32, Initial(BOOK_CAPACITY), out);
    }
  }

  lemma MadeTable(p: Params, cdf: seq<OrderId>)
    requires |cdf| == p.maxOffset && forall i :: 0 <= i < |cdf| ==> cdf[i] == ZipfWeight(i + 1)
    requires forall i, j :: 0 <= i < j < |cdf| ==> cdf[i] < cdf[j]
    ensures TableFor(p, cdf) && cdf == Table(p)
  {
  }

  lemma NoneGenerated(p: Params, cdf: seq<OrderId>, stream: nat -> nat, at: Point)
    ensures Generated(p, cdf, stream, at, []) && Reached(p, stream, at, []) == at
  {
  }

  lemma AcceptedCancelRests(st: State, c: Command)
    requires c.kind.Cancel? && Step(Word32, st, c).1.ok
    ensures Rests(st, c.id)
  {
  }

  // ---------- one account for each order ----------

  ghost predicate NoneStopped(outcomes: seq<Outcome>) {
    forall i :: 0 <= i < |outcomes| ==> !outcomes[i].stp
  }

  /** Every order has the account of its own number. */
  ghost predicate Own(s: seq<Resting>) {
    forall i :: 0 <= i < |s| ==> s[i].account == s[i].id
  }

  ghost predicate OwnBook(book: BySide<seq<Resting>>) {
    Own(book.bids) && Own(book.asks)
  }

  /** A new order of its own account. */
  predicate OwnAdd(c: Command) {
    c.kind.Limit? || c.kind.Market? ==> c.account == c.id
  }

  lemma StartsOwn()
    ensures OwnBook(Initial(BOOK_CAPACITY).book) && Valid(Initial(BOOK_CAPACITY))
  {
  }

  lemma WellMadeIsOwn(p: Params, cs: seq<Command>, ops: nat)
    requires ops < TWO32 && forall i :: 0 <= i < |cs| ==> WellMade(p, cs[i], ops)
    ensures forall i :: 0 <= i < |cs| ==> OwnAdd(cs[i])
  {
    assert forall i :: 0 <= i < |cs| ==> WellMade(p, cs[i], ops) ==> OwnAdd(cs[i]);
  }

  /** No maker has the account of a taker whose id does not rest. */
  lemma SweepNeverStops(makers: seq<Resting>, t: Taker, qty: Qty, seqNo: nat, tradeId: nat)
    requires Own(makers) && t.account == t.id && !HasId(makers, t.id)
    requires forall i :: 0 <= i < |makers| ==> makers[i].qty > 0
    ensures !Sweep(makers, t, qty, seqNo, tradeId).stp && Own(Sweep(makers, t, qty, seqNo, tradeId).makers)
  {
    hide Sweep;
    QuantityLeft(makers, t, qty, seqNo, tradeId);
    SweepLeavesTail(makers, t, qty, seqNo, tradeId);
    var rest := Sweep(makers, t, qty, seqNo, tradeId).makers;
    assert forall i :: 0 <= i < |rest| ==> rest[i].account == makers[|makers| - |rest| + i].account;
  }

  lemma InsertOwn(s: seq<Resting>, k: nat, r: Resting)
    requires Own(s) && k <= |s| && r.account == r.id
    ensures Own(InsertAt(s, k, r))
  {
  }

  lemma SideHoldsQuantity(st: State, side: Side)
    requires Valid(st)
    ensures forall i :: 0 <= i < |st.book.On(side)| ==> st.book.On(side)[i].qty > 0
  {
  }

  lemma AddNeverStops(w: Width, st: State, t: Taker, qty: Qty, tif: TimeInForce)
    requires Valid(st) && OwnBook(st.book) && t.account == t.id
    ensures !Add(w, st, t, qty, tif).1.stp && OwnBook(Add(w, st, t, qty, tif).0.book)
  {
    hide Sweep;
    hide Fillable;
    hide InsertPos;
    hide InsertAt;
    hide Own;
    hide Valid;
    hide HasId;
    if !Rests(st, t.id) {
      var makers := st.book.On(t.side.Opposite());
      SideHoldsQuantity(st, t.side.Opposite());
      SweepNeverStops(makers, t, qty, st.nextSeq, st.nextTrade);
      if t.bound.AtLimit? {
        var own := st.book.On(t.side);
        var left := Sweep(makers, t, qty, st.nextSeq, st.nextTrade).left;
        InsertOwn(own, InsertPos(t.side, own, t.bound.price),
                  Resting(t.side, t.bound.price, t.id, left, t.account, st.nextSeq));
      }
    }
  }

  lemma RemoveOwn(s: seq<Resting>, k: nat)
    requires Own(s) && k < |s|
    ensures Own(RemoveAt(s, k))
  {
  }

  lemma ModifyKeepsOwn(st: State, id: OrderId, price: Price, qty: Qty)
    requires OwnBook(st.book)
    ensures OwnBook(ModifyOrder(st, id, price, qty).0.book)
  {
    hide InsertPos;
    hide InsertAt;
    hide RemoveAt;
    if Rests(st, id) {
      var side := SideOf(st, id);
      var s := st.book.On(side);
      var k := Position(s, id);
      RemoveOwn(s, k);
      InsertOwn(RemoveAt(s, k), InsertPos(side, RemoveAt(s, k), price),
                s[k].(price := price, qty := qty, seqNo := st.nextSeq));
    }
  }

  lemma StepNeverStops(w: Width, st: State, c: Command)
    requires Valid(st) && OwnBook(st.book) && OwnAdd(c)
    ensures !Step(w, st, c).1.stp && OwnBook(Step(w, st, c).0.book)
  {
    hide Add;
    hide Valid;
    hide Own;
    hide RemoveAt;
    match c.kind
    case Limit => AddNeverStops(w, st, LimitTaker(c), c.qty, c.tif);
    case Market => AddNeverStops(w, st, MarketTaker(c), c.qty, IOC);
    case Cancel =>
      if Rests(st, c.id) {
        var s := st.book.On(SideOf(st, c.id));
        RemoveOwn(s, Position(s, c.id));
      }
    case Modify => ModifyKeepsOwn(st, c.id, c.price, c.qty);
  }

  /** When every order has an account of its own, nothing ever stops a sweep. */
  lemma {:induction false} RunNeverStops(w: Width, st: State, cs: seq<Command>)
    requires Valid(st) && OwnBook(st.book) && forall i :: 0 <= i < |cs| ==> OwnAdd(cs[i])
    ensures NoneStopped(Run(w, st, cs).1)
    decreases |cs|
  {
    hide Step;
    hide Valid;
    if cs != [] {
      StepNeverStops(w, st, cs[0]);
      StepKeepsValid(w, st, cs[0]);
      RunNeverStops(w, Step(w, st, cs[0]).0, cs[1..]);
    }
  }

  // ---------- small facts the generator's loop needs ----------

  /** An empty book and its empty shadow. */
  method Start(hash: OrderId -> nat) returns (book: Book.Book, shadow: Shadow)
    ensures fresh(book.Repr()) && fresh(shadow) && InStep(book, shadow, 1)
    ensures book.model == Initial(BOOK_CAPACITY) == Run(Word32, Initial(BOOK_CAPACITY), []).0
    ensures AllOk(Run(Word32, Initial(BOOK_CAPACITY), []).1)
  {
    hide Book.Book.Valid;
    book := new Book.Book(BOOK_CAPACITY, hash);
    assert forall x :: x in book.Repr() ==> allocated(x);
    shadow := new Shadow();
  }

  lemma LiveIsTracked(book: Book.Book, shadow: Shadow, next: nat, k: nat)
    requires InStep(book, shadow, next) && k < |shadow.live|
    ensures shadow.live[k] in shadow.remaining
  {
  }

  lemma StepOfCancel(st: State, c: Command)
    requires c.kind.Cancel?
    ensures Step(Word32, st, c) == CancelOrder(st, c.id)
  {
  }

  lemma StepOfLimit(st: State, c: Command)
    requires c.kind.Limit?
    ensures Step(Word32, st, c) == Add(Word32, st, Taker(c.id, c.side, AtLimit(c.price), c.account), c.qty, c.tif)
  {
  }

  lemma AllOkAppend(outcomes: seq<Outcome>, r: Outcome)
    requires AllOk(outcomes) && r.ok
    ensures AllOk(outcomes + [r])
  {
  }
}
