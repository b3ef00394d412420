/** What a sweep does, said without following it step by step, and what that
    means for fill-or-kill orders. */
module Sweeping {
  import opened Types
  import opened Matching

  function Total(s: seq<Resting>): nat {
    if s == [] then 0 else s[0].qty + Total(s[1..])
  }

  function Traded(trades: seq<Trade>): nat {
    if trades == [] then 0 else trades[0].qty + Traded(trades[1..])
  }

  /** How many orders from the front are within the price bound and belong to
      other accounts: the longest run the taker may trade with. */
  function Reach(makers: seq<Resting>, t: Taker): (n: nat)
    ensures n <= |makers|
    ensures forall i :: 0 <= i < n ==> Marketable(t, makers[i].price) && makers[i].account != t.account
    ensures n < |makers| ==> !Marketable(t, makers[n].price) || makers[n].account == t.account
  {
    if makers == [] || !Marketable(t, makers[0].price) || makers[0].account == t.account then 0
    else 1 + Reach(makers[1..], t)
  }

  lemma TotalFirst(s: seq<Resting>, i: nat)
    requires i < |s|
    ensures Total(s[..i + 1]) == s[0].qty + Total(s[1..][..i])
  {
    assert s[..i + 1][1..] == s[1..][..i];
  }

  /** Price-time priority at the makers' prices: the i-th trade is with the i-th
      order, for all of it or for what the taker still lacks. */
  lemma {:induction false} TradesAreGreedy(makers: seq<Resting>, t: Taker, qty: Qty, seqNo: nat, tradeId: nat, i: nat)
    requires forall k :: 0 <= k < |makers| ==> makers[k].qty > 0
    requires i < |Sweep(makers, t, qty, seqNo, tradeId).trades|
    ensures i < Reach(makers, t) && Total(makers[..i]) < qty
    ensures Sweep(makers, t, qty, seqNo, tradeId).trades[i]
         == Trade(makers[i].id, t.id, makers[i].price, Min(makers[i].qty, qty - Total(makers[..i])), tradeId + i, seqNo)
    decreases i
  {
    if i > 0 {
      TradesAreGreedy(makers[1..], t, qty - makers[0].qty, seqNo, tradeId + 1, i - 1);
      TotalFirst(makers, i - 1);
    }
  }

  /** The sweep goes on until the taker is filled or its reach is exhausted. */
  lemma {:induction false} SweepGoesOn(makers: seq<Resting>, t: Taker, qty: Qty, seqNo: nat, tradeId: nat)
    ensures
      var n := |Sweep(makers, t, qty, seqNo, tradeId).trades|;
      n <= Reach(makers, t) && (n < Reach(makers, t) ==> Total(makers[..n]) >= qty)
  {
    if qty == 0 || Reach(makers, t) == 0 {
    } else if qty < makers[0].qty {
      assert makers[..1] == [makers[0]];
    } else {
      SweepGoesOn(makers[1..], t, qty - makers[0].qty, seqNo, tradeId + 1);
      var n := |Sweep(makers, t, qty, seqNo, tradeId).trades|;
      TotalFirst(makers, n - 1);
    }
  }

  /** What is left of the makers: the orders not reached, behind at most one
      whose quantity went down. */
  lemma {:induction false} MakersLeft(makers: seq<Resting>, t: Taker, qty: Qty, seqNo: nat, tradeId: nat)
    ensures
      var sw := Sweep(makers, t, qty, seqNo, tradeId);
      var n := |sw.trades|;
      && n <= |makers|
      && (Total(makers[..n]) <= qty ==> sw.makers == makers[n..])
      && (Total(makers[..n]) > qty ==>
            n > 0 && Total(makers[..n]) - qty < makers[n - 1].qty
            && sw.makers == [makers[n - 1].(qty := Total(makers[..n]) - qty)] + makers[n..])
  {
    if qty == 0 || Reach(makers, t) == 0 {
    } else if qty < makers[0].qty {
      assert makers[..1] == [makers[0]];
    } else {
      MakersLeft(makers[1..], t, qty - makers[0].qty, seqNo, tradeId + 1);
      var n := |Sweep(makers, t, qty, seqNo, tradeId).trades|;
      TotalFirst(makers, n - 1);
      assert makers[1..][n - 1..] == makers[n..];
    }
  }

  /** The taker gets all it asked for or all within its reach, and an own order
      stops it exactly when one comes next while it still lacks quantity. */
  lemma {:induction false} QuantityLeft(makers: seq<Resting>, t: Taker, qty: Qty, seqNo: nat, tradeId: nat)
    ensures
      var sw := Sweep(makers, t, qty, seqNo, tradeId);
      var d := Reach(makers, t);
      && sw.left == (if Total(makers[..d]) >= qty then 0 else qty - Total(makers[..d]))
      && (sw.stp <==> sw.left > 0 && d < |makers| && Marketable(t, makers[d].price))
  {
    if qty == 0 || Reach(makers, t) == 0 {
    } else {
      TotalFirst(makers, Reach(makers, t) - 1);
      if qty >= makers[0].qty {
        QuantityLeft(makers[1..], t, qty - makers[0].qty, seqNo, tradeId + 1);
      }
    }
  }

  /** The pre-check adds up what is within reach. */
  lemma {:induction false} FillableIsReach(makers: seq<Resting>, t: Taker)
    ensures Fillable(makers, t) == Total(makers[..Reach(makers, t)])
  {
    if Reach(makers, t) > 0 {
      TotalFirst(makers, Reach(makers, t) - 1);
      FillableIsReach(makers[1..], t);
    }
  }

  // ---------- conservation ----------

  /** What the taker got is what the makers gave. */
  lemma {:induction false} SweepConserves(makers: seq<Resting>, t: Taker, qty: Qty, seqNo: nat, tradeId: nat)
    ensures
      var sw := Sweep(makers, t, qty, seqNo, tradeId);
      qty == Traded(sw.trades) + sw.left && Total(makers) == Traded(sw.trades) + Total(sw.makers)
  {
    if qty == 0 || Reach(makers, t) == 0 {
    } else if qty < makers[0].qty {
      var sw := Sweep(makers, t, qty, seqNo, tradeId);
      assert sw.makers[1..] == makers[1..];
    } else {
      SweepConserves(makers[1..], t, qty - makers[0].qty, seqNo, tradeId + 1);
      var sw := Sweep(makers, t, qty, seqNo, tradeId);
      assert sw.trades[1..] == Sweep(makers[1..], t, qty - makers[0].qty, seqNo, tradeId + 1).trades;
    }
  }

  // ---------- fill or kill ----------

  /** If the pre-check passes, even with wrap-around, the order is filled
      completely and nothing stops it; if it fails, only the sequence counter
      moves. */
  lemma FillOrKill(w: Width, st: State, t: Taker, qty: Qty)
    requires qty > 0 && !Rests(st, t.id)
    ensures
      var (st', r) := Add(w, st, t, qty, FOK);
      && r.ok && r.restingQty == 0 && !r.stp && !r.exhausted
      && if Available(w, st.book.On(t.side.Opposite()), t) >= qty
         then Traded(r.trades) == qty
         else st' == Tick(st) && r.trades == []
  {
    hide Rests;
    var makers := st.book.On(t.side.Opposite());
    FillableIsReach(makers, t);
    QuantityLeft(makers, t, qty, st.nextSeq, st.nextTrade);
    SweepConserves(makers, t, qty, st.nextSeq, st.nextTrade);
    assert Wrap(Fillable(makers, t)) <= Fillable(makers, t);
  }

  /** The engine fills a fill-or-kill order exactly when enough is within reach,
      unless that sum does not fit 32 bits and wraps to less than asked. */
  lemma KilledRightly(st: State, t: Taker, qty: Qty)
    requires qty > 0 && !Rests(st, t.id)
    ensures
      var makers := st.book.On(t.side.Opposite());
      var offered := Total(makers[..Reach(makers, t)]);
      var filled := Traded(Add(Word32, st, t, qty, FOK).1.trades) == qty;
      && (filled ==> offered >= qty)
      && ((filled <==> offered >= qty) <==> !(offered >= TWO32 && Wrap(offered) < qty))
  {
    hide Rests;
    hide Add;
    FillOrKill(Word32, st, t, qty);
    FillableIsReach(st.book.On(t.side.Opposite()), t);
  }
}
