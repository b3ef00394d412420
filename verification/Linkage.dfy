/** How the slots, the links between them and the price levels represent one
    side of the book. The side is a sequence of orders o, best first, and q
    names the slot of each. */
module Linkage {
  import opened Types
  import opened Sequences
  import opened Matching
  import opened Pool
  import opened PriceLevels

  // ---------- the doubly linked lists ----------

  /** The slot behind position j in its level. */
  function NextAt(q: seq<Index>, o: seq<Resting>, j: nat): Index
    requires |q| == |o| && j < |q|
  {
    if j + 1 < |q| && o[j + 1].price == o[j].price then q[j + 1] else NIL
  }

  /** The slot in front of position j in its level. */
  function PrevAt(q: seq<Index>, o: seq<Resting>, j: nat): Index
    requires |q| == |o| && j < |q|
  {
    if 0 < j && o[j - 1].price == o[j].price then q[j - 1] else NIL
  }

  /** The order r in a slot with the given links. */
  function Linked(r: Resting, next: Index, prev: Index): Slot {
    Used(Order(r.price, r.qty, next, prev, r.side, r.id, r.account, r.seqNo))
  }

  /** What the slot at position j holds, links included. */
  function SlotAt(q: seq<Index>, o: seq<Resting>, j: nat): Slot
    requires |q| == |o| && j < |q|
  {
    Linked(o[j], NextAt(q, o, j), PrevAt(q, o, j))
  }

  ghost predicate Threaded(slots: seq<Slot>, q: seq<Index>, o: seq<Resting>) {
    && |q| == |o|
    && |slots| <= NIL
    && forall j :: 0 <= j < |q| ==> q[j] < |slots| && slots[q[j]] == SlotAt(q, o, j)
  }

  /** Two positions never share a slot. */
  lemma ThreadedDistinct(slots: seq<Slot>, side: Side, q: seq<Index>, o: seq<Resting>)
    requires Threaded(slots, q, o) && Sorted(side, o)
    ensures Distinct(q)
  {
    forall i, j | 0 <= i < j < |q|
      ensures q[i] != q[j]
    {
      assert Ahead(side, o[i], o[j]);
      assert slots[q[i]] == SlotAt(q, o, i) && slots[q[j]] == SlotAt(q, o, j);
    }
  }

  /** Sets the forward link of a slot, if there is one. */
  function WithNext(slots: seq<Slot>, i: Index, next: Index): (r: seq<Slot>)
    requires i != NIL ==> i < |slots| && slots[i].Used?
    ensures |r| == |slots|
    ensures forall k :: 0 <= k < |slots| && k != i ==> r[k] == slots[k]
    ensures i != NIL ==> r[i] == Used(slots[i].order.(next := next))
  {
    if i == NIL then slots else slots[i := Used(slots[i].order.(next := next))]
  }

  /** Sets the backward link of a slot, if there is one. */
  function WithPrev(slots: seq<Slot>, i: Index, prev: Index): (r: seq<Slot>)
    requires i != NIL ==> i < |slots| && slots[i].Used?
    ensures |r| == |slots|
    ensures forall k :: 0 <= k < |slots| && k != i ==> r[k] == slots[k]
    ensures i != NIL ==> r[i] == Used(slots[i].order.(prev := prev))
  {
    if i == NIL then slots else slots[i := Used(slots[i].order.(prev := prev))]
  }

  /** The slots after order j has been unlinked. */
  function Unthread(slots: seq<Slot>, q: seq<Index>, o: seq<Resting>, j: nat): (r: seq<Slot>)
    requires Threaded(slots, q, o) && j < |q|
    ensures |r| == |slots|
  {
    var next := NextAt(q, o, j);
    var prev := PrevAt(q, o, j);
    WithPrev(WithNext(slots, prev, next), next, prev)[q[j] := Linked(o[j], NIL, NIL)]
  }

  lemma UnthreadSelf(slots: seq<Slot>, q: seq<Index>, o: seq<Resting>, j: nat)
    requires Threaded(slots, q, o) && j < |q|
    ensures Unthread(slots, q, o, j)[q[j]] == Linked(o[j], NIL, NIL)
  {
  }

  /** Removing position j only changes the links of its two neighbours. */
  lemma LinksAfterRemove(side: Side, q: seq<Index>, o: seq<Resting>, j: nat, k: nat)
    requires |q| == |o| && Sorted(side, o) && j < |q| && k < |q| && k != j
    ensures
      var k' := if k < j then k else k - 1;
      && NextAt(RemoveAt(q, j), RemoveAt(o, j), k')
         == (if k + 1 == j && o[k].price == o[j].price then NextAt(q, o, j) else NextAt(q, o, k))
      && PrevAt(RemoveAt(q, j), RemoveAt(o, j), k')
         == (if k == j + 1 && o[k].price == o[j].price then PrevAt(q, o, j) else PrevAt(q, o, k))
  {
    assert j == 0 || Ahead(side, o[j - 1], o[j]);
    assert j + 1 == |o| || Ahead(side, o[j], o[j + 1]);
    var q', o' := RemoveAt(q, j), RemoveAt(o, j);
    var k' := if k < j then k else k - 1;
    assert q'[k'] == q[k] && o'[k'] == o[k];
    assert k' + 1 < |q'| ==> q'[k' + 1] == q[if k + 1 == j then k + 2 else k + 1];
    assert 0 < k' ==> q'[k' - 1] == q[if k == j + 1 then k - 2 else k - 1];
  }

  /** What unlinking position j leaves in the slot of another position. */
  lemma UnthreadAt(slots: seq<Slot>, q: seq<Index>, o: seq<Resting>, j: nat, k: nat)
    requires Threaded(slots, q, o) && Distinct(q) && j < |q| && k < |q| && k != j
    ensures Unthread(slots, q, o, j)[q[k]]
         == Linked(o[k],
                   if k + 1 == j && o[k].price == o[j].price then NextAt(q, o, j) else NextAt(q, o, k),
                   if k == j + 1 && o[k].price == o[j].price then PrevAt(q, o, j) else PrevAt(q, o, k))
  {
    assert slots[q[k]] == SlotAt(q, o, k);
    assert q[k] != q[j];
    assert 0 < j && k != j - 1 ==> q[k] != q[j - 1];
    assert j + 1 < |q| && k != j + 1 ==> q[k] != q[j + 1];
    assert 0 < j < |q| - 1 ==> q[j - 1] != q[j + 1];
    assert 0 < j ==> q[j - 1] != NIL && slots[q[j - 1]].Used?;
    assert j + 1 < |q| ==> q[j + 1] != NIL && slots[q[j + 1]].Used?;
  }

  lemma UnthreadedSlot(slots: seq<Slot>, side: Side, q: seq<Index>, o: seq<Resting>, j: nat, k: nat)
    requires Threaded(slots, q, o) && Sorted(side, o) && Distinct(q) && j < |q| && k < |q| - 1
    ensures RemoveAt(q, j)[k] < |slots|
    ensures Unthread(slots, q, o, j)[RemoveAt(q, j)[k]] == SlotAt(RemoveAt(q, j), RemoveAt(o, j), k)
  {
    hide NextAt;
    hide PrevAt;
    hide Unthread;
    hide Sorted;
    hide Distinct;
    var k0 := if k < j then k else k + 1;
    LinksAfterRemove(side, q, o, j, k0);
    UnthreadAt(slots, q, o, j, k0);
  }

  lemma UnthreadKeepsThreads(slots: seq<Slot>, side: Side, q: seq<Index>, o: seq<Resting>, j: nat)
    requires Threaded(slots, q, o) && Sorted(side, o) && j < |q|
    ensures Threaded(Unthread(slots, q, o, j), RemoveAt(q, j), RemoveAt(o, j))
  {
    ThreadedDistinct(slots, side, q, o);
    forall k | 0 <= k < |q| - 1
      ensures RemoveAt(q, j)[k] < |slots|
      ensures Unthread(slots, q, o, j)[RemoveAt(q, j)[k]] == SlotAt(RemoveAt(q, j), RemoveAt(o, j), k)
    {
      UnthreadedSlot(slots, side, q, o, j, k);
    }
  }

  /** Where the list that an order at this price joins ends. */
  function TailAt(q: seq<Index>, o: seq<Resting>, pos: nat, price: Price): Index
    requires |q| == |o| && pos <= |q|
  {
    if 0 < pos && o[pos - 1].price == price then q[pos - 1] else NIL
  }

  /** The slots after the order r in slot i has been linked in at pos. */
  function Thread(slots: seq<Slot>, q: seq<Index>, o: seq<Resting>, pos: nat, i: Index, r: Resting): (s: seq<Slot>)
    requires Threaded(slots, q, o) && pos <= |q| && i < |slots|
    ensures |s| == |slots|
  {
    var tail := TailAt(q, o, pos, r.price);
    WithNext(slots, tail, i)[i := Linked(r, NIL, tail)]
  }

  lemma LinksAfterInsert(side: Side, q: seq<Index>, o: seq<Resting>, i: Index, r: Resting, k: nat)
    requires |q| == |o| && Sorted(side, o) && k < |q|
    ensures
      var pos := InsertPos(side, o, r.price);
      var k' := if k < pos then k else k + 1;
      && NextAt(InsertAt(q, pos, i), InsertAt(o, pos, r), k')
         == (if k + 1 == pos && o[k].price == r.price then i else NextAt(q, o, k))
      && PrevAt(InsertAt(q, pos, i), InsertAt(o, pos, r), k') == PrevAt(q, o, k)
  {
    hide Sorted;
    hide InsertPos;
    var pos := InsertPos(side, o, r.price);
    var q', o' := InsertAt(q, pos, i), InsertAt(o, pos, r);
    var k' := if k < pos then k else k + 1;
    assert q'[k'] == q[k] && o'[k'] == o[k];
    assert k' + 1 < |q'| ==> q'[k' + 1] == if k + 1 == pos then i else q[k + 1];
    assert 0 < k' ==> q'[k' - 1] == if k == pos then i else q[k - 1];
  }

  lemma ThreadedNewSlot(slots: seq<Slot>, side: Side, q: seq<Index>, o: seq<Resting>, i: Index, r: Resting)
    requires Threaded(slots, q, o)
    requires i < |slots|
    ensures
      var pos := InsertPos(side, o, r.price);
      Thread(slots, q, o, pos, i, r)[i] == SlotAt(InsertAt(q, pos, i), InsertAt(o, pos, r), pos)
  {
    var pos := InsertPos(side, o, r.price);
    var q', o' := InsertAt(q, pos, i), InsertAt(o, pos, r);
    assert 0 < pos ==> q'[pos - 1] == q[pos - 1] && o'[pos - 1] == o[pos - 1];
    assert pos + 1 < |q'| ==> o'[pos + 1] == o[pos];
  }

  /** What linking at pos leaves in the slot of position k. */
  lemma ThreadAt(slots: seq<Slot>, q: seq<Index>, o: seq<Resting>, pos: nat, i: Index, r: Resting, k: nat)
    requires Threaded(slots, q, o) && Distinct(q) && pos <= |q| && k < |q|
    requires i < |slots| && i !in q
    ensures Thread(slots, q, o, pos, i, r)[q[k]]
         == Linked(o[k], if k + 1 == pos && o[k].price == r.price then i else NextAt(q, o, k), PrevAt(q, o, k))
  {
    assert slots[q[k]] == SlotAt(q, o, k);
    assert q[k] != i && (0 < pos && k != pos - 1 ==> q[k] != q[pos - 1]);
    assert 0 < pos ==> q[pos - 1] != NIL && slots[q[pos - 1]].Used?;
  }

  lemma ThreadedSlot(slots: seq<Slot>, side: Side, q: seq<Index>, o: seq<Resting>, i: Index, r: Resting, k: nat)
    requires Threaded(slots, q, o) && Sorted(side, o) && Distinct(q) && k <= |q|
    requires i < |slots| && i !in q
    ensures
      var pos := InsertPos(side, o, r.price);
      && InsertAt(q, pos, i)[k] < |slots|
      && Thread(slots, q, o, pos, i, r)[InsertAt(q, pos, i)[k]] == SlotAt(InsertAt(q, pos, i), InsertAt(o, pos, r), k)
  {
    hide NextAt;
    hide PrevAt;
    hide Thread;
    hide Sorted;
    hide Distinct;
    hide InsertPos;
    var pos := InsertPos(side, o, r.price);
    if k == pos {
      ThreadedNewSlot(slots, side, q, o, i, r);
    } else {
      var k0 := if k < pos then k else k - 1;
      LinksAfterInsert(side, q, o, i, r, k0);
      ThreadAt(slots, q, o, pos, i, r, k0);
    }
  }

  lemma ThreadKeepsThreads(slots: seq<Slot>, side: Side, q: seq<Index>, o: seq<Resting>, i: Index, r: Resting)
    requires Threaded(slots, q, o) && Sorted(side, o)
    requires i < |slots| && i !in q
    ensures
      var pos := InsertPos(side, o, r.price);
      Threaded(Thread(slots, q, o, pos, i, r), InsertAt(q, pos, i), InsertAt(o, pos, r))
  {
    ThreadedDistinct(slots, side, q, o);
    var pos := InsertPos(side, o, r.price);
    forall k | 0 <= k <= |q|
      ensures InsertAt(q, pos, i)[k] < |slots|
      ensures Thread(slots, q, o, pos, i, r)[InsertAt(q, pos, i)[k]] == SlotAt(InsertAt(q, pos, i), InsertAt(o, pos, r), k)
    {
      ThreadedSlot(slots, side, q, o, i, r, k);
    }
  }

  /** Only orders of this side were relinked, and no slot changed hands. */
  ghost predicate OnlyRelinked(slots: seq<Slot>, slots': seq<Slot>, side: Side) {
    && |slots'| == |slots|
    && forall i :: 0 <= i < |slots| ==>
         if slots[i].Used? && slots[i].order.side == side
         then slots'[i].Used? && slots'[i].order.side == side && slots'[i].order.id == slots[i].order.id
         else slots'[i] == slots[i]
  }

  lemma UnthreadOnlyRelinks(slots: seq<Slot>, side: Side, q: seq<Index>, o: seq<Resting>, j: nat)
    requires Threaded(slots, q, o) && j < |q|
    requires forall k :: 0 <= k < |o| ==> o[k].side == side
    ensures OnlyRelinked(slots, Unthread(slots, q, o, j), side)
  {
    assert slots[q[j]] == SlotAt(q, o, j);
    assert 0 < j ==> slots[q[j - 1]] == SlotAt(q, o, j - 1);
    assert j + 1 < |q| ==> slots[q[j + 1]] == SlotAt(q, o, j + 1);
  }

  lemma ThreadOnlyRelinks(slots: seq<Slot>, side: Side, q: seq<Index>, o: seq<Resting>, pos: nat, i: Index, r: Resting)
    requires Threaded(slots, q, o) && pos <= |q|
    requires forall k :: 0 <= k < |o| ==> o[k].side == side
    requires i < |slots| && slots[i].Used? && slots[i].order.side == r.side == side && slots[i].order.id == r.id
    ensures OnlyRelinked(slots, Thread(slots, q, o, pos, i, r), side)
  {
    assert 0 < pos ==> slots[q[pos - 1]] == SlotAt(q, o, pos - 1);
  }

  /** The lists of the other side are not affected. */
  lemma OtherSideThreaded(slots: seq<Slot>, slots': seq<Slot>, side: Side, q: seq<Index>, o: seq<Resting>)
    requires OnlyRelinked(slots, slots', side)
    requires Threaded(slots, q, o)
    requires forall k :: 0 <= k < |o| ==> o[k].side != side
    ensures Threaded(slots', q, o)
  {
  }

  // ---------- the price levels ----------

  /** The level is the run of orders from position f to position t. */
  ghost predicate Spans(q: seq<Index>, o: seq<Resting>, level: Level, f: nat, t: nat) {
    && f <= t < |q| == |o|
    && level.head == q[f] && level.tail == q[t]
    && o[f].price == level.price == o[t].price
    && (f > 0 ==> o[f - 1].price != level.price)
    && (t + 1 < |o| ==> o[t + 1].price != level.price)
  }

  /** The level holds no order. */
  ghost predicate Vacant(o: seq<Resting>, level: Level) {
    && level.head == level.tail == NIL
    && forall j :: 0 <= j < |o| ==> o[j].price != level.price
  }

  ghost predicate Spanned(q: seq<Index>, o: seq<Resting>, level: Level) {
    exists f: nat, t: nat :: Spans(q, o, level, f, t)
  }

  ghost predicate LevelOk(q: seq<Index>, o: seq<Resting>, level: Level) {
    Vacant(o, level) || Spanned(q, o, level)
  }

  /** The levels are those of the orders, and perhaps some empty ones. */
  ghost predicate Leveled(levels: seq<Level>, q: seq<Index>, o: seq<Resting>) {
    && |q| == |o|
    && (forall j :: 0 <= j < |q| ==> q[j] != NIL)
    && (forall k :: 0 <= k < |levels| ==> LevelOk(q, o, levels[k]))
    && (forall j :: 0 <= j < |o| ==> HasPrice(levels, o[j].price))
  }

  ghost predicate NoneEmpty(levels: seq<Level>) {
    forall k :: 0 <= k < |levels| ==> levels[k].head != NIL
  }

  /** The level of order j once j is unlinked. */
  function Shrunk(level: Level, q: seq<Index>, o: seq<Resting>, j: nat): Level
    requires |q| == |o| && j < |q|
  {
    Level(level.price,
          if PrevAt(q, o, j) == NIL then NextAt(q, o, j) else level.head,
          if NextAt(q, o, j) == NIL then PrevAt(q, o, j) else level.tail)
  }

  /** Orders at or behind one another in the queue have no better price. */
  lemma PricesInOrder(side: Side, o: seq<Resting>, i: nat, j: nat)
    requires Sorted(side, o) && i <= j < |o|
    ensures !Better(side, o[j].price, o[i].price)
  {
    if i < j {
      assert Ahead(side, o[i], o[j]);
    }
  }

  /** A level's run is exactly the orders at its price. */
  lemma SpanIsPrice(side: Side, q: seq<Index>, o: seq<Resting>, level: Level, f: nat, t: nat)
    requires Sorted(side, o) && Spans(q, o, level, f, t)
    ensures forall j :: 0 <= j < |o| ==> (o[j].price == level.price <==> f <= j <= t)
  {
    forall j | 0 <= j < |o|
      ensures o[j].price == level.price <==> f <= j <= t
    {
      if j < f {
        PricesInOrder(side, o, j, f - 1);
        PricesInOrder(side, o, f - 1, f);
      } else if j <= t {
        PricesInOrder(side, o, f, j);
        PricesInOrder(side, o, j, t);
      } else {
        PricesInOrder(side, o, t, t + 1);
        PricesInOrder(side, o, t + 1, j);
      }
    }
  }

  lemma RemoveFromOtherLevel(side: Side, q: seq<Index>, o: seq<Resting>, level: Level, j: nat)
    requires |q| == |o| && Sorted(side, o) && j < |q|
    requires LevelOk(q, o, level) && level.price != o[j].price
    ensures LevelOk(RemoveAt(q, j), RemoveAt(o, j), level)
  {
    hide Sorted;
    if Spanned(q, o, level) {
      var f: nat, t: nat :| Spans(q, o, level, f, t);
      SpanIsPrice(side, q, o, level, f, t);
      assert j < f || t < j;
      assert Spans(RemoveAt(q, j), RemoveAt(o, j), level,
                   if j < f then f - 1 else f, if j < f then t - 1 else t);
    }
  }

  lemma RemoveFromOwnLevel(side: Side, q: seq<Index>, o: seq<Resting>, level: Level, j: nat)
    requires |q| == |o| && Sorted(side, o) && j < |q|
    requires forall k :: 0 <= k < |q| ==> q[k] != NIL
    requires LevelOk(q, o, level) && level.price == o[j].price
    ensures LevelOk(RemoveAt(q, j), RemoveAt(o, j), Shrunk(level, q, o, j))
  {
    hide Sorted;
    var f: nat, t: nat :| Spans(q, o, level, f, t);
    SpanIsPrice(side, q, o, level, f, t);
    if f == t {
      assert Vacant(RemoveAt(o, j), Shrunk(level, q, o, j));
    } else {
      assert Spans(RemoveAt(q, j), RemoveAt(o, j), Shrunk(level, q, o, j), f, t - 1);
    }
  }

  lemma RemoveKeepsLevels(side: Side, levels: seq<Level>, q: seq<Index>, o: seq<Resting>, j: nat, k: nat)
    requires Leveled(levels, q, o) && Sorted(side, o) && Ascending(side, levels)
    requires j < |q| && k < |levels| && levels[k].price == o[j].price
    ensures Leveled(levels[k := Shrunk(levels[k], q, o, j)], RemoveAt(q, j), RemoveAt(o, j))
  {
    hide LevelOk;
    hide Sorted;
    hide NextAt;
    hide PrevAt;
    var levels', q', o' := levels[k := Shrunk(levels[k], q, o, j)], RemoveAt(q, j), RemoveAt(o, j);
    forall i | 0 <= i < |levels'|
      ensures LevelOk(q', o', levels'[i])
    {
      if i == k {
        RemoveFromOwnLevel(side, q, o, levels[k], j);
      } else {
        RemoveFromOtherLevel(side, q, o, levels[i], j);
      }
    }
    forall i | 0 <= i < |o'|
      ensures HasPrice(levels', o'[i].price)
    {
      var i0 := if i < j then i else i + 1;
      assert HasPrice(levels, o[i0].price);
      var n :| 0 <= n < |levels| && levels[n].price == o[i0].price;
      assert levels'[n].price == o[i0].price;
    }
  }

  // ---------- linking an order in ----------

  /** The level of an order once it is linked in at its end. */
  function Grown(level: Level, i: Index): Level {
    Level(level.price, if level.tail == NIL then i else level.head, i)
  }

  /** The level's list ends just before the place of a new order. */
  lemma LevelEndsAt(side: Side, q: seq<Index>, o: seq<Resting>, level: Level) returns (f: nat)
    requires |q| == |o| && Sorted(side, o)
    requires forall k :: 0 <= k < |q| ==> q[k] != NIL
    requires LevelOk(q, o, level)
    ensures
      var pos := InsertPos(side, o, level.price);
      level.tail == TailAt(q, o, pos, level.price) && (level.tail != NIL ==> pos > 0 && Spans(q, o, level, f, pos - 1))
  {
    var pos := InsertPos(side, o, level.price);
    f := 0;
    if Spanned(q, o, level) {
      var first: nat, last: nat :| Spans(q, o, level, first, last);
      f := first;
      SpanIsPrice(side, q, o, level, first, last);
      assert pos == last + 1;
    }
  }

  lemma InsertIntoOtherLevel(side: Side, q: seq<Index>, o: seq<Resting>, level: Level, i: Index, r: Resting)
    requires |q| == |o| && Sorted(side, o)
    requires LevelOk(q, o, level) && level.price != r.price
    ensures
      var pos := InsertPos(side, o, r.price);
      LevelOk(InsertAt(q, pos, i), InsertAt(o, pos, r), level)
  {
    hide Sorted;
    hide InsertPos;
    var pos := InsertPos(side, o, r.price);
    if Spanned(q, o, level) {
      var f: nat, t: nat :| Spans(q, o, level, f, t);
      SpanIsPrice(side, q, o, level, f, t);
      assert pos <= f || t < pos;
      assert Spans(InsertAt(q, pos, i), InsertAt(o, pos, r), level,
                   if pos <= f then f + 1 else f, if pos <= f then t + 1 else t);
    }
  }

  lemma InsertIntoOwnLevel(side: Side, q: seq<Index>, o: seq<Resting>, level: Level, i: Index, r: Resting)
    requires |q| == |o| && Sorted(side, o)
    requires forall k :: 0 <= k < |q| ==> q[k] != NIL
    requires LevelOk(q, o, level) && level.price == r.price
    ensures
      var pos := InsertPos(side, o, r.price);
      LevelOk(InsertAt(q, pos, i), InsertAt(o, pos, r), Grown(level, i))
  {
    var pos := InsertPos(side, o, r.price);
    var q', o' := InsertAt(q, pos, i), InsertAt(o, pos, r);
    var f := LevelEndsAt(side, q, o, level);
    if level.tail != NIL {
      assert Spans(q', o', Grown(level, i), f, pos);
    } else {
      assert Vacant(o, level);
      assert Spans(q', o', Grown(level, i), pos, pos);
    }
  }

  lemma InsertKeepsLevels(side: Side, levels: seq<Level>, q: seq<Index>, o: seq<Resting>, k: nat, i: Index, r: Resting)
    requires Leveled(levels, q, o) && Sorted(side, o) && Ascending(side, levels)
    requires k < |levels| && levels[k].price == r.price && i != NIL
    ensures
      var pos := InsertPos(side, o, r.price);
      Leveled(levels[k := Grown(levels[k], i)], InsertAt(q, pos, i), InsertAt(o, pos, r))
  {
    hide LevelOk;
    hide Sorted;
    hide InsertPos;
    var pos := InsertPos(side, o, r.price);
    var levels', q', o' := levels[k := Grown(levels[k], i)], InsertAt(q, pos, i), InsertAt(o, pos, r);
    forall n | 0 <= n < |levels'|
      ensures LevelOk(q', o', levels'[n])
    {
      if n == k {
        InsertIntoOwnLevel(side, q, o, levels[k], i, r);
      } else {
        InsertIntoOtherLevel(side, q, o, levels[n], i, r);
      }
    }
    forall j | 0 <= j < |o'|
      ensures HasPrice(levels', o'[j].price)
    {
      if j == pos {
        assert levels'[k].price == r.price;
      } else {
        var j0 := if j < pos then j else j - 1;
        assert HasPrice(levels, o[j0].price);
        var n :| 0 <= n < |levels| && levels[n].price == o[j0].price;
        assert levels'[n].price == o[j0].price;
      }
    }
  }

  // ---------- making and dropping levels ----------

  lemma AddEmptyLevel(levels: seq<Level>, q: seq<Index>, o: seq<Resting>, k: nat, price: Price)
    requires Leveled(levels, q, o) && k <= |levels| && !HasPrice(levels, price)
    ensures Leveled(InsertAt(levels, k, EmptyLevel(price)), q, o)
  {
    var levels' := InsertAt(levels, k, EmptyLevel(price));
    assert Vacant(o, EmptyLevel(price));
    forall j | 0 <= j < |o|
      ensures HasPrice(levels', o[j].price)
    {
      var n :| 0 <= n < |levels| && levels[n].price == o[j].price;
      assert levels'[if n < k then n else n + 1].price == o[j].price;
    }
  }

  lemma EmptyIsVacant(q: seq<Index>, o: seq<Resting>, level: Level)
    requires LevelOk(q, o, level) && level.head == NIL
    requires forall j :: 0 <= j < |q| ==> q[j] != NIL
    ensures Vacant(o, level)
  {
  }

  lemma DropEmptyLevel(levels: seq<Level>, q: seq<Index>, o: seq<Resting>, k: nat)
    requires Leveled(levels, q, o) && k < |levels| && levels[k].head == NIL
    ensures Leveled(RemoveAt(levels, k), q, o)
  {
    hide LevelOk;
    var levels' := RemoveAt(levels, k);
    EmptyIsVacant(q, o, levels[k]);
    forall j | 0 <= j < |o|
      ensures HasPrice(levels', o[j].price)
    {
      var n :| 0 <= n < |levels| && levels[n].price == o[j].price;
      assert levels'[if n < k then n else n - 1].price == o[j].price;
    }
  }

  /** Only the prices of the orders matter to the levels. */
  lemma SamePricesLeveled(levels: seq<Level>, q: seq<Index>, o: seq<Resting>, o': seq<Resting>)
    requires Leveled(levels, q, o)
    requires |o'| == |o| && forall j :: 0 <= j < |o| ==> o'[j].price == o[j].price
    ensures Leveled(levels, q, o')
  {
    forall k | 0 <= k < |levels|
      ensures LevelOk(q, o', levels[k])
    {
      if Spanned(q, o, levels[k]) {
        var f: nat, t: nat :| Spans(q, o, levels[k], f, t);
        assert Spans(q, o', levels[k], f, t);
      }
    }
  }

  /** There are no more levels than orders, so their array never overflows. */
  lemma LevelsFit(side: Side, levels: seq<Level>, q: seq<Index>, o: seq<Resting>)
    requires Leveled(levels, q, o) && Ascending(side, levels) && NoneEmpty(levels)
    ensures |levels| <= |o|
  {
    var taken := seq(|levels|, k requires 0 <= k < |levels| => levels[k].price);
    var prices := seq(|o|, j requires 0 <= j < |o| => o[j].price);
    forall k | 0 <= k < |levels|
      ensures taken[k] in prices
    {
      assert LevelOk(q, o, levels[k]);
      var f: nat, t: nat :| Spans(q, o, levels[k], f, t);
      assert prices[f] == levels[k].price;
    }
    assert Distinct(taken);
    DistinctWithin(taken, set p | p in prices);
    MembersSize(prices);
  }

  // ---------- walking a side best first ----------

  /** A level that is not empty is a run of orders. */
  lemma NonEmptySpans(levels: seq<Level>, q: seq<Index>, o: seq<Resting>, k: nat) returns (f: nat, t: nat)
    requires Leveled(levels, q, o) && k < |levels| && levels[k].head != NIL
    ensures Spans(q, o, levels[k], f, t)
  {
    assert LevelOk(q, o, levels[k]);
    f, t :| Spans(q, o, levels[k], f, t);
  }

  /** The best level starts with the best order. */
  lemma BestLevelFirst(side: Side, levels: seq<Level>, q: seq<Index>, o: seq<Resting>) returns (t: nat)
    requires Leveled(levels, q, o) && Ascending(side, levels) && Sorted(side, o)
    requires levels != [] && levels[|levels| - 1].head != NIL
    ensures Spans(q, o, levels[|levels| - 1], 0, t)
  {
    hide LevelOk;
    hide Sorted;
    var f: nat;
    f, t := NonEmptySpans(levels, q, o, |levels| - 1);
    SpanIsPrice(side, q, o, levels[|levels| - 1], f, t);
    PricesInOrder(side, o, 0, f);
    assert HasPrice(levels, o[0].price);
  }

  /** The order behind a level's last one belongs to a worse level. */
  lemma WorseLevelBehind(side: Side, levels: seq<Level>, q: seq<Index>, o: seq<Resting>, k: nat, f: nat, t: nat)
      returns (n: nat)
    requires Leveled(levels, q, o) && Ascending(side, levels) && Sorted(side, o)
    requires k < |levels| && Spans(q, o, levels[k], f, t) && t + 1 < |o|
    ensures n < k && levels[n].price == o[t + 1].price
  {
    hide LevelOk;
    hide Sorted;
    PricesInOrder(side, o, t, t + 1);
    assert HasPrice(levels, o[t + 1].price);
    n :| 0 <= n < |levels| && levels[n].price == o[t + 1].price;
  }

  /** Behind the last order of a level comes the first of the next one. */
  lemma NextLevelFollows(side: Side, levels: seq<Level>, q: seq<Index>, o: seq<Resting>, k: nat, f: nat, t: nat)
      returns (t': nat)
    requires Leveled(levels, q, o) && Ascending(side, levels) && Sorted(side, o) && NoneEmpty(levels)
    requires k < |levels| && Spans(q, o, levels[k], f, t)
    ensures k == 0 <==> t + 1 == |o|
    ensures k > 0 ==> Spans(q, o, levels[k - 1], t + 1, t')
  {
    hide Leveled;
    hide Sorted;
    t' := 0;
    var n: nat := 0;
    if t + 1 < |o| {
      n := WorseLevelBehind(side, levels, q, o, k, f, t);
    }
    if k > 0 {
      var f': nat;
      f', t' := NonEmptySpans(levels, q, o, k - 1);
      SpanIsPrice(side, q, o, levels[k - 1], f', t');
      if f' <= t {
        PricesInOrder(side, o, f', t);
      } else {
        PricesInOrder(side, o, t + 1, f');
      }
    }
  }

  /** There are levels exactly when there are orders. */
  lemma LevelsIffOrders(levels: seq<Level>, q: seq<Index>, o: seq<Resting>)
    requires Leveled(levels, q, o) && NoneEmpty(levels)
    ensures levels == [] <==> o == []
  {
    if levels != [] {
      var f, t := NonEmptySpans(levels, q, o, 0);
    }
    if o != [] {
      assert HasPrice(levels, o[0].price);
    }
  }

  /** Following the links of a level visits its orders in turn and then stops. */
  lemma NextInSpan(side: Side, q: seq<Index>, o: seq<Resting>, level: Level, f: nat, t: nat, p: nat)
    requires Sorted(side, o) && Spans(q, o, level, f, t) && f <= p <= t
    ensures o[p].price == level.price
    ensures NextAt(q, o, p) == (if p < t then q[p + 1] else NIL)
    ensures PrevAt(q, o, p) == (if p > f then q[p - 1] else NIL)
  {
    SpanIsPrice(side, q, o, level, f, t);
  }
}
