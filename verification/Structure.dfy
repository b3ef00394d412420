/** The whole book as values: the slots with their generations, the id map and
    both sides agree on which orders rest. */
module Structure {
  import opened Types
  import opened Sequences
  import opened Matching
  import opened Invariant
  import opened Pool
  import opened PriceLevels
  import opened Linkage

  /** The id map names exactly the slots in use, each with its generation. */
  ghost predicate IdsOk(slots: seq<Slot>, generation: seq<Generation>, ids: map<OrderId, Handle>) {
    && |generation| == |slots|
    && (forall id :: id in ids ==>
          var h := ids[id];
          h.index < |slots| && slots[h.index].Used? && slots[h.index].order.id == id && h.generation == generation[h.index])
    && (forall i :: 0 <= i < |slots| && slots[i].Used? ==>
          slots[i].order.id in ids && ids[slots[i].order.id].index == i)
  }

  /** Every slot in use is linked into the side it belongs to. */
  ghost predicate AllLinked(slots: seq<Slot>, q: BySide<seq<Index>>) {
    forall i: Index :: i < |slots| && slots[i].Used? ==> i in q.On(slots[i].order.side)
  }

  ghost predicate Rep(slots: seq<Slot>, generation: seq<Generation>, ids: map<OrderId, Handle>,
                      q: BySide<seq<Index>>, o: BySide<seq<Resting>>) {
    && Threaded(slots, q.bids, o.bids)
    && Threaded(slots, q.asks, o.asks)
    && IdsOk(slots, generation, ids)
    && AllLinked(slots, q)
  }

  ghost predicate Tagged(side: Side, s: seq<Resting>) {
    forall i :: 0 <= i < |s| ==> s[i].side == side
  }

  /** The facts about the orders that the structure relies on. */
  ghost predicate Ordered(o: BySide<seq<Resting>>) {
    Sorted(Buy, o.bids) && Sorted(Sell, o.asks) && Tagged(Buy, o.bids) && Tagged(Sell, o.asks)
  }

  lemma RepIsThreaded(slots: seq<Slot>, generation: seq<Generation>, ids: map<OrderId, Handle>,
                      q: BySide<seq<Index>>, o: BySide<seq<Resting>>)
    requires Rep(slots, generation, ids, q, o)
    ensures Threaded(slots, q.bids, o.bids) && Threaded(slots, q.asks, o.asks)
    ensures IdsOk(slots, generation, ids)
  {
  }

  lemma EmptyBook(slots: seq<Slot>, generation: seq<Generation>)
    requires |generation| == |slots| <= NIL
    requires forall i :: 0 <= i < |slots| ==> slots[i].Free?
    ensures Rep(slots, generation, map[], BySide([], []), BySide([], []))
    ensures Threaded(slots, [], []) && Leveled([], [], []) && Sorted(Buy, []) && Sorted(Sell, [])
  {
  }

  // ---------- finding an order ----------

  /** Where a slot in use is linked. */
  lemma Locate(slots: seq<Slot>, q: BySide<seq<Index>>, o: BySide<seq<Resting>>, i: Index) returns (j: nat)
    requires AllLinked(slots, q)
    requires Threaded(slots, q.bids, o.bids) && Threaded(slots, q.asks, o.asks)
    requires i < |slots| && slots[i].Used?
    ensures
      var side := slots[i].order.side;
      j < |q.On(side)| && q.On(side)[j] == i && slots[i] == SlotAt(q.On(side), o.On(side), j)
  {
    var side := slots[i].order.side;
    j :| 0 <= j < |q.On(side)| && q.On(side)[j] == i;
  }

  /** An id is in the map exactly when an order with it rests. */
  lemma MappedIffRests(slots: seq<Slot>, generation: seq<Generation>, ids: map<OrderId, Handle>,
                       q: BySide<seq<Index>>, st: State, id: OrderId)
    requires Rep(slots, generation, ids, q, st.book)
    ensures id in ids <==> Rests(st, id)
  {
    if id in ids {
      var j := Locate(slots, q, st.book, ids[id].index);
      var side := slots[ids[id].index].order.side;
      assert st.book.On(side)[j].id == id;
    }
    if Rests(st, id) {
      var side := SideOf(st, id);
      var j := Position(st.book.On(side), id);
      assert slots[q.On(side)[j]] == SlotAt(q.On(side), st.book.On(side), j);
    }
  }

  /** The order a mapped id leads to. */
  lemma Lookup(slots: seq<Slot>, generation: seq<Generation>, ids: map<OrderId, Handle>,
               q: BySide<seq<Index>>, o: BySide<seq<Resting>>, id: OrderId) returns (j: nat)
    requires Rep(slots, generation, ids, q, o)
    requires id in ids
    ensures
      var h := ids[id];
      && h != INVALID && h.index < |slots| == |generation| && slots[h.index].Used?
      && h.generation == generation[h.index]
      && var side := slots[h.index].order.side;
         && j < |q.On(side)| == |o.On(side)| && q.On(side)[j] == h.index
         && o.On(side)[j].id == id
         && slots[h.index] == SlotAt(q.On(side), o.On(side), j)
  {
    j := Locate(slots, q, o, ids[id].index);
  }

  /** The one place of a resting id. */
  lemma Located(st: State, id: OrderId, side: Side, j: nat)
    requires BookOk(st.book, st.nextSeq)
    requires j < |st.book.On(side)| && st.book.On(side)[j].id == id
    ensures Rests(st, id) && SideOf(st, id) == side && Position(st.book.On(side), id) == j
  {
  }

  // ---------- edits of a single slot ----------

  /** A slot outside the lists may change. */
  lemma OutsideSlot(slots: seq<Slot>, q: seq<Index>, o: seq<Resting>, i: Index, slot: Slot)
    requires Threaded(slots, q, o)
    requires i < |slots| && i !in q
    ensures Threaded(slots[i := slot], q, o)
  {
  }

  lemma ThreadedAt(slots: seq<Slot>, q: seq<Index>, o: seq<Resting>, j: nat)
    requires Threaded(slots, q, o) && j < |q|
    ensures |q| == |o| && q[j] < |slots| && slots[q[j]] == SlotAt(q, o, j)
  {
  }

  /** An order of one side is not in the lists of the other. */
  lemma NotOnOtherSide(slots: seq<Slot>, q: BySide<seq<Index>>, o: BySide<seq<Resting>>, side: Side, i: Index)
    requires Threaded(slots, q.bids, o.bids) && Threaded(slots, q.asks, o.asks)
    requires Tagged(Buy, o.bids) && Tagged(Sell, o.asks)
    requires i < |slots| && (slots[i].Used? ==> slots[i].order.side == side)
    ensures i !in q.On(side.Opposite())
    ensures slots[i].Free? ==> i !in q.On(side)
  {
  }

  lemma RelinkKeepsIds(slots: seq<Slot>, slots': seq<Slot>, side: Side, generation: seq<Generation>, ids: map<OrderId, Handle>)
    requires IdsOk(slots, generation, ids) && OnlyRelinked(slots, slots', side)
    ensures IdsOk(slots', generation, ids)
  {
  }

  lemma FreeKeepsIds(slots: seq<Slot>, generation: seq<Generation>, ids: map<OrderId, Handle>, i: Index, next: Index, g: Generation)
    requires IdsOk(slots, generation, ids)
    requires i < |slots| && slots[i].Used?
    ensures IdsOk(slots[i := Free(next)], generation[i := g], ids - {slots[i].order.id})
  {
  }

  lemma UseKeepsIds(slots: seq<Slot>, generation: seq<Generation>, ids: map<OrderId, Handle>, i: Index, order: Order)
    requires IdsOk(slots, generation, ids)
    requires i < |slots| && slots[i].Free? && order.id !in ids
    ensures IdsOk(slots[i := Used(order)], generation, ids[order.id := Handle(i, generation[i])])
  {
  }

  /** A slot keeps its owner while the order in it is edited. */
  lemma EditKeepsIds(slots: seq<Slot>, generation: seq<Generation>, ids: map<OrderId, Handle>, i: Index, order: Order)
    requires IdsOk(slots, generation, ids)
    requires i < |slots| && slots[i].Used? && order.id == slots[i].order.id
    ensures IdsOk(slots[i := Used(order)], generation, ids)
  {
  }

  // ---------- edits of the book ----------

  /** Slot i is in use but in no list; every other slot in use is linked. */
  ghost predicate Floating(slots: seq<Slot>, q: BySide<seq<Index>>, o: BySide<seq<Resting>>, i: Index) {
    && Threaded(slots, q.bids, o.bids)
    && Threaded(slots, q.asks, o.asks)
    && i < |slots| && slots[i].Used? && i !in q.bids && i !in q.asks
    && forall k: Index :: k < |slots| && slots[k].Used? && k != i ==> k in q.On(slots[k].order.side)
  }

  /** Unlinking order j leaves its slot floating. */
  lemma DetachFloats(slots: seq<Slot>, generation: seq<Generation>, ids: map<OrderId, Handle>,
                     q: BySide<seq<Index>>, o: BySide<seq<Resting>>, side: Side, j: nat)
    requires Rep(slots, generation, ids, q, o) && Ordered(o)
    requires j < |q.On(side)|
    ensures
      var i := q.On(side)[j];
      var slots' := Unthread(slots, q.On(side), o.On(side), j);
      && Floating(slots', q.With(side, RemoveAt(q.On(side), j)), o.With(side, RemoveAt(o.On(side), j)), i)
      && slots'[i] == Linked(o.On(side)[j], NIL, NIL)
      && IdsOk(slots', generation, ids)
  {
    hide Sorted;
    hide IdsOk;
    hide NextAt;
    hide PrevAt;
    hide Unthread;
    hide Distinct;
    var s, u := q.On(side), o.On(side);
    UnthreadSelf(slots, s, u, j);
    UnthreadKeepsThreads(slots, side, s, u, j);
    UnthreadOnlyRelinks(slots, side, s, u, j);
    var slots' := Unthread(slots, s, u, j);
    OtherSideThreaded(slots, slots', side, q.On(side.Opposite()), o.On(side.Opposite()));
    ThreadedDistinct(slots, side, s, u);
    RemovedMembers(s, j);
    assert slots[s[j]] == SlotAt(s, u, j);
    NotOnOtherSide(slots, q, o, side, s[j]);
    RelinkKeepsIds(slots, slots', side, generation, ids);
  }

  /** Freeing a floating slot and forgetting its id. */
  lemma ReleaseKeepsRep(slots: seq<Slot>, generation: seq<Generation>, ids: map<OrderId, Handle>,
                        q: BySide<seq<Index>>, o: BySide<seq<Resting>>, i: Index, next: Index, g: Generation)
    requires Floating(slots, q, o, i) && IdsOk(slots, generation, ids)
    ensures Rep(slots[i := Free(next)], generation[i := g], ids - {slots[i].order.id}, q, o)
    ensures |ids - {slots[i].order.id}| == |ids| - 1
  {
    var id := slots[i].order.id;
    assert (ids - {id}).Keys == ids.Keys - {id};
    FreeKeepsIds(slots, generation, ids, i, next, g);
  }

  /** Taking a free slot for a new order. */
  lemma AllocateFloats(slots: seq<Slot>, generation: seq<Generation>, ids: map<OrderId, Handle>,
                       q: BySide<seq<Index>>, o: BySide<seq<Resting>>, i: Index, order: Order)
    requires Rep(slots, generation, ids, q, o)
    requires i < |slots| && slots[i].Free? && order.id !in ids
    ensures Floating(slots[i := Used(order)], q, o, i)
    ensures IdsOk(slots[i := Used(order)], generation, ids[order.id := Handle(i, generation[i])])
    ensures Threaded(slots[i := Used(order)], q.bids, o.bids) && Threaded(slots[i := Used(order)], q.asks, o.asks)
  {
    UseKeepsIds(slots, generation, ids, i, order);
  }

  /** Editing the order in a floating slot. */
  lemma EditFloats(slots: seq<Slot>, generation: seq<Generation>, ids: map<OrderId, Handle>,
                   q: BySide<seq<Index>>, o: BySide<seq<Resting>>, i: Index, order: Order)
    requires Floating(slots, q, o, i) && IdsOk(slots, generation, ids)
    requires order.id == slots[i].order.id
    ensures Floating(slots[i := Used(order)], q, o, i)
    ensures IdsOk(slots[i := Used(order)], generation, ids)
    ensures Threaded(slots[i := Used(order)], q.bids, o.bids) && Threaded(slots[i := Used(order)], q.asks, o.asks)
  {
    EditKeepsIds(slots, generation, ids, i, order);
  }

  /** Linking a floating order in. */
  lemma AttachKeepsRep(slots: seq<Slot>, generation: seq<Generation>, ids: map<OrderId, Handle>,
                       q: BySide<seq<Index>>, o: BySide<seq<Resting>>, side: Side, i: Index, r: Resting)
    requires Floating(slots, q, o, i) && IdsOk(slots, generation, ids) && Ordered(o)
    requires slots[i] == Linked(r, NIL, NIL) && r.side == side
    ensures
      var pos := InsertPos(side, o.On(side), r.price);
      Rep(Thread(slots, q.On(side), o.On(side), pos, i, r), generation, ids,
          q.With(side, InsertAt(q.On(side), pos, i)), o.With(side, InsertAt(o.On(side), pos, r)))
  {
    hide Sorted;
    hide IdsOk;
    hide InsertPos;
    hide Thread;
    var s, u := q.On(side), o.On(side);
    var pos := InsertPos(side, u, r.price);
    var slots' := Thread(slots, s, u, pos, i, r);
    ThreadKeepsThreads(slots, side, s, u, i, r);
    ThreadOnlyRelinks(slots, side, s, u, pos, i, r);
    OtherSideThreaded(slots, slots', side, q.On(side.Opposite()), o.On(side.Opposite()));
    InsertedMembers(s, pos, i);
    RelinkKeepsIds(slots, slots', side, generation, ids);
  }

  /** Changing the quantity of order j in place. */
  lemma RequantifyKeepsRep(slots: seq<Slot>, generation: seq<Generation>, ids: map<OrderId, Handle>,
                           q: BySide<seq<Index>>, o: BySide<seq<Resting>>, side: Side, j: nat, qty: Qty)
    requires Rep(slots, generation, ids, q, o) && Ordered(o)
    requires j < |q.On(side)|
    ensures
      var i := q.On(side)[j];
      && i < |slots| && slots[i] == SlotAt(q.On(side), o.On(side), j)
      && Rep(slots[i := Used(slots[i].order.(qty := qty))], generation, ids, q,
             o.With(side, o.On(side)[j := o.On(side)[j].(qty := qty)]))
  {
    hide Sorted;
    hide IdsOk;
    hide Threaded;
    hide NextAt;
    hide PrevAt;
    var s, u := q.On(side), o.On(side);
    ThreadedAt(slots, s, u, j);
    ThreadedDistinct(slots, side, s, u);
    NotOnOtherSide(slots, q, o, side, s[j]);
    var order := slots[s[j]].order.(qty := qty);
    EditKeepsIds(slots, generation, ids, s[j], order);
    RequantifyKeepsThreads(slots, s, u, j, qty);
    OutsideSlot(slots, q.On(side.Opposite()), o.On(side.Opposite()), s[j], Used(order));
  }

  lemma RequantifyKeepsOrder(side: Side, o: seq<Resting>, j: nat, qty: Qty)
    requires Sorted(side, o) && Tagged(side, o) && j < |o|
    ensures Sorted(side, o[j := o[j].(qty := qty)]) && Tagged(side, o[j := o[j].(qty := qty)])
  {
    var o' := o[j := o[j].(qty := qty)];
    assert forall n :: 0 <= n < |o| ==> o'[n].price == o[n].price && o'[n].seqNo == o[n].seqNo;
  }

  lemma RequantifyKeepsThreads(slots: seq<Slot>, q: seq<Index>, o: seq<Resting>, j: nat, qty: Qty)
    requires Threaded(slots, q, o) && Distinct(q) && j < |q|
    requires slots[q[j]].Used?
    ensures Threaded(slots[q[j] := Used(slots[q[j]].order.(qty := qty))], q, o[j := o[j].(qty := qty)])
  {
    var slots', o' := slots[q[j] := Used(slots[q[j]].order.(qty := qty))], o[j := o[j].(qty := qty)];
    forall k | 0 <= k < |q|
      ensures slots'[q[k]] == SlotAt(q, o', k)
    {
      assert slots[q[k]] == SlotAt(q, o, k);
    }
  }

  /** Editing the order in a slot leaves the free list alone. */
  lemma EditKeepsFree(slots: seq<Slot>, head: Index, list: seq<Index>, i: Index, order: Order)
    requires FreeChain(slots, head, list)
    requires i < |slots| && slots[i].Used?
    ensures FreeChain(slots[i := Used(order)], head, list)
  {
  }

  lemma SideSeqsBelow(st: State, side: Side)
    requires BookOk(st.book, st.nextSeq)
    ensures forall n :: 0 <= n < |st.book.On(side)| ==> st.book.On(side)[n].seqNo < st.nextSeq
  {
  }

  lemma SeqsBelow(st: State, side: Side, j: nat)
    requires BookOk(st.book, st.nextSeq) && j < |st.book.On(side)|
    ensures forall n :: 0 <= n < |st.book.On(side)| ==> st.book.On(side)[n].seqNo < st.nextSeq
    ensures forall n :: 0 <= n < |st.book.On(side)| - 1 ==> RemoveAt(st.book.On(side), j)[n].seqNo < st.nextSeq
    ensures st.book.On(side)[j].side == side
  {
  }
}
