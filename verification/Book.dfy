/** The matching engine: the pool, two arrays of price levels and the id map,
    kept in step by every command. */
module Book {
  import opened Types
  import opened Sequences
  import opened Matching
  import opened Invariant
  import opened Pool
  import opened PriceLevels
  import opened Linkage
  import opened Structure
  import opened LevelList
  import IdMap

  class Book {
    const pool: FixedPool
    const bids: Levels
    const asks: Levels
    const ids: IdMap.Map
    var nextSeq: nat
    var nextTradeId: nat
    /** The slot of every resting order, best first. */
    ghost var q: BySide<seq<Index>>
    /** What the book means. */
    ghost var model: State

    ghost function Repr(): set<object> {
      {this, pool, pool.slots, pool.generation, bids, bids.levels, asks, asks.levels, ids, ids.table}
    }

    function LevelsOf(side: Side): Levels {
      if side.Buy? then bids else asks
    }

    /** No two parts share memory, and each has room for the whole pool. */
    ghost predicate Apart() {
      && bids != asks
      && pool.slots as object != pool.generation && pool.slots as object != bids.levels
      && pool.slots as object != asks.levels && pool.slots as object != ids.table
      && pool.generation as object != bids.levels && pool.generation as object != asks.levels
      && pool.generation as object != ids.table
      && bids.levels != asks.levels && bids.levels as object != ids.table && asks.levels as object != ids.table
      && bids.side.Buy? && asks.side.Sell?
      && bids.levels.Length == asks.levels.Length == pool.slots.Length + 1
      && pool.slots.Length <= ids.table.Length / 2
    }

    /** Each side's lists and levels represent its orders. */
    ghost predicate Sides()
      reads Repr()
    {
      SideRep(bids, pool, q.bids, model.book.bids) && SideRep(asks, pool, q.asks, model.book.asks)
    }

    /** No level is empty. */
    ghost predicate Settled()
      requires Sides()
      reads Repr()
    {
      NoneEmpty(bids.View()) && NoneEmpty(asks.View())
    }

    /** Slots, ids and orders agree, and the free slots are the rest. */
    ghost predicate Agreed()
      requires Sides()
      reads Repr()
    {
      && Rep(pool.slots[..], pool.generation[..], ids.contents, q, model.book)
      && |q.bids| == |model.book.bids| && |q.asks| == |model.book.asks|
      && |ids.contents| == |q.bids| + |q.asks|
      && |ids.contents| + |pool.freeList| == pool.slots.Length
    }

    ghost predicate Sound()
      reads Repr()
    {
      Apart() && ids.Valid() && Sides() && Agreed()
    }

    ghost predicate Valid()
      reads Repr()
    {
      && Sound() && Settled()
      && Invariant.Valid(model)
      && model.capacity == pool.slots.Length
      && model.nextSeq == nextSeq && model.nextTrade == nextTradeId
    }

    lemma EmptyIsValid()
      requires Apart() && pool.Valid() && bids.Valid() && asks.Valid() && ids.Valid()
      requires q == BySide([], []) && model == Initial(pool.slots.Length)
      requires bids.count == 0 && asks.count == 0 && ids.contents == map[]
      requires |pool.freeList| == pool.slots.Length
      requires forall i :: 0 <= i < pool.slots.Length ==> pool.slots[i].Free?
      requires nextSeq == 0 && nextTradeId == 0
      ensures Valid()
    {
      hide FreeChain;
      hide GenerationsOk;
      hide IdMap.TableOk;
      hide Rep;
      InitialIsValid(pool.slots.Length);
      EmptyBook(pool.slots[..], pool.generation[..]);
    }

    constructor (capacity: Index, hash: OrderId -> nat)
      ensures Valid() && fresh(Repr())
      ensures model == Initial(capacity)
    {
      hide Valid;
      hide FreeChain;
      hide GenerationsOk;
      hide IdMap.TableOk;
      hide Ascending;
      pool := new FixedPool(capacity);
      bids := new Levels(Buy, capacity as nat + 1);
      asks := new Levels(Sell, capacity as nat + 1);
      ids := new IdMap.Map(capacity, hash);
      nextSeq := 0;
      nextTradeId := 0;
      q := BySide([], []);
      model := Initial(capacity);
      new;
      EmptyIsValid();
    }

    // ---------- steps shared by the commands ----------

    /** Every command takes the next sequence number. */
    method TakeSeq() returns (seqNo: nat)
      requires Valid()
      modifies this`nextSeq, this`model
      ensures Sound() && Settled()
      ensures seqNo == old(nextSeq)
      ensures nextSeq == old(nextSeq) + 1 && model == Tick(old(model))
    {
      hide Rep;
      hide SideRep;
      seqNo := nextSeq;
      nextSeq := nextSeq + 1;
      model := Tick(model);
    }

    /** Takes order j off its side and drops its level if that was the last. */
    method Detach(side: Side, price: Price, i: Index, ghost j: nat)
      requires Sound() && Settled()
      requires j < |q.On(side)| == |model.book.On(side)| && q.On(side)[j] == i
      requires model.book.On(side)[j].price == price
      modifies pool.slots, LevelsOf(side), LevelsOf(side).levels, this`q, this`model
      ensures ids.Valid() && Sides() && Settled()
      ensures Floating(pool.slots[..], q, model.book, i)
      ensures IdsOk(pool.slots[..], pool.generation[..], ids.contents)
      ensures pool.slots[i] == Linked(old(model.book.On(side)[j]), NIL, NIL)
      ensures q == old(q.With(side, RemoveAt(q.On(side), j)))
      ensures model == old(model.(book := model.book.With(side, RemoveAt(model.book.On(side), j))))
    {
      hide Rep;
      hide Leveled;
      hide Ascending;
      hide IdsOk;
      hide FreeChain;
      hide GenerationsOk;
      hide Sorted;
      hide IdMap.TableOk;
      hide Unthread;
      hide Threaded;
      ghost var slots := pool.slots[..];
      ghost var s, o := q.On(side), model.book.On(side);
      DetachFloats(slots, pool.generation[..], ids.contents, q, model.book, side, j);
      Withdraw(LevelsOf(side), pool, price, i, s, o, j);
      q := q.With(side, RemoveAt(s, j));
      model := model.(book := model.book.With(side, RemoveAt(o, j)));
    }

    /** Frees the slot of an order that is in no list and forgets its id. */
    method Release(i: Index, id: OrderId)
      requires Apart() && ids.Valid() && Sides()
      requires |q.bids| == |model.book.bids| && |q.asks| == |model.book.asks|
      requires Floating(pool.slots[..], q, model.book, i)
      requires IdsOk(pool.slots[..], pool.generation[..], ids.contents)
      requires pool.slots[i].order.id == id
      requires |ids.contents| == |q.bids| + |q.asks| + 1
      requires |ids.contents| + |pool.freeList| == pool.slots.Length
      modifies pool, pool.slots, pool.generation, ids, ids.table
      ensures Sound()
    {
      hide Rep;
      hide Leveled;
      hide Ascending;
      hide IdsOk;
      hide FreeChain;
      hide GenerationsOk;
      hide Sorted;
      hide IdMap.TableOk;
      hide Threaded;
      hide NoneEmpty;
      ghost var slots, generation := pool.slots[..], pool.generation[..];
      ghost var contents := ids.contents;
      pool.FreeSlot(Handle(i, pool.generation[i]));
      var present := ids.Erase(id);
      ReleaseKeepsRep(slots, generation, contents, q, model.book, i, pool.slots[i].next, pool.generation[i]);
      RepIsThreaded(pool.slots[..], pool.generation[..], ids.contents, q, model.book);
    }

    /** Puts the order r, in slot i and in no list, at the end of level k. */
    method Attach(side: Side, k: nat, i: Index, ghost r: Resting, ghost contents: map<OrderId, Handle>)
      requires Apart() && ids.Valid() && Sides()
      requires NoneEmpty(LevelsOf(side.Opposite()).View())
      requires k < LevelsOf(side).count <= LevelsOf(side).levels.Length
      requires LevelsOf(side).levels[k].price == r.price
      requires NoneEmptyBut(LevelsOf(side).View(), k)
      requires Floating(pool.slots[..], q, model.book, i)
      requires IdsOk(pool.slots[..], pool.generation[..], contents)
      requires pool.slots[i] == Linked(r, NIL, NIL) && r.side == side
      requires forall n :: 0 <= n < |model.book.On(side)| ==> model.book.On(side)[n].seqNo < r.seqNo
      modifies pool.slots, LevelsOf(side), LevelsOf(side).levels, this`q, this`model
      ensures Apart() && ids.Valid() && Sides() && Settled()
      ensures Rep(pool.slots[..], pool.generation[..], contents, q, model.book)
      ensures
        var pos := InsertPos(side, old(model.book.On(side)), r.price);
        && q == old(q).With(side, InsertAt(old(q.On(side)), pos, i))
        && model == old(model).(book := old(model.book).With(side, InsertAt(old(model.book.On(side)), pos, r)))
    {
      hide Rep;
      hide Leveled;
      hide Ascending;
      hide IdsOk;
      hide FreeChain;
      hide GenerationsOk;
      hide Sorted;
      hide IdMap.TableOk;
      hide Threaded;
      hide Thread;
      hide InsertPos;
      ghost var slots := pool.slots[..];
      ghost var s, o := q.On(side), model.book.On(side);
      ghost var pos := InsertPos(side, o, r.price);
      AttachKeepsRep(slots, pool.generation[..], contents, q, model.book, side, i, r);
      Join(LevelsOf(side), k, pool, i, s, o, r);
      q := q.With(side, InsertAt(s, pos, i));
      model := model.(book := model.book.With(side, InsertAt(o, pos, r)));
      RepIsThreaded(pool.slots[..], pool.generation[..], contents, q, model.book);
    }

    /** Changes the quantity of order j in place. */
    method Requantify(side: Side, i: Index, qty: Qty, ghost j: nat)
      requires Sound()
      requires j < |q.On(side)| == |model.book.On(side)| && q.On(side)[j] == i
      modifies pool.slots, this`model
      ensures Sound()
      ensures model == old(model.(book := model.book.With(side, model.book.On(side)[j := model.book.On(side)[j].(qty := qty)])))
    {
      hide Rep;
      hide Leveled;
      hide Ascending;
      hide FreeChain;
      hide GenerationsOk;
      hide IdMap.TableOk;
      hide Threaded;
      hide Sorted;
      ghost var slots := pool.slots[..];
      ghost var o := model.book.On(side);
      RequantifyKeepsOrder(side, o, j, qty);
      ghost var o' := o[j := o[j].(qty := qty)];
      RequantifyKeepsRep(slots, pool.generation[..], ids.contents, q, model.book, side, j, qty);
      SamePricesLeveled(LevelsOf(side).View(), q.On(side), o, o');
      EditKeepsFree(slots, pool.freeHead, pool.freeList, i, slots[i].order.(qty := qty));
      pool.slots[i] := Used(pool.slots[i].order.(qty := qty));
      model := model.(book := model.book.With(side, o'));
      assert pool.slots[..] == slots[i := Used(slots[i].order.(qty := qty))];
      RepIsThreaded(pool.slots[..], pool.generation[..], ids.contents, q, model.book);
    }

    /** Gives an order that is in no list its new price, quantity and number. */
    method Relabel(i: Index, price: Price, qty: Qty, seqNo: nat, ghost r: Resting)
      requires Apart() && ids.Valid() && Sides()
      requires Floating(pool.slots[..], q, model.book, i)
      requires IdsOk(pool.slots[..], pool.generation[..], ids.contents)
      requires pool.slots[i] == Linked(r, NIL, NIL)
      modifies pool.slots
      ensures Sides()
      ensures Floating(pool.slots[..], q, model.book, i)
      ensures IdsOk(pool.slots[..], pool.generation[..], ids.contents)
      ensures pool.slots[i] == Linked(r.(price := price, qty := qty, seqNo := seqNo), NIL, NIL)
    {
      hide Leveled;
      hide Ascending;
      hide IdsOk;
      hide FreeChain;
      hide GenerationsOk;
      hide Sorted;
      hide IdMap.TableOk;
      hide Threaded;
      ghost var slots := pool.slots[..];
      var order := pool.slots[i].order.(price := price, qty := qty, seqNo := seqNo);
      EditFloats(slots, pool.generation[..], ids.contents, q, model.book, i, order);
      EditKeepsFree(slots, pool.freeHead, pool.freeList, i, order);
      pool.slots[i] := Used(order);
      assert pool.slots[..] == slots[i := Used(order)];
    }

    /** The level at the price on this side, made if there is none. */
    method LevelForInsert(side: Side, price: Price) returns (k: nat)
      requires Apart() && ids.Valid() && Sides() && Settled()
      requires |q.On(side)| <= pool.slots.Length
      modifies LevelsOf(side), LevelsOf(side).levels
      ensures Sides()
      ensures NoneEmpty(LevelsOf(side.Opposite()).View())
      ensures k < LevelsOf(side).count <= LevelsOf(side).levels.Length
      ensures LevelsOf(side).levels[k].price == price
      ensures NoneEmptyBut(LevelsOf(side).View(), k)
    {
      hide Leveled;
      hide FreeChain;
      hide GenerationsOk;
      hide Sorted;
      hide Ascending;
      hide Threaded;
      var levels := LevelsOf(side);
      LevelsFit(levels.side, levels.View(), q.On(side), model.book.On(side));
      k := OpenLevel(levels, price, q.On(side), model.book.On(side));
    }

    /** Moves order j to the end of the level at its new price. */
    method Reposition(side: Side, i: Index, from: Price, price: Price, qty: Qty, seqNo: nat, ghost j: nat)
      requires Sound() && Settled()
      requires j < |q.On(side)| == |model.book.On(side)| && q.On(side)[j] == i
      requires model.book.On(side)[j].side == side && model.book.On(side)[j].price == from
      requires forall n :: 0 <= n < |model.book.On(side)| - 1 ==> RemoveAt(model.book.On(side), j)[n].seqNo < seqNo
      modifies pool.slots, LevelsOf(side), LevelsOf(side).levels, this`q, this`model
      ensures Sound() && Settled()
      ensures
        var o := old(model.book.On(side));
        model == old(model).(book := old(model.book).With(side,
          Insert(side, RemoveAt(o, j), o[j].(price := price, qty := qty, seqNo := seqNo))))
    {
      hide Rep;
      hide SideRep;
      hide IdsOk;
      hide Floating;
      hide IdMap.TableOk;
      hide NoneEmpty;
      hide InsertPos;
      ghost var r := model.book.On(side)[j];
      Detach(side, from, i, j);
      Relabel(i, price, qty, seqNo, r);
      var k := LevelForInsert(side, price);
      Attach(side, k, i, r.(price := price, qty := qty, seqNo := seqNo), ids.contents);
    }

    /** A slot for a new order with its sequence number, if one is free. */
    method AllocateOrder(order: Order, seqNo: nat) returns (h: Handle)
      requires Apart() && ids.Valid() && Sides() && Agreed()
      requires order.id !in ids.contents
      modifies pool, pool.slots
      ensures Sides()
      ensures h == INVALID <==> |ids.contents| == pool.slots.Length
      ensures h == INVALID ==> Agreed()
      ensures h != INVALID ==>
                && Floating(pool.slots[..], q, model.book, h.index)
                && IdsOk(pool.slots[..], pool.generation[..], ids.contents[order.id := h])
                && pool.slots[h.index] == Used(order.(seqNo := seqNo))
                && |ids.contents| + |pool.freeList| + 1 == pool.slots.Length
    {
      hide Rep;
      hide Leveled;
      hide Ascending;
      hide IdsOk;
      hide FreeChain;
      hide GenerationsOk;
      hide Sorted;
      hide IdMap.TableOk;
      hide Threaded;
      ghost var slots := pool.slots[..];
      h := pool.Allocate(order);
      if h == INVALID {
        return;
      }
      var numbered := pool.slots[h.index].order.(seqNo := seqNo);
      EditKeepsFree(pool.slots[..], pool.freeHead, pool.freeList, h.index, numbered);
      AllocateFloats(slots, pool.generation[..], ids.contents, q, model.book, h.index, numbered);
      assert pool.slots[..][h.index := Used(numbered)] == slots[h.index := Used(numbered)];
      pool.slots[h.index] := Used(numbered);
      assert pool.slots[..] == slots[h.index := Used(numbered)];
    }

    /** Rests an order, or reports that the pool is full and leaves no trace. */
    method Rest(order: Order, seqNo: nat) returns (rested: bool)
      requires Sound() && Settled()
      requires order.id !in ids.contents && order.next == order.prev == NIL
      requires forall n :: 0 <= n < |model.book.On(order.side)| ==> model.book.On(order.side)[n].seqNo < seqNo
      modifies Repr() - {this}, this`q, this`model
      ensures Sound() && Settled()
      ensures rested <==> old(|model.book.bids| + |model.book.asks|) < pool.slots.Length
      ensures !rested ==> model == old(model)
      ensures rested ==>
                var r := Resting(order.side, order.price, order.id, order.qty, order.account, seqNo);
                model == old(model).(book := old(model.book).With(order.side, Insert(order.side, old(model.book.On(order.side)), r)))
    {
      hide Rep;
      hide SideRep;
      hide IdsOk;
      hide Floating;
      hide IdMap.TableOk;
      hide NoneEmpty;
      hide InsertPos;
      var k := LevelForInsert(order.side, order.price);
      var h := AllocateOrder(order, seqNo);
      if h == INVALID {
        CloseLevelAt(order.side, k);
        return false;
      }
      Admit(order.side, k, h, order.id, Resting(order.side, order.price, order.id, order.qty, order.account, seqNo));
      return true;
    }

    /** Links the order r, in its new slot, in at the end of level k and maps its
        id to the slot. */
    method Admit(side: Side, k: nat, h: Handle, id: OrderId, ghost r: Resting)
      requires k < LevelsOf(side).count <= LevelsOf(side).levels.Length
      requires LevelsOf(side).levels[k].price == r.price
      requires Apart() && ids.Valid() && Sides()
      requires NoneEmpty(LevelsOf(side.Opposite()).View()) && NoneEmptyBut(LevelsOf(side).View(), k)
      requires Floating(pool.slots[..], q, model.book, h.index)
      requires id !in ids.contents && h != INVALID
      requires IdsOk(pool.slots[..], pool.generation[..], ids.contents[id := h])
      requires pool.slots[h.index] == Linked(r, NIL, NIL) && r.side == side
      requires forall n :: 0 <= n < |model.book.On(side)| ==> model.book.On(side)[n].seqNo < r.seqNo
      requires |q.bids| == |model.book.bids| && |q.asks| == |model.book.asks|
      requires |ids.contents| == |q.bids| + |q.asks|
      requires |ids.contents| + |pool.freeList| + 1 == pool.slots.Length
      modifies Repr() - {this}, this`q, this`model
      ensures model == old(model).(book := old(model.book).With(side, Insert(side, old(model.book.On(side)), r)))
      ensures Sound() && Settled()
    {
      hide Rep;
      hide SideRep;
      hide IdsOk;
      hide Floating;
      hide IdMap.TableOk;
      hide NoneEmpty;
      hide InsertPos;
      Attach(side, k, h.index, r, ids.contents[id := h]);
      ids.Insert(id, h);
    }

    /** Drops level k of a side if it is empty. */
    method CloseLevelAt(side: Side, k: nat)
      requires Sound()
      requires NoneEmpty(LevelsOf(side.Opposite()).View())
      requires k < LevelsOf(side).count <= LevelsOf(side).levels.Length
      requires NoneEmptyBut(LevelsOf(side).View(), k)
      modifies LevelsOf(side), LevelsOf(side).levels
      ensures Sound() && Settled()
    {
      hide Rep;
      hide Leveled;
      hide FreeChain;
      hide GenerationsOk;
      hide Sorted;
      hide Ascending;
      hide Threaded;
      hide IdMap.TableOk;
      CloseLevel(LevelsOf(side), k, q.On(side), model.book.On(side));
    }

    /** Takes a fully filled best order, which is in level k, out of the book. */
    method RemoveBest(side: Side, k: nat, i: Index, id: OrderId, ghost price: Price)
      requires |model.book.On(side)| == |q.On(side)| > 0 && q.On(side)[0] == i && model.book.On(side)[0].id == id
      requires k < LevelsOf(side).count <= LevelsOf(side).levels.Length
      requires LevelsOf(side).levels[k].price == model.book.On(side)[0].price == price
      requires NoneEmptyBut(LevelsOf(side).View(), k)
      requires Sound()
      modifies pool, pool.slots, pool.generation, LevelsOf(side).levels, ids, ids.table, this`q, this`model
      ensures LevelsOf(side).levels[k].price == price
      ensures NoneEmptyBut(LevelsOf(side).View(), k)
      ensures model == old(model.(book := model.book.With(side, model.book.On(side)[1..])))
      ensures Sound()
    {
      hide Rep;
      hide Leveled;
      hide Ascending;
      hide IdsOk;
      hide FreeChain;
      hide GenerationsOk;
      hide Sorted;
      hide IdMap.TableOk;
      hide Unthread;
      hide Threaded;
      ghost var s, o := q.On(side), model.book.On(side);
      DetachFloats(pool.slots[..], pool.generation[..], ids.contents, q, model.book, side, 0);
      Pluck(LevelsOf(side), k, pool, i, s, o, 0);
      assert RemoveAt(s, 0) == s[1..] && RemoveAt(o, 0) == o[1..];
      q := q.With(side, s[1..]);
      model := model.(book := model.book.With(side, o[1..]));
      Release(i, id);
    }

    /** Takes quantity from the best order, which is in level k, and takes the
        order out of the book if nothing is left. */
    method FillBest(side: Side, k: nat, i: Index, maker: Order, fill: Qty)
      requires |model.book.On(side)| == |q.On(side)| > 0 && q.On(side)[0] == i
      requires maker.id == model.book.On(side)[0].id && fill <= maker.qty == model.book.On(side)[0].qty
      requires k < LevelsOf(side).count <= LevelsOf(side).levels.Length
      requires LevelsOf(side).levels[k].price == model.book.On(side)[0].price
      requires NoneEmptyBut(LevelsOf(side).View(), k)
      requires Sound()
      modifies pool, pool.slots, pool.generation, LevelsOf(side).levels, ids, ids.table, this`q, this`model
      ensures LevelsOf(side).levels[k].price == old(LevelsOf(side).levels[k].price)
      ensures NoneEmptyBut(LevelsOf(side).View(), k)
      ensures model == old(model.(book := model.book.With(side, Filled(model.book.On(side), fill))))
      ensures Sound()
    {
      hide Rep;
      hide SideRep;
      hide Apart;
      hide IdMap.TableOk;
      Requantify(side, i, maker.qty - fill, 0);
      if maker.qty == fill {
        ghost var o := old(model.book.On(side));
        assert o[0 := o[0].(qty := 0)][1..] == o[1..];
        RemoveBest(side, k, i, maker.id, LevelsOf(side).levels[k].price);
      }
    }

    /** Drops the best level, which is empty. */
    method PopBestLevel(side: Side)
      requires Sound()
      requires NoneEmpty(LevelsOf(side.Opposite()).View())
      requires 0 < LevelsOf(side).count <= LevelsOf(side).levels.Length
      requires NoneEmptyBut(LevelsOf(side).View(), LevelsOf(side).count - 1)
      requires LevelsOf(side).levels[LevelsOf(side).count - 1].head == NIL
      modifies LevelsOf(side)
      ensures Sound() && Settled()
      ensures LevelsOf(side).count == old(LevelsOf(side).count) - 1
    {
      hide Rep;
      hide Leveled;
      hide FreeChain;
      hide GenerationsOk;
      hide Sorted;
      hide Ascending;
      hide Threaded;
      hide IdMap.TableOk;
      var levels := LevelsOf(side);
      ghost var view := levels.View();
      DropEmptyLevel(view, q.On(side), model.book.On(side), |view| - 1);
      assert RemoveAt(view, |view| - 1) == view[..|view| - 1];
      levels.PopBest();
    }

    /** The best level, unless it is empty, starts with the best order. */
    lemma BestIsFirst(side: Side, k: nat)
      requires Sound()
      requires k + 1 == LevelsOf(side).count <= LevelsOf(side).levels.Length
      requires LevelsOf(side).levels[k].head != NIL
      ensures |q.On(side)| == |model.book.On(side)| > 0
      ensures LevelsOf(side).levels[k].head == q.On(side)[0] < pool.slots.Length
      ensures LevelsOf(side).levels[k].price == model.book.On(side)[0].price
      ensures pool.slots[q.On(side)[0]] == SlotAt(q.On(side), model.book.On(side), 0)
    {
      hide Rep;
      hide IdMap.TableOk;
      hide FreeChain;
      hide GenerationsOk;
      hide Leveled;
      hide Ascending;
      hide Sorted;
      var last := BestLevelFirst(side, LevelsOf(side).View(), q.On(side), model.book.On(side));
    }

    /** Fills the taker from the best order, which is in level k. */
    method FillOne(maker: Side, k: nat, t: Taker, qty: Qty, seqNo: nat) returns (trade: Trade, left: Qty)
      requires k + 1 == LevelsOf(maker).count <= LevelsOf(maker).levels.Length
      requires |model.book.On(maker)| == |q.On(maker)| > 0
      requires LevelsOf(maker).levels[k].head == q.On(maker)[0] < pool.slots.Length
      requires LevelsOf(maker).levels[k].price == model.book.On(maker)[0].price
      requires pool.slots[q.On(maker)[0]] == SlotAt(q.On(maker), model.book.On(maker), 0)
      requires NoneEmptyBut(LevelsOf(maker).View(), k)
      requires qty > 0 && Marketable(t, LevelsOf(maker).levels[k].price) && model.book.On(maker)[0].account != t.account
      requires Sound()
      modifies pool, pool.slots, pool.generation, LevelsOf(maker).levels, ids, ids.table
      modifies this`q, this`model, this`nextTradeId
      ensures LevelsOf(maker).levels[k].price == old(LevelsOf(maker).levels[k].price)
      ensures NoneEmptyBut(LevelsOf(maker).View(), k)
      ensures nextTradeId == old(nextTradeId) + 1
      ensures model == old(model).(book := old(model.book).With(maker, model.book.On(maker)))
      ensures Sweep(old(model.book.On(maker)), t, qty, seqNo, old(nextTradeId))
              == After([trade], Sweep(model.book.On(maker), t, left, seqNo, nextTradeId))
      ensures |model.book.On(maker)| < old(|model.book.On(maker)|) || (|model.book.On(maker)| == old(|model.book.On(maker)|) && left < qty)
      ensures Sound()
    {
      hide Rep;
      hide SideRep;
      hide Apart;
      hide IdMap.TableOk;
      var i := LevelsOf(maker).levels[k].head;
      var order := pool.slots[i].order;
      var fill := Min(qty, order.qty);
      SweepStep(model.book.On(maker), t, qty, seqNo, nextTradeId);
      trade := Trade(order.id, t.id, order.price, fill, nextTradeId, seqNo);
      nextTradeId := nextTradeId + 1;
      left := qty - fill;
      FillBest(maker, k, i, order, fill);
    }

    /** Fills the taker from the orders of level k, the best one, in turn. */
    method SweepLevel(maker: Side, k: nat, t: Taker, made: seq<Trade>, qty: Qty, seqNo: nat)
        returns (trades: seq<Trade>, left: Qty, stp: bool)
      requires k + 1 == LevelsOf(maker).count <= LevelsOf(maker).levels.Length
      requires NoneEmptyBut(LevelsOf(maker).View(), k)
      requires Marketable(t, LevelsOf(maker).levels[k].price)
      requires Sound()
      modifies pool, pool.slots, pool.generation, LevelsOf(maker).levels, ids, ids.table
      modifies this`q, this`model, this`nextTradeId
      ensures NoneEmptyBut(LevelsOf(maker).View(), k)
      ensures left == 0 || stp || LevelsOf(maker).levels[k].head == NIL
      ensures stp ==> LevelsOf(maker).levels[k].head != NIL
      ensures stp ==> Sweep(model.book.On(maker), t, left, seqNo, nextTradeId) == Swept(model.book.On(maker), [], left, true)
      ensures After(trades, Sweep(model.book.On(maker), t, left, seqNo, nextTradeId))
              == After(made, Sweep(old(model.book.On(maker)), t, qty, seqNo, old(nextTradeId)))
      ensures model == old(model).(book := old(model.book).With(maker, model.book.On(maker)))
      ensures nextTradeId - |trades| == old(nextTradeId) - |made|
      ensures Sound()
    {
      hide Agreed;
      hide SideRep;
      hide Apart;
      hide IdMap.TableOk;
      var levels := LevelsOf(maker);
      ghost var sw := Sweep(model.book.On(maker), t, qty, seqNo, nextTradeId);
      trades, left, stp := made, qty, false;
      while left > 0 && levels.levels[k].head != NIL
        invariant Sound()
        invariant NoneEmptyBut(levels.View(), k)
        invariant Marketable(t, levels.levels[k].price)
        invariant After(trades, Sweep(model.book.On(maker), t, left, seqNo, nextTradeId)) == After(made, sw)
        invariant model == old(model).(book := old(model.book).With(maker, model.book.On(maker)))
        invariant nextTradeId - |trades| == old(nextTradeId) - |made|
        decreases |model.book.On(maker)|, left
      {
        BestIsFirst(maker, k);
        if pool.slots[levels.levels[k].head].order.account == t.account {
          stp := true;
          return;
        }
        var trade;
        trade, left := FillOne(maker, k, t, left, seqNo);
        AfterAfter(trades, [trade], Sweep(model.book.On(maker), t, left, seqNo, nextTradeId));
        trades := trades + [trade];
      }
    }

    lemma NoLevelsNoOrders(side: Side)
      requires Sound() && Settled()
      ensures LevelsOf(side).count == 0 ==> model.book.On(side) == []
      ensures LevelsOf(side).count > 0 ==> LevelsOf(side).count <= LevelsOf(side).levels.Length
      ensures LevelsOf(side).count > 0 ==> LevelsOf(side).levels[LevelsOf(side).count - 1].head != NIL
    {
      hide Rep;
      hide IdMap.TableOk;
      hide FreeChain;
      hide GenerationsOk;
      hide Leveled;
      hide Ascending;
      hide Sorted;
      LevelsIffOrders(LevelsOf(side).View(), q.On(side), model.book.On(side));
    }

    /** One round of the sweep: the best level, if the taker accepts its price. */
    method CrossBest(maker: Side, t: Taker, made: seq<Trade>, qty: Qty, seqNo: nat)
        returns (trades: seq<Trade>, left: Qty, stp: bool, beyond: bool)
      requires Sound() && Settled()
      requires LevelsOf(maker).count > 0 && qty > 0
      modifies Repr() - {this}, this`q, this`model, this`nextTradeId
      ensures Sound() && Settled()
      ensures After(trades, Sweep(model.book.On(maker), t, left, seqNo, nextTradeId))
              == After(made, Sweep(old(model.book.On(maker)), t, qty, seqNo, old(nextTradeId)))
      ensures model == old(model).(book := old(model.book).With(maker, model.book.On(maker)))
      ensures nextTradeId - |trades| == old(nextTradeId) - |made|
      ensures stp || beyond ==>
                Sweep(model.book.On(maker), t, left, seqNo, nextTradeId) == Swept(model.book.On(maker), [], left, stp)
      ensures stp || beyond || left == 0 || LevelsOf(maker).count < old(LevelsOf(maker).count)
    {
      hide Agreed;
      hide SideRep;
      hide IdMap.TableOk;
      var levels := LevelsOf(maker);
      var k := levels.count - 1;
      NoLevelsNoOrders(maker);
      BestIsFirst(maker, k);
      if !Marketable(t, levels.levels[k].price) {
        return made, qty, false, true;
      }
      trades, left, stp := SweepLevel(maker, k, t, made, qty, seqNo);
      beyond := false;
      if levels.levels[k].head == NIL {
        PopBestLevel(maker);
      }
    }

    /** Sweeps the maker side until the taker is filled, its price bound is
        reached or an order of its own account comes up. */
    method Cross(maker: Side, t: Taker, qty: Qty, seqNo: nat) returns (trades: seq<Trade>, left: Qty, stp: bool)
      requires Sound() && Settled()
      modifies Repr() - {this}, this`q, this`model, this`nextTradeId
      ensures Sound() && Settled()
      ensures Swept(model.book.On(maker), trades, left, stp)
              == Sweep(old(model.book.On(maker)), t, qty, seqNo, old(nextTradeId))
      ensures model == old(model).(book := old(model.book).With(maker, model.book.On(maker)))
      ensures nextTradeId == old(nextTradeId) + |trades|
    {
      hide Agreed;
      hide SideRep;
      hide Apart;
      hide IdMap.TableOk;
      var beyond := false;
      ghost var sw := Sweep(model.book.On(maker), t, qty, seqNo, nextTradeId);
      trades, left, stp := [], qty, false;
      while left > 0 && LevelsOf(maker).count > 0 && !stp && !beyond
        invariant Sound() && Settled()
        invariant After(trades, Sweep(model.book.On(maker), t, left, seqNo, nextTradeId)) == sw
        invariant model == old(model).(book := old(model.book).With(maker, model.book.On(maker)))
        invariant nextTradeId == old(nextTradeId) + |trades|
        invariant stp || beyond ==>
                    Sweep(model.book.On(maker), t, left, seqNo, nextTradeId) == Swept(model.book.On(maker), [], left, stp)
        decreases if left > 0 && !stp && !beyond then LevelsOf(maker).count + 1 else 0
      {
        trades, left, stp, beyond := CrossBest(maker, t, trades, left, seqNo);
      }
      NoLevelsNoOrders(maker);
    }

    /** Would an order at this price trade with the best of the other side? */
    method WouldCross(side: Side, price: Price) returns (crosses: bool)
      requires Sound() && Settled()
      ensures crosses == Matching.WouldCross(model, side, price)
    {
      hide Threaded;
      hide FreeChain;
      hide GenerationsOk;
      hide Leveled;
      var opposite := LevelsOf(side.Opposite());
      ghost var s, o := q.On(side.Opposite()), model.book.On(side.Opposite());
      LevelsIffOrders(opposite.View(), s, o);
      if opposite.count == 0 {
        return false;
      }
      ghost var t := BestLevelFirst(opposite.side, opposite.View(), s, o);
      var best := opposite.levels[opposite.count - 1].price;
      return if side.Buy? then price >= best else price <= best;
    }

    /** The fill-or-kill pre-check: what the taker could take, added up in a
        32-bit word. */
    method AvailableBeforeSelfTrade(maker: Side, t: Taker) returns (total: Qty)
      requires Sound() && Settled()
      ensures total == Matching.Available(Word32, model.book.On(maker), t)
    {
      hide Rep;
      hide SideRep;
      hide IdMap.TableOk;
      hide Wrap;
      total := AvailableIn(LevelsOf(maker), pool, t, q.On(maker), model.book.On(maker));
    }

    // ---------- commands ----------

    method CancelOrder(id: OrderId) returns (ok: bool)
      requires Valid()
      modifies Repr()
      ensures Valid()
      ensures (model, Outcome(ok, 0, false, false, [])) == Matching.CancelOrder(old(model), id)
    {
      hide Rep;
      hide SideRep;
      hide IdsOk;
      hide Floating;
      hide Apart;
      hide IdMap.TableOk;
      hide NoneEmpty;
      hide BookOk;
      hide Rests;
      ghost var st := model;
      CancelKeepsValid(st, id);
      MappedIffRests(pool.slots[..], pool.generation[..], ids.contents, q, st, id);
      var seqNo := TakeSeq();
      var found := ids.Find(id);
      if found.None? {
        return false;
      }
      var h := found.value;
      ghost var j := Lookup(pool.slots[..], pool.generation[..], ids.contents, q, st.book, id);
      if !pool.Validate(h) {
        assert false;  // the map never holds a stale handle
      }
      Located(st, id, pool.slots[h.index].order.side, j);
      RemoveFound(pool.slots[h.index].order.side, h.index, id, j);
      ok := true;
    }

    /** Takes order j of a side out of the book. */
    method RemoveFound(side: Side, i: Index, id: OrderId, ghost j: nat)
      requires j < |q.On(side)| == |model.book.On(side)| && q.On(side)[j] == i < pool.slots.Length
      requires pool.slots[i] == SlotAt(q.On(side), model.book.On(side), j) && model.book.On(side)[j].id == id
      requires Sound() && Settled()
      modifies Repr() - {this}, this`q, this`model
      ensures model == old(model.(book := model.book.With(side, RemoveAt(model.book.On(side), j))))
      ensures Sound() && Settled()
    {
      hide Rep;
      hide SideRep;
      hide IdsOk;
      hide Floating;
      hide Apart;
      hide IdMap.TableOk;
      hide NoneEmpty;
      hide NextAt;
      hide PrevAt;
      Detach(side, pool.slots[i].order.price, i, j);
      Release(i, id);
    }

    /** Modifies the order j of a side, which is in slot i. */
    method ModifyFound(side: Side, i: Index, price: Price, qty: Qty, seqNo: nat, ghost j: nat, ghost st: State)
        returns (ok: bool)
      requires Sound() && Settled() && model == Tick(st)
      requires BookOk(st.book, st.nextSeq) && seqNo == st.nextSeq
      requires j < |q.On(side)| == |st.book.On(side)| && q.On(side)[j] == i < pool.slots.Length
      requires pool.slots[i] == SlotAt(q.On(side), st.book.On(side), j)
      requires qty > 0
      modifies pool.slots, LevelsOf(side), LevelsOf(side).levels, this`q, this`model
      ensures Sound() && Settled()
      ensures (model, Outcome(ok, 0, false, false, [])) == Matching.ModifyOrder(st, st.book.On(side)[j].id, price, qty)
    {
      hide Rep;
      hide SideRep;
      hide Apart;
      hide IdMap.TableOk;
      hide NoneEmpty;
      hide BookOk;
      hide Rests;
      hide Insert;
      var order := pool.slots[i].order;
      Located(st, order.id, side, j);
      if price == order.price && qty <= order.qty {
        Requantify(side, i, qty, j);
        return true;
      }
      var crosses := WouldCross(side, price);
      if crosses {
        return false;
      }
      SeqsBelow(st, side, j);
      Reposition(side, i, order.price, price, qty, seqNo, j);
      ok := true;
    }

    /** Whatever becomes of the order, it keeps its slot and its handle stays
        live. */
    method ModifyOrder(id: OrderId, price: Price, qty: Qty) returns (ok: bool)
      requires Valid()
      modifies Repr()
      ensures Valid()
      ensures (model, Outcome(ok, 0, false, false, [])) == Matching.ModifyOrder(old(model), id, price, qty)
      ensures ids.contents == old(ids.contents) && pool.generation[..] == old(pool.generation[..])
    {
      hide Rep;
      hide SideRep;
      hide Apart;
      hide IdMap.TableOk;
      hide NoneEmpty;
      hide BookOk;
      hide Rests;
      hide Insert;
      ghost var st := model;
      ModifyKeepsValid(st, id, price, qty);
      MappedIffRests(pool.slots[..], pool.generation[..], ids.contents, q, st, id);
      var seqNo := TakeSeq();
      if qty == 0 {
        return false;
      }
      var found := ids.Find(id);
      if found.None? {
        return false;
      }
      var h := found.value;
      ghost var j := Lookup(pool.slots[..], pool.generation[..], ids.contents, q, st.book, id);
      if !pool.Validate(h) {
        assert false;  // the map never holds a stale handle
      }
      ok := ModifyFound(pool.slots[h.index].order.side, h.index, price, qty, seqNo, j, st);
    }

    /** The part of an add that both kinds share: sweep the other side. */
    method Take(t: Taker, qty: Qty, seqNo: nat, ghost st: State) returns (trades: seq<Trade>, left: Qty, stp: bool)
      requires Sound() && Settled() && model == Tick(st)
      requires Invariant.Valid(st) && st.nextSeq == seqNo && st.nextTrade == nextTradeId
      requires t.id !in ids.contents
      modifies Repr() - {this}, this`q, this`model, this`nextTradeId
      ensures Sound() && Settled()
      ensures
        var sw := Sweep(st.book.On(t.side.Opposite()), t, qty, seqNo, st.nextTrade);
        && sw == Swept(model.book.On(t.side.Opposite()), trades, left, stp)
        && model == Tick(st).(book := st.book.With(t.side.Opposite(), sw.makers), nextTrade := st.nextTrade + |trades|)
      ensures model.nextTrade == nextTradeId
      ensures t.id !in ids.contents
    {
      hide Rep;
      hide SideRep;
      hide Apart;
      hide IdMap.TableOk;
      hide NoneEmpty;
      hide BookOk;
      hide Sweep;
      hide Rests;
      MappedIffRests(pool.slots[..], pool.generation[..], ids.contents, q, st, t.id);
      SweepKeepsValid(st, t, qty);
      trades, left, stp := Cross(t.side.Opposite(), t, qty, seqNo);
      model := model.(nextTrade := nextTradeId);
      MappedIffRests(pool.slots[..], pool.generation[..], ids.contents, q, SweptBook(st, t, qty), t.id);
    }

    method AddMarketOrder(id: OrderId, side: Side, qty: Qty, account: Account) returns (r: Outcome)
      requires Valid()
      modifies Repr()
      ensures Valid()
      ensures (model, r) == Matching.Add(Word32, old(model), Taker(id, side, Anywhere, account), qty, IOC)
    {
      hide Rep;
      hide SideRep;
      hide Apart;
      hide IdMap.TableOk;
      hide NoneEmpty;
      hide BookOk;
      hide Sweep;
      hide Rests;
      ghost var st := model;
      var t := Taker(id, side, Anywhere, account);
      AddKeepsValid(Word32, st, t, qty, IOC);
      MappedIffRests(pool.slots[..], pool.generation[..], ids.contents, q, st, id);
      var seqNo := TakeSeq();
      var found := ids.Find(id);
      if qty == 0 || found.Some? {
        return REJECTED;
      }
      var trades, left, stp := Take(t, qty, seqNo, st);
      return Outcome(true, 0, stp, false, trades);
    }

    /** Sweeps and then rests what is left, if the order may rest. */
    method TakeAndRest(t: Taker, qty: Qty, tif: TimeInForce, seqNo: nat, ghost st: State) returns (r: Outcome)
      requires Sound() && Settled() && model == Tick(st)
      requires Invariant.Valid(st) && st.nextSeq == seqNo && st.nextTrade == nextTradeId
      requires st.capacity == pool.slots.Length
      requires t.bound.AtLimit? && t.id !in ids.contents
      modifies Repr() - {this}, this`q, this`model, this`nextTradeId
      ensures Sound() && Settled()
      ensures
        var sw := Sweep(st.book.On(t.side.Opposite()), t, qty, seqNo, st.nextTrade);
        (model, r) == Settle(Tick(st).(book := st.book.With(t.side.Opposite(), sw.makers),
                                       nextTrade := st.nextTrade + |sw.trades|), t, sw, tif, seqNo)
      ensures model.nextTrade == nextTradeId
    {
      hide Rep;
      hide SideRep;
      hide Apart;
      hide IdMap.TableOk;
      hide NoneEmpty;
      hide BookOk;
      hide Sweep;
      hide Insert;
      SideSeqsBelow(st, t.side);
      var trades, left, stp := Take(t, qty, seqNo, st);
      r := Outcome(true, 0, stp, false, trades);
      var mayRest := tif.GTC? && !stp;
      if mayRest && left > 0 {
        var rested := Rest(Order(t.bound.price, left, NIL, NIL, t.side, t.id, t.account, 0), seqNo);
        if rested {
          r := r.(restingQty := left);
        } else {
          r := r.(exhausted := true);
        }
      }
    }

    method AddLimitOrder(id: OrderId, side: Side, price: Price, qty: Qty, account: Account, tif: TimeInForce)
        returns (r: Outcome)
      requires Valid()
      modifies Repr()
      ensures Valid()
      ensures (model, r) == Matching.Add(Word32, old(model), Taker(id, side, AtLimit(price), account), qty, tif)
    {
      hide Rep;
      hide SideRep;
      hide Apart;
      hide IdMap.TableOk;
      hide NoneEmpty;
      hide BookOk;
      hide Sweep;
      hide Settle;
      hide Rests;
      hide Available;
      ghost var st := model;
      var t := Taker(id, side, AtLimit(price), account);
      AddKeepsValid(Word32, st, t, qty, tif);
      MappedIffRests(pool.slots[..], pool.generation[..], ids.contents, q, st, id);
      var seqNo := TakeSeq();
      var found := ids.Find(id);
      if qty == 0 || found.Some? {
        return REJECTED;
      }
      if tif.FOK? {
        var available := AvailableBeforeSelfTrade(side.Opposite(), t);
        if available < qty {
          return Outcome(true, 0, false, false, []);
        }
      }
      r := TakeAndRest(t, qty, tif, seqNo, st);
    }

    /** Runs one command, whatever its kind. */
    method Apply(c: Command) returns (r: Outcome)
      requires Valid()
      modifies Repr()
      ensures Valid()
      ensures (model, r) == Step(Word32, old(model), c)
    {
      hide Valid;
      match c.kind
      case Limit =>
        r := AddLimitOrder(c.id, c.side, c.price, c.qty, c.account, c.tif);
      case Market =>
        r := AddMarketOrder(c.id, c.side, c.qty, c.account);
      case Cancel =>
        var ok := CancelOrder(c.id);
        r := Outcome(ok, 0, false, false, []);
      case Modify =>
        var ok := ModifyOrder(c.id, c.price, c.qty);
        r := Outcome(ok, 0, false, false, []);
    }

    // ---------- looking at the whole book ----------

    /** Every resting order: bids best first, then asks best first. */
    method Snapshot() returns (out: seq<Resting>)
      requires Valid()
      ensures out == model.book.bids + model.book.asks
    {
      hide Rep;
      hide SideRep;
      hide BookOk;
      hide IdMap.TableOk;
      out := AppendSide(bids, pool, [], q.bids, model.book.bids);
      out := AppendSide(asks, pool, out, q.asks, model.book.asks);
    }
  }
}
