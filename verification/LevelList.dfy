/** Appending to and unlinking from the list of one price level, in place. */
module LevelList {
  import opened Types
  import opened Sequences
  import opened Matching
  import opened Pool
  import opened PriceLevels
  import opened Linkage
  import opened Invariant

  lemma RelinkKeepsFree(slots: seq<Slot>, slots': seq<Slot>, side: Side, head: Index, list: seq<Index>)
    requires FreeChain(slots, head, list) && OnlyRelinked(slots, slots', side)
    ensures FreeChain(slots', head, list)
  {
  }

  lemma SamePricesAscending(side: Side, levels: seq<Level>, k: nat, level: Level)
    requires Ascending(side, levels) && k < |levels| && level.price == levels[k].price
    ensures Ascending(side, levels[k := level])
  {
  }

  /** Unlinks the order at position j of its side from level k. */
  method LevelUnlink(levels: Levels, k: nat, pool: FixedPool, i: Index,
                     ghost q: seq<Index>, ghost o: seq<Resting>, ghost j: nat)
    requires pool.Valid() && levels.Valid() && levels.levels as object != pool.slots
    requires levels.levels as object != pool.generation
    requires Threaded(pool.slots[..], q, o)
    requires forall n :: 0 <= n < |o| ==> o[n].side == levels.side
    requires j < |q| && q[j] == i
    requires k < levels.count
    modifies pool.slots, levels.levels
    ensures pool.Valid() && levels.Valid()
    ensures pool.slots[..] == Unthread(old(pool.slots[..]), q, o, j)
    ensures levels.View() == old(levels.View())[k := Shrunk(old(levels.View())[k], q, o, j)]
  {
    hide FreeChain;
    hide GenerationsOk;
    hide Ascending;
    ghost var slots := pool.slots[..];
    ghost var view := levels.View();
    assert slots[i] == SlotAt(q, o, j);
    UnthreadOnlyRelinks(slots, levels.side, q, o, j);
    var prev := pool.slots[i].order.prev;
    var next := pool.slots[i].order.next;
    assert prev == PrevAt(q, o, j) && next == NextAt(q, o, j);
    assert prev != NIL ==> slots[prev] == SlotAt(q, o, j - 1);
    assert next != NIL ==> slots[next] == SlotAt(q, o, j + 1);
    if prev != NIL {
      pool.slots[prev] := Used(pool.slots[prev].order.(next := next));
    } else {
      levels.levels[k] := levels.levels[k].(head := next);
    }
    assert pool.slots[..] == WithNext(slots, prev, next);
    if next != NIL {
      pool.slots[next] := Used(pool.slots[next].order.(prev := prev));
    } else {
      levels.levels[k] := levels.levels[k].(tail := prev);
    }
    assert pool.slots[..] == WithPrev(WithNext(slots, prev, next), next, prev);
    pool.slots[i] := Used(pool.slots[i].order.(prev := NIL, next := NIL));
    assert pool.slots[..] == Unthread(slots, q, o, j);
    assert levels.View() == view[k := Shrunk(view[k], q, o, j)];
    RelinkKeepsFree(slots, pool.slots[..], levels.side, pool.freeHead, pool.freeList);
    SamePricesAscending(levels.side, view, k, levels.levels[k]);
  }

  /** Links the order r, in slot i, in at the end of level k. */
  method LevelAppend(levels: Levels, k: nat, pool: FixedPool, i: Index,
                     ghost q: seq<Index>, ghost o: seq<Resting>, ghost r: Resting)
    requires pool.Valid() && levels.Valid() && levels.levels as object != pool.slots
    requires levels.levels as object != pool.generation
    requires Threaded(pool.slots[..], q, o)
    requires forall n :: 0 <= n < |o| ==> o[n].side == levels.side
    requires i < pool.slots.Length && i !in q
    requires pool.slots[i] == Linked(r, NIL, NIL) && r.side == levels.side
    requires k < levels.count
    requires levels.levels[k].tail == TailAt(q, o, InsertPos(levels.side, o, r.price), r.price)
    modifies pool.slots, levels.levels
    ensures pool.Valid() && levels.Valid()
    ensures pool.slots[..] == Thread(old(pool.slots[..]), q, o, InsertPos(levels.side, o, r.price), i, r)
    ensures levels.View() == old(levels.View())[k := Grown(old(levels.View())[k], i)]
  {
    hide FreeChain;
    hide GenerationsOk;
    hide Ascending;
    hide InsertPos;
    ghost var slots := pool.slots[..];
    ghost var view := levels.View();
    ghost var pos := InsertPos(levels.side, o, r.price);
    ThreadOnlyRelinks(slots, levels.side, q, o, pos, i, r);
    var tail := levels.levels[k].tail;
    assert tail != NIL ==> tail == q[pos - 1] && slots[tail] == SlotAt(q, o, pos - 1);
    pool.slots[i] := Used(pool.slots[i].order.(prev := tail, next := NIL));
    if tail != NIL {
      pool.slots[tail] := Used(pool.slots[tail].order.(next := i));
    } else {
      levels.levels[k] := levels.levels[k].(head := i);
    }
    levels.levels[k] := levels.levels[k].(tail := i);
    assert pool.slots[..] == Thread(slots, q, o, pos, i, r);
    assert levels.View() == view[k := Grown(view[k], i)];
    RelinkKeepsFree(slots, pool.slots[..], levels.side, pool.freeHead, pool.freeList);
    SamePricesAscending(levels.side, view, k, levels.levels[k]);
  }

  // ---------- one side: its levels and its slots ----------

  /** Every level but k holds an order. */
  ghost predicate NoneEmptyBut(levels: seq<Level>, k: nat) {
    forall n :: 0 <= n < |levels| && n != k ==> levels[n].head != NIL
  }

  ghost predicate SideRep(levels: Levels, pool: FixedPool, q: seq<Index>, o: seq<Resting>)
    reads levels, levels.levels, pool, pool.slots, pool.generation
  {
    && pool.Valid() && levels.Valid()
    && levels.levels as object != pool.slots && levels.levels as object != pool.generation
    && |q| == |o|
    && Threaded(pool.slots[..], q, o)
    && Leveled(levels.View(), q, o)
    && Sorted(levels.side, o)
    && (forall n :: 0 <= n < |o| ==> o[n].side == levels.side)
  }

  lemma PriceHasLevel(levels: seq<Level>, q: seq<Index>, o: seq<Resting>, j: nat)
    requires Leveled(levels, q, o) && j < |o|
    ensures HasPrice(levels, o[j].price)
  {
  }

  lemma RemoveKeepsSorted(side: Side, o: seq<Resting>, j: nat)
    requires Sorted(side, o) && j < |o|
    ensures Sorted(side, RemoveAt(o, j))
  {
  }

  /** Takes order j, which is in level k, off its side. */
  method Pluck(levels: Levels, k: nat, pool: FixedPool, i: Index,
               ghost q: seq<Index>, ghost o: seq<Resting>, ghost j: nat)
    requires SideRep(levels, pool, q, o)
    requires j < |q| && q[j] == i
    requires k < levels.count && levels.levels[k].price == o[j].price && NoneEmptyBut(levels.View(), k)
    modifies pool.slots, levels.levels
    ensures SideRep(levels, pool, RemoveAt(q, j), RemoveAt(o, j))
    ensures levels.levels[k].price == o[j].price && NoneEmptyBut(levels.View(), k)
    ensures pool.slots[..] == Unthread(old(pool.slots[..]), q, o, j)
  {
    hide Leveled;
    hide FreeChain;
    hide GenerationsOk;
    hide Ascending;
    hide Sorted;
    hide Unthread;
    hide NextAt;
    hide PrevAt;
    ghost var slots, view := pool.slots[..], levels.View();
    LevelUnlink(levels, k, pool, i, q, o, j);
    UnthreadKeepsThreads(slots, levels.side, q, o, j);
    RemoveKeepsLevels(levels.side, view, q, o, j, k);
    RemoveKeepsSorted(levels.side, o, j);
  }

  /** Takes order j off its side; its level goes too if that was the last. */
  method Withdraw(levels: Levels, pool: FixedPool, price: Price, i: Index,
                  ghost q: seq<Index>, ghost o: seq<Resting>, ghost j: nat)
    requires SideRep(levels, pool, q, o) && NoneEmpty(levels.View())
    requires j < |q| && q[j] == i && o[j].price == price
    modifies pool.slots, levels, levels.levels
    ensures SideRep(levels, pool, RemoveAt(q, j), RemoveAt(o, j)) && NoneEmpty(levels.View())
    ensures pool.slots[..] == Unthread(old(pool.slots[..]), q, o, j)
  {
    hide Leveled;
    hide FreeChain;
    hide GenerationsOk;
    hide Ascending;
    hide Sorted;
    hide Unthread;
    hide Threaded;
    PriceHasLevel(levels.View(), q, o, j);
    var k := levels.Find(price);
    Pluck(levels, k.value, pool, i, q, o, j);
    CloseLevel(levels, k.value, RemoveAt(q, j), RemoveAt(o, j));
  }

  lemma OnlyLevelAtPrice(side: Side, levels: seq<Level>, k: nat, n: nat)
    requires Ascending(side, levels) && k < |levels| && n < |levels| && levels[k].price == levels[n].price
    ensures k == n
  {
  }

  /** Drops level k if it is empty. */
  method CloseLevel(levels: Levels, k: nat, ghost q: seq<Index>, ghost o: seq<Resting>)
    requires levels.Valid() && Leveled(levels.View(), q, o)
    requires k < levels.count && NoneEmptyBut(levels.View(), k)
    modifies levels, levels.levels
    ensures levels.Valid() && Leveled(levels.View(), q, o) && NoneEmpty(levels.View())
  {
    hide Leveled;
    hide Ascending;
    if levels.levels[k].head == NIL {
      DropEmptyLevel(levels.View(), q, o, k);
      ghost var view := levels.View();
      ghost var n := levels.Erase(levels.levels[k].price);
      OnlyLevelAtPrice(levels.side, view, k, n);
    }
  }

  /** The level at the price, made if there is none. */
  method OpenLevel(levels: Levels, price: Price, ghost q: seq<Index>, ghost o: seq<Resting>) returns (k: nat)
    requires levels.Valid() && Leveled(levels.View(), q, o) && NoneEmpty(levels.View())
    requires levels.count < levels.levels.Length
    modifies levels, levels.levels
    ensures levels.Valid() && Leveled(levels.View(), q, o)
    ensures k < levels.count && levels.levels[k].price == price && NoneEmptyBut(levels.View(), k)
  {
    hide Leveled;
    hide Ascending;
    ghost var view := levels.View();
    k := levels.GetOrInsert(price);
    if !HasPrice(view, price) {
      AddEmptyLevel(view, q, o, k, price);
    }
  }

  lemma LeveledAt(levels: seq<Level>, q: seq<Index>, o: seq<Resting>, k: nat)
    requires Leveled(levels, q, o) && k < |levels|
    ensures LevelOk(q, o, levels[k]) && forall j :: 0 <= j < |q| ==> q[j] != NIL
  {
  }

  /** Puts order r, in slot i, at the end of level k. */
  method Join(levels: Levels, k: nat, pool: FixedPool, i: Index,
              ghost q: seq<Index>, ghost o: seq<Resting>, ghost r: Resting)
    requires SideRep(levels, pool, q, o)
    requires k < levels.count && levels.levels[k].price == r.price && NoneEmptyBut(levels.View(), k)
    requires i < pool.slots.Length && i !in q
    requires pool.slots[i] == Linked(r, NIL, NIL) && r.side == levels.side
    requires forall n :: 0 <= n < |o| ==> o[n].seqNo < r.seqNo
    modifies pool.slots, levels, levels.levels
    ensures
      var pos := InsertPos(levels.side, o, r.price);
      && SideRep(levels, pool, InsertAt(q, pos, i), InsertAt(o, pos, r)) && NoneEmpty(levels.View())
      && pool.slots[..] == Thread(old(pool.slots[..]), q, o, pos, i, r)
  {
    hide FreeChain;
    hide GenerationsOk;
    hide Ascending;
    hide Sorted;
    hide InsertPos;
    hide Thread;
    hide Threaded;
    hide Leveled;
    hide LevelOk;
    ghost var slots, view := pool.slots[..], levels.View();
    LeveledAt(view, q, o, k);
    ghost var f := LevelEndsAt(levels.side, q, o, levels.levels[k]);
    LevelAppend(levels, k, pool, i, q, o, r);
    ThreadKeepsThreads(slots, levels.side, q, o, i, r);
    InsertKeepsLevels(levels.side, view, q, o, k, i, r);
    InsertKeepsSorted(levels.side, o, r);
  }

  // ---------- reading a side ----------

  /** Adds up the orders from position first to position last, which are level
      k, as far as the taker may take them. */
  method AvailableAt(levels: Levels, k: nat, pool: FixedPool, t: Taker, sum: Qty,
                     ghost q: seq<Index>, ghost o: seq<Resting>, ghost first: nat, ghost last: nat)
      returns (total: Qty, stopped: bool)
    requires SideRep(levels, pool, q, o)
    requires k < levels.count && Spans(q, o, levels.levels[k], first, last)
    requires Marketable(t, levels.levels[k].price)
    ensures stopped ==> total == Wrap(sum + Fillable(o[first..], t))
    ensures !stopped ==> Wrap(total + Fillable(o[last + 1..], t)) == Wrap(sum + Fillable(o[first..], t))
  {
    hide FreeChain;
    hide GenerationsOk;
    hide Leveled;
    hide Ascending;
    hide Sorted;
    hide Fillable;
    hide NextAt;
    hide PrevAt;
    hide Wrap;
    total, stopped := sum, false;
    var i := levels.levels[k].head;
    ghost var p := first;
    while i != NIL
      invariant first <= p <= last + 1 <= |o|
      invariant i == if p <= last then q[p] else NIL
      invariant Wrap(total + Fillable(o[p..], t)) == Wrap(sum + Fillable(o[first..], t))
      decreases last + 1 - p
    {
      NextInSpan(levels.side, q, o, levels.levels[k], first, last, p);
      FillableFrom(o, t, p);
      var order := pool.slots[i].order;
      if order.account == t.account {
        WordSum(total, 0, 0);
        return total, true;
      }
      WordSum(total, order.qty, Fillable(o[p + 1..], t));
      total := Wrap(total as nat + order.qty as nat);
      p := p + 1;
      i := order.next;
    }
  }

  /** Adds up, in a 32-bit word, what the taker could take from a side. */
  method AvailableIn(levels: Levels, pool: FixedPool, t: Taker, ghost q: seq<Index>, ghost o: seq<Resting>)
      returns (total: Qty)
    requires SideRep(levels, pool, q, o) && NoneEmpty(levels.View())
    ensures total == Wrap(Fillable(o, t))
  {
    hide FreeChain;
    hide GenerationsOk;
    hide Leveled;
    hide Ascending;
    hide Sorted;
    hide Threaded;
    hide NoneEmpty;
    hide Wrap;
    total := 0;
    ghost var p: nat, last: nat := 0, 0;
    LevelsIffOrders(levels.View(), q, o);
    NoneEmptyAt(levels.View());
    if levels.count > 0 {
      last := BestLevelFirst(levels.side, levels.View(), q, o);
    }
    assert o[0..] == o;
    var rank := 0;
    while rank < levels.count
      invariant rank <= levels.count && p <= |o|
      invariant rank < levels.count ==> Spans(q, o, levels.levels[levels.count - 1 - rank], p, last)
      invariant rank == levels.count ==> p == |o|
      invariant Wrap(total + Fillable(o[p..], t)) == Wrap(Fillable(o, t))
    {
      var k := levels.count - 1 - rank;
      FillableFrom(o, t, p);
      WordSum(total, 0, 0);
      if !Marketable(t, levels.levels[k].price) {
        return;
      }
      var stopped;
      total, stopped := AvailableAt(levels, k, pool, t, total, q, o, p, last);
      if stopped {
        return;
      }
      ghost var next := NextLevelFollows(levels.side, levels.View(), q, o, k, p, last);
      p, last := last + 1, next;
      rank := rank + 1;
    }
    WordSum(total, 0, 0);
  }

  lemma NoneEmptyAt(levels: seq<Level>)
    requires NoneEmpty(levels)
    ensures levels != [] ==> levels[|levels| - 1].head != NIL
  {
  }

  function ToResting(order: Order): Resting {
    Resting(order.side, order.price, order.id, order.qty, order.account, order.seqNo)
  }

  /** The orders of a side, best first and oldest first within a level. */
  method AppendSide(levels: Levels, pool: FixedPool, before: seq<Resting>, ghost q: seq<Index>, ghost o: seq<Resting>)
      returns (out: seq<Resting>)
    requires SideRep(levels, pool, q, o) && NoneEmpty(levels.View())
    ensures out == before + o
  {
    hide FreeChain;
    hide GenerationsOk;
    hide Leveled;
    hide Ascending;
    hide Sorted;
    hide NoneEmpty;
    hide NextAt;
    hide PrevAt;
    out := before;
    ghost var p: nat, last: nat := 0, 0;
    LevelsIffOrders(levels.View(), q, o);
    NoneEmptyAt(levels.View());
    if levels.count > 0 {
      last := BestLevelFirst(levels.side, levels.View(), q, o);
    }
    var rank := 0;
    while rank < levels.count
      invariant rank <= levels.count && p <= |o|
      invariant rank < levels.count ==> Spans(q, o, levels.levels[levels.count - 1 - rank], p, last)
      invariant rank == levels.count ==> p == |o|
      invariant out == before + o[..p]
    {
      var k := levels.count - 1 - rank;
      ghost var first := p;
      var i := levels.levels[k].head;
      while i != NIL
        invariant first <= p <= last + 1 <= |o|
        invariant i == if p <= last then q[p] else NIL
        invariant out == before + o[..p]
        decreases last + 1 - p
      {
        NextInSpan(levels.side, q, o, levels.levels[k], first, last, p);
        assert o[..p + 1] == o[..p] + [o[p]];
        out := out + [ToResting(pool.slots[i].order)];
        i := pool.slots[i].order.next;
        p := p + 1;
      }
      ghost var next := NextLevelFollows(levels.side, levels.View(), q, o, k, first, last);
      last := next;
      rank := rank + 1;
    }
    assert o[..|o|] == o;
  }
}
