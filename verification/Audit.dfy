/** The engine's own check of its structures: it finds no violation exactly when
    the structures represent a book. */
module Audit {
  import opened Types
  import opened Sequences
  import opened Matching
  import opened Invariant
  import opened Pool
  import opened PriceLevels
  import opened Linkage
  import opened Structure
  import opened LevelList
  import IdMap
  import Book

  // ---------- a walk that has not ended ----------

  /** The walk has visited q, where it found the orders o, and the last of them
      points on to next. */
  ghost predicate Chained(slots: seq<Slot>, q: seq<Index>, o: seq<Resting>, next: Index) {
    && |q| == |o| && |slots| <= NIL
    && forall j :: 0 <= j < |q| ==>
         q[j] < |slots|
         && slots[q[j]] == Linkage.Linked(o[j], if j + 1 < |q| then NextAt(q, o, j) else next, PrevAt(q, o, j))
  }

  lemma ChainedIsThreaded(slots: seq<Slot>, q: seq<Index>, o: seq<Resting>)
    ensures Chained(slots, q, o, NIL) <==> Threaded(slots, q, o)
  {
    if Chained(slots, q, o, NIL) || Threaded(slots, q, o) {
      assert forall j :: 0 <= j < |q| ==>
        SlotAt(q, o, j) == Linkage.Linked(o[j], if j + 1 < |q| then NextAt(q, o, j) else NIL, PrevAt(q, o, j));
    }
  }

  lemma ChainSnoc(slots: seq<Slot>, q: seq<Index>, o: seq<Resting>, next: Index, i: Index, r: Resting)
    requires Chained(slots, q, o, next)
    requires i < |slots| && slots[i].Used? && r == ToResting(slots[i].order)
    requires
      var joins := q != [] && o[|o| - 1].price == r.price;
      next == (if joins then i else NIL) && slots[i].order.prev == (if joins then q[|q| - 1] else NIL)
    ensures Chained(slots, q + [i], o + [r], slots[i].order.next)
  {
    var q', o' := q + [i], o + [r];
    forall j | 0 <= j < |q'|
      ensures q'[j] < |slots|
      ensures slots[q'[j]] == Linkage.Linked(o'[j], if j + 1 < |q'| then NextAt(q', o', j) else slots[i].order.next, PrevAt(q', o', j))
    {
      if j < |q| {
        assert slots[q[j]] == Linkage.Linked(o[j], if j + 1 < |q| then NextAt(q, o, j) else next, PrevAt(q, o, j));
      }
    }
  }

  lemma SortedSnoc(side: Side, o: seq<Resting>, r: Resting)
    requires Sorted(side, o) && (o != [] ==> Ahead(side, o[|o| - 1], r))
    ensures Sorted(side, o + [r])
  {
    forall i | 0 <= i < |o|
      ensures Ahead(side, o[i], r)
    {
      assert i < |o| - 1 ==> Ahead(side, o[i], o[|o| - 1]);
    }
  }

  /** Every order found is of the right side, holds quantity and is what the id
      map says is in its slot. */
  ghost predicate Vetted(side: Side, generation: seq<Generation>, ids: map<OrderId, Handle>, q: seq<Index>, o: seq<Resting>) {
    && |q| == |o|
    && forall j :: 0 <= j < |q| ==>
         && o[j].side == side && o[j].qty > 0
         && q[j] < |generation| && o[j].id in ids && ids[o[j].id] == Handle(q[j], generation[q[j]])
  }

  /** The orders of a side as the check wants to find them. */
  ghost predicate Listed(side: Side, slots: seq<Slot>, generation: seq<Generation>, ids: map<OrderId, Handle>,
                         q: seq<Index>, o: seq<Resting>) {
    Threaded(slots, q, o) && Sorted(side, o) && Vetted(side, generation, ids, q, o)
  }

  /** A side as the check wants to find it. */
  ghost predicate SideFound(side: Side, slots: seq<Slot>, generation: seq<Generation>, ids: map<OrderId, Handle>,
                            levels: seq<Level>, q: seq<Index>, o: seq<Resting>) {
    && Listed(side, slots, generation, ids, q, o)
    && Leveled(levels, q, o) && Ascending(side, levels) && NoneEmpty(levels)
  }

  // ---------- one order ----------

  /** What the check asks of the next order of a level. */
  ghost predicate OrderFits(slots: seq<Slot>, generation: seq<Generation>, ids: map<OrderId, Handle>,
                            side: Side, price: Price, i: Index, prev: Index, lastSeq: nat) {
    && i < |slots| == |generation| && slots[i].Used?
    && var order := slots[i].order;
       && order.prev == prev && order.side == side && order.price == price && order.qty > 0
       && (prev != NIL ==> order.seqNo > lastSeq)
       && order.id in ids && ids[order.id] == Handle(i, generation[i])
  }

  method CheckOrder(pool: FixedPool, ids: IdMap.Map, side: Side, price: Price, i: Index, prev: Index, lastSeq: nat)
      returns (v: Option<string>)
    requires pool.slots.Length == pool.generation.Length <= NIL && ids.Valid()
    ensures v.None? <==>
      OrderFits(pool.slots[..], pool.generation[..], ids.contents, side, price, i, prev, lastSeq)
  {
    hide IdMap.TableOk;
    if i >= pool.slots.Length {
      return Some("next_idx out of range");
    }
    if pool.slots[i].Free? {
      return Some("next_idx names a free slot");
    }
    var order := pool.slots[i].order;
    if order.prev != prev {
      return Some("prev_idx does not match traversal");
    }
    if order.side != side {
      return Some("order on the wrong side");
    }
    if order.price != price {
      return Some("order price != level price");
    }
    if order.qty == 0 {
      return Some("resting order with qty 0");
    }
    if prev != NIL && order.seqNo <= lastSeq {
      return Some("seq_no not increasing within level");
    }
    var mapped := ids.Find(order.id);
    if mapped.None? || mapped.value.index != i || !pool.Validate(mapped.value) {
      return Some("id_map_ entry missing or pointing at another slot");
    }
    return None;
  }

  // ---------- one level ----------

  /** The walk so far: what was visited fits, and starts with what was visited
      before this level. */
  ghost predicate Walked(side: Side, slots: seq<Slot>, generation: seq<Generation>, ids: map<OrderId, Handle>, level: Level,
                         q0: seq<Index>, o0: seq<Resting>, q: seq<Index>, o: seq<Resting>, next: Index) {
    && |q0| == |o0| <= |q| == |o| && q[..|q0|] == q0 && o[..|o0|] == o0
    && Chained(slots, q, o, next) && Sorted(side, o) && Vetted(side, generation, ids, q, o)
    && (forall j :: |q0| <= j < |o| ==> o[j].price == level.price)
    && (|q| > |q0| ==> q[|q0|] == level.head)
    && (o0 != [] ==> Better(side, o0[|o0| - 1].price, level.price))
  }

  lemma WalkOn(side: Side, slots: seq<Slot>, generation: seq<Generation>, ids: map<OrderId, Handle>, level: Level,
               q0: seq<Index>, o0: seq<Resting>, q: seq<Index>, o: seq<Resting>, i: Index)
    requires Walked(side, slots, generation, ids, level, q0, o0, q, o, if |q| > |q0| then i else NIL)
    requires |q| == |q0| ==> i == level.head
    requires OrderFits(slots, generation, ids, side, level.price, i,
                       if |q| > |q0| then q[|q| - 1] else NIL, if |q| > |q0| then o[|o| - 1].seqNo else 0)
    ensures
      var r := ToResting(slots[i].order);
      Walked(side, slots, generation, ids, level, q0, o0, q + [i], o + [r], slots[i].order.next)
  {
    hide Sorted;
    hide Chained;
    hide NextAt;
    hide PrevAt;
    var r := ToResting(slots[i].order);
    ChainFits(slots, q, o, if |q| > |q0| then i else NIL);
    assert |q| > |q0| ==> o[|o| - 1].price == r.price;
    assert |q| == |q0| && q != [] ==> o[|o| - 1] == o0[|o0| - 1];
    SortedSnoc(side, o, r);
    ChainSnoc(slots, q, o, if |q| > |q0| then i else NIL, i, r);
    assert (q + [i])[..|q0|] == q[..|q0|] && (o + [r])[..|q0|] == o[..|q0|];
  }

  /** A visited slot is a slot, so it is not the nil index. */
  lemma ChainFits(slots: seq<Slot>, q: seq<Index>, o: seq<Resting>, next: Index)
    requires Chained(slots, q, o, next)
    ensures q != [] ==> q[|q| - 1] != NIL
  {
  }

  /** An order of a list that is as it should be passes the check. */
  lemma ListedFits(side: Side, slots: seq<Slot>, generation: seq<Generation>, ids: map<OrderId, Handle>,
                   q: seq<Index>, o: seq<Resting>, level: Level, f: nat, t: nat, p: nat)
    requires Listed(side, slots, generation, ids, q, o) && |generation| == |slots|
    requires Spans(q, o, level, f, t) && f <= p <= t
    ensures OrderFits(slots, generation, ids, side, level.price, q[p],
                      if p > f then q[p - 1] else NIL, if p > f then o[p - 1].seqNo else 0)
    ensures ToResting(slots[q[p]].order) == o[p]
    ensures slots[q[p]].order.next == (if p < t then q[p + 1] else NIL)
  {
    hide NextAt;
    hide PrevAt;
    NextInSpan(side, q, o, level, f, t, p);
    assert slots[q[p]] == SlotAt(q, o, p);
    if p > f {
      NextInSpan(side, q, o, level, f, t, p - 1);
      assert Ahead(side, o[p - 1], o[p]);
    }
  }

  lemma ListedSlots(side: Side, slots: seq<Slot>, generation: seq<Generation>, ids: map<OrderId, Handle>,
                    q: seq<Index>, o: seq<Resting>)
    requires Listed(side, slots, generation, ids, q, o)
    ensures forall j :: 0 <= j < |q| ==> q[j] != NIL
  {
  }

  lemma FitIsUsed(slots: seq<Slot>, generation: seq<Generation>, ids: map<OrderId, Handle>,
                  side: Side, price: Price, i: Index, prev: Index, lastSeq: nat)
    requires OrderFits(slots, generation, ids, side, price, i, prev, lastSeq)
    ensures i < |slots| && slots[i].Used?
  {
  }

  lemma WalkEnds(side: Side, slots: seq<Slot>, generation: seq<Generation>, ids: map<OrderId, Handle>, level: Level,
                 q0: seq<Index>, o0: seq<Resting>, q: seq<Index>, o: seq<Resting>)
    requires Walked(side, slots, generation, ids, level, q0, o0, q, o, NIL)
    requires |q| > |q0| && level.tail == q[|q| - 1]
    ensures Spans(q, o, level, |q0|, |q| - 1)
  {
    assert o0 != [] ==> o[|o0| - 1] == o0[|o0| - 1];
  }

  /** The rest of the side is there: level is the next run of orders, up to t. */
  ghost predicate Due(side: Side, slots: seq<Slot>, generation: seq<Generation>, ids: map<OrderId, Handle>, level: Level,
                      q0: seq<Index>, o0: seq<Resting>, q: seq<Index>, o: seq<Resting>, t: nat) {
    && Listed(side, slots, generation, ids, q, o)
    && Spans(q, o, level, |q0|, t)
    && |q0| == |o0| && q[..|q0|] == q0 && o[..|q0|] == o0
  }

  lemma DueEnds(side: Side, slots: seq<Slot>, generation: seq<Generation>, ids: map<OrderId, Handle>, level: Level,
                q0: seq<Index>, o0: seq<Resting>, q: seq<Index>, o: seq<Resting>, t: nat)
    requires Due(side, slots, generation, ids, level, q0, o0, q, o, t)
    ensures |q0| == |o0| <= t < |q| == |o| && q[..|q0|] == q0 && o[..|q0|] == o0
    ensures level.head == q[|q0|] && level.tail == q[t]
    ensures forall j :: 0 <= j < |q| ==> q[j] != NIL
  {
    ListedSlots(side, slots, generation, ids, q, o);
  }

  lemma DueFits(side: Side, slots: seq<Slot>, generation: seq<Generation>, ids: map<OrderId, Handle>, level: Level,
                q0: seq<Index>, o0: seq<Resting>, q: seq<Index>, o: seq<Resting>, t: nat, p: nat)
    requires Due(side, slots, generation, ids, level, q0, o0, q, o, t) && |generation| == |slots|
    requires |q0| <= p <= t
    ensures t < |q| == |o|
    ensures OrderFits(slots, generation, ids, side, level.price, q[p],
                      if p > |q0| then q[p - 1] else NIL, if p > |q0| then o[p - 1].seqNo else 0)
    ensures q[p] < |slots| && slots[q[p]].Used? && ToResting(slots[q[p]].order) == o[p]
    ensures slots[q[p]].order.next == (if p < t then q[p + 1] else NIL)
  {
    hide Listed;
    hide OrderFits;
    ListedFits(side, slots, generation, ids, q, o, level, |q0|, t, p);
    FitIsUsed(slots, generation, ids, side, level.price, q[p],
              if p > |q0| then q[p - 1] else NIL, if p > |q0| then o[p - 1].seqNo else 0);
  }

  /** Walks the list of a level. What it visits is added to q0 and o0; if the
      level is as in a side (due, expected), that is what it visits. */
  method CheckLevel(pool: FixedPool, ids: IdMap.Map, side: Side, level: Level, before: nat,
                    ghost q0: seq<Index>, ghost o0: seq<Resting>, ghost due: seq<Index>, ghost expected: seq<Resting>, ghost t: nat)
      returns (v: Option<string>, linked: nat, ghost q: seq<Index>, ghost o: seq<Resting>)
    requires pool.slots.Length == pool.generation.Length <= NIL && ids.Valid() && before <= pool.slots.Length
    requires |q0| == |o0|
    requires Walked(side, pool.slots[..], pool.generation[..], ids.contents, level, q0, o0, q0, o0, NIL)
    ensures v.None? ==>
              && linked == before + |q| - |q0| <= pool.slots.Length
              && Walked(side, pool.slots[..], pool.generation[..], ids.contents, level, q0, o0, q, o, NIL)
              && |q| > |q0| && Spans(q, o, level, |q0|, |q| - 1)
    ensures Due(side, pool.slots[..], pool.generation[..], ids.contents, level, q0, o0, due, expected, t)
            && before + |due| - |q0| <= pool.slots.Length ==>
              v.None? && q == due[..t + 1] && o == expected[..t + 1]
  {
    hide IdMap.TableOk;
    hide Due;
    hide Spans;
    hide Walked;
    hide OrderFits;
    ghost var slots, generation := pool.slots[..], pool.generation[..];
    ghost var good := Due(side, slots, generation, ids.contents, level, q0, o0, due, expected, t)
                      && before + |due| - |q0| <= pool.slots.Length;
    if good {
      DueEnds(side, slots, generation, ids.contents, level, q0, o0, due, expected, t);
    }
    linked, q, o := before, q0, o0;
    if level.head == NIL {
      return Some("empty level left in price levels"), linked, q, o;
    }
    var prev: Index, lastSeq: nat := NIL, 0;
    var i: Index := level.head;
    while i != NIL
      invariant |q0| == |o0| <= |q| == |o| && linked == before + |q| - |q0| <= pool.slots.Length
      invariant Walked(side, slots, generation, ids.contents, level, q0, o0, q, o, if |q| > |q0| then i else NIL)
      invariant |q| == |q0| ==> i == level.head
      invariant prev == if |q| > |q0| then q[|q| - 1] else NIL
      invariant lastSeq == if |q| > |q0| then o[|o| - 1].seqNo else 0
      invariant good ==> |q| <= t + 1 && q == due[..|q|] && o == expected[..|q|]
                         && i == if |q| <= t then due[|q|] else NIL
      decreases pool.slots.Length - linked
    {
      if good {
        DueFits(side, slots, generation, ids.contents, level, q0, o0, due, expected, t, |q|);
      }
      v := CheckOrder(pool, ids, side, level.price, i, prev, lastSeq);
      if v.Some? {
        return;
      }
      FitIsUsed(slots, generation, ids.contents, side, level.price, i, prev, lastSeq);
      var order := pool.slots[i].order;
      WalkOn(side, slots, generation, ids.contents, level, q0, o0, q, o, i);
      linked := linked + 1;
      if linked > pool.slots.Length {
        return Some("cycle in level list"), linked, q, o;
      }
      prev, lastSeq := i, order.seqNo;
      q, o := q + [i], o + [ToResting(order)];
      i := order.next;
    }
    if level.tail != prev {
      return Some("level.tail is not the last linked order"), linked, q, o;
    }
    WalkEnds(side, slots, generation, ids.contents, level, q0, o0, q, o);
    v := None;
  }

  // ---------- one side ----------

  /** A level stays a run of orders when orders at other prices follow. */
  lemma SpansOn(q: seq<Index>, o: seq<Resting>, q': seq<Index>, o': seq<Resting>, level: Level, f: nat, t: nat)
    requires Spans(q, o, level, f, t)
    requires |q| <= |q'| == |o'| && q'[..|q|] == q && o'[..|q|] == o
    requires |q| < |o'| ==> o'[|q|].price != level.price
    ensures Spans(q', o', level, f, t)
  {
    assert forall j :: 0 <= j < |q| ==> q'[j] == q[j] && o'[j] == o[j];
  }

  /** The next worse level was found. */
  lemma LevelFound(side: Side, slots: seq<Slot>, generation: seq<Generation>, ids: map<OrderId, Handle>,
                   levels: seq<Level>, k: nat,
                   q0: seq<Index>, o0: seq<Resting>, q: seq<Index>, o: seq<Resting>)
    requires k < |levels| && SideFound(side, slots, generation, ids, levels[k + 1..], q0, o0)
    requires k + 1 < |levels| ==> Better(side, levels[k + 1].price, levels[k].price)
    requires Walked(side, slots, generation, ids, levels[k], q0, o0, q, o, NIL)
    requires |q| > |q0| && Spans(q, o, levels[k], |q0|, |q| - 1)
    ensures |q| == |o| && SideFound(side, slots, generation, ids, levels[k..], q, o)
  {
    hide Sorted;
    hide Vetted;
    hide Threaded;
    hide Chained;
    hide Leveled;
    hide Ascending;
    hide NoneEmpty;
    hide Spans;
    ChainedIsThreaded(slots, q, o);
    assert Listed(side, slots, generation, ids, q, o);
    ListedSlots(side, slots, generation, ids, q, o);
    LevelsFound(side, levels[k + 1..], levels[k], q0, o0, q, o);
    assert levels[k..] == [levels[k]] + levels[k + 1..];
  }

  /** It comes in front, being worse than the others. */
  lemma LevelsFound(side: Side, levels: seq<Level>, level: Level,
                    q0: seq<Index>, o0: seq<Resting>, q: seq<Index>, o: seq<Resting>)
    requires Leveled(levels, q0, o0) && Ascending(side, levels) && NoneEmpty(levels)
    requires levels != [] ==> Better(side, levels[0].price, level.price)
    requires |q0| == |o0| < |q| == |o| && q[..|q0|] == q0 && o[..|o0|] == o0
    requires forall j :: |q0| <= j < |o| ==> o[j].price == level.price
    requires forall j :: 0 <= j < |q| ==> q[j] != NIL
    requires Spans(q, o, level, |q0|, |q| - 1)
    ensures Leveled([level] + levels, q, o) && Ascending(side, [level] + levels) && NoneEmpty([level] + levels)
  {
    hide Spans;
    var all := [level] + levels;
    assert forall k :: 0 <= k < |levels| ==> Better(side, levels[k].price, level.price);
    assert level.head != NIL by {
      SpanEnds(q, o, level, |q0|, |q| - 1);
    }
    forall k | 0 <= k < |levels|
      ensures LevelOk(q, o, levels[k])
    {
      var f, t := NonEmptySpans(levels, q0, o0, k);
      SpansOn(q0, o0, q, o, levels[k], f, t);
    }
    assert LevelOk(q, o, level);
    forall j | 0 <= j < |o|
      ensures HasPrice(all, o[j].price)
    {
      if j < |o0| {
        assert o[j] == o0[j] && HasPrice(levels, o0[j].price);
        var k :| 0 <= k < |levels| && levels[k].price == o0[j].price;
        assert all[k + 1].price == o[j].price;
      } else {
        assert all[0].price == o[j].price;
      }
    }
  }

  lemma SpanEnds(q: seq<Index>, o: seq<Resting>, level: Level, f: nat, t: nat)
    requires Spans(q, o, level, f, t)
    ensures f <= t < |q| == |o| && level.head == q[f] && o[f].price == level.price == o[t].price
  {
  }

  lemma NothingFound(side: Side, slots: seq<Slot>, generation: seq<Generation>, ids: map<OrderId, Handle>)
    requires |slots| <= NIL
    ensures SideFound(side, slots, generation, ids, [], [], [])
  {
  }

  /** A walk can go on to a worse level. */
  lemma WalkStarts(side: Side, slots: seq<Slot>, generation: seq<Generation>, ids: map<OrderId, Handle>,
                   levels: seq<Level>, k: nat, q: seq<Index>, o: seq<Resting>)
    requires k < |levels| && SideFound(side, slots, generation, ids, levels[k + 1..], q, o)
    requires k + 1 < |levels| ==> Better(side, levels[k + 1].price, levels[k].price)
    ensures |q| == |o| && Walked(side, slots, generation, ids, levels[k], q, o, q, o, NIL)
  {
    ChainedIsThreaded(slots, q, o);
    if o != [] {
      assert HasPrice(levels[k + 1..], o[|o| - 1].price);
    }
  }

  /** Checks level k once all better levels have been found. */
  method CheckNext(levels: Levels, k: nat, pool: FixedPool, ids: IdMap.Map, before: nat,
                   ghost q0: seq<Index>, ghost o0: seq<Resting>, ghost due: seq<Index>, ghost expected: seq<Resting>, ghost t: nat)
      returns (v: Option<string>, linked: nat, ghost q: seq<Index>, ghost o: seq<Resting>)
    requires pool.slots.Length == pool.generation.Length <= NIL && ids.Valid() && before <= pool.slots.Length
    requires k < levels.count <= levels.levels.Length
    requires SideFound(levels.side, pool.slots[..], pool.generation[..], ids.contents, levels.View()[k + 1..], q0, o0)
    ensures v.None? ==>
              && |q0| < |q| == |o| && linked == before + |q| - |q0| <= pool.slots.Length
              && SideFound(levels.side, pool.slots[..], pool.generation[..], ids.contents, levels.View()[k..], q, o)
    ensures SideFound(levels.side, pool.slots[..], pool.generation[..], ids.contents, levels.View(), due, expected)
            && Due(levels.side, pool.slots[..], pool.generation[..], ids.contents, levels.levels[k], q0, o0, due, expected, t)
            && before + |due| - |q0| <= pool.slots.Length ==>
              v.None? && q == due[..t + 1] && o == expected[..t + 1]
  {
    hide IdMap.TableOk;
    hide SideFound;
    hide Walked;
    hide Spans;
    hide Due;
    ghost var slots, generation, view := pool.slots[..], pool.generation[..], levels.View();
    var level := levels.levels[k];
    if SideFound(levels.side, slots, generation, ids.contents, view, due, expected) {
      FoundIsOrdered(levels.side, slots, generation, ids.contents, view, due, expected, k);
    }
    if k + 1 < levels.count && !Better(levels.side, levels.levels[k + 1].price, level.price) {
      return Some("price levels not strictly ordered best first"), before, q0, o0;
    }
    WalkStarts(levels.side, slots, generation, ids.contents, view, k, q0, o0);
    v, linked, q, o := CheckLevel(pool, ids, levels.side, level, before, q0, o0, due, expected, t);
    if v.None? {
      LevelFound(levels.side, slots, generation, ids.contents, view, k, q0, o0, q, o);
    }
  }

  /** Walks a side. If it finds no violation it has found the side; and it finds
      none if the side is there as (due, expected). */
  method CheckSide(levels: Levels, pool: FixedPool, ids: IdMap.Map, before: nat,
                   ghost due: seq<Index>, ghost expected: seq<Resting>)
      returns (v: Option<string>, linked: nat, ghost q: seq<Index>, ghost o: seq<Resting>)
    requires pool.slots.Length == pool.generation.Length <= NIL && ids.Valid() && before <= pool.slots.Length
    requires levels.count <= levels.levels.Length
    ensures v.None? ==>
              && linked == before + |q| <= pool.slots.Length
              && SideFound(levels.side, pool.slots[..], pool.generation[..], ids.contents, levels.View(), q, o)
    ensures SideFound(levels.side, pool.slots[..], pool.generation[..], ids.contents, levels.View(), due, expected)
            && before + |due| <= pool.slots.Length ==>
              v.None? && q == due && o == expected
  {
    hide IdMap.TableOk;
    hide SideFound;
    hide Due;
    ghost var slots, generation, view := pool.slots[..], pool.generation[..], levels.View();
    ghost var good := SideFound(levels.side, slots, generation, ids.contents, view, due, expected)
                      && before + |due| <= pool.slots.Length;
    linked, q, o := before, [], [];
    ghost var t: nat := 0;
    NothingFound(levels.side, slots, generation, ids.contents);
    if good {
      t := DueFirst(levels.side, slots, generation, ids.contents, view, due, expected);
    }
    assert view[|view|..] == [];
    var rank := 0;
    while rank < levels.count
      invariant rank <= levels.count && |q| == |o| && linked == before + |q| <= pool.slots.Length
      invariant SideFound(levels.side, slots, generation, ids.contents, view[|view| - rank..], q, o)
      invariant good ==> |q| <= |due| == |expected| && q == due[..|q|] && o == expected[..|q|]
      invariant good && rank < levels.count ==>
                  Due(levels.side, slots, generation, ids.contents, view[|view| - 1 - rank], q, o, due, expected, t)
      invariant good && rank == levels.count ==> |q| == |due|
    {
      var k := levels.count - 1 - rank;
      ghost var q0, o0 := q, o;
      v, linked, q, o := CheckNext(levels, k, pool, ids, linked, q, o, due, expected, t);
      if v.Some? {
        return;
      }
      if good {
        t := DueNext(levels.side, slots, generation, ids.contents, view, due, expected, k, q0, o0, t);
      }
      rank := rank + 1;
    }
    assert view[0..] == view;
    assert good ==> due[..|due|] == due && expected[..|due|] == expected;
    v := None;
  }

  lemma FoundIsOrdered(side: Side, slots: seq<Slot>, generation: seq<Generation>, ids: map<OrderId, Handle>,
                       levels: seq<Level>, q: seq<Index>, o: seq<Resting>, k: nat)
    requires SideFound(side, slots, generation, ids, levels, q, o)
    ensures k + 1 < |levels| ==> Better(side, levels[k + 1].price, levels[k].price)
  {
  }

  /** The best level comes first. */
  lemma DueFirst(side: Side, slots: seq<Slot>, generation: seq<Generation>, ids: map<OrderId, Handle>,
                 levels: seq<Level>, q: seq<Index>, o: seq<Resting>) returns (t: nat)
    requires SideFound(side, slots, generation, ids, levels, q, o)
    ensures |q| == |o|
    ensures levels != [] ==> Due(side, slots, generation, ids, levels[|levels| - 1], [], [], q, o, t)
    ensures levels == [] ==> |q| == 0
  {
    hide Listed;
    t := 0;
    LevelsIffOrders(levels, q, o);
    ListedOrders(side, slots, generation, ids, q, o);
    if levels != [] {
      t := BestLevelFirst(side, levels, q, o);
    }
  }

  lemma ListedOrders(side: Side, slots: seq<Slot>, generation: seq<Generation>, ids: map<OrderId, Handle>,
                     q: seq<Index>, o: seq<Resting>)
    requires Listed(side, slots, generation, ids, q, o)
    ensures |q| == |o| && Sorted(side, o)
  {
  }

  /** Behind a level comes the next worse one, or nothing. */
  lemma DueNext(side: Side, slots: seq<Slot>, generation: seq<Generation>, ids: map<OrderId, Handle>,
                levels: seq<Level>, q: seq<Index>, o: seq<Resting>, k: nat,
                q0: seq<Index>, o0: seq<Resting>, t: nat) returns (t': nat)
    requires SideFound(side, slots, generation, ids, levels, q, o)
    requires k < |levels| && Due(side, slots, generation, ids, levels[k], q0, o0, q, o, t)
    ensures t + 1 <= |q| == |o|
    ensures k > 0 ==> Due(side, slots, generation, ids, levels[k - 1], q[..t + 1], o[..t + 1], q, o, t')
    ensures k == 0 ==> t + 1 == |q|
  {
    hide Listed;
    hide Leveled;
    hide Ascending;
    hide NoneEmpty;
    hide Sorted;
    ListedOrders(side, slots, generation, ids, q, o);
    t' := NextLevelFollows(side, levels, q, o, k, |q0|, t);
  }

  // ---------- the whole book ----------

  /** Distinct members of a set are all of it exactly when they are as many. */
  lemma AllIffAsMany<T>(s: seq<T>, whole: set<T>)
    requires Distinct(s)
    requires forall k :: 0 <= k < |s| ==> s[k] in whole
    ensures |s| == |whole| <==> forall x :: x in whole ==> x in s
  {
    DistinctWithin(s, whole);
    if forall x :: x in whole ==> x in s {
      MembersSize(s);
      assert whole == set x | x in s;
    } else {
      var x :| x in whole && x !in s;
      DistinctWithin(s, whole - {x});
    }
  }

  ghost function InUse(slots: seq<Slot>): set<Index> {
    set i: Index | i < |slots| && slots[i].Used?
  }

  ghost function Unused(slots: seq<Slot>): set<Index> {
    set i: Index | i < |slots| && slots[i].Free?
  }

  lemma {:induction false} UsedOrFree(slots: seq<Slot>)
    requires |slots| <= NIL
    ensures |InUse(slots)| + |Unused(slots)| == |slots|
  {
    if slots != [] {
      var n: Index := |slots| - 1;
      var most := slots[..n];
      UsedOrFree(most);
      assert forall i: nat :: i < n ==> most[i] == slots[i];
      assert InUse(most) == InUse(slots) - {n};
      assert Unused(most) == Unused(slots) - {n};
      assert n in if slots[n].Used? then InUse(slots) else Unused(slots);
    }
  }

  /** The free list and the slots in use never exceed the pool, and fill it
      exactly when the list holds every free slot. */
  lemma FreeAndUsed(slots: seq<Slot>, head: Index, list: seq<Index>)
    requires FreeWalk(slots, head, list) && |slots| <= NIL
    ensures |list| + |InUse(slots)| <= |slots|
    ensures |list| + |InUse(slots)| == |slots| <==> FreeChain(slots, head, list)
  {
    DistinctWithin(list, Unused(slots));
    AllIffAsMany(list, Unused(slots));
    UsedOrFree(slots);
    assert (forall x :: x in Unused(slots) ==> x in list) <==> (forall i :: 0 <= i < |slots| && slots[i].Free? ==> i in list);
  }

  /** The only list that can be walked is the right one, if there is a right one. */
  lemma FreeListTells(slots: seq<Slot>, head: Index, list: seq<Index>)
    requires FreeLinks(slots, head) && FreeWalk(slots, head, list)
    ensures FreeListOk(slots, head) <==> FreeChain(slots, head, list)
  {
    if FreeListOk(slots, head) {
      var right: seq<Index> :| FreeChain(slots, head, right);
      OneWalk(slots, head, list, right);
    }
  }

  lemma FreeListOkEnds(slots: seq<Slot>, head: Index)
    requires FreeListOk(slots, head) && |slots| <= NIL
    ensures FreeListEnds(slots, head) && FreeLinks(slots, head)
  {
    var list: seq<Index> :| FreeChain(slots, head, list);
    ChainLinks(slots, head, list);
  }

  function Ids(o: seq<Resting>): (r: seq<OrderId>)
    ensures |r| == |o| && forall j :: 0 <= j < |o| ==> r[j] == o[j].id
  {
    seq(|o|, j requires 0 <= j < |o| => o[j].id)
  }

  /** Everything the check visits on its way over both sides. */
  ghost predicate BothListed(slots: seq<Slot>, generation: seq<Generation>, ids: map<OrderId, Handle>,
                             q: BySide<seq<Index>>, o: BySide<seq<Resting>>) {
    Listed(Buy, slots, generation, ids, q.bids, o.bids) && Listed(Sell, slots, generation, ids, q.asks, o.asks)
  }

  /** The slots and ids of the two sides are in use, and no slot is on both. */
  lemma VisitedInUse(slots: seq<Slot>, generation: seq<Generation>, ids: map<OrderId, Handle>,
                     q: BySide<seq<Index>>, o: BySide<seq<Resting>>)
    requires BothListed(slots, generation, ids, q, o)
    ensures |q.bids| == |o.bids| && |q.asks| == |o.asks|
    ensures forall i :: 0 <= i < |q.bids| ==> q.bids[i] in InUse(slots)
    ensures forall i :: 0 <= i < |q.asks| ==> q.asks[i] in InUse(slots)
    ensures forall i, j :: 0 <= i < |q.bids| && 0 <= j < |q.asks| ==> q.bids[i] != q.asks[j]
  {
    hide Sorted;
    hide NextAt;
    hide PrevAt;
    assert forall i :: 0 <= i < |q.bids| ==> slots[q.bids[i]] == SlotAt(q.bids, o.bids, i);
    assert forall i :: 0 <= i < |q.asks| ==> slots[q.asks[i]] == SlotAt(q.asks, o.asks, i);
  }

  /** No slot and no id is visited twice. */
  lemma VisitedOnce(slots: seq<Slot>, generation: seq<Generation>, ids: map<OrderId, Handle>,
                    q: BySide<seq<Index>>, o: BySide<seq<Resting>>)
    requires BothListed(slots, generation, ids, q, o)
    ensures |q.bids| == |o.bids| && |q.asks| == |o.asks|
    ensures Distinct(q.bids + q.asks) && Distinct(Ids(o.bids) + Ids(o.asks))
    ensures forall k :: 0 <= k < |q.bids + q.asks| ==> (q.bids + q.asks)[k] in InUse(slots)
    ensures forall k :: 0 <= k < |q.bids + q.asks| ==> (Ids(o.bids) + Ids(o.asks))[k] in ids
  {
    hide Sorted;
    hide Threaded;
    hide InUse;
    ThreadedDistinct(slots, Buy, q.bids, o.bids);
    ThreadedDistinct(slots, Sell, q.asks, o.asks);
    VisitedInUse(slots, generation, ids, q, o);
    var s, u := q.bids + q.asks, Ids(o.bids) + Ids(o.asks);
    assert Distinct(s);
    assert forall j :: 0 <= j < |s| ==> u[j] in ids && ids[u[j]].index == s[j];
  }

  /** The counts are right exactly when the id map and the pool hold nothing but
      what was visited. */
  lemma CountsTell(slots: seq<Slot>, generation: seq<Generation>, ids: map<OrderId, Handle>,
                   q: BySide<seq<Index>>, o: BySide<seq<Resting>>)
    requires BothListed(slots, generation, ids, q, o) && |generation| == |slots|
    ensures |q.bids| + |q.asks| == |ids| && |q.bids| + |q.asks| == |InUse(slots)| <==> Rep(slots, generation, ids, q, o)
  {
    hide BothListed;
    hide Rep;
    hide InUse;
    hide Distinct;
    VisitedOnce(slots, generation, ids, q, o);
    AllIffAsMany(q.bids + q.asks, InUse(slots));
    AllIffAsMany(Ids(o.bids) + Ids(o.asks), ids.Keys);
    if Rep(slots, generation, ids, q, o) {
      RepVisitsAll(slots, generation, ids, q, o);
    }
    if (forall i :: i in InUse(slots) ==> i in q.bids + q.asks)
       && (forall id :: id in ids.Keys ==> id in Ids(o.bids) + Ids(o.asks)) {
      VisitedIsAll(slots, generation, ids, q, o);
    }
  }

  lemma VisitedFits(slots: seq<Slot>, generation: seq<Generation>, ids: map<OrderId, Handle>,
                    q: BySide<seq<Index>>, o: BySide<seq<Resting>>)
    requires BothListed(slots, generation, ids, q, o)
    ensures |q.bids| + |q.asks| <= |InUse(slots)|
  {
    hide BothListed;
    hide InUse;
    VisitedOnce(slots, generation, ids, q, o);
    DistinctWithin(q.bids + q.asks, InUse(slots));
  }

  lemma RepVisitsAll(slots: seq<Slot>, generation: seq<Generation>, ids: map<OrderId, Handle>,
                     q: BySide<seq<Index>>, o: BySide<seq<Resting>>)
    requires Rep(slots, generation, ids, q, o)
    ensures forall i :: i in InUse(slots) ==> i in q.bids + q.asks
    ensures forall id :: id in ids ==> id in Ids(o.bids) + Ids(o.asks)
  {
    forall id | id in ids
      ensures id in Ids(o.bids) + Ids(o.asks)
    {
      var j := Lookup(slots, generation, ids, q, o, id);
      var side := slots[ids[id].index].order.side;
      assert Ids(o.On(side))[j] == id;
    }
  }

  lemma VisitedIsAll(slots: seq<Slot>, generation: seq<Generation>, ids: map<OrderId, Handle>,
                     q: BySide<seq<Index>>, o: BySide<seq<Resting>>)
    requires BothListed(slots, generation, ids, q, o) && |generation| == |slots|
    requires forall i :: i in InUse(slots) ==> i in q.bids + q.asks
    requires forall id :: id in ids ==> id in Ids(o.bids) + Ids(o.asks)
    ensures Rep(slots, generation, ids, q, o)
  {
    hide Sorted;
    hide Threaded;
    hide Vetted;
    forall i | 0 <= i < |slots| && slots[i].Used?
      ensures i in q.On(slots[i].order.side) && slots[i].order.id in ids && ids[slots[i].order.id].index == i
    {
      SlotsFit(slots, generation, ids, q, o);
      assert i in InUse(slots);
      var j := VisitOf(slots, generation, ids, q, o, i);
    }
    forall id | id in ids
      ensures
        var h := ids[id];
        h.index < |slots| && slots[h.index].Used? && slots[h.index].order.id == id && h.generation == generation[h.index]
    {
      IdVisited(slots, generation, ids, q, o, id);
    }
  }

  lemma SlotsFit(slots: seq<Slot>, generation: seq<Generation>, ids: map<OrderId, Handle>,
                 q: BySide<seq<Index>>, o: BySide<seq<Resting>>)
    requires BothListed(slots, generation, ids, q, o)
    ensures |slots| <= NIL
  {
  }

  /** The entry of a visited id leads to its order. */
  lemma IdVisited(slots: seq<Slot>, generation: seq<Generation>, ids: map<OrderId, Handle>,
                  q: BySide<seq<Index>>, o: BySide<seq<Resting>>, id: OrderId)
    requires BothListed(slots, generation, ids, q, o) && |generation| == |slots|
    requires id in Ids(o.bids) + Ids(o.asks)
    ensures id in ids
    ensures
      var h := ids[id];
      h.index < |slots| && slots[h.index].Used? && slots[h.index].order.id == id && h.generation == generation[h.index]
  {
    hide Sorted;
    hide NextAt;
    hide PrevAt;
    var k :| 0 <= k < |o.bids| + |o.asks| && (Ids(o.bids) + Ids(o.asks))[k] == id;
    var side, j := if k < |o.bids| then Buy else Sell, if k < |o.bids| then k else k - |o.bids|;
    assert o.On(side)[j].id == id;
    assert slots[q.On(side)[j]] == SlotAt(q.On(side), o.On(side), j);
  }

  /** Where a slot was visited. */
  lemma VisitOf(slots: seq<Slot>, generation: seq<Generation>, ids: map<OrderId, Handle>,
                q: BySide<seq<Index>>, o: BySide<seq<Resting>>, i: Index) returns (j: nat)
    requires BothListed(slots, generation, ids, q, o)
    requires i in q.bids + q.asks
    ensures i < |slots| && slots[i].Used?
    ensures
      var side := slots[i].order.side;
      && j < |q.On(side)| == |o.On(side)| && q.On(side)[j] == i && o.On(side)[j].id == slots[i].order.id
      && slots[i].order.id in ids && ids[slots[i].order.id].index == i
  {
    var k :| 0 <= k < |q.bids| + |q.asks| && (q.bids + q.asks)[k] == i;
    j := if k < |q.bids| then k else k - |q.bids|;
    var side := if k < |q.bids| then Buy else Sell;
    assert slots[i] == SlotAt(q.On(side), o.On(side), j);
  }

  /** The structures represent the book o, its orders in the slots q. */
  ghost predicate Represents(slots: seq<Slot>, generation: seq<Generation>, ids: map<OrderId, Handle>,
                             bids: seq<Level>, asks: seq<Level>, q: BySide<seq<Index>>, o: BySide<seq<Resting>>) {
    && SideFound(Buy, slots, generation, ids, bids, q.bids, o.bids)
    && SideFound(Sell, slots, generation, ids, asks, q.asks, o.asks)
    && Rep(slots, generation, ids, q, o)
    && Uncrossed(o)
  }

  lemma IdsApart(a: seq<Resting>, b: seq<Resting>)
    requires Distinct(Ids(a) + Ids(b))
    ensures DistinctIds(a) && DistinctIds(b) && DisjointIds(a, b)
  {
    var u := Ids(a) + Ids(b);
    assert forall j :: 0 <= j < |a| ==> u[j] == a[j].id;
    assert forall j :: 0 <= j < |b| ==> u[|a| + j] == b[j].id;
  }

  /** A book that is found is as every reachable book is. */
  lemma RepresentedIsOk(slots: seq<Slot>, generation: seq<Generation>, ids: map<OrderId, Handle>,
                        bids: seq<Level>, asks: seq<Level>, q: BySide<seq<Index>>, o: BySide<seq<Resting>>, nextSeq: nat)
    requires Represents(slots, generation, ids, bids, asks, q, o)
    requires forall j :: 0 <= j < |o.bids| ==> o.bids[j].seqNo < nextSeq
    requires forall j :: 0 <= j < |o.asks| ==> o.asks[j].seqNo < nextSeq
    ensures BookOk(o, nextSeq)
  {
    hide Sorted;
    hide Threaded;
    hide Rep;
    hide Leveled;
    hide Ascending;
    hide Uncrossed;
    hide Distinct;
    hide DistinctIds;
    hide DisjointIds;
    hide InUse;
    VisitedOnce(slots, generation, ids, q, o);
    IdsApart(o.bids, o.asks);
  }

  /** No bid reaches an ask exactly when the best bid does not reach the best ask. */
  lemma BestsTell(slots: seq<Slot>, generation: seq<Generation>, ids: map<OrderId, Handle>,
                  bids: seq<Level>, asks: seq<Level>, q: BySide<seq<Index>>, o: BySide<seq<Resting>>)
    requires SideFound(Buy, slots, generation, ids, bids, q.bids, o.bids)
    requires SideFound(Sell, slots, generation, ids, asks, q.asks, o.asks)
    ensures Uncrossed(o) <==> (bids != [] && asks != [] ==> bids[|bids| - 1].price < asks[|asks| - 1].price)
  {
    hide Leveled;
    hide Ascending;
    hide Threaded;
    hide Vetted;
    hide Spans;
    LevelsIffOrders(bids, q.bids, o.bids);
    LevelsIffOrders(asks, q.asks, o.asks);
    if bids != [] && asks != [] {
      var t := BestLevelFirst(Buy, bids, q.bids, o.bids);
      SpanEnds(q.bids, o.bids, bids[|bids| - 1], 0, t);
      t := BestLevelFirst(Sell, asks, q.asks, o.asks);
      SpanEnds(q.asks, o.asks, asks[|asks| - 1], 0, t);
      assert forall i :: 0 < i < |o.bids| ==> Ahead(Buy, o.bids[0], o.bids[i]);
      assert forall j :: 0 < j < |o.asks| ==> Ahead(Sell, o.asks[0], o.asks[j]);
    }
  }

  /** The id map's table is sound, no two parts share memory, and the links of
      free slots can be followed without leaving them. Nothing is said of how
      the parts agree, of the links between orders, or of where the free list
      leads; only at the largest capacity it must not cycle, because there the
      count of it would not stop. */
  ghost predicate PartsOk(book: Book.Book)
    reads book.Repr()
  {
    && book.Apart() && book.ids.Valid()
    && book.pool.slots.Length == book.pool.generation.Length <= NIL
    && book.bids.count <= book.bids.levels.Length && book.asks.count <= book.asks.levels.Length
    && FreeLinks(book.pool.slots[..], book.pool.freeHead)
    && (book.pool.slots.Length < NIL || FreeListEnds(book.pool.slots[..], book.pool.freeHead))
  }

  /** The structures represent some book. */
  ghost predicate Sensible(slots: seq<Slot>, generation: seq<Generation>, ids: map<OrderId, Handle>,
                           bids: seq<Level>, asks: seq<Level>) {
    exists q, o :: Represents(slots, generation, ids, bids, asks, q, o)
  }

  /** Both sides as the check wants to find them, the best bid below the best ask. */
  ghost predicate SidesFound(slots: seq<Slot>, generation: seq<Generation>, ids: map<OrderId, Handle>,
                             bids: seq<Level>, asks: seq<Level>, q: BySide<seq<Index>>, o: BySide<seq<Resting>>) {
    && SideFound(Buy, slots, generation, ids, bids, q.bids, o.bids)
    && SideFound(Sell, slots, generation, ids, asks, q.asks, o.asks)
    && (bids != [] && asks != [] ==> bids[|bids| - 1].price < asks[|asks| - 1].price)
  }

  /** Everything the check looks at before it counts. */
  method CheckSides(book: Book.Book, ghost due: BySide<seq<Index>>, ghost expected: BySide<seq<Resting>>)
      returns (v: Option<string>, linked: nat, ghost q: BySide<seq<Index>>, ghost o: BySide<seq<Resting>>)
    requires PartsOk(book)
    ensures v.None? ==>
              && linked == |q.bids| + |q.asks|
              && SidesFound(book.pool.slots[..], book.pool.generation[..], book.ids.contents, book.bids.View(), book.asks.View(), q, o)
    ensures SidesFound(book.pool.slots[..], book.pool.generation[..], book.ids.contents, book.bids.View(), book.asks.View(), due, expected)
            && |due.bids| + |due.asks| <= book.pool.slots.Length ==>
              v.None? && q == due && o == expected
  {
    hide SideFound;
    hide FreeLinks;
    hide FreeListEnds;
    hide IdMap.TableOk;
    linked, q, o := 0, due, expected;
    if book.bids.count > 0 && book.asks.count > 0
       && book.bids.levels[book.bids.count - 1].price >= book.asks.levels[book.asks.count - 1].price {
      return Some("book is crossed"), linked, q, o;
    }
    ghost var q1, o1, q2, o2;
    v, linked, q1, o1 := CheckSide(book.bids, book.pool, book.ids, 0, due.bids, expected.bids);
    if v.Some? {
      return;
    }
    v, linked, q2, o2 := CheckSide(book.asks, book.pool, book.ids, linked, due.asks, expected.asks);
    q, o := BySide(q1, q2), BySide(o1, o2);
  }

  /** What the two counts decide: the lists, the id map and the pool hold the
      same orders, and the free list holds all other slots. */
  lemma CountsDecide(slots: seq<Slot>, generation: seq<Generation>, ids: map<OrderId, Handle>, bids: seq<Level>, asks: seq<Level>,
                     q: BySide<seq<Index>>, o: BySide<seq<Resting>>, head: Index, list: seq<Index>)
    requires |generation| == |slots| && FreeLinks(slots, head) && FreeWalk(slots, head, list)
    requires SidesFound(slots, generation, ids, bids, asks, q, o)
    ensures |q.bids| + |q.asks| == |ids| && |slots| - |list| == |q.bids| + |q.asks|
            <==> Represents(slots, generation, ids, bids, asks, q, o) && FreeListOk(slots, head)
  {
    hide Represents;
    hide InUse;
    hide FreeWalk;
    hide FreeChain;
    hide FreeListOk;
    hide Leveled;
    hide Ascending;
    hide Threaded;
    hide Vetted;
    hide Sorted;
    VisitedFits(slots, generation, ids, q, o);
    FreeAndUsed(slots, head, list);
    FreeListTells(slots, head, list);
    CountsRepresent(slots, generation, ids, bids, asks, q, o);
  }

  /** The check finds no violation if and only if the structures represent some
      book and the free list ends and holds every slot that is not in use. */
  method InvariantViolation(book: Book.Book) returns (v: Option<string>)
    requires PartsOk(book)
    ensures v.None? <==>
              && Sensible(book.pool.slots[..], book.pool.generation[..], book.ids.contents, book.bids.View(), book.asks.View())
              && FreeListOk(book.pool.slots[..], book.pool.freeHead)
  {
    hide Represents;
    hide SidesFound;
    hide InUse;
    hide FreeWalk;
    hide FreeLinks;
    hide FreeListEnds;
    hide FreeListOk;
    hide IdMap.TableOk;
    ghost var slots, generation, ids := book.pool.slots[..], book.pool.generation[..], book.ids.contents;
    ghost var bids, asks, head := book.bids.View(), book.asks.View(), book.pool.freeHead;
    ghost var due: BySide<seq<Index>>, expected: BySide<seq<Resting>> := BySide([], []), BySide([], []);
    ghost var good := Sensible(slots, generation, ids, bids, asks) && FreeListOk(slots, head);
    if good {
      due, expected :| Represents(slots, generation, ids, bids, asks, due, expected);
      RepresentsCounts(slots, generation, ids, bids, asks, due, expected);
      UsedOrFree(slots);
      FreeListOkEnds(slots, head);
    }
    var linked;
    ghost var q, o;
    v, linked, q, o := CheckSides(book, due, expected);
    if v.Some? {
      return;
    }
    if linked != book.ids.size {
      return Some("id_map_ size != orders linked into levels");
    }
    var free, list := book.pool.FreeSlots();
    if free <= book.pool.slots.Length {
      CountsDecide(slots, generation, ids, bids, asks, q, o, head, list);
    }
    if book.pool.slots.Length - free != linked {
      return Some("pool slots in use != orders linked into levels");
    }
    v := None;
  }

  lemma RepresentsCounts(slots: seq<Slot>, generation: seq<Generation>, ids: map<OrderId, Handle>,
                         bids: seq<Level>, asks: seq<Level>, q: BySide<seq<Index>>, o: BySide<seq<Resting>>)
    requires Represents(slots, generation, ids, bids, asks, q, o)
    ensures SidesFound(slots, generation, ids, bids, asks, q, o)
    ensures |q.bids| + |q.asks| == |ids| && |q.bids| + |q.asks| == |InUse(slots)|
  {
    hide Leveled;
    hide Ascending;
    hide Threaded;
    hide Vetted;
    hide Sorted;
    hide Uncrossed;
    BestsTell(slots, generation, ids, bids, asks, q, o);
    CountsTell(slots, generation, ids, q, o);
  }

  lemma CountsRepresent(slots: seq<Slot>, generation: seq<Generation>, ids: map<OrderId, Handle>,
                        bids: seq<Level>, asks: seq<Level>, q: BySide<seq<Index>>, o: BySide<seq<Resting>>)
    requires |generation| == |slots| && SidesFound(slots, generation, ids, bids, asks, q, o)
    ensures |q.bids| + |q.asks| == |ids| && |q.bids| + |q.asks| == |InUse(slots)|
            <==> Represents(slots, generation, ids, bids, asks, q, o)
  {
    hide Leveled;
    hide Ascending;
    hide Threaded;
    hide Vetted;
    hide Sorted;
    hide Uncrossed;
    hide Rep;
    BestsTell(slots, generation, ids, bids, asks, q, o);
    CountsTell(slots, generation, ids, q, o);
  }

  /** The structures of a valid book represent its model. */
  lemma ValidIsRepresented(book: Book.Book)
    requires book.Valid()
    ensures PartsOk(book) && FreeListOk(book.pool.slots[..], book.pool.freeHead)
    ensures Represents(book.pool.slots[..], book.pool.generation[..], book.ids.contents,
                       book.bids.View(), book.asks.View(), book.q, book.model.book)
  {
    hide Leveled;
    hide Ascending;
    hide Sorted;
    hide FreeChain;
    hide FreeLinks;
    hide FreeListEnds;
    hide GenerationsOk;
    hide IdMap.TableOk;
    hide Uncrossed;
    hide DistinctIds;
    hide DisjointIds;
    hide NextAt;
    hide PrevAt;
    var slots, generation, ids := book.pool.slots[..], book.pool.generation[..], book.ids.contents;
    FreeListOkEnds(slots, book.pool.freeHead);
    SideVetted(slots, generation, ids, book.q, book.model.book, Buy, book.model.nextSeq);
    SideVetted(slots, generation, ids, book.q, book.model.book, Sell, book.model.nextSeq);
  }

  lemma SideVetted(slots: seq<Slot>, generation: seq<Generation>, ids: map<OrderId, Handle>,
                   q: BySide<seq<Index>>, o: BySide<seq<Resting>>, side: Side, nextSeq: nat)
    requires Rep(slots, generation, ids, q, o) && SideOk(side, o.On(side), nextSeq)
    ensures Vetted(side, generation, ids, q.On(side), o.On(side))
  {
    hide Sorted;
    hide AllLinked;
    hide NextAt;
    hide PrevAt;
    var s, u := q.On(side), o.On(side);
    forall j | 0 <= j < |s|
      ensures s[j] < |generation| && u[j].id in ids && ids[u[j].id] == Handle(s[j], generation[s[j]])
    {
      assert slots[s[j]] == SlotAt(s, u, j);
    }
  }

  // ---------- only one book ----------

  ghost predicate Holding(slots: seq<Slot>, q: seq<Index>, o: seq<Resting>) {
    && |q| == |o|
    && forall j :: 0 <= j < |q| ==> q[j] < |slots| && slots[q[j]].Used? && ToResting(slots[q[j]].order) == o[j]
  }

  /** The same slots in order of priority are the same sequence. */
  lemma {:induction false} OneOrder(side: Side, slots: seq<Slot>, q: seq<Index>, o: seq<Resting>, q': seq<Index>, o': seq<Resting>)
    requires Holding(slots, q, o) && Sorted(side, o) && Distinct(q)
    requires Holding(slots, q', o') && Sorted(side, o') && Distinct(q')
    requires forall i :: i in q <==> i in q'
    ensures q == q' && o == o'
    decreases |q|
  {
    EmptyTogether(q, q');
    if q != [] {
      SameFirst(side, slots, q, o, q', o');
      TailMembers(q);
      TailMembers(q');
      OneOrder(side, slots, q[1..], o[1..], q'[1..], o'[1..]);
      assert q == [q[0]] + q[1..] && q' == [q'[0]] + q'[1..];
      assert o == [o[0]] + o[1..] && o' == [o'[0]] + o'[1..];
    }
  }

  lemma EmptyTogether<T>(s: seq<T>, u: seq<T>)
    requires forall x :: x in s <==> x in u
    ensures s == [] <==> u == []
  {
    if s != [] {
      assert s[0] in u;
    }
    if u != [] {
      assert u[0] in s;
    }
  }

  lemma SameFirst(side: Side, slots: seq<Slot>, q: seq<Index>, o: seq<Resting>, q': seq<Index>, o': seq<Resting>)
    requires Holding(slots, q, o) && Sorted(side, o) && q != []
    requires Holding(slots, q', o') && Sorted(side, o') && q' != []
    requires q[0] in q' && q'[0] in q
    ensures q[0] == q'[0]
  {
    var k :| 0 <= k < |q'| && q'[k] == q[0];
    var j :| 0 <= j < |q| && q[j] == q'[0];
  }

  lemma TailMembers<T>(s: seq<T>)
    requires s != [] && Distinct(s)
    ensures forall x :: x in s[1..] <==> x in s && x != s[0]
  {
  }

  /** The structures never represent two different books. */
  lemma OneBook(slots: seq<Slot>, generation: seq<Generation>, ids: map<OrderId, Handle>, bids: seq<Level>, asks: seq<Level>,
                q: BySide<seq<Index>>, o: BySide<seq<Resting>>, q': BySide<seq<Index>>, o': BySide<seq<Resting>>)
    requires Represents(slots, generation, ids, bids, asks, q, o)
    requires Represents(slots, generation, ids, bids, asks, q', o')
    ensures q == q' && o == o'
  {
    hide Listed;
    hide Leveled;
    hide Ascending;
    hide Threaded;
    hide IdsOk;
    hide AllLinked;
    hide Uncrossed;
    OneSide(slots, generation, ids, q, o, q', o', Buy);
    OneSide(slots, generation, ids, q, o, q', o', Sell);
  }

  lemma OneSide(slots: seq<Slot>, generation: seq<Generation>, ids: map<OrderId, Handle>,
                q: BySide<seq<Index>>, o: BySide<seq<Resting>>, q': BySide<seq<Index>>, o': BySide<seq<Resting>>, side: Side)
    requires AllLinked(slots, q) && Listed(side, slots, generation, ids, q.On(side), o.On(side))
    requires AllLinked(slots, q') && Listed(side, slots, generation, ids, q'.On(side), o'.On(side))
    ensures q.On(side) == q'.On(side) && o.On(side) == o'.On(side)
  {
    hide Sorted;
    hide Threaded;
    hide Vetted;
    hide AllLinked;
    hide Distinct;
    hide Holding;
    ThreadedDistinct(slots, side, q.On(side), o.On(side));
    ThreadedDistinct(slots, side, q'.On(side), o'.On(side));
    SlotsOfSide(slots, generation, ids, q, o, side);
    SlotsOfSide(slots, generation, ids, q', o', side);
    OneOrder(side, slots, q.On(side), o.On(side), q'.On(side), o'.On(side));
  }

  /** The slots of a side are those whose orders are of that side. */
  lemma SlotsOfSide(slots: seq<Slot>, generation: seq<Generation>, ids: map<OrderId, Handle>,
                    q: BySide<seq<Index>>, o: BySide<seq<Resting>>, side: Side)
    requires AllLinked(slots, q) && Listed(side, slots, generation, ids, q.On(side), o.On(side))
    ensures Holding(slots, q.On(side), o.On(side))
    ensures forall i: Index :: i in q.On(side) <==> i < |slots| && slots[i].Used? && slots[i].order.side == side
  {
    hide Sorted;
    var s, u := q.On(side), o.On(side);
    forall j | 0 <= j < |s|
      ensures s[j] < |slots| && slots[s[j]].Used? && ToResting(slots[s[j]].order) == u[j] && u[j].side == side
    {
      assert slots[s[j]] == SlotAt(s, u, j);
    }
  }

  // ---------- every run ----------

  /** Runs the commands on a fresh book and checks its structures before the
      first command and after every one of them; whatever the commands are, there
      is nothing to find. */
  method RunChecked(capacity: Index, hash: OrderId -> nat, cs: seq<Command>)
      returns (outcomes: seq<Outcome>, violation: Option<string>)
    ensures violation.None?
    ensures outcomes == Run(Word32, Initial(capacity), cs).1
  {
    hide Book.Book.Valid;
    hide Run;
    hide Step;
    hide PartsOk;
    var book := new Book.Book(capacity, hash);
    outcomes := [];
    NothingRun(Initial(capacity));
    violation := CheckValid(book);
    for i := 0 to |cs|
      invariant book.Valid() && fresh(book.Repr()) && violation.None?
      invariant (book.model, outcomes) == Run(Word32, Initial(capacity), cs[..i])
    {
      RunAppend(Word32, Initial(capacity), cs[..i], cs[i]);
      assert cs[..i + 1] == cs[..i] + [cs[i]];
      var outcome := book.Apply(cs[i]);
      outcomes := outcomes + [outcome];
      violation := CheckValid(book);
    }
    assert cs[..|cs|] == cs;
  }

  lemma NothingRun(st: State)
    ensures Run(Word32, st, []) == (st, [])
  {
  }

  /** A valid book shows no violation. */
  method CheckValid(book: Book.Book) returns (violation: Option<string>)
    requires book.Valid()
    ensures violation.None? && book.Valid()
  {
    hide Book.Book.Valid;
    hide Represents;
    hide FreeListOk;
    hide PartsOk;
    ValidIsRepresented(book);
    assert forall x :: x in book.Repr() ==> allocated(x);
    violation := InvariantViolation(book);
  }
}
