/** The order pool: a fixed array of slots, a free list threaded through the
    unused ones, and a generation counter for each. */
module Pool {
  import opened Types
  import opened Sequences

  type Generation = x: nat | x < 0x1_0000_0000

  /** A slot and the generation it had when the handle was made. */
  datatype Handle = Handle(index: Index, generation: Generation)

  const INVALID := Handle(NIL, 0xFFFF_FFFF)

  /** An order in its slot, with the links of its level's list. */
  datatype Order = Order(
    price: Price, qty: Qty, next: Index, prev: Index, side: Side, id: OrderId, account: Account, seqNo: nat)

  /** A slot holds an order or a link of the free list, never both. */
  datatype Slot = Free(next: Index) | Used(order: Order)

  /** What freeing a slot does to its generation. */
  function Advance(g: Generation): Generation {
    var n: nat := g;
    Wrap(n + 1)
  }

  lemma NextGeneration(n: nat)
    ensures Advance(Wrap(n)) == Wrap(n + 1)
    ensures n < TWO32 ==> Wrap(n) == n
    ensures n + 1 < TWO32 ==> Wrap(n + 1) == n + 1
  {
  }

  function Link(list: seq<Index>, k: nat): Index {
    if k < |list| then list[k] else NIL
  }

  /** The links from head lead through the slots in list, each once, to the end. */
  ghost predicate FreeWalk(slots: seq<Slot>, head: Index, list: seq<Index>) {
    && Distinct(list)
    && head == Link(list, 0)
    && (forall k :: 0 <= k < |list| ==>
          list[k] < |slots| && slots[list[k]] == Free(Link(list, k + 1)))
  }

  /** The free list starting at head visits exactly the slots in list, each
      once, and no other slot is free. */
  ghost predicate FreeChain(slots: seq<Slot>, head: Index, list: seq<Index>) {
    && FreeWalk(slots, head, list)
    && (forall i :: 0 <= i < |slots| && slots[i].Free? ==> i in list)
  }

  /** The link leads nowhere or to a free slot. */
  ghost predicate FreeLink(slots: seq<Slot>, i: Index) {
    i == NIL || (i < |slots| && slots[i].Free?)
  }

  /** The links can be followed, wherever they lead. */
  ghost predicate FreeLinks(slots: seq<Slot>, head: Index) {
    && |slots| <= NIL
    && FreeLink(slots, head)
    && forall i :: 0 <= i < |slots| && slots[i].Free? ==> FreeLink(slots, slots[i].next)
  }

  /** The free list ends and holds every free slot. */
  ghost predicate FreeListOk(slots: seq<Slot>, head: Index) {
    exists list: seq<Index> :: FreeChain(slots, head, list)
  }

  /** Following the links comes to an end. */
  ghost predicate FreeListEnds(slots: seq<Slot>, head: Index) {
    exists list: seq<Index> :: FreeWalk(slots, head, list)
  }

  /** Where k links lead, or nowhere once the end is reached. */
  ghost function Follow(slots: seq<Slot>, head: Index, k: nat): (i: Index)
    requires FreeLinks(slots, head)
    ensures FreeLink(slots, i)
  {
    if k == 0 then head
    else
      var i := Follow(slots, head, k - 1);
      if i == NIL then NIL else slots[i].next
  }

  /** A walk is what following the links gives. */
  lemma {:induction false} WalkIsFollow(slots: seq<Slot>, head: Index, list: seq<Index>, k: nat)
    requires FreeLinks(slots, head) && FreeWalk(slots, head, list)
    ensures Follow(slots, head, k) == Link(list, k)
  {
    if k > 0 {
      WalkIsFollow(slots, head, list, k - 1);
    }
  }

  /** From the same slot the links lead the same way. */
  lemma {:induction false} FollowOn(slots: seq<Slot>, head: Index, a: nat, b: nat, k: nat)
    requires FreeLinks(slots, head) && Follow(slots, head, a) == Follow(slots, head, b)
    ensures Follow(slots, head, a + k) == Follow(slots, head, b + k)
  {
    if k > 0 {
      FollowOn(slots, head, a, b, k - 1);
    }
  }

  lemma {:induction false} EndedStays(slots: seq<Slot>, head: Index, n: nat, k: nat)
    requires FreeLinks(slots, head) && Follow(slots, head, n) == NIL
    ensures Follow(slots, head, n + k) == NIL
  {
    if k > 0 {
      EndedStays(slots, head, n, k - 1);
    }
  }

  /** The links determine the walk. */
  lemma OneWalk(slots: seq<Slot>, head: Index, list: seq<Index>, other: seq<Index>)
    requires FreeLinks(slots, head) && FreeWalk(slots, head, list) && FreeWalk(slots, head, other)
    ensures list == other
  {
    forall k: nat
      ensures Link(list, k) == Link(other, k)
    {
      WalkIsFollow(slots, head, list, k);
      WalkIsFollow(slots, head, other, k);
    }
    assert Link(list, |list|) == Link(other, |list|) && Link(list, |other|) == Link(other, |other|);
    assert forall k :: 0 <= k < |list| ==> list[k] == Link(list, k);
  }

  /** If the end comes after n links, no slot comes twice before it. */
  lemma FollowEnds(slots: seq<Slot>, head: Index, n: nat, list: seq<Index>)
    requires FreeLinks(slots, head) && |list| == n
    requires forall k :: 0 <= k < n ==> list[k] == Follow(slots, head, k) != NIL
    requires Follow(slots, head, n) == NIL
    ensures FreeWalk(slots, head, list)
  {
    forall a, b | 0 <= a < b < n
      ensures list[a] != list[b]
    {
      if list[a] == list[b] {
        FollowOn(slots, head, a, b, n - b);
      }
    }
    forall k | 0 <= k < n
      ensures list[k] < |slots| && slots[list[k]] == Free(Link(list, k + 1))
    {
      assert Follow(slots, head, k + 1) == slots[list[k]].next;
    }
  }

  /** A list that ends does so within as many links as there are slots. */
  lemma EndsInTime(slots: seq<Slot>, head: Index)
    requires FreeLinks(slots, head) && FreeListEnds(slots, head)
    ensures Follow(slots, head, |slots|) == NIL
  {
    var list: seq<Index> :| FreeWalk(slots, head, list);
    PigeonHole(list, |slots|);
    WalkIsFollow(slots, head, list, |slots|);
  }

  /** The walk that counts the free slots stops after k links: at the end of the
      list, or because a 32-bit count of k + 1 exceeds the capacity. */
  ghost predicate CountStops(slots: seq<Slot>, head: Index, k: nat)
    requires FreeLinks(slots, head)
  {
    Follow(slots, head, k) == NIL || Wrap(k + 1) > |slots|
  }

  /** The count stops for every list exactly when the capacity is below the
      largest index; at that capacity a list that cycles is followed forever. */
  lemma CountStopsIff(slots: seq<Slot>, head: Index)
    requires FreeLinks(slots, head)
    ensures (exists k: nat :: CountStops(slots, head, k)) <==> |slots| < NIL || FreeListEnds(slots, head)
  {
    if FreeListEnds(slots, head) {
      EndsInTime(slots, head);
      assert CountStops(slots, head, |slots|);
    } else if |slots| < NIL {
      assert CountStops(slots, head, |slots|);
    } else {
      forall k: nat
        ensures !CountStops(slots, head, k)
      {
        if Follow(slots, head, k) == NIL {
          EndGivesWalk(slots, head, k);
        }
      }
    }
  }

  lemma {:induction false} EndGivesWalk(slots: seq<Slot>, head: Index, n: nat)
    requires FreeLinks(slots, head) && Follow(slots, head, n) == NIL
    ensures FreeListEnds(slots, head)
  {
    if n > 0 && Follow(slots, head, n - 1) == NIL {
      EndGivesWalk(slots, head, n - 1);
    } else {
      var list := seq(n, k requires 0 <= k < n => Follow(slots, head, k));
      forall k | 0 <= k < n
        ensures Follow(slots, head, k) != NIL
      {
        if Follow(slots, head, k) == NIL {
          EndedStays(slots, head, k, n - 1 - k);
        }
      }
      FollowEnds(slots, head, n, list);
    }
  }

  lemma PopFree(slots: seq<Slot>, head: Index, list: seq<Index>, order: Order)
    requires FreeChain(slots, head, list)
    requires list != []
    ensures FreeChain(slots[head := Used(order)], slots[head].next, list[1..])
  {
    var slots' := slots[head := Used(order)];
    forall i | 0 <= i < |slots| && slots'[i].Free?
      ensures i in list[1..]
    {
      var k :| 0 <= k < |list| && list[k] == i;
      assert list[1..][k - 1] == i;
    }
  }

  lemma PushFree(slots: seq<Slot>, head: Index, list: seq<Index>, i: Index)
    requires FreeChain(slots, head, list)
    requires i < |slots| <= NIL && slots[i].Used?
    ensures FreeChain(slots[i := Free(head)], i, [i] + list)
  {
    var slots' := slots[i := Free(head)];
    var list' := [i] + list;
    forall j | 0 <= j < |slots| && slots'[j].Free?
      ensures j in list'
    {
      if j != i {
        var k :| 0 <= k < |list| && list[k] == j;
        assert list'[k + 1] == j;
      }
    }
  }

  /** Freeing a free slot again closes the list to a circle. */
  lemma PushTwice(slots: seq<Slot>, head: Index, list: seq<Index>, i: Index)
    requires FreeChain(slots, head, list)
    requires i < |slots| <= NIL && slots[i].Free?
    ensures FreeLinks(slots[i := Free(head)], i) && !FreeListEnds(slots[i := Free(head)], i)
    ensures !FreeChain(slots[i := Free(head)], i, [i] + list)
  {
    var slots' := slots[i := Free(head)];
    var j :| 0 <= j < |list| && list[j] == i;
    ChainLinks(slots, head, list);
    assert FreeLinks(slots', i);
    CircleBack(slots, head, list, j, j);
    if FreeListEnds(slots', i) {
      var list': seq<Index> :| FreeWalk(slots', i, list');
      WalkIsFollow(slots', i, list', j + 1);
    }
  }

  lemma ChainLinks(slots: seq<Slot>, head: Index, list: seq<Index>)
    requires FreeChain(slots, head, list) && |slots| <= NIL
    ensures FreeLinks(slots, head)
  {
  }

  /** From a slot freed twice the links lead along the old list, back to it. */
  lemma {:induction false} CircleBack(slots: seq<Slot>, head: Index, list: seq<Index>, j: nat, k: nat)
    requires FreeChain(slots, head, list) && |slots| <= NIL && k <= j < |list|
    requires FreeLinks(slots[list[j] := Free(head)], list[j])
    ensures Follow(slots[list[j] := Free(head)], list[j], k + 1) == list[k]
  {
    if k > 0 {
      CircleBack(slots, head, list, j, k - 1);
    }
  }

  lemma InitialChain(slots: seq<Slot>, head: Index, list: seq<Index>)
    requires |list| == |slots| <= NIL
    requires head == if slots == [] then NIL else 0
    requires forall k :: 0 <= k < |slots| ==> list[k] == k
    requires forall k :: 0 <= k < |slots| ==> slots[k] == Free(if k + 1 < |slots| then k + 1 else NIL)
    ensures FreeChain(slots, head, list)
  {
    forall i | 0 <= i < |slots|
      ensures i in list
    {
      assert list[i] == i;
    }
  }

  /** A handle with the true number of times its slot had been freed when the
      handle was given out. */
  datatype Ticket = Ticket(index: Index, birth: nat) {
    function ToHandle(): Handle {
      Handle(index, Wrap(birth))
    }
  }

  /** Each generation counts the frees of its slot modulo 2^32, and a freed
      handle was given out before the last of them. */
  ghost predicate GenerationsOk(generation: seq<Generation>, frees: seq<nat>, retired: set<Ticket>) {
    && |generation| == |frees|
    && (forall i :: 0 <= i < |frees| ==> generation[i] == Wrap(frees[i]))
    && (forall t :: t in retired ==> t.index < |frees| && t.birth < frees[t.index])
  }

  lemma RetireKeepsGenerations(generation: seq<Generation>, frees: seq<nat>, retired: set<Ticket>, i: Index)
    requires GenerationsOk(generation, frees, retired)
    requires i < |frees|
    ensures GenerationsOk(generation[i := Advance(generation[i])], frees[i := frees[i] + 1],
                          retired + {Ticket(i, frees[i])})
  {
    NextGeneration(frees[i]);
  }

  lemma WrapsTogether(n: nat, m: nat)
    requires m <= n
    ensures Wrap(n) == Wrap(m) <==> (n - m) % TWO32 == 0
  {
  }

  class FixedPool {
    const slots: array<Slot>
    const generation: array<Generation>
    var freeHead: Index
    /** The slots of the free list, in order. */
    ghost var freeList: seq<Index>
    /** How often each slot has been freed, without wrap-around. */
    ghost var frees: seq<nat>
    /** Every handle that was given out and freed since. */
    ghost var retired: set<Ticket>

    ghost predicate Valid()
      reads this, slots, generation
    {
      && slots as object != generation
      && slots.Length == generation.Length
      && slots.Length <= NIL
      && FreeChain(slots[..], freeHead, freeList)
      && GenerationsOk(generation[..], frees, retired)
    }

    /** The handle names the order its slot holds now. */
    ghost predicate Live(h: Handle)
      reads slots, generation
    {
      h.index < slots.Length && h.index < generation.Length
      && slots[h.index].Used? && h.generation == generation[h.index]
    }

    constructor (capacity: Index)
      ensures Valid() && fresh(slots) && fresh(generation)
      ensures slots.Length == capacity
      ensures |freeList| == capacity && retired == {}
      ensures forall i :: 0 <= i < capacity ==> slots[i].Free?
    {
      slots := new Slot[capacity](_ => Free(NIL));
      generation := new Generation[capacity](_ => 0);
      freeHead := if capacity > 0 then 0 else NIL;
      freeList := seq<Index>(capacity, i requires 0 <= i < capacity => i);
      frees := seq(capacity, _ => 0);
      retired := {};
      new;
      var i := 0;
      while i + 1 < capacity
        modifies slots
        invariant 0 <= i <= if capacity == 0 then 0 else capacity - 1
        invariant forall k :: 0 <= k < i ==> slots[k] == Free(k + 1)
        invariant forall k :: i <= k < capacity ==> slots[k] == Free(NIL)
        invariant forall k :: 0 <= k < capacity ==> generation[k] == 0
      {
        slots[i] := Free(i + 1);
        i := i + 1;
      }
      assert GenerationsOk(generation[..], frees, retired);
      InitialChain(slots[..], freeHead, freeList);
    }

    /** A slot for the order, or the invalid handle when every slot is in use.
        Handles given out before stay live. */
    method Allocate(order: Order) returns (h: Handle)
      requires Valid()
      modifies this, slots
      ensures Valid()
      ensures h == INVALID <==> old(freeList) == []
      ensures h == INVALID <==> forall i :: 0 <= i < slots.Length ==> old(slots[i].Used?)
      ensures h == INVALID ==> slots[..] == old(slots[..]) && freeList == old(freeList)
      ensures h != INVALID ==>
                && Live(h) && old(slots[h.index].Free?)
                && slots[..] == old(slots[..])[h.index := Used(order)]
                && freeList == old(freeList)[1..]
      ensures forall g :: old(Live(g)) ==> Live(g) && g.index != h.index
      ensures retired == old(retired) && frees == old(frees)
    {
      if freeHead == NIL {
        return INVALID;
      }
      var index := freeHead;
      PopFree(slots[..], freeHead, freeList, order);
      freeHead := slots[index].next;
      freeList := freeList[1..];
      slots[index] := Used(order);
      h := Handle(index, generation[index]);
    }

    predicate Validate(h: Handle)
      requires slots.Length == generation.Length
      reads slots, generation
    {
      h != INVALID && h.index < slots.Length && h.generation == generation[h.index]
    }

    /** Frees the slot of a live handle and leaves every other live handle
        live. A handle that does not validate is ignored. A handle that
        validates for a free slot, which takes 2^32 frees of that slot, puts it
        into the free list twice, and the list then never ends. */
    method FreeSlot(h: Handle)
      requires Valid()
      modifies this, slots, generation
      ensures Valid() <==> old(Validate(h) ==> Live(h))
      ensures !old(Validate(h)) ==>
                slots[..] == old(slots[..]) && freeList == old(freeList) && generation[..] == old(generation[..])
                && retired == old(retired) && frees == old(frees)
      ensures old(Live(h)) ==>
                && slots[h.index].Free?
                && slots[..] == old(slots[..])[h.index := slots[h.index]]
                && generation[..] == old(generation[..])[h.index := Advance(h.generation)]
                && freeList == [h.index] + old(freeList)
                && Ticket(h.index, old(frees[h.index])).ToHandle() == h
                && retired == old(retired) + {Ticket(h.index, old(frees[h.index]))}
                && frees == old(frees)[h.index := old(frees[h.index]) + 1]
      ensures old(Validate(h)) && !old(Live(h)) ==>
                FreeLinks(slots[..], freeHead) && !FreeListEnds(slots[..], freeHead)
      ensures forall g :: old(Live(g)) && g != h ==> Live(g)
    {
      hide FreeChain;
      hide FreeLinks;
      if !Validate(h) {
        return;
      }
      if Live(h) {
        PushFree(slots[..], freeHead, freeList, h.index);
      } else {
        PushTwice(slots[..], freeHead, freeList, h.index);
      }
      RetireKeepsGenerations(generation[..], frees, retired, h.index);
      assert Ticket(h.index, frees[h.index]).ToHandle() == h;
      generation[h.index] := Advance(generation[h.index]);
      slots[h.index] := Free(freeHead);
      freeHead := h.index;
      freeList := [h.index] + freeList;
      retired := retired + {Ticket(h.index, frees[h.index])};
      frees := frees[h.index := frees[h.index] + 1];
    }

    /** A freed handle validates again exactly when its slot has been freed a
        multiple of 2^32 times since it was given out. */
    lemma StaleValidatesOnlyAfterWrap(t: Ticket)
      requires Valid()
      requires t in retired
      ensures Validate(t.ToHandle()) <==> (frees[t.index] - t.birth) % TWO32 == 0
      ensures frees[t.index] < TWO32 ==> !Validate(t.ToHandle())
    {
      WrapsTogether(frees[t.index], t.birth);
    }

    /** Walks the free list. The count is the length of the list if it ends, and
        one more than the capacity if it does not; whether the list holds every
        free slot does not matter. */
    method FreeSlots() returns (n: Index, ghost list: seq<Index>)
      requires slots.Length <= NIL && FreeLinks(slots[..], freeHead)
      requires slots.Length < NIL || FreeListEnds(slots[..], freeHead)
      ensures n <= slots.Length ==> FreeWalk(slots[..], freeHead, list) && |list| == n
      ensures n > slots.Length ==> n == slots.Length + 1 && !FreeListEnds(slots[..], freeHead)
    {
      hide FreeWalk;
      hide FreeLinks;
      hide FreeListEnds;
      n, list := 0, [];
      var i := freeHead;
      if FreeListEnds(slots[..], freeHead) {
        EndsInTime(slots[..], freeHead);
      }
      while i != NIL
        invariant n == |list| <= slots.Length
        invariant i == Follow(slots[..], freeHead, n)
        invariant forall k :: 0 <= k < n ==> list[k] == Follow(slots[..], freeHead, k) != NIL
        invariant FreeListEnds(slots[..], freeHead) ==> Follow(slots[..], freeHead, slots.Length) == NIL
        decreases slots.Length - n
      {
        n := n + 1;
        if n > slots.Length {
          return slots.Length + 1, list;
        }
        list := list + [i];
        i := slots[i].next;
      }
      FollowEnds(slots[..], freeHead, n, list);
    }
  }
}
