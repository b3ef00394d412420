/** One side of the book as an array of price levels sorted worst to best. */
module PriceLevels {
  import opened Types
  import opened Sequences

  /** A price and the two ends of the list of orders resting there. */
  datatype Level = Level(price: Price, head: Index, tail: Index)

  function EmptyLevel(price: Price): Level {
    Level(price, NIL, NIL)
  }

  /** Strictly improving from left to right, so no price occurs twice. */
  ghost predicate Ascending(side: Side, levels: seq<Level>) {
    forall i, j :: 0 <= i < j < |levels| ==> Better(side, levels[j].price, levels[i].price)
  }

  ghost predicate HasPrice(levels: seq<Level>, price: Price) {
    exists k :: 0 <= k < |levels| && levels[k].price == price
  }

  /** k is where the price sits or would have to be inserted. */
  ghost predicate IsLower(side: Side, levels: seq<Level>, price: Price, k: nat) {
    && k <= |levels|
    && (forall i :: 0 <= i < k ==> Better(side, price, levels[i].price))
    && (forall i :: k <= i < |levels| ==> !Better(side, price, levels[i].price))
  }

  lemma InsertKeepsAscending(side: Side, levels: seq<Level>, k: nat, level: Level)
    requires Ascending(side, levels)
    requires IsLower(side, levels, level.price, k)
    requires k < |levels| ==> levels[k].price != level.price
    ensures Ascending(side, InsertAt(levels, k, level))
    ensures !HasPrice(levels, level.price)
  {
    assert forall i :: k <= i < |levels| ==> Better(side, levels[i].price, level.price);
  }

  lemma RemoveKeepsAscending(side: Side, levels: seq<Level>, k: nat)
    requires Ascending(side, levels) && k < |levels|
    ensures Ascending(side, RemoveAt(levels, k))
  {
  }

  class Levels {
    /** Bids want the highest price, asks the lowest. */
    const side: Side
    const levels: array<Level>
    var count: nat

    ghost predicate Valid()
      reads this, levels
    {
      count <= levels.Length && Ascending(side, levels[..count])
    }

    /** The levels in use, worst first. */
    ghost function View(): seq<Level>
      requires count <= levels.Length
      reads this, levels
    {
      levels[..count]
    }

    constructor (side: Side, maxLevels: nat)
      ensures Valid() && fresh(levels)
      ensures this.side == side && levels.Length == maxLevels && View() == []
    {
      this.side := side;
      levels := new Level[maxLevels](_ => EmptyLevel(0));
      count := 0;
    }

    /** Binary search for the first level that is not worse than the price. */
    method Lower(price: Price) returns (k: nat)
      requires Valid()
      ensures IsLower(side, View(), price, k)
    {
      k := 0;
      var rest := count;
      while rest > 0
        invariant k + rest <= count
        invariant forall i :: 0 <= i < k ==> Better(side, price, levels[i].price)
        invariant forall i :: k + rest <= i < count ==> !Better(side, price, levels[i].price)
      {
        var half := rest / 2;
        var mid := k + half;
        assert forall i, j :: 0 <= i < j < count ==> Better(side, View()[j].price, View()[i].price);
        if Better(side, price, levels[mid].price) {
          k := mid + 1;
          rest := rest - half - 1;
        } else {
          rest := half;
        }
      }
    }

    method Find(price: Price) returns (found: Option<nat>)
      requires Valid()
      ensures found.Some? ==> found.value < count && levels[found.value].price == price
      ensures found.None? ==> !HasPrice(View(), price)
    {
      var k := Lower(price);
      if k != count && levels[k].price == price {
        return Some(k);
      }
      if k < count {
        InsertKeepsAscending(side, View(), k, EmptyLevel(price));
      }
      return None;
    }

    /** The position of the level at the price; an empty one is made if there
        is none, which moves every better level up by one. */
    method GetOrInsert(price: Price) returns (k: nat)
      requires Valid()
      requires HasPrice(View(), price) || count < levels.Length
      modifies this`count, levels
      ensures Valid()
      ensures k < count && levels[k].price == price
      ensures if old(HasPrice(View(), price)) then View() == old(View())
              else k <= |old(View())| && View() == InsertAt(old(View()), k, EmptyLevel(price))
    {
      ghost var before := View();
      k := Lower(price);
      if k != count && levels[k].price == price {
        return;
      }
      InsertKeepsAscending(side, before, k, EmptyLevel(price));
      var i := count;
      while i > k
        invariant k <= i <= count
        invariant levels[..i] == before[..i]
        invariant forall j :: i < j <= count ==> levels[j] == before[j - 1]
        modifies levels
      {
        levels[i] := levels[i - 1];
        i := i - 1;
      }
      count := count + 1;
      levels[k] := EmptyLevel(price);
      assert View() == InsertAt(before, k, EmptyLevel(price));
    }

    /** Removes the level at the price; better levels move down by one. */
    method Erase(price: Price) returns (ghost k: nat)
      requires Valid()
      requires HasPrice(View(), price)
      modifies this`count, levels
      ensures Valid()
      ensures k < |old(View())| && old(View())[k].price == price
      ensures View() == RemoveAt(old(View()), k)
    {
      hide Ascending;
      ghost var before := View();
      var at := Find(price);
      var i := at.value;
      k := i;
      RemoveKeepsAscending(side, before, k);
      while i + 1 < count
        invariant k <= i < count
        invariant levels[..k] == before[..k]
        invariant forall j :: k <= j < i ==> levels[j] == before[j + 1]
        invariant forall j :: i < j < count ==> levels[j] == before[j]
        modifies levels
      {
        levels[i] := levels[i + 1];
        i := i + 1;
      }
      count := count - 1;
      assert View() == RemoveAt(before, k);
    }

    method PopBest()
      requires Valid() && count > 0
      modifies this`count
      ensures Valid()
      ensures View() == old(View())[..|old(View())| - 1]
    {
      count := count - 1;
      assert View() == old(View())[..count];
    }
  }
}
