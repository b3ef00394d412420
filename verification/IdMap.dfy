/** Order id to handle: open addressing with linear probing, and deletion that
    shifts later entries back instead of leaving markers. */
module IdMap {
  import opened Types
  import opened Sequences
  import opened Pool

  datatype Entry = Entry(id: OrderId, handle: Handle) {
    predicate Occupied() {
      handle != INVALID
    }
  }

  // ---------- positions on the circle of n slots ----------

  function Next(i: nat, n: nat): (r: nat)
    requires i < n
    ensures r < n
  {
    if i + 1 == n then 0 else i + 1
  }

  /** How many steps lead from one slot to another. */
  function Distance(from: nat, to: nat, n: nat): (d: nat)
    requires from < n && to < n
    ensures d < n
  {
    if from <= to then to - from else to - from + n
  }

  /** The remainder is the one representative between 0 and n. */
  /** One slot on is one slot closer. */
  lemma CloserNext(i: nat, e: nat, n: nat)
    requires i < n && e < n && i != e
    ensures Distance(Next(i, n), e, n) == Distance(i, e, n) - 1
  {
  }

  lemma RemainderUnique(a: int, n: nat, r: nat, k: int)
    requires r < n && a == k * n + r
    ensures a % n == r
  {
    var d, m := a / n - k, a % n;
    assert d * n == r - m;
    assert d > 0 ==> d * n >= n;
    assert d < 0 ==> d * n <= -1 * n;
  }

  /** The source masks with n - 1 where n is a power of two; both functions are
      that remainder. */
  lemma CircleIsModulo(i: nat, j: nat, n: nat)
    requires i < n && j < n
    ensures Next(i, n) == (i + 1) % n
    ensures Distance(i, j, n) == (j - i) % n
  {
    RemainderUnique(i + 1, n, Next(i, n), if i + 1 == n then 1 else 0);
    RemainderUnique(j - i, n, Distance(i, j, n), if i <= j then 0 else -1);
  }

  /** s comes before i when walking from home to i. */
  predicate OnPath(home: nat, s: nat, i: nat) {
    if home <= i then home <= s < i else s >= home || s < i
  }

  /** The home slot of an id under an arbitrary hash. */
  function Home(hash: OrderId -> nat, n: nat, id: OrderId): (h: nat)
    requires n > 0
    ensures h < n
  {
    hash(id) % n
  }

  // ---------- the table ----------

  /** Every slot between an entry's home and the entry is taken. Slot skip is
      exempt as an entry. */
  ghost predicate Reachable(table: seq<Entry>, hash: OrderId -> nat, skip: int) {
    forall i, s :: 0 <= i < |table| && 0 <= s < |table| && i != skip && table[i].Occupied() ==>
                     OnPath(Home(hash, |table|, table[i].id), s, i) ==> table[s].Occupied()
  }

  /** Leaving out slot skip, the table stores exactly these pairs, each once. */
  ghost predicate Stores(table: seq<Entry>, contents: map<OrderId, Handle>, skip: int) {
    && (forall i :: 0 <= i < |table| && i != skip && table[i].Occupied() ==>
          table[i].id in contents && contents[table[i].id] == table[i].handle)
    && (forall i, j :: 0 <= i < j < |table| && i != skip && j != skip && table[i].Occupied() && table[j].Occupied() ==>
          table[i].id != table[j].id)
    && (forall id :: id in contents ==> StoredAt(table, id, skip))
  }

  ghost predicate StoredAt(table: seq<Entry>, id: OrderId, skip: int) {
    exists i :: 0 <= i < |table| && i != skip && table[i].Occupied() && table[i].id == id
  }

  ghost predicate TableOk(table: seq<Entry>, hash: OrderId -> nat, contents: map<OrderId, Handle>) {
    Reachable(table, hash, -1) && Stores(table, contents, -1)
  }

  /** Backward-shift deletion half way: the entry at hole is to go, and no entry
      scanned so far, that is from the hole up to i, needs the hole. */
  ghost predicate HoleOk(table: seq<Entry>, hash: OrderId -> nat, contents: map<OrderId, Handle>, hole: nat, i: nat) {
    && hole < |table| && i < |table| && hole != i
    && table[hole].Occupied()
    && Reachable(table, hash, hole)
    && Stores(table, contents, hole)
    && forall j :: 0 <= j < |table| && j != hole && table[j].Occupied() && OnPath(hole, j, i) ==>
          !OnPath(Home(hash, |table|, table[j].id), hole, j)
  }

  lemma EmptySlot(table: seq<Entry>, hash: OrderId -> nat, contents: map<OrderId, Handle>) returns (e: nat)
    requires TableOk(table, hash, contents)
    requires |contents| < |table|
    ensures e < |table| && !table[e].Occupied()
  {
    if forall i :: 0 <= i < |table| ==> table[i].Occupied() {
      var ids := seq(|table|, i requires 0 <= i < |table| => table[i].id);
      DistinctWithin(ids, contents.Keys);
      assert false;
    }
    e :| 0 <= e < |table| && !table[e].Occupied();
  }

  /** An id that probing has not met before an empty slot is not stored. */
  lemma AbsentAtEmpty(table: seq<Entry>, hash: OrderId -> nat, contents: map<OrderId, Handle>, id: OrderId, i: nat)
    requires TableOk(table, hash, contents)
    requires i < |table| && !table[i].Occupied()
    requires forall s :: 0 <= s < |table| && OnPath(Home(hash, |table|, id), s, i) ==> table[s].id != id
    ensures id !in contents
  {
    hide Home;
    assert id in contents ==> StoredAt(table, id, -1);
  }

  lemma StoredPair(table: seq<Entry>, hash: OrderId -> nat, contents: map<OrderId, Handle>, i: nat)
    requires TableOk(table, hash, contents)
    requires i < |table| && table[i].Occupied()
    ensures table[i].id in contents && contents[table[i].id] == table[i].handle
  {
  }

  lemma InsertKeepsTable(table: seq<Entry>, hash: OrderId -> nat, contents: map<OrderId, Handle>, i: nat, entry: Entry)
    requires TableOk(table, hash, contents)
    requires i < |table| && !table[i].Occupied()
    requires entry.Occupied() && entry.id !in contents
    requires forall s :: 0 <= s < |table| && OnPath(Home(hash, |table|, entry.id), s, i) ==> table[s].Occupied()
    ensures TableOk(table[i := entry], hash, contents[entry.id := entry.handle])
  {
    hide Home;
    var table' := table[i := entry];
    var contents' := contents[entry.id := entry.handle];
    forall id | id in contents'
      ensures StoredAt(table', id, -1)
    {
      if id == entry.id {
        assert table'[i].id == id;
      } else {
        assert StoredAt(table, id, -1);
        var j :| 0 <= j < |table| && table[j].Occupied() && table[j].id == id;
        assert table'[j].id == id;
      }
    }
  }

  lemma StartHole(table: seq<Entry>, hash: OrderId -> nat, contents: map<OrderId, Handle>, hole: nat)
    requires TableOk(table, hash, contents)
    requires hole < |table| && |table| > 1 && table[hole].Occupied()
    ensures HoleOk(table, hash, contents - {table[hole].id}, hole, Next(hole, |table|))
  {
    hide Home;
    var id := table[hole].id;
    forall other | other in contents - {id}
      ensures StoredAt(table, other, hole)
    {
      assert StoredAt(table, other, -1);
    }
  }

  /** Moving the entry at i into the hole makes i the hole. */
  lemma FillHole(table: seq<Entry>, hash: OrderId -> nat, contents: map<OrderId, Handle>, hole: nat, i: nat)
    requires HoleOk(table, hash, contents, hole, i)
    requires table[i].Occupied()
    requires Distance(Home(hash, |table|, table[i].id), i, |table|) >= Distance(hole, i, |table|)
    ensures HoleOk(table[hole := table[i]], hash, contents, i, Next(i, |table|))
  {
    hide Home;
    var table' := table[hole := table[i]];
    assert OnPath(Home(hash, |table|, table[i].id), hole, i);
    forall id | id in contents
      ensures StoredAt(table', id, i)
    {
      assert StoredAt(table, id, hole);
      var j :| 0 <= j < |table| && j != hole && table[j].Occupied() && table[j].id == id;
      assert table'[if j == i then hole else j].id == id;
    }
  }

  lemma SkipEntry(table: seq<Entry>, hash: OrderId -> nat, contents: map<OrderId, Handle>, hole: nat, i: nat)
    requires HoleOk(table, hash, contents, hole, i)
    requires table[i].Occupied()
    requires Distance(Home(hash, |table|, table[i].id), i, |table|) < Distance(hole, i, |table|)
    requires Next(i, |table|) != hole
    ensures HoleOk(table, hash, contents, hole, Next(i, |table|))
  {
    hide Home;
  }

  /** At an empty slot every remaining entry can do without the hole. */
  lemma CloseHole(table: seq<Entry>, hash: OrderId -> nat, contents: map<OrderId, Handle>, hole: nat, i: nat, entry: Entry)
    requires HoleOk(table, hash, contents, hole, i)
    requires !table[i].Occupied() && !entry.Occupied()
    ensures TableOk(table[hole := entry], hash, contents)
  {
    hide Home;
    var table' := table[hole := entry];
    forall j, s | 0 <= j < |table| && 0 <= s < |table| && table'[j].Occupied()
      && OnPath(Home(hash, |table|, table'[j].id), s, j)
      ensures table'[s].Occupied()
    {
      assert j != hole && table[j].Occupied();
      assert OnPath(Home(hash, |table|, table[j].id), i, j) ==> false;
    }
    forall id | id in contents
      ensures StoredAt(table', id, -1)
    {
      assert StoredAt(table, id, hole);
      var j :| 0 <= j < |table| && j != hole && table[j].Occupied() && table[j].id == id;
      assert table'[j].id == id;
    }
  }

  class Map {
    const table: array<Entry>
    const hash: OrderId -> nat
    var size: nat
    ghost var contents: map<OrderId, Handle>

    ghost predicate Valid()
      reads this, table
    {
      && 2 <= table.Length
      && size == |contents|
      && |contents| <= table.Length / 2
      && TableOk(table[..], hash, contents)
    }

    /** At least twice as many slots as entries, a power of two. */
    constructor (maxEntries: Index, hash: OrderId -> nat)
      ensures Valid() && fresh(table)
      ensures contents == map[]
      ensures maxEntries <= table.Length / 2
      ensures table.Length == 2 || table.Length / 2 < 2 * maxEntries
      ensures exists k: nat :: table.Length == Power2(k)
    {
      var slots := 2;
      ghost var k := 1;
      while slots < 2 * maxEntries
        invariant 2 <= slots == Power2(k)
        invariant slots == 2 || slots / 2 < 2 * maxEntries
      {
        slots := slots * 2;
        k := k + 1;
      }
      table := new Entry[slots](_ => Entry(0, INVALID));
      this.hash := hash;
      size := 0;
      contents := map[];
    }

    method Find(id: OrderId) returns (found: Option<Handle>)
      requires Valid()
      ensures found == if id in contents then Some(contents[id]) else None
    {
      hide TableOk;
      hide Home;
      ghost var home := Home(hash, table.Length, id);
      ghost var e := EmptySlot(table[..], hash, contents);
      var i: nat := Home(hash, table.Length, id);
      while true
        invariant i < table.Length
        invariant forall s :: 0 <= s < table.Length && OnPath(home, s, i) ==> table[s].id != id
        decreases Distance(i, e, table.Length)
      {
        if !table[i].Occupied() {
          AbsentAtEmpty(table[..], hash, contents, id, i);
          return None;
        }
        if table[i].id == id {
          StoredPair(table[..], hash, contents, i);
          return Some(table[i].handle);
        }
        i := Next(i, table.Length);
      }
    }

    method Insert(id: OrderId, handle: Handle)
      requires Valid()
      requires handle != INVALID
      requires id !in contents
      requires |contents| < table.Length / 2
      modifies this, table
      ensures Valid()
      ensures contents == old(contents)[id := handle]
    {
      hide TableOk;
      hide Home;
      ghost var home := Home(hash, table.Length, id);
      ghost var e := EmptySlot(table[..], hash, contents);
      var i: nat := Home(hash, table.Length, id);
      while table[i].Occupied()
        invariant i < table.Length
        invariant forall s :: 0 <= s < table.Length && OnPath(home, s, i) ==> table[s].Occupied()
        decreases Distance(i, e, table.Length)
      {
        i := Next(i, table.Length);
      }
      InsertKeepsTable(table[..], hash, contents, i, Entry(id, handle));
      table[i] := Entry(id, handle);
      contents := contents[id := handle];
      size := size + 1;
    }

    method Erase(id: OrderId) returns (present: bool)
      requires Valid()
      modifies this, table
      ensures Valid()
      ensures present == (id in old(contents))
      ensures contents == old(contents) - {id}
    {
      hide TableOk;
      hide Home;
      ghost var home := Home(hash, table.Length, id);
      ghost var e := EmptySlot(table[..], hash, contents);
      var hole: nat := Home(hash, table.Length, id);
      while true
        invariant hole < table.Length
        invariant forall s :: 0 <= s < table.Length && OnPath(home, s, hole) ==> table[s].id != id
        decreases Distance(hole, e, table.Length)
      {
        if !table[hole].Occupied() {
          AbsentAtEmpty(table[..], hash, contents, id, hole);
          return false;
        }
        if table[hole].id == id {
          StoredPair(table[..], hash, contents, hole);
          break;
        }
        hole := Next(hole, table.Length);
      }
      ShiftBack(hole, e);
      size := size - 1;
      present := true;
    }

    method ShiftBack(start: nat, ghost e: nat)
      requires start < table.Length && e < table.Length && 2 <= table.Length
      requires table[start].Occupied() && !table[e].Occupied()
      requires TableOk(table[..], hash, contents)
      modifies this`contents, table
      ensures TableOk(table[..], hash, contents)
      ensures contents == old(contents - {table[start].id})
    {
      hide TableOk;
      hide HoleOk;
      hide Home;
      hide Next;
      hide Distance;
      StartHole(table[..], hash, contents, start);
      contents := contents - {table[start].id};
      var hole: nat := start;
      CloserNext(hole, e, table.Length);
      var i: nat := Next(hole, table.Length);
      while table[i].Occupied()
        modifies table
        invariant hole < table.Length && i < table.Length && hole != e
        invariant HoleOk(table[..], hash, contents, hole, i)
        invariant !table[e].Occupied()
        invariant Distance(i, e, table.Length) < Distance(hole, e, table.Length)
        decreases Distance(i, e, table.Length)
      {
        CloserNext(i, e, table.Length);
        if Distance(Home(hash, table.Length, table[i].id), i, table.Length) >= Distance(hole, i, table.Length) {
          FillHole(table[..], hash, contents, hole, i);
          table[hole] := table[i];
          hole := i;
        } else {
          SkipEntry(table[..], hash, contents, hole, i);
        }
        i := Next(i, table.Length);
      }
      CloseHole(table[..], hash, contents, hole, i, Entry(table[hole].id, INVALID));
      table[hole] := Entry(table[hole].id, INVALID);
    }
  }
}
