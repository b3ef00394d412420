/** Writing records into a buffer through a moving position, and the reader that
    walks a journal held in memory. */
module JournalIo {
  import opened Types
  import opened Bytes
  import opened Crc
  import opened Journal

  const MAX_RECORD_SIZE: nat := 31

  // ---------- writing ----------

  /** Writes the n low bytes of v at a position of the buffer. */
  method PutAt(out: array<byte>, at: nat, v: nat, n: nat)
    requires at + n <= out.Length
    modifies out
    ensures out[..at + n] == old(out[..at]) + Put(v, n)
  {
    hide ToByte;
    var w := v;
    for i := 0 to n
      invariant out[..at] == old(out[..at])
      invariant out[at..at + i] + Put(w, n - i) == Put(v, n)
    {
      assert Put(w, n - i) == [ToByte(w % 256)] + Put(w / 256, n - i - 1);
      out[at + i] := ToByte(w % 256);
      w := w / 256;
      assert out[at..at + i + 1] == out[at..at + i] + [out[at + i]];
    }
    assert out[..at + n] == out[..at] + out[at..at + n];
  }

  method PutChecksum(out: array<byte>, at: nat, x: bv32)
    requires at + 4 <= out.Length
    modifies out
    ensures out[..at + 4] == old(out[..at]) + WordBytes(x)
  {
    hide Low8;
    hide High24;
    var w := x;
    out[at] := Low8(w);
    w := High24(w);
    out[at + 1] := Low8(w);
    w := High24(w);
    out[at + 2] := Low8(w);
    w := High24(w);
    out[at + 3] := Low8(w);
    assert out[..at + 4] == out[..at] + [out[at], out[at + 1], out[at + 2], out[at + 3]];
  }

  lemma Regroup<T>(before: seq<T>, a: seq<T>, b: seq<T>, c: seq<T>, d: seq<T>)
    ensures before + a + b + c + d == before + (a + b + c + d)
    ensures before + a + b + c == before + (a + b + c) && before + a + b == before + (a + b)
  {
  }

  /** Writes what follows the kind and the id; returns where it ends. */
  method PutFields(c: Command, out: array<byte>, at: nat) returns (p: nat)
    requires at + 18 <= out.Length
    modifies out
    ensures p == at + |Fields(c)| && out[..p] == old(out[..at]) + Fields(c)
  {
    hide Put;
    p := at;
    match c.kind {
      case Limit =>
        out[p] := SideByte(c.side);
        out[p + 1] := TifByte(c.tif);
        ghost var front := [SideByte(c.side), TifByte(c.tif)];
        assert out[..p + 2] == old(out[..at]) + front;
        p := p + 2;
        PutAt(out, p, Unsigned(c.price), 8);
        p := p + 8;
        PutAt(out, p, c.qty, 4);
        p := p + 4;
        PutAt(out, p, c.account, 4);
        p := p + 4;
        Regroup(old(out[..at]), front, Put(Unsigned(c.price), 8), Put(c.qty, 4), Put(c.account, 4));
      case Market =>
        out[p] := SideByte(c.side);
        assert out[..p + 1] == old(out[..at]) + [SideByte(c.side)];
        p := p + 1;
        PutAt(out, p, c.qty, 4);
        p := p + 4;
        PutAt(out, p, c.account, 4);
        p := p + 4;
        Regroup(old(out[..at]), [SideByte(c.side)], Put(c.qty, 4), Put(c.account, 4), []);
      case Cancel =>
      case Modify =>
        PutAt(out, p, Unsigned(c.price), 8);
        p := p + 8;
        PutAt(out, p, c.qty, 4);
        p := p + 4;
        Regroup(old(out[..at]), Put(Unsigned(c.price), 8), Put(c.qty, 4), [], []);
    }
  }

  /** Writes one record and returns its length. */
  method EncodeTo(c: Command, out: array<byte>, table: array<bv32>) returns (n: nat)
    requires out.Length >= MAX_RECORD_SIZE
    requires table.Length == 256 && table as object != out && TableOk(table[..])
    modifies out
    ensures n == |Encode(c)| <= MAX_RECORD_SIZE && out[..n] == Encode(c)
  {
    hide TableOk;
    hide Put;
    hide Checksum;
    hide KindByte;
    hide WordBytes;
    hide Fields;
    out[0] := KindByte(c.kind);
    assert out[..1] == [KindByte(c.kind)];
    PutAt(out, 1, c.id, 8);
    var p := PutFields(c, out, 9);
    assert out[..p] == Body(c);
    var crc := Crc32(table, out[..p]);
    PutChecksum(out, p, crc);
    n := p + 4;
  }

  /** Writes the header. */
  method EncodeHeaderTo(capacity: Index, out: array<byte>, table: array<bv32>)
    requires out.Length >= HEADER_SIZE
    requires table.Length == 256 && table as object != out && TableOk(table[..])
    modifies out
    ensures out[..HEADER_SIZE] == EncodeHeader(capacity)
  {
    hide TableOk;
    hide Put;
    hide Checksum;
    hide WordBytes;
    for i := 0 to 8
      invariant out[..i] == MAGIC[..i]
    {
      out[i] := MAGIC[i];
      assert MAGIC[..i + 1] == MAGIC[..i] + [MAGIC[i]];
    }
    PutAt(out, 8, VERSION, 4);
    PutAt(out, 12, capacity, 4);
    assert out[..16] == HeaderBody(capacity);
    var crc := Crc32(table, out[..16]);
    PutChecksum(out, 16, crc);
  }

  // ---------- reading ----------

  function Times(a: nat, b: nat): nat {
    a * b
  }

  lemma Distribute(scale: nat, b: nat, rest: nat)
    ensures Times(scale, b + 256 * rest) == Times(scale, b) + Times(scale * 256, rest)
  {
    assert scale * (b + 256 * rest) == scale * b + scale * (256 * rest);
    assert scale * (256 * rest) == (scale * 256) * rest;
  }

  lemma TimesRules(a: nat)
    ensures Times(1, a) == a && Times(a, 0) == 0
  {
  }

  /** The number in n bytes of the data, least significant first. */
  method GetAt(data: seq<byte>, at: nat, n: nat) returns (v: nat)
    requires at + n <= |data|
    ensures v == Get(data[at..at + n])
  {
    hide FromByte;
    hide Times;
    v := 0;
    var scale: nat := 1;
    TimesRules(Get(data[at..at + n]));
    for i := 0 to n
      invariant v + Times(scale, Get(data[at + i..at + n])) == Get(data[at..at + n])
    {
      var b := FromByte(data[at + i]);
      assert data[at + i..at + n][1..] == data[at + i + 1..at + n];
      Distribute(scale, b, Get(data[at + i + 1..at + n]));
      v := v + Times(scale, b);
      scale := scale * 256;
    }
    assert data[at + n..at + n] == [];
    TimesRules(scale);
  }

  method GetWordAt(data: seq<byte>, at: nat) returns (v: Qty)
    requires at + 4 <= |data|
    ensures v == GetWord(data[at..at + 4])
  {
    PutGet(data[at..at + 4]);
    Power256Values();
    v := GetAt(data, at, 4);
  }

  method GetLongAt(data: seq<byte>, at: nat) returns (v: OrderId)
    requires at + 8 <= |data|
    ensures v == GetLong(data[at..at + 8])
  {
    PutGet(data[at..at + 8]);
    Power256Values();
    v := GetAt(data, at, 8);
  }

  lemma SliceOfSlice<T>(s: seq<T>, at: nat, n: nat, i: nat, j: nat)
    requires at + n <= |s| && i <= j <= n
    ensures s[at..at + n][i..j] == s[at + i..at + j]
  {
    var a, b := s[at..at + n][i..j], s[at + i..at + j];
    forall k | 0 <= k < |b|
      ensures a[k] == b[k]
    {
      assert s[at..at + n][i + k] == s[at + i + k];
    }
  }

  /** Decodes the fields of a record whose kind and id are known. */
  method FieldsAt(data: seq<byte>, at: nat, kind: Kind, id: OrderId) returns (c: Option<Command>)
    requires at + PayloadSize(kind) <= |data| + 8
    ensures c == ReadFields(kind, id, data[at..at + (PayloadSize(kind) - 8)])
  {
    hide GetWord;
    hide GetLong;
    ghost var p := data[at..at + (PayloadSize(kind) - 8)];
    assert p != [] ==> p[0] == data[at];
    assert |p| > 1 ==> p[1] == data[at + 1];
    match kind {
      case Limit =>
        if data[at] > 1 || data[at + 1] > 2 {
          return None;
        }
        SliceOfSlice(data, at, 18, 2, 10);
        SliceOfSlice(data, at, 18, 10, 14);
        SliceOfSlice(data, at, 18, 14, 18);
        var price := GetLongAt(data, at + 2);
        var qty := GetWordAt(data, at + 10);
        var account := GetWordAt(data, at + 14);
        var side := if data[at] == 0 then Buy else Sell;
        var tif := if data[at + 1] == 0 then GTC else if data[at + 1] == 1 then IOC else FOK;
        return Some(Command(Limit, id, side, tif, Signed(price), qty, account));
      case Market =>
        if data[at] > 1 {
          return None;
        }
        SliceOfSlice(data, at, 9, 1, 5);
        SliceOfSlice(data, at, 9, 5, 9);
        var qty := GetWordAt(data, at + 1);
        var account := GetWordAt(data, at + 5);
        var side := if data[at] == 0 then Buy else Sell;
        return Some(Command(Market, id, side, GTC, 0, qty, account));
      case Cancel =>
        return Some(Command(Cancel, id, Buy, GTC, 0, 0, 0));
      case Modify =>
        SliceOfSlice(data, at, 12, 0, 8);
        SliceOfSlice(data, at, 12, 8, 12);
        var price := GetLongAt(data, at);
        var qty := GetWordAt(data, at + 8);
        return Some(Command(Modify, id, Buy, GTC, Signed(price), qty, 0));
    }
  }

  /** Walks a journal held in memory. */
  class Reader {
    const data: seq<byte>
    const table: array<bv32>
    var pos: nat
    var capacity: Index

    constructor (data: seq<byte>, table: array<bv32>)
      ensures this.data == data && this.table == table && pos == 0
    {
      this.data := data;
      this.table := table;
      pos := 0;
      capacity := 0;
    }

    method Open() returns (r: Opened)
      requires table.Length == 256 && TableOk(table[..])
      modifies this
      ensures r == Journal.Open(data)
      ensures r.Capacity? ==> pos == HEADER_SIZE <= |data| && capacity == r.capacity
    {
      hide Checksum;
      hide TableOk;
      hide WordOf;
      hide GetWord;
      if |data| < HEADER_SIZE {
        return NotAJournal(Truncated);
      }
      for i := 0 to 8
        invariant data[..i] == MAGIC[..i]
      {
        if data[i] != MAGIC[i] {
          return NotAJournal(BadField);
        }
        assert data[..i + 1] == data[..i] + [data[i]] && MAGIC[..i + 1] == MAGIC[..i] + [MAGIC[i]];
      }
      assert MAGIC[..8] == MAGIC;
      var crc := Crc32(table, data[..16]);
      if crc != WordOf(data[16..20]) {
        return NotAJournal(BadChecksum);
      }
      var version := GetWordAt(data, 8);
      if version != VERSION {
        return NotAJournal(BadField);
      }
      capacity := GetWordAt(data, 12);
      pos := HEADER_SIZE;
      return Capacity(capacity);
    }

    /** Reads the next record; moves on only if it is good. */
    method Next() returns (r: Read)
      requires table.Length == 256 && TableOk(table[..])
      requires pos <= |data|
      modifies this`pos
      ensures r == ReadRecord(data[old(pos)..])
      ensures pos == (if r.Good? then old(pos) + r.length else old(pos)) && pos <= |data|
    {
      hide Checksum;
      hide TableOk;
      hide WordOf;
      hide GetLong;
      hide ReadFields;
      ghost var d := data[pos..];
      if pos == |data| {
        return Stop(End);
      }
      var kind := KindOf(data[pos]);
      if kind.None? {
        return Stop(BadKind);
      }
      var body := PayloadSize(kind.value) + 1;
      if |data| - pos < body + 4 {
        return Stop(Truncated);
      }
      assert d[..body] == data[pos..pos + body] && d[body..body + 4] == data[pos + body..pos + body + 4];
      assert d[1..9] == data[pos + 1..pos + 9] && d[9..body] == data[pos + 9..pos + body];
      var crc := Crc32(table, data[pos..pos + body]);
      if crc != WordOf(data[pos + body..pos + body + 4]) {
        return Stop(BadChecksum);
      }
      var id := GetLongAt(data, pos + 1);
      var c := FieldsAt(data, pos + 9, kind.value, id);
      if c.None? {
        return Stop(BadField);
      }
      pos := pos + body + 4;
      return Good(c.value, body + 4);
    }
  }
}
