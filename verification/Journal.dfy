/** The command journal: the bytes of a header and of one record per command,
    and how they are read back. */
module Journal {
  import opened Types
  import opened Bytes
  import opened Crc

  // ---------- integers as bytes ----------

  function Power256(n: nat): nat {
    if n == 0 then 1 else 256 * Power256(n - 1)
  }

  /** The n low bytes of a number, least significant first. */
  function Put(v: nat, n: nat): (s: seq<byte>)
    ensures |s| == n
    decreases n
  {
    if n == 0 then [] else [ToByte(v % 256)] + Put(v / 256, n - 1)
  }

  function Get(s: seq<byte>): nat {
    if s == [] then 0 else FromByte(s[0]) + 256 * Get(s[1..])
  }

  lemma {:induction false} GetPut(v: nat, n: nat)
    requires v < Power256(n)
    ensures Get(Put(v, n)) == v
    decreases n
  {
    hide ToByte;
    hide FromByte;
    if n > 0 {
      GetPut(v / 256, n - 1);
      FromToByte(v % 256);
    }
  }

  lemma DigitsOf(low: int, rest: nat)
    requires 0 <= low < 256
    ensures (low + 256 * rest) % 256 == low && (low + 256 * rest) / 256 == rest
  {
  }

  lemma {:induction false} PutGet(s: seq<byte>)
    ensures Put(Get(s), |s|) == s
    ensures Get(s) < Power256(|s|)
  {
    hide ToByte;
    hide FromByte;
    if s != [] {
      PutGet(s[1..]);
      ToFromByte(s[0]);
      DigitsOf(FromByte(s[0]), Get(s[1..]));
    }
  }

  lemma Power256Values()
    ensures Power256(4) == TWO32 && Power256(8) == 0x1_0000_0000_0000_0000
  {
    assert Power256(2) == 0x1_0000;
    assert Power256(4) == 0x1_0000 * Power256(2);
    assert Power256(6) == 0x1_0000 * Power256(4);
    assert Power256(8) == 0x1_0000 * Power256(6);
  }

  /** A signed price as 64 bits, two's complement. */
  // ---------- words as numbers ----------

  /** The number with these binary digits, least significant first. */
  function Value(bits: seq<bool>): nat {
    if bits == [] then 0 else (if bits[0] then 1 else 0) + 2 * Value(bits[1..])
  }

  /** The number a 32-bit word stands for. */
  function Number(x: bv32): nat {
    Value(WordBits(x, 32))
  }

  /** A number moved up by n binary digits. */
  function MovedUp(v: nat, n: nat): nat {
    if n == 0 then v else 2 * MovedUp(v, n - 1)
  }

  lemma {:induction false} ValueAppend(a: seq<bool>, b: seq<bool>)
    ensures Value(a + b) == Value(a) + MovedUp(Value(b), |a|)
  {
    if a == [] {
      assert a + b == b;
    } else {
      ValueAppend(a[1..], b);
      assert (a + b)[1..] == a[1..] + b;
    }
  }

  lemma MovedUpByte(v: nat)
    ensures MovedUp(v, 8) == 256 * v
  {
    assert MovedUp(v, 1) == 2 * v;
    assert MovedUp(v, 3) == 8 * v;
    assert MovedUp(v, 5) == 32 * v;
    assert MovedUp(v, 7) == 128 * v;
  }

  lemma HalfByte(b: byte)
    ensures FromByte(b) == (if Odd(b as bv32) then 1 else 0) + 2 * FromByte(b >> 1)
    ensures Half(b as bv32) == (b >> 1) as bv32
  {
  }

  lemma {:induction false} ByteValue(b: byte, n: nat)
    requires FromByte(b) < Power2(n)
    ensures Value(WordBits(b as bv32, n)) == FromByte(b)
    decreases n
  {
    hide Half;
    hide Odd;
    hide FromByte;
    if n > 0 {
      HalfByte(b);
      ByteValue(b >> 1, n - 1);
      NextBit(b as bv32, n);
      var bits := WordBits(b as bv32, n);
      assert bits[1..] == WordBits((b >> 1) as bv32, n - 1);
    }
  }

  /** Reading bytes as a number reads their bits as a number. */
  lemma {:induction false} BytesValue(s: seq<byte>)
    ensures Value(Bits(s)) == Get(s)
  {
    hide WordBits;
    hide Value;
    if s == [] {
      NoValue();
    } else {
      assert Power2(8) == 256;
      ByteValue(s[0], 8);
      BytesValue(s[1..]);
      ValueAppend(WordBits(s[0] as bv32, 8), Bits(s[1..]));
      MovedUpByte(Value(Bits(s[1..])));
    }
  }

  lemma NoValue()
    ensures Value([]) == 0
  {
  }

  /** The bytes of a word are the little-endian bytes of its number, and reading
      them back as a word or as a number is the same. */
  lemma WordIsNumber(x: bv32, s: seq<byte>)
    ensures WordBytes(x) == Put(Number(x), 4)
    ensures |s| == 4 ==> Number(WordOf(s)) == Get(s)
  {
    hide WordBits;
    hide Value;
    hide WordOf;
    hide WordBytes;
    hide Get;
    hide Put;
    WordBytesBits(x);
    BytesValue(WordBytes(x));
    WordBytesSize(x);
    PutGet(WordBytes(x));
    if |s| == 4 {
      BytesRoundTrip(s);
      WordBytesBits(WordOf(s));
      BytesValue(s);
    }
  }

  function Unsigned(p: Price): OrderId {
    if p < 0 then p + 0x1_0000_0000_0000_0000 else p
  }

  function Signed(u: OrderId): Price {
    if u >= 0x8000_0000_0000_0000 then u - 0x1_0000_0000_0000_0000 else u
  }

  function GetWord(s: seq<byte>): Qty
    requires |s| == 4
  {
    PutGet(s);
    Power256Values();
    Get(s)
  }

  function GetLong(s: seq<byte>): OrderId
    requires |s| == 8
  {
    PutGet(s);
    Power256Values();
    Get(s)
  }

  lemma WordField(v: Qty)
    ensures GetWord(Put(v, 4)) == v
  {
    Power256Values();
    GetPut(v, 4);
  }

  lemma LongField(v: OrderId)
    ensures GetLong(Put(v, 8)) == v
  {
    Power256Values();
    GetPut(v, 8);
  }

  // ---------- one record ----------

  /** The command with every field its kind does not use at its default. */
  function Canonical(c: Command): Command {
    match c.kind
    case Limit => c
    case Market => c.(tif := GTC, price := 0)
    case Cancel => Command(Cancel, c.id, Buy, GTC, 0, 0, 0)
    case Modify => c.(side := Buy, tif := GTC, account := 0)
  }

  function KindByte(kind: Kind): byte {
    match kind
    case Limit => 1
    case Market => 2
    case Cancel => 3
    case Modify => 4
  }

  function KindOf(b: byte): Option<Kind> {
    if b == 1 then Some(Limit) else if b == 2 then Some(Market) else if b == 3 then Some(Cancel)
    else if b == 4 then Some(Modify) else None
  }

  function SideByte(side: Side): byte {
    if side.Buy? then 0 else 1
  }

  function TifByte(tif: TimeInForce): byte {
    if tif.GTC? then 0 else if tif.IOC? then 1 else 2
  }

  function PayloadSize(kind: Kind): nat {
    match kind
    case Limit => 26
    case Market => 17
    case Cancel => 8
    case Modify => 20
  }

  /** What follows the kind and the id. */
  function Fields(c: Command): (s: seq<byte>)
    ensures |s| + 8 == PayloadSize(c.kind)
  {
    match c.kind
    case Limit => [SideByte(c.side), TifByte(c.tif)] + Put(Unsigned(c.price), 8) + Put(c.qty, 4) + Put(c.account, 4)
    case Market => [SideByte(c.side)] + Put(c.qty, 4) + Put(c.account, 4)
    case Cancel => []
    case Modify => Put(Unsigned(c.price), 8) + Put(c.qty, 4)
  }

  function Body(c: Command): (s: seq<byte>)
    ensures |s| == PayloadSize(c.kind) + 1
  {
    [KindByte(c.kind)] + Put(c.id, 8) + Fields(c)
  }

  function Encode(c: Command): (s: seq<byte>)
    ensures |s| == PayloadSize(c.kind) + 5
  {
    Body(c) + WordBytes(Checksum(Body(c)))
  }

  /** Reads the fields behind the kind and the id. */
  function ReadFields(kind: Kind, id: OrderId, p: seq<byte>): Option<Command>
    requires |p| + 8 == PayloadSize(kind)
  {
    match kind
    case Limit =>
      if p[0] > 1 || p[1] > 2 then None
      else Some(Command(Limit, id, if p[0] == 0 then Buy else Sell,
                        if p[1] == 0 then GTC else if p[1] == 1 then IOC else FOK,
                        Signed(GetLong(p[2..10])), GetWord(p[10..14]), GetWord(p[14..18])))
    case Market =>
      if p[0] > 1 then None
      else Some(Command(Market, id, if p[0] == 0 then Buy else Sell, GTC, 0, GetWord(p[1..5]), GetWord(p[5..9])))
    case Cancel => Some(Command(Cancel, id, Buy, GTC, 0, 0, 0))
    case Modify => Some(Command(Modify, id, Buy, GTC, Signed(GetLong(p[0..8])), GetWord(p[8..12]), 0))
  }

  lemma ReadWrittenFields(c: Command)
    ensures ReadFields(c.kind, c.id, Fields(c)) == Some(Canonical(c))
  {
    hide Put;
    hide GetWord;
    hide GetLong;
    WordField(c.qty);
    WordField(c.account);
    LongField(Unsigned(c.price));
    var p := Fields(c);
    match c.kind
    case Limit =>
      assert p[2..10] == Put(Unsigned(c.price), 8) && p[10..14] == Put(c.qty, 4) && p[14..18] == Put(c.account, 4);
    case Market =>
      assert p[1..5] == Put(c.qty, 4) && p[5..9] == Put(c.account, 4);
    case Cancel =>
    case Modify =>
      assert p[0..8] == Put(Unsigned(c.price), 8) && p[8..12] == Put(c.qty, 4);
  }

  lemma WordBack(s: seq<byte>)
    requires |s| == 4
    ensures Put(GetWord(s), 4) == s
  {
    PutGet(s);
  }

  lemma LongBack(s: seq<byte>)
    requires |s| == 8
    ensures Put(GetLong(s), 8) == s
    ensures Put(Unsigned(Signed(GetLong(s))), 8) == s
  {
    hide Put;
    PutGet(s);
    TwosComplement(GetLong(s));
  }

  lemma TwosComplement(u: OrderId)
    ensures Unsigned(Signed(u)) == u
  {
  }

  lemma WriteReadFields(kind: Kind, id: OrderId, p: seq<byte>)
    requires |p| + 8 == PayloadSize(kind) && ReadFields(kind, id, p).Some?
    ensures
      var c := ReadFields(kind, id, p).value;
      c.kind == kind && c.id == id && Fields(c) == p && Canonical(c) == c
  {
    hide Put;
    hide GetWord;
    hide GetLong;
    match kind
    case Limit =>
      LongBack(p[2..10]);
      WordBack(p[10..14]);
      WordBack(p[14..18]);
    case Market =>
      WordBack(p[1..5]);
      WordBack(p[5..9]);
    case Cancel =>
    case Modify =>
      LongBack(p[0..8]);
      WordBack(p[8..12]);
  }

  // ---------- reading one record ----------

  datatype Status = End | Truncated | BadChecksum | BadKind | BadField

  datatype Read = Good(command: Command, length: nat) | Stop(status: Status)

  /** Reads the record at the front of the data. */
  function ReadRecord(d: seq<byte>): Read {
    if d == [] then Stop(End)
    else if KindOf(d[0]).None? then Stop(BadKind)
    else
      var kind := KindOf(d[0]).value;
      var body := PayloadSize(kind) + 1;
      if |d| < body + 4 then Stop(Truncated)
      else if Checksum(d[..body]) != WordOf(d[body..body + 4]) then Stop(BadChecksum)
      else
        var c := ReadFields(kind, GetLong(d[1..9]), d[9..body]);
        if c.None? then Stop(BadField) else Good(c.value, body + 4)
  }

  lemma KindRoundTrip(kind: Kind, b: byte)
    ensures KindOf(KindByte(kind)) == Some(kind)
    ensures KindOf(b).Some? ==> KindByte(KindOf(b).value) == b
  {
  }

  /** A record that was written reads back as its command. */
  lemma ReadWrittenRecord(c: Command, rest: seq<byte>)
    ensures ReadRecord(Encode(c) + rest) == Good(Canonical(c), |Encode(c)|)
  {
    hide Put;
    hide Checksum;
    hide WordOf;
    hide WordBytes;
    hide ReadFields;
    hide GetLong;
    hide Fields;
    hide KindOf;
    hide KindByte;
    var d := Encode(c) + rest;
    var body := Body(c);
    KindRoundTrip(c.kind, 0);
    assert d[..|body|] == body && d[|body|..|body| + 4] == WordBytes(Checksum(body)) by {
      WordBytesSize(Checksum(body));
    }
    WordRoundTrip(Checksum(body));
    assert body[1..9] == Put(c.id, 8) && body[9..] == Fields(c);
    assert d[1..9] == d[..|body|][1..9] && d[9..|body|] == d[..|body|][9..];
    LongField(c.id);
    ReadWrittenFields(c);
  }

  lemma WordBytesSize(x: bv32)
    ensures |WordBytes(x)| == 4
  {
  }

  /** A record that reads back is, byte for byte, the encoding of the command it
      reads as. */
  lemma WriteReadRecord(d: seq<byte>)
    requires ReadRecord(d).Good?
    ensures
      var Good(c, n) := ReadRecord(d);
      n == |Encode(c)| <= |d| && Encode(c) == d[..n] && Canonical(c) == c
  {
    hide Put;
    hide Checksum;
    hide WordOf;
    hide WordBytes;
    hide ReadFields;
    hide GetLong;
    hide Fields;
    hide KindOf;
    hide KindByte;
    var Good(c, n) := ReadRecord(d);
    var kind := KindOf(d[0]).value;
    var body := PayloadSize(kind) + 1;
    KindRoundTrip(kind, d[0]);
    WriteReadFields(kind, GetLong(d[1..9]), d[9..body]);
    LongBack(d[1..9]);
    BytesRoundTrip(d[body..body + 4]);
    assert Body(c) == d[..body];
    assert d[..n] == d[..body] + d[body..body + 4];
  }

  /** Reading succeeds exactly on what was written: this is both that every
      record reads back and that no two records look alike. */
  lemma ReadsExactlyEncodings(d: seq<byte>, c: Command, n: nat)
    ensures ReadRecord(d) == Good(c, n) <==> Canonical(c) == c && n == |Encode(c)| && Encode(c) <= d
  {
    hide ReadRecord;
    hide Encode;
    hide Canonical;
    if ReadRecord(d) == Good(c, n) {
      WriteReadRecord(d);
    } else if Encode(c) <= d {
      assert d == Encode(c) + d[|Encode(c)|..];
      ReadWrittenRecord(c, d[|Encode(c)|..]);
    }
  }

  /** A record cut short, but not to nothing, is reported as truncated. */
  lemma ReadCutRecord(c: Command, n: nat)
    requires 0 < n < |Encode(c)|
    ensures ReadRecord(Encode(c)[..n]) == Stop(Truncated)
  {
    hide Checksum;
    hide Put;
    hide KindOf;
    hide KindByte;
    hide WordBytes;
    KindRoundTrip(c.kind, 0);
    assert Encode(c)[..n][0] == KindByte(c.kind);
  }

  // ---------- the whole journal ----------

  function CanonicalAll(cs: seq<Command>): (r: seq<Command>)
    ensures |r| == |cs|
  {
    if cs == [] then [] else [Canonical(cs[0])] + CanonicalAll(cs[1..])
  }

  /** The records of a list of commands, one behind the other. */
  function Records(cs: seq<Command>): seq<byte> {
    if cs == [] then [] else Encode(cs[0]) + Records(cs[1..])
  }

  /** What a reader returns: the commands, why it stopped, and where the good
      part ends. */
  datatype Reading = Reading(commands: seq<Command>, status: Status, valid: nat)

  function ReadAll(d: seq<byte>): (r: Reading)
    ensures r.valid <= |d|
    decreases |d|
  {
    match ReadRecord(d)
    case Stop(status) => Reading([], status, 0)
    case Good(c, n) =>
      assert 0 < n <= |d|;
      var rest := ReadAll(d[n..]);
      Reading([c] + rest.commands, rest.status, n + rest.valid)
  }

  /** How many whole records lie within the first n bytes. */
  function Whole(cs: seq<Command>, n: nat): (k: nat)
    ensures k <= |cs|
    decreases |cs|
  {
    if cs == [] || n < |Encode(cs[0])| then 0 else 1 + Whole(cs[1..], n - |Encode(cs[0])|)
  }

  /** At whatever byte the records are cut, reading returns exactly the whole
      ones, and tells whether the cut fell between two records. */
  lemma {:induction false} ReadCutRecords(cs: seq<Command>, n: nat)
    requires n <= |Records(cs)|
    ensures
      var k := Whole(cs, n);
      && |Records(cs[..k])| <= n
      && (k < |cs| ==> n < |Records(cs[..k + 1])|)
      && ReadAll(Records(cs)[..n])
         == Reading(CanonicalAll(cs[..k]), if |Records(cs[..k])| == n then End else Truncated, |Records(cs[..k])|)
    decreases |cs|
  {
    hide Encode;
    hide ReadRecord;
    hide Canonical;
    if n == 0 {
      ReadNothing();
      assert Records(cs)[..0] == [];
      assert cs[..0] == [];
      if cs != [] {
        EncodeNotEmpty(cs[0]);
        assert cs[..1] == [cs[0]] && cs[..1][1..] == [];
      }
    } else {
      var first := Encode(cs[0]);
      if n < |first| {
        ReadCutRecord(cs[0], n);
        assert Records(cs)[..n] == first[..n];
        assert cs[..0] == [];
        assert cs[..1] == [cs[0]] && cs[..1][1..] == [];
      } else {
        var rest := Records(cs[1..])[..n - |first|];
        assert Records(cs)[..n] == first + rest;
        ReadWrittenRecord(cs[0], rest);
        assert (first + rest)[|first|..] == rest;
        ReadCutRecords(cs[1..], n - |first|);
        var k := Whole(cs, n);
        assert cs[..k][1..] == cs[1..][..k - 1];
        if k < |cs| {
          assert cs[..k + 1][1..] == cs[1..][..k];
        }
      }
    }
  }

  lemma ReadNothing()
    ensures ReadRecord([]) == Stop(End)
  {
  }

  lemma EncodeNotEmpty(c: Command)
    ensures |Encode(c)| > 0
  {
  }

  /** Of arbitrary bytes, the good part is byte for byte what the commands read
      from it would be written as. */
  lemma {:induction false} GoodPartIsRecords(d: seq<byte>)
    ensures
      var r := ReadAll(d);
      d[..r.valid] == Records(r.commands) && CanonicalAll(r.commands) == r.commands
      && ReadRecord(d[r.valid..]) == Stop(r.status)
    decreases |d|
  {
    hide Encode;
    hide Canonical;
    hide ReadRecord;
    match ReadRecord(d)
    case Stop(_) =>
      assert d[0..] == d;
    case Good(c, n) =>
      WriteReadRecord(d);
      var r, rest := ReadAll(d), ReadAll(d[n..]);
      GoodPartIsRecords(d[n..]);
      assert r.commands[1..] == rest.commands;
      assert d[..r.valid] == d[..n] + d[n..][..rest.valid];
      assert d[r.valid..] == d[n..][rest.valid..];
  }

  lemma {:induction false} WholeIsAll(cs: seq<Command>)
    ensures Whole(cs, |Records(cs)|) == |cs|
  {
    hide Encode;
    if cs != [] {
      WholeIsAll(cs[1..]);
    }
  }

  /** Cutting a damaged journal where its good part ends and reading again gives
      the same commands and now a clean end. */
  lemma CutAtValidReadsClean(d: seq<byte>)
    ensures
      var r := ReadAll(d);
      ReadAll(d[..r.valid]) == Reading(r.commands, End, r.valid)
  {
    hide ReadAll;
    hide Records;
    hide Whole;
    var r := ReadAll(d);
    var cs := r.commands;
    GoodPartIsRecords(d);
    ReadCutRecords(cs, |Records(cs)|);
    WholeIsAll(cs);
    assert cs[..|cs|] == cs;
    assert Records(cs)[..|Records(cs)|] == Records(cs);
  }

  // ---------- damage ----------

  /** A good record, damaged behind its kind byte in at most 32 consecutive bits,
      wherever they fall in the payload and the checksum, is not read back: the
      reader reports its checksum. */
  lemma DamagedRecord(d: seq<byte>, e: seq<byte>, p: nat)
    requires ReadRecord(d).Good?
    requires
      var n := ReadRecord(d).length;
      |e| >= n && |d| >= n && e[..n] != d[..n] && e[0] == d[0] && DifferWithin32(Bits(d[..n]), Bits(e[..n]), p)
    ensures ReadRecord(e) == Stop(BadChecksum)
  {
    hide Checksum;
    hide WordOf;
    hide Bits;
    hide ReadFields;
    var n := ReadRecord(d).length;
    var a, b := d[..n], e[..n];
    assert a[..n - 4] == d[..n - 4] && a[n - 4..] == d[n - 4..n];
    assert b[..n - 4] == e[..n - 4] && b[n - 4..] == e[n - 4..n];
    if WordOf(b[n - 4..]) == Checksum(b[..n - 4]) {
      BurstIsDetected(a, b, n - 4, p);
    }
  }

  /** Damage to one record of a journal stops the reader right in front of that
      record: every command before it is read and none from it on. */
  lemma {:induction false} DamageStopsThere(cs: seq<Command>, rest: seq<byte>)
    requires ReadRecord(rest).Stop?
    ensures ReadAll(Records(cs) + rest) == Reading(CanonicalAll(cs), ReadRecord(rest).status, |Records(cs)|)
    decreases |cs|
  {
    hide Encode;
    hide Canonical;
    hide ReadRecord;
    if cs == [] {
      assert Records(cs) + rest == rest;
    } else {
      var first, tail := Encode(cs[0]), Records(cs[1..]) + rest;
      assert Records(cs) + rest == first + tail;
      ReadWrittenRecord(cs[0], tail);
      assert (first + tail)[|first|..] == tail;
      DamageStopsThere(cs[1..], rest);
    }
  }

  // ---------- the header ----------

  const HEADER_SIZE: nat := 20

  const MAGIC: seq<byte> := [0x4C, 0x4F, 0x4D, 0x45, 0x4A, 0x52, 0x4E, 0x4C]

  const VERSION: Qty := 1

  function HeaderBody(capacity: Index): (s: seq<byte>)
    ensures |s| == 16
  {
    MAGIC + Put(VERSION, 4) + Put(capacity, 4)
  }

  function EncodeHeader(capacity: Index): (s: seq<byte>)
    ensures |s| == HEADER_SIZE
  {
    HeaderBody(capacity) + WordBytes(Checksum(HeaderBody(capacity)))
  }

  datatype Opened = Capacity(capacity: Index) | NotAJournal(status: Status)

  function Open(d: seq<byte>): Opened {
    if |d| < HEADER_SIZE then NotAJournal(Truncated)
    else if d[..8] != MAGIC then NotAJournal(BadField)
    else if Checksum(d[..16]) != WordOf(d[16..20]) then NotAJournal(BadChecksum)
    else if GetWord(d[8..12]) != VERSION then NotAJournal(BadField)
    else Capacity(GetWord(d[12..16]))
  }

  /** The header carries the capacity, and only a header that was written so
      opens. */
  lemma OpensExactlyHeaders(d: seq<byte>, capacity: Index)
    ensures Open(d) == Capacity(capacity) <==> EncodeHeader(capacity) <= d
  {
    hide Checksum;
    hide WordOf;
    hide WordBytes;
    hide Put;
    hide GetWord;
    if EncodeHeader(capacity) <= d {
      var h := HeaderBody(capacity);
      WordBytesSize(Checksum(h));
      WordRoundTrip(Checksum(h));
      var whole := h + WordBytes(Checksum(h));
      assert d[..20] == whole;
      assert d[..16] == d[..20][..16] == whole[..16] == h;
      assert d[16..20] == d[..20][16..] == whole[16..] == WordBytes(Checksum(h));
      assert d[..8] == d[..16][..8] && d[8..12] == d[..16][8..12] && d[12..16] == d[..16][12..];
      WordField(VERSION);
      WordField(capacity);
    }
    if Open(d) == Capacity(capacity) {
      WordBack(d[8..12]);
      WordBack(d[12..16]);
      BytesRoundTrip(d[16..20]);
      assert d[..16] == HeaderBody(capacity);
      assert d[..20] == d[..16] + d[16..20];
    }
  }

  /** A good header, damaged in at most 32 consecutive bits, does not open. */
  lemma DamagedHeader(d: seq<byte>, e: seq<byte>, p: nat)
    requires Open(d).Capacity?
    requires
      && |d| >= HEADER_SIZE && |e| >= HEADER_SIZE && e[..HEADER_SIZE] != d[..HEADER_SIZE]
      && DifferWithin32(Bits(d[..HEADER_SIZE]), Bits(e[..HEADER_SIZE]), p)
    ensures Open(e) == NotAJournal(if e[..8] == MAGIC then BadChecksum else BadField)
  {
    hide Checksum;
    hide WordOf;
    hide Bits;
    var a, b := d[..HEADER_SIZE], e[..HEADER_SIZE];
    assert a[..16] == d[..16] && a[16..] == d[16..20];
    assert b[..16] == e[..16] && b[16..] == e[16..20];
    if WordOf(b[16..]) == Checksum(b[..16]) {
      BurstIsDetected(a, b, 16, p);
    }
  }

  /** The journal of a book of some capacity. */
  function Journal(capacity: Index, cs: seq<Command>): seq<byte> {
    EncodeHeader(capacity) + Records(cs)
  }
}
