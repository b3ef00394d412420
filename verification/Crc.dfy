/** CRC-32: the table-driven form, the bit-at-a-time form, and the damage the
    checksum is bound to notice. */
module Crc {

  import opened Bytes

  const POLYNOMIAL: bv32 := 0xEDB88320
  const ONES: bv32 := 0xFFFF_FFFF

  // ---------- words of 32 bits ----------

  function Xor(x: bv32, y: bv32): bv32 {
    x ^ y
  }

  function Half(x: bv32): bv32 {
    x >> 1
  }

  predicate Odd(x: bv32) {
    x & 1 == 1
  }

  function Bit(b: bool): bv32 {
    if b then 1 else 0
  }

  lemma XorHalf(x: bv32, y: bv32)
    ensures Half(Xor(x, y)) == Xor(Half(x), Half(y))
  {
  }

  lemma XorOdd(x: bv32, y: bv32)
    ensures Odd(Xor(x, y)) == (Odd(x) != Odd(y))
  {
    assert (x ^ y) & 1 == (x & 1) ^ (y & 1);
    assert x & 1 == 0 || x & 1 == 1;
    assert y & 1 == 0 || y & 1 == 1;
  }

  lemma XorTwice(p: bv32, a: bv32, b: bv32)
    ensures Xor(Xor(p, a), Xor(p, b)) == Xor(a, b)
  {
    assert (p ^ a) ^ (p ^ b) == a ^ b;
  }

  lemma XorLeft(p: bv32, a: bv32, b: bv32)
    ensures Xor(Xor(p, a), b) == Xor(p, Xor(a, b))
  {
    assert (p ^ a) ^ b == p ^ (a ^ b);
  }

  lemma XorRight(p: bv32, a: bv32, b: bv32)
    ensures Xor(a, Xor(p, b)) == Xor(p, Xor(a, b))
  {
    assert a ^ (p ^ b) == p ^ (a ^ b);
  }

  lemma XorSplit(p: bv32, a: bv32, b: bv32)
    ensures Xor(Xor(a, p), Xor(b, p)) == Xor(a, b)
  {
    assert (a ^ p) ^ (b ^ p) == a ^ b;
  }

  lemma XorBack(p: bv32, a: bv32)
    ensures Xor(Xor(a, p), p) == a
  {
    assert (a ^ p) ^ p == a;
  }

  lemma XorZero(a: bv32)
    ensures Xor(a, 0) == a
  {
  }

  // ---------- one bit ----------

  /** What one bit of the message does to the register. */
  function Shift(c: bv32): bv32 {
    if Odd(c) then Xor(POLYNOMIAL, Half(c)) else Half(c)
  }

  function Steps(c: bv32, n: nat): bv32
    decreases n
  {
    if n == 0 then c else Steps(Shift(c), n - 1)
  }

  lemma ShiftIsLinear(x: bv32, y: bv32)
    ensures Shift(Xor(x, y)) == Xor(Shift(x), Shift(y))
  {
    hide Xor;
    hide Half;
    hide Odd;
    XorHalf(x, y);
    XorOdd(x, y);
    XorTwice(POLYNOMIAL, Half(x), Half(y));
    XorLeft(POLYNOMIAL, Half(x), Half(y));
    XorRight(POLYNOMIAL, Half(x), Half(y));
  }

  lemma ShiftIsInjective(x: bv32, y: bv32)
    requires Shift(x) == Shift(y)
    ensures x == y
  {
  }

  /** Without its low bit a word is only halved. */
  lemma ShiftEven(x: bv32)
    ensures Shift(Xor(x, Bit(Odd(x)))) == Half(x)
  {
    assert x & 1 == 0 || x & 1 == 1;
    assert Bit(Odd(x)) == x & 1;
    assert (x ^ (x & 1)) & 1 == 0;
    assert (x ^ (x & 1)) >> 1 == x >> 1;
  }

  lemma {:induction false} StepsIsLinear(x: bv32, y: bv32, n: nat)
    ensures Steps(Xor(x, y), n) == Xor(Steps(x, n), Steps(y, n))
    decreases n
  {
    hide Xor;
    hide Shift;
    if n > 0 {
      ShiftIsLinear(x, y);
      StepsIsLinear(Shift(x), Shift(y), n - 1);
    }
  }

  lemma {:induction false} StepsIsInjective(x: bv32, y: bv32, n: nat)
    requires Steps(x, n) == Steps(y, n)
    ensures x == y
    decreases n
  {
    hide Shift;
    if n > 0 {
      StepsIsInjective(Shift(x), Shift(y), n - 1);
      ShiftIsInjective(x, y);
    }
  }

  // ---------- the definition, bit by bit ----------

  function Absorb(c: bv32, bit: bool): bv32 {
    Shift(Xor(c, Bit(bit)))
  }

  /** The register after a message, its bits taken one at a time. */
  function Register(c: bv32, bits: seq<bool>): bv32
    decreases |bits|
  {
    if bits == [] then c else Register(Absorb(c, bits[0]), bits[1..])
  }

  /** The low n bits of a word, least significant first. */
  function WordBits(x: bv32, n: nat): (bits: seq<bool>)
    ensures |bits| == n
    decreases n
  {
    if n == 0 then [] else [Odd(x)] + WordBits(Half(x), n - 1)
  }

  /** A word without its low n bits. */
  function Drop(x: bv32, n: nat): bv32
    decreases n
  {
    if n == 0 then x else Drop(Half(x), n - 1)
  }

  function Bits(data: seq<byte>): (bits: seq<bool>)
    ensures |bits| == 8 * |data|
  {
    if data == [] then [] else WordBits(data[0] as bv32, 8) + Bits(data[1..])
  }

  /** CRC-32 of a byte string, each byte least significant bit first. */
  function Checksum(data: seq<byte>): bv32 {
    Xor(Register(ONES, Bits(data)), ONES)
  }

  lemma {:induction false} RegisterAppend(c: bv32, a: seq<bool>, b: seq<bool>)
    ensures Register(c, a + b) == Register(Register(c, a), b)
    decreases |a|
  {
    hide Absorb;
    if a == [] {
      assert a + b == b;
    } else {
      assert (a + b)[1..] == a[1..] + b;
      RegisterAppend(Absorb(c, a[0]), a[1..], b);
    }
  }

  lemma {:induction false} RegisterIsInjective(c: bv32, d: bv32, bits: seq<bool>)
    requires Register(c, bits) == Register(d, bits)
    ensures c == d
    decreases |bits|
  {
    hide Xor;
    hide Shift;
    hide Bit;
    if bits != [] {
      RegisterIsInjective(Absorb(c, bits[0]), Absorb(d, bits[0]), bits[1..]);
      var e := Bit(bits[0]);
      ShiftIsInjective(Xor(c, e), Xor(d, e));
      XorBack(e, c);
      XorBack(e, d);
    }
  }

  /** Taking the bits of a word one at a time is the same as taking them all at
      once and then stepping. */
  lemma {:induction false} RegisterIsSteps(c: bv32, x: bv32, n: nat)
    ensures Steps(Xor(c, x), n) == Xor(Register(c, WordBits(x, n)), Drop(x, n))
    decreases n
  {
    hide Xor;
    hide Shift;
    hide Bit;
    hide Odd;
    hide Half;
    if n > 0 {
      var e := Bit(Odd(x));
      XorSplit(e, c, x);
      ShiftIsLinear(Xor(c, e), Xor(x, e));
      ShiftEven(x);
      RegisterIsSteps(Absorb(c, Odd(x)), Half(x), n - 1);
      assert WordBits(x, n)[1..] == WordBits(Half(x), n - 1);
    }
  }

  // ---------- the table ----------

  /** Entry i is what eight steps make of i. */
  ghost predicate TableOk(table: seq<bv32>) {
    |table| == 256 && forall i :: 0 <= i < 256 ==> table[i] == Steps((i as bv8) as bv32, 8)
  }

  function Low8(x: bv32): bv8 {
    (x & 0xFF) as bv8
  }

  function High24(x: bv32): bv32 {
    x >> 8
  }

  lemma Halves(x: bv32)
    ensures Half(x) == x >> 1 && Half(x >> 1) == x >> 2 && Half(x >> 2) == x >> 3 && Half(x >> 3) == x >> 4
    ensures Half(x >> 4) == x >> 5 && Half(x >> 5) == x >> 6 && Half(x >> 6) == x >> 7 && Half(x >> 7) == High24(x)
  {
  }

  lemma DropByte(x: bv32)
    ensures Drop(x, 8) == High24(x)
  {
    hide Half;
    hide High24;
    Halves(x);
    assert Drop(x, 8) == Drop(Half(x), 7) == Drop(Half(x >> 1), 6) == Drop(Half(x >> 2), 5);
    assert Drop(Half(x >> 2), 5) == Drop(Half(x >> 3), 4) == Drop(Half(x >> 4), 3);
    assert Drop(Half(x >> 4), 3) == Drop(Half(x >> 5), 2) == Drop(Half(x >> 6), 1) == Drop(Half(x >> 7), 0);
  }

  function EightBits(x: bv32): seq<bool> {
    var x1 := Half(x);
    var x2 := Half(x1);
    var x3 := Half(x2);
    var x4 := Half(x3);
    var x5 := Half(x4);
    var x6 := Half(x5);
    [Odd(x), Odd(x1), Odd(x2), Odd(x3), Odd(x4), Odd(x5), Odd(x6), Odd(Half(x6))]
  }

  lemma OneByOne<T>(a: T, b: T, c: T, d: T, rest: seq<T>)
    ensures [a] + ([b] + ([c] + ([d] + rest))) == [a, b, c, d] + rest
  {
  }

  lemma NextBit(x: bv32, n: nat)
    requires n > 0
    ensures WordBits(x, n) == [Odd(x)] + WordBits(Half(x), n - 1)
  {
  }

  /** The first four of a word's bits and the others. */
  lemma FourBits(x: bv32, n: nat)
    requires n >= 4
    ensures
      var x2 := Half(Half(x));
      WordBits(x, n) == [Odd(x), Odd(Half(x)), Odd(x2), Odd(Half(x2))] + WordBits(Half(Half(x2)), n - 4)
  {
    hide Half;
    hide Odd;
    hide WordBits;
    var x1 := Half(x);
    var x2 := Half(x1);
    var x3 := Half(x2);
    NextBit(x, n);
    NextBit(x1, n - 1);
    NextBit(x2, n - 2);
    NextBit(x3, n - 3);
    OneByOne(Odd(x), Odd(x1), Odd(x2), Odd(x3), WordBits(Half(x3), n - 4));
  }

  lemma NoBits(x: bv32)
    ensures WordBits(x, 0) == [] && Bits([]) == []
  {
  }

  lemma Eight<T>(a: T, b: T, c: T, d: T, e: T, f: T, g: T, h: T)
    ensures [a, b, c, d] + ([e, f, g, h] + []) == [a, b, c, d, e, f, g, h]
  {
  }

  lemma WordBitsByte(x: bv32)
    ensures WordBits(x, 8) == EightBits(x)
  {
    hide Half;
    hide Odd;
    hide WordBits;
    var x4 := Half(Half(Half(Half(x))));
    var x6 := Half(Half(x4));
    FourBits(x, 8);
    FourBits(x4, 4);
    NoBits(Half(Half(x6)));
    Eight(Odd(x), Odd(Half(x)), Odd(Half(Half(x))), Odd(Half(Half(Half(x)))),
          Odd(x4), Odd(Half(x4)), Odd(x6), Odd(Half(x6)));
  }

  lemma LowByteBits(x: bv32)
    ensures EightBits(Low8(x) as bv32) == EightBits(x)
  {
    assert (Low8(x) as bv32) == x & 0xFF;
  }

  lemma ByteIsSmall(b: byte)
    ensures High24(b as bv32) == 0
  {
  }

  /** Eight steps on a word are eight steps on its low byte; the rest moves. */
  lemma StepsByByte(x: bv32)
    ensures Steps(x, 8) == Xor(Steps(Low8(x) as bv32, 8), High24(x))
  {
    hide Xor;
    hide Steps;
    hide Register;
    hide Low8;
    hide High24;
    hide EightBits;
    var low := Low8(x) as bv32;
    RegisterIsSteps(0, x, 8);
    RegisterIsSteps(0, low, 8);
    WordBitsByte(x);
    WordBitsByte(low);
    LowByteBits(x);
    DropByte(x);
    DropByte(low);
    ByteIsSmall(Low8(x));
    XorZeroLeft(x);
    XorZeroLeft(low);
    XorZero(Register(0, WordBits(x, 8)));
  }

  lemma XorZeroLeft(a: bv32)
    ensures Xor(0, a) == a
  {
  }

  /** What the table makes of one byte of the message. */
  function Update(table: seq<bv32>, c: bv32, b: byte): bv32
    requires |table| == 256
  {
    Xor(table[Low8(Xor(c, b as bv32)) as nat], High24(c))
  }

  lemma HighUnchanged(c: bv32, b: byte)
    ensures High24(Xor(c, b as bv32)) == High24(c)
  {
    assert (c ^ (b as bv32)) >> 8 == c >> 8;
  }

  lemma TableAt(table: seq<bv32>, k: bv8)
    requires TableOk(table)
    ensures table[k as nat] == Steps(k as bv32, 8)
  {
    hide Steps;
    assert (k as nat) as bv8 == k;
  }

  /** One table look-up takes in the eight bits of a byte. */
  lemma UpdateIsEightBits(table: seq<bv32>, c: bv32, b: byte)
    requires |table| == 256 && TableOk(table)
    ensures Update(table, c, b) == Register(c, WordBits(b as bv32, 8))
  {
    hide Xor;
    hide Steps;
    hide Register;
    hide Low8;
    hide High24;
    hide WordBits;
    hide TableOk;
    var x := Xor(c, b as bv32);
    TableAt(table, Low8(x));
    StepsByByte(x);
    HighUnchanged(c, b);
    RegisterIsSteps(c, b as bv32, 8);
    DropByte(b as bv32);
    ByteIsSmall(b);
    XorZero(Register(c, WordBits(b as bv32, 8)));
  }

  /** Eight steps from the number of the entry. */
  method TableEntry(b: byte) returns (c: bv32)
    ensures c == Steps(b as bv32, 8)
  {
    hide Shift;
    c := b as bv32;
    for k := 0 to 8
      invariant Steps(b as bv32, 8) == Steps(c, 8 - k)
    {
      c := Shift(c);
    }
  }

  method MakeTable() returns (table: array<bv32>)
    ensures fresh(table) && table.Length == 256 && TableOk(table[..])
  {
    hide Steps;
    table := new bv32[256](_ => 0);
    for i := 0 to 256
      invariant forall n :: 0 <= n < i ==> table[n] == Steps((n as bv8) as bv32, 8)
    {
      var c := TableEntry(i as bv8);
      table[i] := c;
    }
  }

  lemma BitsFrom(data: seq<byte>, i: nat)
    requires i < |data|
    ensures Bits(data[i..]) == WordBits(data[i] as bv32, 8) + Bits(data[i + 1..])
  {
    assert data[i..][1..] == data[i + 1..];
  }

  /** The table-driven CRC-32 is the one defined bit by bit. */
  method Crc32(table: array<bv32>, data: seq<byte>) returns (crc: bv32)
    requires table.Length == 256 && TableOk(table[..])
    ensures crc == Checksum(data)
  {
    hide Xor;
    hide Register;
    hide WordBits;
    hide TableOk;
    hide Low8;
    hide High24;
    var c := ONES;
    assert data[0..] == data;
    for i := 0 to |data|
      invariant Register(ONES, Bits(data)) == Register(c, Bits(data[i..]))
    {
      BitsFrom(data, i);
      UpdateIsEightBits(table[..], c, data[i]);
      RegisterAppend(c, WordBits(data[i] as bv32, 8), Bits(data[i + 1..]));
      c := Update(table[..], c, data[i]);
    }
    assert data[|data|..] == [];
    RegisterNone(c);
    crc := Xor(c, ONES);
  }

  lemma RegisterNone(c: bv32)
    ensures Register(c, Bits([])) == c
  {
  }

  // ---------- damage ----------

  function Double(x: bv32): bv32 {
    x << 1
  }

  /** The word with these bits, least significant first. */
  function Pack(bits: seq<bool>): bv32 {
    if bits == [] then 0 else Xor(Bit(bits[0]), Double(Pack(bits[1..])))
  }

  lemma {:induction false} DropAdd(x: bv32, n: nat, m: nat)
    ensures Drop(x, n + m) == Drop(Drop(x, n), m)
    decreases n
  {
    hide Half;
    if n > 0 {
      DropAdd(Half(x), n - 1, m);
    }
  }

  lemma {:induction false} DropZero(n: nat)
    ensures Drop(0, n) == 0
  {
    assert Half(0) == 0;
    if n > 0 {
      DropZero(n - 1);
    }
  }

  /** The top bit alone is left when 31 bits are dropped. */
  lemma Drop31(x: bv32)
    ensures Drop(x, 31) == x >> 31
  {
    hide Drop;
    DropAdd(x, 8, 23);
    DropAdd(High24(x), 8, 15);
    DropAdd(High24(High24(x)), 8, 7);
    DropByte(x);
    DropByte(High24(x));
    DropByte(High24(High24(x)));
    Drop7(High24(High24(High24(x))));
    assert (((x >> 8) >> 8) >> 8) >> 7 == x >> 31;
  }

  lemma Drop7(x: bv32)
    ensures Drop(x, 7) == x >> 7
  {
    hide Half;
    hide High24;
    Halves(x);
    assert Drop(x, 7) == Drop(Half(x), 6) == Drop(Half(x >> 1), 5) == Drop(Half(x >> 2), 4);
    assert Drop(Half(x >> 2), 4) == Drop(Half(x >> 3), 3) == Drop(Half(x >> 4), 2);
    assert Drop(Half(x >> 4), 2) == Drop(Half(x >> 5), 1) == Drop(Half(x >> 6), 0);
  }

  lemma HalfUndoesDouble(x: bv32)
    requires x >> 31 == 0
    ensures Half(Double(x)) == x
  {
  }

  lemma HalfOfBit(b: bool)
    ensures Half(Bit(b)) == 0
  {
  }

  lemma HalfOfDouble(b: bool, x: bv32)
    requires x >> 31 == 0
    ensures Half(Xor(Bit(b), Double(x))) == x
  {
    hide Half;
    hide Xor;
    hide Double;
    hide Bit;
    XorHalf(Bit(b), Double(x));
    HalfOfBit(b);
    HalfUndoesDouble(x);
    XorZeroLeft(x);
  }

  lemma OddOfDouble(b: bool, x: bv32)
    ensures Odd(Xor(Bit(b), Double(x))) == b
  {
    assert (1 ^ (x << 1)) & 1 == 1;
    assert (0 ^ (x << 1)) & 1 == 0;
  }

  /** Up to 32 bits fit a word. */
  lemma {:induction false} PackKeepsBits(bits: seq<bool>)
    requires |bits| <= 32
    ensures WordBits(Pack(bits), |bits|) == bits
    ensures Drop(Pack(bits), |bits|) == 0
  {
    hide Half;
    hide Odd;
    hide Xor;
    hide Double;
    hide Bit;
    if bits != [] {
      var rest := Pack(bits[1..]);
      PackKeepsBits(bits[1..]);
      DropAdd(rest, |bits| - 1, 32 - |bits|);
      DropZero(32 - |bits|);
      Drop31(rest);
      HalfOfDouble(bits[0], rest);
      OddOfDouble(bits[0], rest);
    }
  }

  /** A stretch of at most 32 bits takes the register to a place of its own. */
  lemma StretchIsInjective(c: bv32, a: seq<bool>, b: seq<bool>)
    requires |a| == |b| <= 32
    requires Register(c, a) == Register(c, b)
    ensures a == b
  {
    hide Xor;
    hide Register;
    hide Steps;
    hide Pack;
    PackKeepsBits(a);
    PackKeepsBits(b);
    RegisterIsSteps(c, Pack(a), |a|);
    RegisterIsSteps(c, Pack(b), |b|);
    StepsIsInjective(Xor(c, Pack(a)), Xor(c, Pack(b)), |a|);
    XorTwice(c, 0, Pack(a));
    XorTwice(c, 0, Pack(b));
    XorZeroLeft(Pack(a));
    XorZeroLeft(Pack(b));
  }

  /** The two messages are the same except in 32 consecutive bits from p on. */
  ghost predicate DifferWithin32(a: seq<bool>, b: seq<bool>, p: nat) {
    |a| == |b| && forall i :: 0 <= i < |a| && !(p <= i < p + 32) ==> a[i] == b[i]
  }

  /** Outside the window the two are the same. */
  lemma Around(a: seq<bool>, b: seq<bool>, p: nat, e: nat)
    requires DifferWithin32(a, b, p) && p <= e <= |a| && (e < |a| ==> e == p + 32)
    ensures a[..p] == b[..p] && a[e..] == b[e..]
    ensures a == a[..p] + (a[p..e] + a[e..]) && b == b[..p] + (b[p..e] + b[e..])
  {
    forall i | 0 <= i < |a| - e
      ensures a[e..][i] == b[e..][i]
    {
      assert a[e..][i] == a[e + i] && b[e..][i] == b[e + i];
    }
  }

  /** No burst of damage up to 32 bits long goes unnoticed. */
  lemma BurstChangesRegister(c: bv32, a: seq<bool>, b: seq<bool>, p: nat)
    requires DifferWithin32(a, b, p)
    requires Register(c, a) == Register(c, b)
    ensures a == b
  {
    hide Register;
    if p < |a| {
      var e := if p + 32 < |a| then p + 32 else |a|;
      Around(a, b, p, e);
      var d := Register(c, a[..p]);
      RegisterAppend(c, a[..p], a[p..e] + a[e..]);
      RegisterAppend(c, b[..p], b[p..e] + b[e..]);
      RegisterAppend(d, a[p..e], a[e..]);
      RegisterAppend(d, b[p..e], b[e..]);
      RegisterIsInjective(Register(d, a[p..e]), Register(d, b[p..e]), a[e..]);
      StretchIsInjective(d, a[p..e], b[p..e]);
    }
  }

  // ---------- a message followed by its checksum ----------

  /** The four bytes of a word, least significant first. */
  function WordBytes(x: bv32): seq<byte> {
    [Low8(x), Low8(High24(x)), Low8(High24(High24(x))), Low8(High24(High24(High24(x))))]
  }

  function WordOf(s: seq<byte>): bv32
    requires |s| == 4
  {
    (s[0] as bv32) | (s[1] as bv32 << 8) | (s[2] as bv32 << 16) | (s[3] as bv32 << 24)
  }

  lemma WordRoundTrip(x: bv32)
    ensures WordOf(WordBytes(x)) == x
  {
  }

  lemma BytesRoundTrip(s: seq<byte>)
    requires |s| == 4
    ensures WordBytes(WordOf(s)) == s
  {
  }

  lemma {:induction false} WordBitsSplit(x: bv32, n: nat, m: nat)
    ensures WordBits(x, n + m) == WordBits(x, n) + WordBits(Drop(x, n), m)
    decreases n
  {
    hide Half;
    hide Odd;
    if n > 0 {
      WordBitsSplit(Half(x), n - 1, m);
    }
  }

  lemma LowByteWordBits(x: bv32)
    ensures WordBits(Low8(x) as bv32, 8) == WordBits(x, 8)
  {
    hide Low8;
    hide EightBits;
    hide WordBits;
    WordBitsByte(x);
    WordBitsByte(Low8(x) as bv32);
    LowByteBits(x);
  }

  /** The bits of a word are those of its low byte and then the others. */
  lemma BitsByByte(x: bv32, n: nat)
    ensures WordBits(x, 8 + n) == WordBits(Low8(x) as bv32, 8) + WordBits(High24(x), n)
  {
    hide Low8;
    hide High24;
    hide WordBits;
    WordBitsSplit(x, 8, n);
    LowByteWordBits(x);
    DropByte(x);
  }

  /** The n low bytes of a word, least significant first. */
  function LowBytes(x: bv32, n: nat): seq<byte>
    decreases n
  {
    if n == 0 then [] else [Low8(x)] + LowBytes(High24(x), n - 1)
  }

  lemma {:induction false} LowBytesBits(x: bv32, n: nat)
    ensures Bits(LowBytes(x, n)) == WordBits(x, 8 * n)
    decreases n
  {
    hide Low8;
    hide High24;
    hide WordBits;
    if n == 0 {
      NoBits(x);
    } else {
      LowBytesBits(High24(x), n - 1);
      BitsByByte(x, 8 * (n - 1));
      assert LowBytes(x, n)[1..] == LowBytes(High24(x), n - 1);
    }
  }

  lemma WordBytesBits(x: bv32)
    ensures Bits(WordBytes(x)) == WordBits(x, 32)
  {
    hide Low8;
    hide High24;
    hide WordBits;
    hide Bits;
    LowBytesBits(x, 4);
    var x2 := High24(High24(x));
    assert LowBytes(x2, 2) == [Low8(x2), Low8(High24(x2))];
    assert LowBytes(x, 4) == [Low8(x), Low8(High24(x))] + LowBytes(x2, 2);
    assert LowBytes(x, 4) == WordBytes(x);
  }

  lemma DropAll(x: bv32)
    ensures Drop(x, 32) == 0
  {
    hide Drop;
    DropAdd(x, 31, 1);
    Drop31(x);
    DropOne(x >> 31);
    assert (x >> 31) >> 1 == 0;
  }

  lemma DropOne(x: bv32)
    ensures Drop(x, 1) == x >> 1
  {
  }

  lemma {:induction false} BitsAppend(a: seq<byte>, b: seq<byte>)
    ensures Bits(a + b) == Bits(a) + Bits(b)
  {
    hide WordBits;
    if a == [] {
      assert a + b == b;
    } else {
      assert (a + b)[1..] == a[1..] + b;
      BitsAppend(a[1..], b);
    }
  }

  /** Where the register ends after any message followed by its checksum. */
  function Residue(): bv32 {
    Steps(ONES, 32)
  }

  /** The register tells: a checksum fits its message exactly when the register
      ends in the same place for both together as it always does. */
  lemma FitsIffResidue(data: seq<byte>, word: seq<byte>)
    requires |word| == 4
    ensures Register(ONES, Bits(data + word)) == Residue() <==> WordOf(word) == Checksum(data)
  {
    hide Xor;
    hide Steps;
    hide Register;
    hide Bits;
    hide WordBits;
    hide WordOf;
    hide WordBytes;
    var c := Register(ONES, Bits(data));
    var x := WordOf(word);
    BytesRoundTrip(word);
    BitsAppend(data, word);
    RegisterAppend(ONES, Bits(data), Bits(word));
    WordBytesBits(x);
    RegisterIsSteps(c, x, 32);
    DropAll(x);
    XorZero(Register(c, WordBits(x, 32)));
    if Steps(Xor(c, x), 32) == Steps(ONES, 32) {
      StepsIsInjective(Xor(c, x), ONES, 32);
    }
    XorFront(c, x);
    XorFront(c, ONES);
  }

  // ---------- known values ----------

  /** The register after byte i of a message is rs[i + 1]. */
  lemma {:induction false} Fed(data: seq<byte>, rs: seq<bv32>)
    requires |rs| == |data| + 1
    requires forall i :: 0 <= i < |data| ==> rs[i + 1] == Steps(Xor(rs[i], data[i] as bv32), 8)
    ensures Register(rs[0], Bits(data)) == rs[|data|]
  {
    hide Steps;
    hide Xor;
    hide Register;
    hide WordBits;
    if data == [] {
      RegisterNone(rs[0]);
    } else {
      var b := data[0] as bv32;
      RegisterAppend(rs[0], WordBits(b, 8), Bits(data[1..]));
      RegisterIsSteps(rs[0], b, 8);
      DropByte(b);
      ByteIsSmall(data[0]);
      XorZero(Register(rs[0], WordBits(b, 8)));
      assert rs[1] == rs[0 + 1];
      Fed(data[1..], rs[1..]);
    }
  }

  lemma Unrolled(c: bv32)
    ensures Steps(c, 8) == Shift(Shift(Shift(Shift(Shift(Shift(Shift(Shift(c))))))))
  {
    hide Shift;
    StepsMore(c, 4, 4);
    var d := Shift(Shift(Shift(Shift(c))));
    assert Steps(c, 4) == Steps(Shift(c), 3) == Steps(Shift(Shift(c)), 2) == Steps(Shift(Shift(Shift(c))), 1) == Steps(d, 0) == d;
    assert Steps(d, 4) == Steps(Shift(d), 3) == Steps(Shift(Shift(d)), 2) == Steps(Shift(Shift(Shift(d))), 1)
        == Steps(Shift(Shift(Shift(Shift(d)))), 0);
  }

  lemma FourBytesOfOnes()
    ensures Steps(0xFFFF_FFFF, 8) == 0x2DFD_1072
    ensures Steps(0x2DFD_1072, 8) == 0xBE26_ED00
    ensures Steps(0xBE26_ED00, 8) == 0x00BE_26ED
    ensures Steps(0x00BE_26ED, 8) == 0xDEBB_20E3
  {
    hide Steps;
    Unrolled(0xFFFF_FFFF);
    Unrolled(0x2DFD_1072);
    Unrolled(0xBE26_ED00);
    Unrolled(0x00BE_26ED);
  }

  lemma {:induction false} StepsMore(c: bv32, n: nat, m: nat)
    ensures Steps(c, n + m) == Steps(Steps(c, n), m)
    decreases n
  {
    hide Shift;
    if n > 0 {
      StepsMore(Shift(c), n - 1, m);
    }
  }

  /** The residue of the polynomial of zlib and Ethernet. */
  lemma ResidueValue()
    ensures Residue() == 0xDEBB_20E3
  {
    hide Steps;
    FourBytesOfOnes();
    StepsMore(ONES, 8, 24);
    StepsMore(0x2DFD_1072, 8, 16);
    StepsMore(0xBE26_ED00, 8, 8);
  }

  lemma FirstDigits()
    ensures Steps(0xFFFF_FFFF ^ 0x31, 8) == 0x7C23_1048
    ensures Steps(0x7C23_1048 ^ 0x32, 8) == 0xB0AC_BB32
    ensures Steps(0xB0AC_BB32 ^ 0x33, 8) == 0x77B7_9C2D
    ensures Steps(0x77B7_9C2D ^ 0x34, 8) == 0x641C_1F5C
    ensures Steps(0x641C_1F5C ^ 0x35, 8) == 0x340A_C5E3
  {
    hide Steps;
    Unrolled(0xFFFF_FFFF ^ 0x31);
    Unrolled(0x7C23_1048 ^ 0x32);
    Unrolled(0xB0AC_BB32 ^ 0x33);
    Unrolled(0x77B7_9C2D ^ 0x34);
    Unrolled(0x641C_1F5C ^ 0x35);
  }

  lemma LastDigits()
    ensures Steps(0x340A_C5E3 ^ 0x36, 8) == 0xF68D_2C9E
    ensures Steps(0xF68D_2C9E ^ 0x37, 8) == 0xAFFC_9660
    ensures Steps(0xAFFC_9660 ^ 0x38, 8) == 0x651F_2550
    ensures Steps(0x651F_2550 ^ 0x39, 8) == 0x340B_C6D9
  {
    hide Steps;
    Unrolled(0x340A_C5E3 ^ 0x36);
    Unrolled(0xF68D_2C9E ^ 0x37);
    Unrolled(0xAFFC_9660 ^ 0x38);
    Unrolled(0x651F_2550 ^ 0x39);
  }

  /** The check value: the checksum of the digits 1 to 9, and that of nothing. */
  lemma CheckValue()
    ensures Checksum([0x31, 0x32, 0x33, 0x34, 0x35, 0x36, 0x37, 0x38, 0x39]) == 0xCBF4_3926
    ensures Checksum([]) == 0
  {
    hide Steps;
    hide Register;
    var data: seq<byte> := [0x31, 0x32, 0x33, 0x34, 0x35, 0x36, 0x37, 0x38, 0x39];
    var rs := [0xFFFF_FFFF, 0x7C23_1048, 0xB0AC_BB32, 0x77B7_9C2D, 0x641C_1F5C,
               0x340A_C5E3, 0xF68D_2C9E, 0xAFFC_9660, 0x651F_2550, 0x340B_C6D9];
    FirstDigits();
    LastDigits();
    Fed(data, rs);
    RegisterNone(ONES);
  }

  lemma XorFront(a: bv32, b: bv32)
    ensures Xor(a, Xor(a, b)) == b
  {
    assert a ^ (a ^ b) == b;
  }

  lemma ByteFromBits(a: byte, b: byte)
    requires WordBits(a as bv32, 8) == WordBits(b as bv32, 8)
    ensures a == b
  {
    hide Xor;
    hide Steps;
    hide Register;
    hide WordBits;
    RegisterIsSteps(0, a as bv32, 8);
    RegisterIsSteps(0, b as bv32, 8);
    DropByte(a as bv32);
    DropByte(b as bv32);
    ByteIsSmall(a);
    ByteIsSmall(b);
    StepsIsInjective(Xor(0, a as bv32), Xor(0, b as bv32), 8);
    XorZeroLeft(a as bv32);
    XorZeroLeft(b as bv32);
  }

  lemma {:induction false} BitsAreInjective(a: seq<byte>, b: seq<byte>)
    requires Bits(a) == Bits(b)
    ensures a == b
  {
    hide WordBits;
    if a != [] {
      assert Bits(a)[..8] == WordBits(a[0] as bv32, 8) && Bits(a)[8..] == Bits(a[1..]);
      assert Bits(b)[..8] == WordBits(b[0] as bv32, 8) && Bits(b)[8..] == Bits(b[1..]);
      ByteFromBits(a[0], b[0]);
      BitsAreInjective(a[1..], b[1..]);
    }
  }

  /** A message with its checksum, damaged anywhere in at most 32 consecutive
      bits, in the message, the checksum or across both, no longer fits. */
  lemma BurstIsDetected(a: seq<byte>, b: seq<byte>, n: nat, p: nat)
    requires |a| == |b| == n + 4
    requires WordOf(a[n..]) == Checksum(a[..n]) && WordOf(b[n..]) == Checksum(b[..n])
    requires DifferWithin32(Bits(a), Bits(b), p)
    ensures a == b
  {
    hide Register;
    hide Bits;
    hide Checksum;
    hide WordOf;
    hide Residue;
    assert a == a[..n] + a[n..] && b == b[..n] + b[n..];
    FitsIffResidue(a[..n], a[n..]);
    FitsIffResidue(b[..n], b[n..]);
    BurstChangesRegister(ONES, Bits(a), Bits(b), p);
    BitsAreInjective(a, b);
  }
}
