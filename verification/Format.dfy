/** The journal's layout byte by byte, what the reader reports for which bytes,
    and known values of both. */
module Format {
  import opened Types
  import opened Bytes
  import opened Crc
  import opened Journal
  import opened Replay
  import Matching

  // ---------- where each field is ----------

  /** The number of four bytes, the lowest first. */
  lemma FourBytes(a: byte, b: byte, c: byte, d: byte)
    ensures Get([a, b, c, d])
         == FromByte(a) + 0x100 * FromByte(b) + 0x1_0000 * FromByte(c) + 0x100_0000 * FromByte(d)
  {
    hide FromByte;
    assert [a, b, c, d][1..] == [b, c, d] && [b, c, d][1..] == [c, d] && [c, d][1..] == [d] && [d][1..] == [];
    assert Get([d]) == FromByte(d);
    assert Get([c, d]) == FromByte(c) + 256 * Get([d]);
    assert Get([b, c, d]) == FromByte(b) + 256 * Get([c, d]);
  }

  /** Eight bytes are two times four. */
  lemma EightBytes(s: seq<byte>)
    requires |s| == 8
    ensures Get(s) == Get(s[..4]) + 0x1_0000_0000 * Get(s[4..])
  {
    hide FromByte;
    FourThen(s);
  }

  lemma FourThen(s: seq<byte>)
    requires |s| >= 4
    ensures Get(s) == Get(s[..4]) + 0x1_0000_0000 * Get(s[4..])
  {
    hide FromByte;
    hide Get;
    var b := s[..4];
    assert b == [s[0], s[1], s[2], s[3]];
    FourBytes(s[0], s[1], s[2], s[3]);
    NextByteOf(s);
    NextByteOf(s[1..]);
    NextByteOf(s[2..]);
    NextByteOf(s[3..]);
    assert s[1..][1..] == s[2..] && s[2..][1..] == s[3..] && s[3..][1..] == s[4..];
  }

  lemma NextByteOf(s: seq<byte>)
    requires s != []
    ensures Get(s) == FromByte(s[0]) + 256 * Get(s[1..])
  {
  }

  /** The price as a 64-bit word in two's complement. */
  function PriceWord(p: Price): int {
    if p < 0 then 0x1_0000_0000_0000_0000 + p else p
  }

  /** The record of every kind: its length, where each field begins, what the
      side and time-in-force bytes are, and the checksum of all before it. */
  lemma RecordLayout(c: Command)
    ensures
      var e := Encode(c);
      var n := match c.kind case Limit => 31 case Market => 22 case Cancel => 13 case Modify => 25;
      && |e| == n
      && e[0] == (match c.kind case Limit => 1 case Market => 2 case Cancel => 3 case Modify => 4)
      && Get(e[1..9]) == c.id
      && (c.kind.Limit? ==>
            && e[9] == (if c.side.Buy? then 0 else 1)
            && e[10] == (match c.tif case GTC => 0 case IOC => 1 case FOK => 2)
            && Get(e[11..19]) == PriceWord(c.price) && Get(e[19..23]) == c.qty && Get(e[23..27]) == c.account)
      && (c.kind.Market? ==>
            && e[9] == (if c.side.Buy? then 0 else 1)
            && Get(e[10..14]) == c.qty && Get(e[14..18]) == c.account)
      && (c.kind.Modify? ==> Get(e[9..17]) == PriceWord(c.price) && Get(e[17..21]) == c.qty)
      && Get(e[n - 4..]) == Number(Checksum(e[..n - 4]))
  {
    hide Checksum;
    hide WordBytes;
    hide WordOf;
    hide Number;
    hide Put;
    hide Get;
    var e, body := Encode(c), Body(c);
    WordBytesSize(Checksum(body));
    var n := |body|;
    assert e[..n] == body && e[n..] == WordBytes(Checksum(body));
    WordIsNumber(Checksum(body), WordBytes(Checksum(body)));
    WordRoundTrip(Checksum(body));
    BodyLayout(c);
    assert e[1..9] == body[1..9];
    match c.kind
    case Limit =>
      assert e[11..19] == body[11..19] && e[19..23] == body[19..23] && e[23..27] == body[23..27];
    case Market =>
      assert e[10..14] == body[10..14] && e[14..18] == body[14..18];
    case Cancel =>
    case Modify =>
      assert e[9..17] == body[9..17] && e[17..21] == body[17..21];
  }

  lemma BodyLayout(c: Command)
    ensures
      var e := Body(c);
      && Get(e[1..9]) == c.id
      && (c.kind.Limit? ==>
            Get(e[11..19]) == PriceWord(c.price) && Get(e[19..23]) == c.qty && Get(e[23..27]) == c.account)
      && (c.kind.Market? ==> Get(e[10..14]) == c.qty && Get(e[14..18]) == c.account)
      && (c.kind.Modify? ==> Get(e[9..17]) == PriceWord(c.price) && Get(e[17..21]) == c.qty)
  {
    hide Put;
    hide Get;
    hide KindByte;
    hide Fields;
    var e, f := Body(c), Fields(c);
    Power256Values();
    GetPut(c.id, 8);
    assert e[1..9] == Put(c.id, 8);
    assert e[9..] == f;
    FieldsLayout(c);
    match c.kind
    case Limit =>
      Behind(e, f, 2, 10);
      Behind(e, f, 10, 14);
      Behind(e, f, 14, 18);
    case Market =>
      Behind(e, f, 1, 5);
      Behind(e, f, 5, 9);
    case Cancel =>
    case Modify =>
      Behind(e, f, 0, 8);
      Behind(e, f, 8, 12);
  }

  lemma Behind(e: seq<byte>, f: seq<byte>, i: nat, j: nat)
    requires |e| >= 9 && e[9..] == f && i <= j <= |f|
    ensures e[9 + i..9 + j] == f[i..j]
  {
    var a, b := e[9 + i..9 + j], f[i..j];
    forall k | 0 <= k < j - i
      ensures a[k] == b[k]
    {
      assert e[9..][i + k] == e[9 + i + k];
    }
  }

  lemma FieldsLayout(c: Command)
    ensures
      var f := Fields(c);
      && (c.kind.Limit? ==> Get(f[2..10]) == PriceWord(c.price) && Get(f[10..14]) == c.qty && Get(f[14..18]) == c.account)
      && (c.kind.Market? ==> Get(f[1..5]) == c.qty && Get(f[5..9]) == c.account)
      && (c.kind.Modify? ==> Get(f[0..8]) == PriceWord(c.price) && Get(f[8..12]) == c.qty)
  {
    hide Put;
    hide Get;
    var f := Fields(c);
    Power256Values();
    GetPut(Unsigned(c.price), 8);
    GetPut(c.qty, 4);
    GetPut(c.account, 4);
    match c.kind
    case Limit =>
      assert f[2..10] == Put(Unsigned(c.price), 8) && f[10..14] == Put(c.qty, 4) && f[14..18] == Put(c.account, 4);
    case Market =>
      assert f[1..5] == Put(c.qty, 4) && f[5..9] == Put(c.account, 4);
    case Cancel =>
    case Modify =>
      assert f[0..8] == Put(Unsigned(c.price), 8) && f[8..12] == Put(c.qty, 4);
  }

  /** The fields a record does not store read back as a new command has them. */
  lemma UnusedAreDefaults(d: seq<byte>)
    requires ReadRecord(d).Good?
    ensures
      var c := ReadRecord(d).command;
      && (c.kind.Market? ==> c.tif == GTC && c.price == 0)
      && (c.kind.Cancel? ==> c == Command(Cancel, c.id, Buy, GTC, 0, 0, 0))
      && (c.kind.Modify? ==> c.side == Buy && c.tif == GTC && c.account == 0)
  {
    hide Checksum;
    hide WordOf;
    hide GetLong;
    hide GetWord;
  }

  // ---------- what the reader reports ----------

  /** Is this a command's kind, and how long are its records? */
  predicate IsKind(b: byte) {
    1 <= FromByte(b) <= 4
  }

  function RecordSize(b: byte): (n: nat)
    requires IsKind(b)
    ensures n > 4
  {
    if FromByte(b) == 1 then 31 else if FromByte(b) == 2 then 22 else if FromByte(b) == 3 then 13 else 25
  }

  /** All bytes of the record are there, and the last four fit the others. */
  predicate Fits(d: seq<byte>) {
    && d != [] && IsKind(d[0])
    && var n := RecordSize(d[0]);
       n <= |d| && Checksum(d[..n - 4]) == WordOf(d[n - 4..n])
  }

  /** When reading stops at these bytes, and with which status. */
  predicate StopsWith(d: seq<byte>, status: Status) {
    match status
    case End => d == []
    case BadKind => d != [] && !IsKind(d[0])
    case Truncated => d != [] && IsKind(d[0]) && |d| < RecordSize(d[0])
    case BadChecksum => d != [] && IsKind(d[0]) && |d| >= RecordSize(d[0]) && !Fits(d)
    case BadField =>
      && Fits(d)
      && ((FromByte(d[0]) == 1 && (FromByte(d[9]) > 1 || FromByte(d[10]) > 2)) || (FromByte(d[0]) == 2 && FromByte(d[9]) > 1))
  }

  /** The status of any bytes whatever. */
  lemma StatusIff(d: seq<byte>, status: Status)
    ensures ReadRecord(d) == Stop(status) <==> StopsWith(d, status)
  {
    hide Checksum;
    hide WordOf;
    hide GetLong;
    hide FromByte;
    hide ReadFields;
    if d != [] {
      KindByteIs(d[0]);
      if IsKind(d[0]) && |d| >= RecordSize(d[0]) {
        var body := RecordSize(d[0]) - 4;
        var p := d[9..body];
        BadFieldIff(KindOf(d[0]).value, GetLong(d[1..9]), p);
        assert |p| > 0 ==> p[0] == d[9];
        assert |p| > 1 ==> p[1] == d[10];
      }
    }
  }

  lemma BadFieldIff(kind: Kind, id: OrderId, p: seq<byte>)
    requires |p| + 8 == PayloadSize(kind)
    ensures ReadFields(kind, id, p).None?
            <==> (kind.Limit? && (FromByte(p[0]) > 1 || FromByte(p[1]) > 2)) || (kind.Market? && FromByte(p[0]) > 1)
  {
    hide GetLong;
    hide GetWord;
    hide FromByte;
    if p != [] {
      SmallByte(p[0]);
    }
    if |p| > 1 {
      SmallByte(p[1]);
    }
  }

  lemma KindByteIs(b: byte)
    ensures KindOf(b) == (if FromByte(b) == 1 then Some(Limit) else if FromByte(b) == 2 then Some(Market)
                          else if FromByte(b) == 3 then Some(Cancel) else if FromByte(b) == 4 then Some(Modify) else None)
  {
  }

  lemma SmallByte(b: byte)
    ensures FromByte(b) > 1 <==> b > 1
    ensures FromByte(b) > 2 <==> b > 2
  {
  }

  /** Replay reports the status of the bytes where the good part ends. */
  lemma ReplayStatusIff(data: seq<byte>, status: Status)
    requires Open(data).Capacity?
    ensures
      var r := ReplayOf(data);
      r.Done? && HEADER_SIZE <= r.valid <= |data| && (r.stop == status <==> StopsWith(data[r.valid..], status))
  {
    hide ReadRecord;
    hide StopsWith;
    hide Matching.Run;
    hide ReadAll;
    var d := data[HEADER_SIZE..];
    var r := ReadAll(d);
    GoodPartIsRecords(d);
    assert data[HEADER_SIZE + r.valid..] == d[r.valid..];
    StatusIff(d[r.valid..], status);
  }

  // ---------- the header ----------

  /** The letters LOMEJRNL. */
  predicate BeginsWithMagic(d: seq<byte>)
    requires |d| >= 8
  {
    && d[0] == 0x4C && d[1] == 0x4F && d[2] == 0x4D && d[3] == 0x45
    && d[4] == 0x4A && d[5] == 0x52 && d[6] == 0x4E && d[7] == 0x4C
  }

  /** What opening reports for any bytes whatever. */
  lemma OpenIff(d: seq<byte>)
    ensures Open(d) ==
            if |d| < 20 then NotAJournal(Truncated)
            else if !BeginsWithMagic(d) then NotAJournal(BadField)
            else if Checksum(d[..16]) != WordOf(d[16..20]) then NotAJournal(BadChecksum)
            else if Get(d[8..12]) != 1 then NotAJournal(BadField)
            else Capacity(GetWord(d[12..16]))
    ensures |d| >= 20 ==> GetWord(d[12..16]) == Get(d[12..16])
  {
    hide Checksum;
    hide WordOf;
    hide Get;
    if |d| >= 20 {
      Power256Values();
      PutGet(d[8..12]);
      PutGet(d[12..16]);
      assert d[..8] == [d[0], d[1], d[2], d[3], d[4], d[5], d[6], d[7]];
    }
  }

  // ---------- known bytes ----------

  lemma MagicSteps()
    ensures Steps(0xFFFF_FFFF ^ 0x4C, 8) == 0x5297_1DC9
    ensures Steps(0x5297_1DC9 ^ 0x4F, 8) == 0x0489_B108
    ensures Steps(0x0489_B108 ^ 0x4D, 8) == 0x06B2_3CAE
    ensures Steps(0x06B2_3CAE ^ 0x45, 8) == 0x37DE_89CC
  {
    hide Steps;
    Unrolled(0xFFFF_FFFF ^ 0x4C);
    Unrolled(0x5297_1DC9 ^ 0x4F);
    Unrolled(0x0489_B108 ^ 0x4D);
    Unrolled(0x06B2_3CAE ^ 0x45);
  }

  lemma MoreMagicSteps()
    ensures Steps(0x37DE_89CC ^ 0x4A, 8) == 0x04EC_F89C
    ensures Steps(0x04EC_F89C ^ 0x52, 8) == 0x7CD8_034F
    ensures Steps(0x7CD8_034F ^ 0x4E, 8) == 0x777B_E895
    ensures Steps(0x777B_E895 ^ 0x4C, 8) == 0xFF78_1198
  {
    hide Steps;
    Unrolled(0x37DE_89CC ^ 0x4A);
    Unrolled(0x04EC_F89C ^ 0x52);
    Unrolled(0x7CD8_034F ^ 0x4E);
    Unrolled(0x777B_E895 ^ 0x4C);
  }

  lemma VersionSteps()
    ensures Steps(0xFF78_1198 ^ 0x01, 8) == 0x892C_53F1
    ensures Steps(0x892C_53F1 ^ 0x00, 8) == 0xCA33_EED9
    ensures Steps(0xCA33_EED9 ^ 0x00, 8) == 0xFFC5_599E
    ensures Steps(0xFFC5_599E ^ 0x00, 8) == 0x1748_7B1A
  {
    hide Steps;
    Unrolled(0xFF78_1198 ^ 0x01);
    Unrolled(0x892C_53F1 ^ 0x00);
    Unrolled(0xCA33_EED9 ^ 0x00);
    Unrolled(0xFFC5_599E ^ 0x00);
  }

  lemma CapacitySteps()
    ensures Steps(0x1748_7B1A ^ 0x00, 8) == 0xFD75_B101
    ensures Steps(0xFD75_B101 ^ 0x00, 8) == 0x77FA_4527
    ensures Steps(0x77FA_4527 ^ 0x01, 8) == 0xD27A_7FB8
    ensures Steps(0xD27A_7FB8 ^ 0x00, 8) == 0xC568_41C1
  {
    hide Steps;
    Unrolled(0x1748_7B1A ^ 0x00);
    Unrolled(0xFD75_B101 ^ 0x00);
    Unrolled(0x77FA_4527 ^ 0x01);
    Unrolled(0xD27A_7FB8 ^ 0x00);
  }

  lemma KnownHeaderSum()
    ensures Checksum([0x4C, 0x4F, 0x4D, 0x45, 0x4A, 0x52, 0x4E, 0x4C, 0x01, 0x00, 0x00, 0x00, 0x00, 0x00, 0x01, 0x00])
         == 0x3A97_BE3E
  {
    hide Steps;
    hide Register;
    hide Bits;
    var body: seq<byte> := [0x4C, 0x4F, 0x4D, 0x45, 0x4A, 0x52, 0x4E, 0x4C, 0x01, 0x00, 0x00, 0x00, 0x00, 0x00, 0x01, 0x00];
    var rs := [0xFFFF_FFFF, 0x5297_1DC9, 0x0489_B108, 0x06B2_3CAE, 0x37DE_89CC, 0x04EC_F89C, 0x7CD8_034F, 0x777B_E895,
               0xFF78_1198, 0x892C_53F1, 0xCA33_EED9, 0xFFC5_599E, 0x1748_7B1A, 0xFD75_B101, 0x77FA_4527, 0xD27A_7FB8,
               0xC568_41C1];
    MagicSteps();
    MoreMagicSteps();
    VersionSteps();
    CapacitySteps();
    Fed(body, rs);
  }

  /** The header of a book of 65536 orders. */
  lemma KnownHeader()
    ensures EncodeHeader(65536) == [0x4C, 0x4F, 0x4D, 0x45, 0x4A, 0x52, 0x4E, 0x4C, 0x01, 0x00, 0x00, 0x00,
                                    0x00, 0x00, 0x01, 0x00, 0x3E, 0xBE, 0x97, 0x3A]
  {
    hide Checksum;
    hide WordBytes;
    hide Put;
    KnownHeaderSum();
    KnownNumbers();
    KnownWords();
    assert HeaderBody(65536)
        == [0x4C, 0x4F, 0x4D, 0x45, 0x4A, 0x52, 0x4E, 0x4C, 0x01, 0x00, 0x00, 0x00, 0x00, 0x00, 0x01, 0x00];
  }

  lemma KnownNumbers()
    ensures Put(1, 4) == [0x01, 0x00, 0x00, 0x00] && Put(65536, 4) == [0x00, 0x00, 0x01, 0x00]
    ensures Put(0xFFFF_FFFF_FFFF_FFFF, 8) == [0xFF, 0xFF, 0xFF, 0xFF, 0xFF, 0xFF, 0xFF, 0xFF]
  {
    hide Put;
    hide Get;
    var ones: seq<byte> := [0xFF, 0xFF, 0xFF, 0xFF, 0xFF, 0xFF, 0xFF, 0xFF];
    FourBytes(1, 0, 0, 0);
    PutGet([1, 0, 0, 0]);
    FourBytes(0, 0, 1, 0);
    PutGet([0, 0, 1, 0]);
    FourBytes(0xFF, 0xFF, 0xFF, 0xFF);
    assert ones[..4] == [0xFF, 0xFF, 0xFF, 0xFF] && ones[4..] == [0xFF, 0xFF, 0xFF, 0xFF];
    EightBytes(ones);
    PutGet(ones);
  }

  lemma KnownWords()
    ensures WordBytes(0x3A97_BE3E) == [0x3E, 0xBE, 0x97, 0x3A]
    ensures WordBytes(0x9BE2_281E) == [0x1E, 0x28, 0xE2, 0x9B]
  {
  }

  lemma CancelSteps()
    ensures Steps(0xFFFF_FFFF ^ 0x03, 8) == 0xB4F4_41C8
    ensures Steps(0xB4F4_41C8 ^ 0xFF, 8) == 0xB809_514E
    ensures Steps(0xB809_514E ^ 0xFF, 8) == 0xBCDE_8A4B
    ensures Steps(0xBCDE_8A4B ^ 0xFF, 8) == 0xCCB0_A91F
    ensures Steps(0xCCB0_A91F ^ 0xFF, 8) == 0xA0C6_52D1
  {
    hide Steps;
    Unrolled(0xFFFF_FFFF ^ 0x03);
    Unrolled(0xB4F4_41C8 ^ 0xFF);
    Unrolled(0xB809_514E ^ 0xFF);
    Unrolled(0xBCDE_8A4B ^ 0xFF);
    Unrolled(0xCCB0_A91F ^ 0xFF);
  }

  lemma MoreCancelSteps()
    ensures Steps(0xA0C6_52D1 ^ 0xFF, 8) == 0xDC76_CB9D
    ensures Steps(0xDC76_CB9D ^ 0xFF, 8) == 0xA360_76BF
    ensures Steps(0xA360_76BF ^ 0xFF, 8) == 0x767F_21E6
    ensures Steps(0x767F_21E6 ^ 0xFF, 8) == 0x641D_D7E1
  {
    hide Steps;
    Unrolled(0xA0C6_52D1 ^ 0xFF);
    Unrolled(0xDC76_CB9D ^ 0xFF);
    Unrolled(0xA360_76BF ^ 0xFF);
    Unrolled(0x767F_21E6 ^ 0xFF);
  }

  lemma KnownRecordSum()
    ensures Checksum([0x03, 0xFF, 0xFF, 0xFF, 0xFF, 0xFF, 0xFF, 0xFF, 0xFF]) == 0x9BE2_281E
  {
    hide Steps;
    hide Register;
    hide Bits;
    var body: seq<byte> := [0x03, 0xFF, 0xFF, 0xFF, 0xFF, 0xFF, 0xFF, 0xFF, 0xFF];
    var rs := [0xFFFF_FFFF, 0xB4F4_41C8, 0xB809_514E, 0xBCDE_8A4B, 0xCCB0_A91F, 0xA0C6_52D1, 0xDC76_CB9D, 0xA360_76BF,
               0x767F_21E6, 0x641D_D7E1];
    CancelSteps();
    MoreCancelSteps();
    Fed(body, rs);
  }

  /** The record of a cancel of the largest id. */
  lemma KnownRecord()
    ensures Encode(Command(Cancel, 0xFFFF_FFFF_FFFF_FFFF, Buy, GTC, 0, 0, 0))
         == [0x03, 0xFF, 0xFF, 0xFF, 0xFF, 0xFF, 0xFF, 0xFF, 0xFF, 0x1E, 0x28, 0xE2, 0x9B]
  {
    hide Checksum;
    hide WordBytes;
    hide Put;
    KnownRecordSum();
    KnownNumbers();
    KnownWords();
    assert Body(Command(Cancel, 0xFFFF_FFFF_FFFF_FFFF, Buy, GTC, 0, 0, 0))
        == [0x03, 0xFF, 0xFF, 0xFF, 0xFF, 0xFF, 0xFF, 0xFF, 0xFF];
  }
}
