/** Bytes and the numbers below 256. */
module Bytes {

  type byte = bv8

  function ToByte(x: int): byte
    requires 0 <= x < 256
  {
    x as bv8
  }

  function FromByte(b: byte): (x: int)
    ensures 0 <= x < 256
  {
    b as int
  }

  lemma NextByte(b: byte)
    requires b != 255
    ensures FromByte(b + 1) == FromByte(b) + 1
  {
  }

  /** Counting up from 0 reaches every number below 256. */
  lemma ByteOf(x: int) returns (b: byte)
    requires 0 <= x < 256
    ensures FromByte(b) == x
    decreases x
  {
    b := 0;
    if x > 0 {
      b := ByteOf(x - 1);
      NextByte(b);
      b := b + 1;
    }
  }

  lemma ToFromByte(b: byte)
    ensures ToByte(FromByte(b)) == b
  {
  }

  lemma FromToByte(x: int)
    requires 0 <= x < 256
    ensures FromByte(ToByte(x)) == x
  {
    hide ToByte;
    hide FromByte;
    var b := ByteOf(x);
    ToFromByte(b);
  }
}
