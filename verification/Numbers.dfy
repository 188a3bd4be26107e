/** Numbers told from their bytes, one place value after another, and the words of the wire in these terms. */
module Numbers {
  import opened Wire

  /** Two, three, four and eight bytes, high byte first, and four bytes, low byte first. */
  function High2(b: seq<byte>): u16
    requires |b| >= 2
  {
    b[0] as int * 256 + b[1]
  }

  function High3(b: seq<byte>): u24
    requires |b| >= 3
  {
    b[0] as int * 65536 + b[1] as int * 256 + b[2]
  }

  function High4(b: seq<byte>): u32
    requires |b| >= 4
  {
    b[0] as int * 16777216 + b[1] as int * 65536 + b[2] as int * 256 + b[3]
  }

  function High8(b: seq<byte>): u64
    requires |b| >= 8
  {
    b[0] as int * 72057594037927936 + b[1] as int * 281474976710656 + b[2] as int * 1099511627776
    + b[3] as int * 4294967296 + b[4] as int * 16777216 + b[5] as int * 65536 + b[6] as int * 256 + b[7]
  }

  function Low4(b: seq<byte>): u32
    requires |b| >= 4
  {
    b[0] as int + b[1] as int * 256 + b[2] as int * 65536 + b[3] as int * 16777216
  }

  lemma NumbersRead(b: seq<byte>)
    ensures |b| == 3 ==> FromBe24(b) == High3(b)
    ensures |b| == 4 ==> FromBe32(b) == High4(b) && FromLe32(b) == Low4(b)
  {
  }

  lemma NumbersWritten(b2: seq<byte>, b4: seq<byte>, b8: seq<byte>)
    requires |b2| == 2 && |b4| == 4 && |b8| == 8
    ensures Be16(High2(b2)) == b2
    ensures Be32(High4(b4)) == b4
    ensures Be64(High8(b8)) == b8
  {
    hide High4, High8, Be32, Be64;
    Digits(b2[0], b2[1]);
    FourBytes(b4);
    EightBytes(b8);
  }

  lemma EightBytes(b: seq<byte>)
    requires |b| == 8
    ensures Be64(High8(b)) == b
  {
    hide High4, High8, Be32;
    var hi, lo := High4(b[..4]), High4(b[4..]);
    FourBytes(b[..4]);
    FourBytes(b[4..]);
    assert High8(b) == hi * U32 + lo by { Halves(b); }
    assert (hi * U32 + lo) / U32 == hi && (hi * U32 + lo) % U32 == lo;
    assert b[..4] + b[4..] == b;
  }

  lemma Halves(b: seq<byte>)
    requires |b| == 8
    ensures High8(b) == High4(b[..4]) * U32 + High4(b[4..])
  {
  }

  lemma FourBytes(b: seq<byte>)
    requires |b| == 4
    ensures Be32(High4(b)) == b
  {
    var q2 := b[0] as int * 256 + b[1];
    var q3 := q2 * 256 + b[2];
    Digits(b[0], b[1]);
    Digits(q2, b[2]);
    Digits(q3, b[3]);
    var n: int := q3 * 256 + b[3];
    assert High4(b) == n;
    assert n / 65536 == n / 256 / 256 && n / 16777216 == n / 256 / 256 / 256;
  }

  lemma Digits(q: nat, d: byte)
    ensures (q * 256 + d) / 256 == q && (q * 256 + d) % 256 == d
  {
  }
}
