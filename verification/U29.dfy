/** The variable-length 29-bit integers of AMF3 (section 1.3.1 of the AMF 3 specification). */
module U29 {
  import opened Wire

  const TWO29: int := 0x2000_0000

  /** The encoder: one to four bytes, seven bits in each but a fourth, which holds eight. */
  function Write(x: u32): (b: Bytes)
    ensures 1 <= |b| <= 4
  {
    var v := x % TWO29;
    if v < 0x80 then [v]
    else if v < 0x4000 then [v / 0x80 + 0x80, v % 0x80]
    else if v < 0x20_0000 then [v / 0x4000 + 0x80, v / 0x80 % 0x80 + 0x80, v % 0x80]
    else [v / 0x40_0000 + 0x80, v / 0x8000 % 0x80 + 0x80, v / 0x100 % 0x80 + 0x80, v % 0x100]
  }

  /** Bit 28 copied into bits 29 to 31. */
  function SignExtend(v: int): u32
    requires 0 <= v < TWO29
  {
    if v >= 0x1000_0000 then v + 0xE000_0000 else v
  }

  /** The decoder's loop after `i` bytes that all had their continuation bit set. */
  function ReadFrom(s: Bytes, i: nat, acc: int): (r: Parsed<u32, Bytes>)
    requires i < 4
    requires i == 0 ==> acc == 0
    requires i == 1 ==> 0 <= acc < 0x80
    requires i == 2 ==> 0 <= acc < 0x4000
    requires i == 3 ==> 0 <= acc < 0x20_0000
    ensures r.Ok? ==> |r.rest| < |s|
    decreases 4 - i
  {
    var (b, rest) :- TakeByte(s);
    if i == 3 then Ok(SignExtend(Next8(acc, b)), rest)
    else
      var acc' := Next7(acc, b);
      if b < 0x80 then Ok(acc', rest) else ReadFrom(rest, i + 1, acc')
  }

  function Read(s: Bytes): (r: Parsed<u32, Bytes>)
    ensures r.Ok? ==> |r.rest| < |s|
  {
    ReadFrom(s, 0, 0)
  }

  /** What comes back when `x` is written and read: its low 29 bits, sign-extended. */
  function Image(x: u32): u32 {
    SignExtend(x % TWO29)
  }

  /** Seven more bits of an integer, and the eight of its fourth byte. */
  function Next7(acc: int, b: byte): int {
    acc * 0x80 + b % 0x80
  }

  function Next8(acc: int, b: byte): int {
    acc * 0x100 + b
  }

  /** The reader unrolled, by the number of bytes it consumes. */
  lemma ReadUnrolled(s: Bytes)
    ensures |s| >= 1 && s[0] < 0x80 ==> Read(s) == Ok(Next7(0, s[0]), s[1..])
    ensures |s| >= 2 && s[0] >= 0x80 && s[1] < 0x80 ==>
              Read(s) == Ok(Next7(Next7(0, s[0]), s[1]), s[2..])
    ensures |s| >= 3 && s[0] >= 0x80 && s[1] >= 0x80 && s[2] < 0x80 ==>
              Read(s) == Ok(Next7(Next7(Next7(0, s[0]), s[1]), s[2]), s[3..])
    ensures |s| >= 4 && s[0] >= 0x80 && s[1] >= 0x80 && s[2] >= 0x80 ==>
              Read(s) == Ok(SignExtend(Next8(Next7(Next7(Next7(0, s[0]), s[1]), s[2]), s[3])), s[4..])
    ensures Read(s).Fail? <==> s == [] || (|s| < 4 && forall i | 0 <= i < |s| :: s[i] >= 0x80)
    ensures Read(s).Fail? ==> Read(s).error == Truncated
  {
    if |s| >= 1 && s[0] >= 0x80 {
      var a1 := Next7(0, s[0]);
      assert Read(s) == ReadFrom(s[1..], 1, a1);
      if |s| >= 2 && s[1] >= 0x80 {
        var a2 := Next7(a1, s[1]);
        assert s[1..][1..] == s[2..];
        assert Read(s) == ReadFrom(s[2..], 2, a2);
        if |s| >= 3 && s[2] >= 0x80 {
          assert s[2..][1..] == s[3..];
          assert Read(s) == ReadFrom(s[3..], 3, Next7(a2, s[2]));
          if |s| >= 4 {
            assert s[3..][1..] == s[4..];
          }
        }
      }
    }
  }

  /** The continuation bit does not count. */
  lemma Next7Of(acc: int, d: int)
    requires 0 <= d < 0x80
    ensures Next7(acc, d) == Next7(acc, d + 0x80) == acc * 0x80 + d
  {
  }

  lemma Digits2(v: int)
    requires 0 <= v < 0x4000
    ensures Next7(Next7(0, v / 0x80 + 0x80), v % 0x80) == v
  {
    Next7Of(0, v / 0x80);
    Next7Of(v / 0x80, v % 0x80);
  }

  lemma Digits3(v: int)
    requires 0 <= v < 0x20_0000
    ensures Next7(Next7(Next7(0, v / 0x4000 + 0x80), v / 0x80 % 0x80 + 0x80), v % 0x80) == v
  {
    var q := v / 0x80;
    assert v / 0x4000 == q / 0x80;
    Next7Of(0, q / 0x80);
    Next7Of(q / 0x80, q % 0x80);
    Next7Of(q, v % 0x80);
  }

  lemma Digits4(v: int)
    requires 0 <= v < TWO29
    ensures Next8(Next7(Next7(Next7(0, v / 0x40_0000 + 0x80), v / 0x8000 % 0x80 + 0x80), v / 0x100 % 0x80 + 0x80),
                  v % 0x100) == v
  {
    var w := v / 0x100;
    assert v / 0x8000 == w / 0x80 && v / 0x40_0000 == w / 0x4000;
    Next7Of(w / 0x80, w % 0x80);
    Digits3(w);
  }

  /** Reading back consumes exactly the bytes written, whatever follows them. */
  lemma ReadWrite(x: u32, k: Bytes)
    ensures Read(Write(x) + k) == Ok(Image(x), k)
  {
    var v := x % TWO29;
    ReadUnrolled(Write(x) + k);
    assert (Write(x) + k)[|Write(x)|..] == k;
    if v < 0x80 {
    } else if v < 0x4000 {
      Digits2(v);
    } else if v < 0x20_0000 {
      Digits3(v);
    } else {
      Digits4(v);
    }
  }

  /** One to four bytes as the number they stand for: every byte but the last has its high bit set and gives seven bits,
      the high ones first; a fourth byte gives eight. */
  predicate StandFor(b: seq<byte>, v: int) {
    match |b|
    case 1 => b[0] == v && b[0] < 128
    case 2 => b[0] >= 128 && b[1] < 128 && (b[0] as int - 128) * 128 + b[1] == v
    case 3 =>
      b[0] >= 128 && b[1] >= 128 && b[2] < 128 && (b[0] as int - 128) * 16384 + (b[1] as int - 128) * 128 + b[2] == v
    case 4 =>
      && b[0] >= 128 && b[1] >= 128 && b[2] >= 128
      && (b[0] as int - 128) * 4194304 + (b[1] as int - 128) * 32768 + (b[2] as int - 128) * 256 + b[3] == v
    case _ => false
  }

  lemma Sevens(a: byte, b: byte, c: byte, d: byte)
    ensures a < 128 ==> Next7(0, a) == a
    ensures a >= 128 && b < 128 ==> Next7(Next7(0, a), b) == (a as int - 128) * 128 + b
    ensures a >= 128 && b >= 128 && c < 128 ==>
              Next7(Next7(Next7(0, a), b), c) == (a as int - 128) * 16384 + (b as int - 128) * 128 + c
    ensures a >= 128 && b >= 128 && c >= 128 ==>
              Next8(Next7(Next7(Next7(0, a), b), c), d)
              == (a as int - 128) * 4194304 + (b as int - 128) * 32768 + (c as int - 128) * 256 + d
  {
  }

  /** The bytes written stand for the low 29 bits. */
  lemma WriteBits(x: u32)
    ensures StandFor(Write(x), x % 0x2000_0000)
  {
    hide Next7, Next8;
    var v, b := x % TWO29, Write(x);
    if v < 0x80 {
    } else if v < 0x4000 {
      Digits2(v);
      Sevens(b[0], b[1], 0, 0);
    } else if v < 0x20_0000 {
      Digits3(v);
      Sevens(b[0], b[1], b[2], 0);
    } else {
      Digits4(v);
      Sevens(b[0], b[1], b[2], b[3]);
    }
  }

  /** Any bytes are read as the number they stand for, with bit 28 as the sign of a 32-bit integer. */
  lemma ReadBits(b: seq<byte>, v: int, k: Bytes)
    requires StandFor(b, v)
    ensures 0 <= v < 0x2000_0000
    ensures Read(b + k) == Ok(if v < 0x1000_0000 then v else v + 0xE000_0000, k)
  {
    hide Next7, Next8, Read;
    var s := b + k;
    assert s[|b|..] == k;
    ReadUnrolled(s);
    Sevens(b[0], if |b| > 1 then b[1] else 0, if |b| > 2 then b[2] else 0, if |b| > 3 then b[3] else 0);
  }

  /** The encoding is the shortest of all those the reader takes for the same value. */
  lemma WriteIsShortest(x: u32, s: Bytes)
    requires Read(s).Ok? && Read(s).value == Image(x)
    ensures |Write(x)| <= |s| - |Read(s).rest|
  {
    ReadUnrolled(s);
  }

  lemma {:induction false} ReadFromExtends(s: Bytes, i: nat, acc: int, k: Bytes)
    requires i < 4 && ReadFrom.requires(s, i, acc)
    requires ReadFrom(s, i, acc).Ok?
    ensures ReadFrom(s + k, i, acc) == Ok(ReadFrom(s, i, acc).value, ReadFrom(s, i, acc).rest + k)
    decreases 4 - i
  {
    assert (s + k)[1..] == s[1..] + k;
    if i < 3 && s[0] >= 0x80 {
      ReadFromExtends(s[1..], i + 1, Next7(acc, s[0]), k);
    }
  }

  /** A signed integer as the 32-bit word Go's conversion makes of it, and back. */
  function FromInt32(i: int): u32
    requires -0x8000_0000 <= i < 0x8000_0000
  {
    Wrap32(i)
  }

  function ToInt32(x: u32): (i: int)
    ensures -0x8000_0000 <= i < 0x8000_0000
  {
    if x < 0x8000_0000 then x else x - U32
  }

  predicate Is29Bit(i: int) {
    -0x1000_0000 <= i < 0x1000_0000
  }

  /** A 32-bit integer survives the wire exactly when it has 29 significant bits. */
  lemma IntegerSurvives(i: int)
    requires -0x8000_0000 <= i < 0x8000_0000
    ensures Is29Bit(ToInt32(Image(FromInt32(i))))
    ensures ToInt32(Image(FromInt32(i))) == i <==> Is29Bit(i)
  {
  }

  /** The word written for a literal of length `n` (flag bit 1) or a reference to index `n` (flag bit 0). */
  function Handle(n: nat, flag: int): u32
    requires flag == 0 || flag == 1
  {
    Wrap32(n * 2) + flag
  }

  /** The lengths and indices that a handle carries faithfully: those below 2^27, whose handle is never
      sign-extended, and the last 2^27 words below 2^31, whose handle the sign extension restores. */
  predicate Fits(n: nat) {
    n < 0x800_0000 || 0x7800_0000 <= n < 0x8000_0000
  }

  lemma HandleSurvives(n: nat, flag: int)
    requires flag == 0 || flag == 1
    ensures Image(Handle(n, flag)) % 2 == flag
    ensures Fits(Image(Handle(n, flag)) / 2)
    ensures Image(Handle(n, flag)) / 2 == n <==> Fits(n)
  {
  }

  /** Half of any integer read fits. */
  lemma ReadFits(s: Bytes)
    requires Read(s).Ok?
    ensures Fits(Read(s).value / 2)
    ensures Is29Bit(ToInt32(Read(s).value))
  {
    ReadUnrolled(s);
  }
}
