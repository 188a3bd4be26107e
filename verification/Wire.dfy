/** Bytes, fixed-width unsigned words and their big-endian layout, and the result of
    parsing a prefix of a byte sequence.

    Shifts, masks and byte truncations of unsigned words are written as division,
    remainder and sum, which is what they compute. */
module Wire {
  type byte = x: int | 0 <= x < 0x100
  type u16 = x: int | 0 <= x < 0x1_0000
  type u24 = x: int | 0 <= x < 0x100_0000
  type u32 = x: int | 0 <= x < 0x1_0000_0000
  type u64 = x: int | 0 <= x < 0x1_0000_0000_0000_0000

  /** Go strings and byte slices are both byte sequences. */
  type Bytes = seq<byte>

  const U32: int := 0x1_0000_0000

  /** Conversion of an unbounded length or sum to a 32-bit unsigned word. */
  function Wrap32(n: int): (w: u32)
    ensures w == n % U32
  {
    if 0 <= n < U32 then n else n % U32
  }

  datatype Option<+T> = None | Some(value: T)

  datatype Error =
    | Truncated
    | UnsupportedMarker(marker: byte)
    | MissingObjectEnd(found: byte)
    | InvalidReference(index: u32)
    | ChunkTooLarge(size: u32)
    | NotModelled

  /** Either a value together with what is left of the input, or an error. */
  datatype Parsed<+T, +S> = Ok(value: T, rest: S) | Fail(error: Error) {
    predicate IsFailure() {
      Fail?
    }

    function PropagateFailure<U>(): Parsed<U, S>
      requires Fail?
    {
      Fail(error)
    }

    function Extract(): (T, S)
      requires Ok?
    {
      (value, rest)
    }
  }

  /** What an operation on a reader object reports: the rest of the input stays in the object. */
  datatype Result<+T> = Success(value: T) | Failure(error: Error)

  /** The report `r` and the reader's new input `rest` are those of the parse `p`.
      After an error the reader's input is unspecified. */
  ghost predicate Reflects<T, S>(p: Parsed<T, S>, r: Result<T>, rest: S) {
    match p
    case Ok(v, s) => r == Success(v) && rest == s
    case Fail(e) => r == Failure(e)
  }

  lemma Concat(a: Bytes, b: Bytes, c: Bytes)
    ensures (a + b) + c == a + (b + c)
  {
  }

  function Be16(n: u16): (b: Bytes)
    ensures |b| == 2
  {
    [n / 0x100, n % 0x100]
  }

  function Be24(n: u24): (b: Bytes)
    ensures |b| == 3
  {
    [n / 0x1_0000, n / 0x100 % 0x100, n % 0x100]
  }

  function Be32(n: u32): (b: Bytes)
    ensures |b| == 4
  {
    [n / 0x100_0000, n / 0x1_0000 % 0x100, n / 0x100 % 0x100, n % 0x100]
  }

  function Be64(n: u64): (b: Bytes)
    ensures |b| == 8
  {
    Be32(n / U32) + Be32(n % U32)
  }

  function Le32(n: u32): (b: Bytes)
    ensures |b| == 4
  {
    [n % 0x100, n / 0x100 % 0x100, n / 0x1_0000 % 0x100, n / 0x100_0000]
  }

  function FromBe16(b: Bytes): u16
    requires |b| == 2
  {
    b[0] as int * 0x100 + b[1]
  }

  function FromBe24(b: Bytes): u24
    requires |b| == 3
  {
    b[0] as int * 0x1_0000 + b[1] as int * 0x100 + b[2]
  }

  function FromBe32(b: Bytes): u32
    requires |b| == 4
  {
    b[0] as int * 0x100_0000 + b[1] as int * 0x1_0000 + b[2] as int * 0x100 + b[3]
  }

  function FromBe64(b: Bytes): u64
    requires |b| == 8
  {
    FromBe32(b[..4]) * U32 + FromBe32(b[4..])
  }

  function FromLe32(b: Bytes): u32
    requires |b| == 4
  {
    b[0] as int + b[1] as int * 0x100 + b[2] as int * 0x1_0000 + b[3] as int * 0x100_0000
  }

  lemma Be32RoundTrip(n: u32)
    ensures FromBe32(Be32(n)) == n
    ensures FromLe32(Le32(n)) == n
  {
    assert n / 0x100_0000 == n / 0x1_0000 / 0x100;
    assert n / 0x1_0000 == n / 0x100 / 0x100;
  }

  lemma Be24RoundTrip(n: u24)
    ensures FromBe24(Be24(n)) == n
  {
    assert n / 0x1_0000 == n / 0x100 / 0x100;
  }

  lemma Be64RoundTrip(n: u64)
    ensures FromBe64(Be64(n)) == n
  {
    var hi, lo := n / U32, n % U32;
    Be32RoundTrip(hi);
    Be32RoundTrip(lo);
    assert Be64(n)[..4] == Be32(hi) && Be64(n)[4..] == Be32(lo);
  }

  /** `io.ReadFull` of `n` bytes. */
  function Take(s: Bytes, n: nat): (r: Parsed<Bytes, Bytes>)
    ensures r.Ok? ==> s == r.value + r.rest && |r.value| == n
    ensures r.Ok? <==> n <= |s|
  {
    if |s| < n then Fail(Truncated) else Ok(s[..n], s[n..])
  }

  lemma TakeAppend(a: Bytes, b: Bytes)
    ensures Take(a + b, |a|) == Ok(a, b)
  {
    assert (a + b)[..|a|] == a && (a + b)[|a|..] == b;
  }

  /** Parsing with the bytes `x` after the input goes as without them, unless the input was too short. */
  ghost predicate Extends<T>(p: Parsed<T, Bytes>, q: Parsed<T, Bytes>, x: Bytes) {
    match p
    case Ok(v, r) => q == Ok(v, r + x)
    case Fail(e) => e == Truncated || q == Fail(e)
  }

  lemma TakeExtends(s: Bytes, n: nat, x: Bytes)
    ensures Extends(Take(s, n), Take(s + x, n), x)
  {
    if n <= |s| {
      assert (s + x)[..n] == s[..n] && (s + x)[n..] == s[n..] + x;
    }
  }

  /** The parse `p` of the elements that follow the elements `vs`. */
  ghost function Prepend<T, S>(vs: seq<T>, p: Parsed<seq<T>, S>): Parsed<seq<T>, S> {
    match p
    case Ok(ws, r) => Ok(vs + ws, r)
    case Fail(e) => Fail(e)
  }

  lemma PrependStep<T, S>(vs: seq<T>, v: T, p: Parsed<seq<T>, S>)
    ensures Prepend(vs + [v], p) == Prepend(vs, Prepend([v], p))
  {
    if p.Ok? {
      assert vs + [v] + p.value == vs + ([v] + p.value);
    }
  }

  lemma PrependEnds<T, S>(vs: seq<T>, rest: S, p: Parsed<seq<T>, S>)
    ensures Prepend([], p) == p
    ensures Prepend(vs, Ok([], rest)) == Ok(vs, rest)
  {
    if p.Ok? {
      assert [] + p.value == p.value;
    }
    assert vs + [] == vs;
  }

  function TakeByte(s: Bytes): Parsed<byte, Bytes> {
    if s == [] then Fail(Truncated) else Ok(s[0], s[1..])
  }

  function TakeBe32(s: Bytes): (r: Parsed<u32, Bytes>)
    ensures r.Ok? ==> |r.rest| == |s| - 4
  {
    var (b, r) :- Take(s, 4);
    Ok(FromBe32(b), r)
  }

  function TakeBe64(s: Bytes): (r: Parsed<u64, Bytes>)
    ensures r.Ok? ==> |r.rest| == |s| - 8
  {
    var (b, r) :- Take(s, 8);
    Ok(FromBe64(b), r)
  }

  function TakeBe16(s: Bytes): (r: Parsed<u16, Bytes>)
    ensures r.Ok? ==> |r.rest| == |s| - 2
  {
    var (b, r) :- Take(s, 2);
    Ok(FromBe16(b), r)
  }

  lemma TakeWords(n: u16, w: u32, d: u64, k: Bytes)
    ensures TakeBe16(Be16(n) + k) == Ok(n, k)
    ensures TakeBe32(Be32(w) + k) == Ok(w, k)
    ensures TakeBe64(Be64(d) + k) == Ok(d, k)
  {
    TakeAppend(Be16(n), k);
    TakeAppend(Be32(w), k);
    TakeAppend(Be64(d), k);
    Be32RoundTrip(w);
    Be64RoundTrip(d);
  }

  lemma TakeByteExtends(s: Bytes, x: Bytes)
    ensures Extends(TakeByte(s), TakeByte(s + x), x)
  {
    if s != [] {
      assert (s + x)[1..] == s[1..] + x;
    }
  }

  lemma TakeWordsExtend(s: Bytes, x: Bytes)
    ensures Extends(TakeBe16(s), TakeBe16(s + x), x)
    ensures Extends(TakeBe32(s), TakeBe32(s + x), x)
    ensures Extends(TakeBe64(s), TakeBe64(s + x), x)
  {
    TakeExtends(s, 2, x);
    TakeExtends(s, 4, x);
    TakeExtends(s, 8, x);
  }
}
