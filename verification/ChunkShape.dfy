/** How a message is cut into chunks. */
module ChunkShape {
  import opened Wire
  import opened Chunks

  function Payload(cs: seq<Chunk>): Bytes {
    if cs == [] then [] else cs[0].data + Payload(cs[1..])
  }

  /** All chunks but the last are full, the last is not empty, and all are on chunk stream `id`. */
  ghost predicate WellCut(cs: seq<Chunk>, id: u32, size: u32) {
    && (forall i | 0 <= i < |cs| - 1 :: |cs[i].data| == size)
    && (cs != [] ==> 1 <= |cs[|cs| - 1].data| <= size)
    && (forall i | 0 <= i < |cs| :: cs[i].header.csid == id)
  }

  function CeilDiv(n: nat, d: u32): nat
    requires d > 0
  {
    (n + d - 1) / d
  }

  lemma CeilDivStep(n: nat, d: u32)
    requires 0 < d <= n
    ensures CeilDiv(n, d) == 1 + CeilDiv(n - d, d)
  {
    var q, m := (n - d + d - 1) / d, (n - d + d - 1) % d;
    DivUnique(n + d - 1, d, q + 1, m);
  }

  lemma DivUnique(n: nat, d: int, q: nat, m: nat)
    requires d > 0 && m < d && n == q * d + m
    ensures n / d == q
  {
    var p := n / d;
    assert (p - q) * d == m - n % d;
    SmallMultiple(p - q, d);
  }

  lemma SmallMultiple(k: int, d: int)
    requires -d < k * d < d
    ensures k == 0
  {
  }

  lemma CeilDivSmall(n: nat, d: u32)
    requires d > 0 && n <= d
    ensures CeilDiv(n, d) == if n == 0 then 0 else 1
  {
    if n == 0 {
      DivUnique(d - 1, d, 0, d - 1);
    } else {
      DivUnique(n + d - 1, d, 1, n - 1);
    }
  }

  /** One more chunk in front. */
  lemma CutMore(c: Chunk, tail: seq<Chunk>, rest: Bytes, id: u32, size: u32)
    requires WellCut(tail, id, size) && Payload(tail) == rest && c.header.csid == id
    requires |c.data| == size || (tail == [] && 1 <= |c.data| <= size)
    requires size > 0
    ensures WellCut([c] + tail, id, size) && Payload([c] + tail) == c.data + rest
  {
    var cs := [c] + tail;
    assert cs[1..] == tail;
    forall i | 0 <= i < |cs| - 1 ensures |cs[i].data| == size {
      if i > 0 {
        assert cs[i] == tail[i - 1];
      }
    }
    if tail != [] {
      assert cs[|cs| - 1] == tail[|tail| - 1];
    }
  }

  lemma {:induction false} ContinuationsShape(m: Message, data: Bytes, size: u32)
    requires size > 0
    ensures var cs := Continuations(m, data, size);
            && WellCut(cs, m.csid, size)
            && Payload(cs) == data
            && |cs| == CeilDiv(|data|, size)
            && forall i | 0 <= i < |cs| :: cs[i].header.format == 3
    decreases |data|
  {
    if data == [] {
      CeilDivSmall(0, size);
    } else {
      var n := Min(|data|, size);
      var tail := Continuations(m, data[n..], size);
      ContinuationsShape(m, data[n..], size);
      CutMore(Chunk(MakeHeader(3, m, 0), data[..n]), tail, data[n..], m.csid, size);
      assert data[..n] + data[n..] == data;
      Count(|data|, size);
    }
  }

  lemma Count(n: nat, size: u32)
    requires size > 0 && n > 0
    ensures CeilDiv(n, size) == 1 + CeilDiv(n - Min(n, size), size)
  {
    if n <= size {
      CeilDivSmall(n, size);
      CeilDivSmall(0, size);
    } else {
      CeilDivStep(n, size);
    }
  }

  lemma HeaderFormats(st: StreamState, m: Message)
    ensures var h := MakeHeader(FormatOf(st, m), m, TimeField(st, m));
            h.format == FormatOf(st, m) < 3 && h.csid == m.csid
  {
  }

  /** The chunks of a message carry exactly its payload, full but for the last; there are as few as possible; and
      only the first says what kind of message it is. */
  lemma Shape(st: StreamState, m: Message, size: u32)
    requires size > 0 && |m.data| < U32
    ensures var cs := CreateChunks(st, m, size);
            && Payload(cs) == m.data
            && WellCut(cs, m.csid, size)
            && |cs| == CeilDiv(|m.data|, size)
            && (cs != [] ==> cs[0].header.format < 3)
            && (forall i | 1 <= i < |cs| :: cs[i].header.format == 3)
  {
    hide CeilDiv, MakeHeader, TimeField, Continuations;
    var data := m.data;
    assert data[..|data|] == data;
    if data == [] {
      CeilDivSmall(0, size);
    } else {
      var n := Min(|data|, size);
      var tail := Continuations(m, data[n..], size);
      ContinuationsShape(m, data[n..], size);
      HeaderFormats(st, m);
      var c := Chunk(MakeHeader(FormatOf(st, m), m, TimeField(st, m)), data[..n]);
      CutMore(c, tail, data[n..], m.csid, size);
      assert data[..n] + data[n..] == data;
      Count(|data|, size);
    }
  }

  /** A chunk brings a message in progress closer to its end, and ends it exactly when it brings what was missing:
      with nothing left out of step, after the fewest chunks that can hold it. */
  lemma Progresses(size: u32, p: Partial, c: Chunk)
    requires SafeSize(size) && SafePartial(p) && c.header.length == p.message.length
    requires |c.data| == DataSize(c.header, Recall(c.header), Some(p), size)
    ensures match Assemble(Some(p), c)
            case Pending(p') =>
              && p'.bytesRead == p.bytesRead + size
              && p'.message.length - p'.bytesRead < p.message.length - p.bytesRead
              && CeilDiv(p'.message.length - p'.bytesRead, size) == CeilDiv(p.message.length - p.bytesRead, size) - 1
            case Complete(m) =>
              && |c.data| == p.message.length - p.bytesRead
              && CeilDiv(p.message.length - p.bytesRead, size) == 1
  {
    var left := p.message.length - p.bytesRead;
    assert Wrap32(left) == left;
    if left <= size {
      CeilDivSmall(left, size);
    } else {
      CeilDivStep(left, size);
    }
  }
}
