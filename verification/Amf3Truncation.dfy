/** Cutting AMF3 input short. */
module Amf3Truncation {
  import opened Wire
  import U29
  import opened Amf3

  /** The same input with the bytes `x` after it. */
  function More(s: Input, x: Bytes): Input {
    s.(bytes := s.bytes + x)
  }

  /** Parsing with more bytes after the input goes as without them, unless the input was too short. */
  ghost predicate ExtendsInput<T>(p: Parsed<T, Input>, q: Parsed<T, Input>, x: Bytes) {
    match p
    case Ok(v, r) => q == Ok(v, More(r, x))
    case Fail(e) => e == Truncated || q == Fail(e)
  }

  lemma TakeMarkerExtends(s: Input, x: Bytes)
    ensures ExtendsInput(TakeMarker(s), TakeMarker(More(s, x)), x)
  {
    TakeByteExtends(s.bytes, x);
  }

  lemma TakeU29Extends(s: Input, x: Bytes)
    ensures ExtendsInput(TakeU29(s), TakeU29(More(s, x)), x)
  {
    U29.ReadUnrolled(s.bytes);
    if U29.Read(s.bytes).Ok? {
      U29.ReadFromExtends(s.bytes, 0, 0, x);
    }
  }

  lemma TakeStringExtends(s: Input, x: Bytes)
    ensures ExtendsInput(TakeString(s), TakeString(More(s, x)), x)
  {
    hide TakeU29;
    TakeU29Extends(s, x);
    var h := TakeU29(s);
    if h.Ok? {
      TakeExtends(h.rest.bytes, h.value / 2, x);
    }
  }

  lemma TakeLiteralExtends(s: Input, x: Bytes)
    ensures ExtendsInput(TakeLiteral(s), TakeLiteral(More(s, x)), x)
  {
    hide TakeU29;
    TakeU29Extends(s, x);
  }

  lemma TakeLeafExtends(marker: byte, s: Input, x: Bytes)
    ensures ExtendsInput(TakeLeaf(marker, s), TakeLeaf(marker, More(s, x)), x)
  {
    hide TakeU29, TakeString, TakeBe64;
    if marker == INTEGER {
      TakeU29Extends(s, x);
    } else if marker == DOUBLE {
      TakeWordsExtend(s.bytes, x);
    } else if marker == STRING {
      TakeStringExtends(s, x);
    }
  }

  lemma {:induction false} DecodeExtends(s: Input, x: Bytes)
    ensures ExtendsInput(Decode(s), Decode(More(s, x)), x)
    decreases |s.bytes|, 0
  {
    hide TakeMarker, TakeU29, TakeString, TakeLiteral, TakeLeaf;
    TakeMarkerExtends(s, x);
    if TakeMarker(s).Ok? {
      var marker, r := TakeMarker(s).value, TakeMarker(s).rest;
      if marker == ARRAY {
        TakeLiteralExtends(r, x);
        var h := TakeLiteral(r);
        if h.Ok? {
          DecodePropsExtends(h.rest, map[], x);
          var ps := DecodeProps(h.rest, map[]);
          if ps.Ok? {
            DecodeAllExtends(ps.rest, h.value / 2, x);
          }
        }
      } else if marker == OBJECT {
        TakeLiteralExtends(r, x);
        var h := TakeLiteral(r);
        if h.Ok? {
          TakeStringExtends(h.rest, x);
          var c := TakeString(h.rest);
          if c.Ok? {
            DecodePropsExtends(c.rest, map[], x);
          }
        }
      } else {
        TakeLeafExtends(marker, r, x);
      }
    }
  }

  lemma {:induction false} DecodePropsExtends(s: Input, acc: map<Bytes, Value>, x: Bytes)
    ensures ExtendsInput(DecodeProps(s, acc), DecodeProps(More(s, x), acc), x)
    decreases |s.bytes|, 1
  {
    hide TakeString, Decode;
    TakeStringExtends(s, x);
    var k := TakeString(s);
    if k.Ok? && k.value != [] {
      DecodeExtends(k.rest, x);
      var v := Decode(k.rest);
      if v.Ok? {
        DecodePropsExtends(v.rest, acc[k.value := v.value], x);
      }
    }
  }

  lemma {:induction false} DecodeAllExtends(s: Input, n: nat, x: Bytes)
    ensures ExtendsInput(DecodeAll(s, n), DecodeAll(More(s, x), n), x)
    decreases |s.bytes|, 1
  {
    hide Decode;
    if n > 0 {
      DecodeExtends(s, x);
      var v := Decode(s);
      if v.Ok? {
        DecodeAllExtends(v.rest, n - 1, x);
      }
    }
  }

  /** Where one value ends is settled by its bytes and the table: input cut anywhere inside it runs out. */
  lemma CutInside(s: Input, n: nat)
    requires Decode(s).Ok? && n < |s.bytes| - |Decode(s).rest.bytes|
    ensures Decode(s.(bytes := s.bytes[..n])) == Fail(Truncated)
  {
    assert s.bytes[..n] + s.bytes[n..] == s.bytes;
    DecodeExtends(s.(bytes := s.bytes[..n]), s.bytes[n..]);
  }
}
