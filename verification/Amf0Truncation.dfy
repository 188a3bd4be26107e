/** Cutting AMF0 input short, and the normal form of decoded values. */
module Amf0Truncation {
  import opened Wire
  import opened Amf0
  import opened Amf0Proofs

  // ----- What follows a value does not matter

  lemma TakeUtf8Extends(s: Bytes, x: Bytes)
    ensures Extends(TakeUtf8(s), TakeUtf8(s + x), x)
    ensures Extends(TakeLongUtf8(s), TakeLongUtf8(s + x), x)
  {
    TakeWordsExtend(s, x);
    if TakeBe16(s).Ok? {
      TakeExtends(TakeBe16(s).rest, TakeBe16(s).value, x);
    }
    if TakeBe32(s).Ok? {
      TakeExtends(TakeBe32(s).rest, TakeBe32(s).value, x);
    }
  }

  lemma TakeDateExtends(s: Bytes, x: Bytes)
    ensures Extends(TakeDate(s), TakeDate(s + x), x)
  {
    TakeWordsExtend(s, x);
    if TakeBe64(s).Ok? {
      TakeWordsExtend(TakeBe64(s).rest, x);
    }
  }

  lemma TakeLeafExtends(marker: byte, s: Bytes, x: Bytes)
    ensures Extends(TakeLeaf(marker, s), TakeLeaf(marker, s + x), x)
  {
    if marker == NUMBER {
      TakeWordsExtend(s, x);
    } else if marker == BOOLEAN {
      TakeByteExtends(s, x);
    } else if marker == STRING || marker == LONG_STRING {
      TakeUtf8Extends(s, x);
    } else if marker == DATE {
      TakeDateExtends(s, x);
    }
  }

  lemma TakeHeadExtends(marker: byte, s: Bytes, x: Bytes)
    requires IsRecord(marker)
    ensures Extends(TakeHead(marker, s), TakeHead(marker, s + x), x)
  {
    TakeWordsExtend(s, x);
    TakeUtf8Extends(s, x);
  }

  lemma {:induction false} DecodeExtends(s: Bytes, x: Bytes)
    ensures Extends(Decode(s), Decode(s + x), x)
    decreases |s|, 0
  {
    TakeByteExtends(s, x);
    if s != [] {
      var marker, r := s[0], s[1..];
      TakeLeafExtends(marker, r, x);
      TakeWordsExtend(r, x);
      if IsRecord(marker) {
        TakeHeadExtends(marker, r, x);
        if TakeHead(marker, r).Ok? {
          DecodePropsExtends(TakeHead(marker, r).rest, map[], x);
        }
      } else if marker == STRICT_ARRAY && TakeBe32(r).Ok? {
        DecodeAllExtends(TakeBe32(r).rest, TakeBe32(r).value, x);
      }
    }
  }

  lemma {:induction false} DecodePropsExtends(s: Bytes, acc: map<Bytes, Value>, x: Bytes)
    ensures Extends(DecodeProps(s, acc), DecodeProps(s + x, acc), x)
    decreases |s|, 1
  {
    TakeUtf8Extends(s, x);
    var k := TakeUtf8(s);
    if k.Ok? {
      if k.value == [] {
        TakeByteExtends(k.rest, x);
      } else {
        DecodeExtends(k.rest, x);
        var v := Decode(k.rest);
        if v.Ok? {
          DecodePropsExtends(v.rest, acc[k.value := v.value], x);
        }
      }
    }
  }

  lemma {:induction false} DecodeAllExtends(s: Bytes, n: nat, x: Bytes)
    ensures Extends(DecodeAll(s, n), DecodeAll(s + x, n), x)
    decreases |s|, 1
  {
    if n > 0 {
      DecodeExtends(s, x);
      var v := Decode(s);
      if v.Ok? {
        DecodeAllExtends(v.rest, n - 1, x);
      }
    }
  }

  /** Where one value ends is settled by its bytes: input cut anywhere inside it runs out. */
  lemma CutInside(s: Bytes, n: nat)
    requires Decode(s).Ok? && n < |s| - |Decode(s).rest|
    ensures Decode(s[..n]) == Fail(Truncated)
  {
    assert s[..n] + s[n..] == s;
    DecodeExtends(s[..n], s[n..]);
  }

  /** Every strict prefix of an encoding is rejected. */
  lemma EncodingCut(t: Listing, n: nat)
    requires Lists(t) && Encodable(Erase(t)) && Writable(t)
    requires n < |Encode(t)|
    ensures Decode(Encode(t)[..n]) == Fail(Truncated)
  {
    RoundTrip(t, []);
    assert Encode(t) + [] == Encode(t);
    CutInside(Encode(t), n);
  }

  // ----- The normal form

  /** Every value has a listing. */
  lemma {:induction false} ListingOf(v: Value) returns (t: Listing)
    ensures Lists(t) && Erase(t) == v
    decreases v, 2
  {
    match v {
      case Record(h, ps) =>
        var es := ListingOfProps(v, ps.Keys);
        t := Entries(h, es);
        assert EraseEntries(es) == ps;
      case StrictArray(vs) =>
        var ts := ListingOfElems(v, 0);
        t := Elements(ts);
        assert EraseAll(ts) == vs;
      case _ =>
        t := Leaf(v);
    }
  }

  lemma {:induction false} ListingOfProps(v: Value, names: set<Bytes>) returns (es: seq<Entry>)
    requires v.Record? && names <= v.props.Keys
    ensures ListsEntries(es)
    ensures EraseEntries(es).Keys == names && forall k | k in names :: EraseEntries(es)[k] == v.props[k]
    decreases v, 1, |names|
  {
    if names == {} {
      es := [];
    } else {
      hide Lists, ListsEntries, Erase, EraseEntries;
      var k :| k in names;
      var l := ListingOf(v.props[k]);
      var tail := ListingOfProps(v, names - {k});
      es := [Entry(k, l)] + tail;
      ListMore(Entry(k, l), tail);
      assert names == (names - {k}) + {k};
    }
  }

  lemma ListMore(e: Entry, tail: seq<Entry>)
    requires Lists(e.listing) && ListsEntries(tail) && e.key !in EraseEntries(tail)
    ensures ListsEntries([e] + tail)
    ensures EraseEntries([e] + tail) == EraseEntries(tail)[e.key := Erase(e.listing)]
  {
    NameIsNew(tail, e.key);
    ListsMore(e, tail);
    assert ([e] + tail)[1..] == tail;
  }

  lemma ListsMore(e: Entry, tail: seq<Entry>)
    requires Lists(e.listing) && ListsEntries(tail) && forall i | 0 <= i < |tail| :: tail[i].key != e.key
    ensures ListsEntries([e] + tail)
  {
    hide Lists;
  }

  lemma {:induction false} ListingOfElems(v: Value, from: nat) returns (ts: seq<Listing>)
    requires v.StrictArray? && from <= |v.elems|
    ensures forall i | 0 <= i < |ts| :: Lists(ts[i])
    ensures EraseAll(ts) == v.elems[from..]
    decreases v, 1, |v.elems| - from
  {
    if from == |v.elems| {
      ts := [];
    } else {
      var l := ListingOf(v.elems[from]);
      var tail := ListingOfElems(v, from + 1);
      ts := [l] + tail;
      assert ts[1..] == tail;
    }
  }

  /** Whatever the decoder accepts, duplicate names, booleans other than 0 and 1 and short long strings
      included, its value can be encoded, in whatever order, and decodes to the same value again. */
  lemma NormalForm(s: Bytes, t: Listing, k: Bytes)
    requires Decode(s).Ok?
    requires Lists(t) && Erase(t) == Decode(s).value
    ensures Writable(t)
    ensures Decode(Encode(t) + k) == Ok(Decode(s).value, k)
  {
    DecodedIsCanonical(s);
    CanonicalIsNormal(Erase(t));
    RoundTrip(t, k);
  }
}
