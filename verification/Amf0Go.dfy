/** Go values: what the AMF0 encoder makes of them, and the second AMF0 decoder, which returns them. */
module Amf0Go {
  import opened Wire
  import opened Collections
  import opened Amf0
  import opened Amf0Proofs
  import Amf3

  /** The Go values that commands carry, with values of either codec among them. A time is the milliseconds it was
      made from. */
  datatype Go =
    | Nil
    | Bool(b: bool)
    | Int(i: int)
    | Float(bits: u64)
    | Str(text: Bytes)
    | Map(entries: map<Bytes, Go>)
    | Slice(elems: seq<Go>)
    | Time(millis: u64)
    | Amf0Value(amf0: Value)
    | Amf3Value(amf3: Amf3.Value)

  /** The name `__className`. */
  const CLASS_NAME: Bytes := [0x5F, 0x5F, 0x63, 0x6C, 0x61, 0x73, 0x73, 0x4E, 0x61, 0x6D, 0x65]

  // ----- From AMF0 values to Go values

  function ClassEntry(h: Head): map<Bytes, Go> {
    if h.TypedObject? then map[CLASS_NAME := Str(h.className)] else map[]
  }

  /** What the Go decoder keeps of a value: null and undefined are one, array counts and time zones are
      dropped, and the class of a typed object is an entry that a property of that name overrides. */
  function ToGo(v: Value): Go {
    match v
    case Number(bits) => Float(bits)
    case Boolean(b) => Bool(b)
    case String(s) => Str(s)
    case Null => Nil
    case Undefined => Nil
    case Date(ms, _) => Time(ms)
    case LongString(s) => Str(s)
    case Record(h, ps) => Map(ClassEntry(h) + map k | k in ps :: ToGo(ps[k]))
    case StrictArray(vs) => Slice(seq(|vs|, i requires 0 <= i < |vs| => ToGo(vs[i])))
  }

  // ----- The decoder to Go values

  function TakeGoLeaf(marker: byte, s: Bytes): (r: Parsed<Go, Bytes>)
    ensures r.Ok? ==> |r.rest| <= |s|
  {
    if marker == NUMBER then
      var (n, r) :- TakeBe64(s);
      Ok(Float(n), r)
    else if marker == BOOLEAN then
      var (b, r) :- TakeByte(s);
      Ok(Bool(b != 0), r)
    else if marker == STRING then
      var (t, r) :- TakeUtf8(s);
      Ok(Str(t), r)
    else if marker == NULL || marker == UNDEFINED then
      Ok(Nil, s)
    else if marker == DATE then
      var (d, r) :- TakeDate(s);
      Ok(Time(d.millis), r)
    else if marker == LONG_STRING then
      var (t, r) :- TakeLongUtf8(s);
      Ok(Str(t), r)
    else
      Fail(UnsupportedMarker(marker))
  }

  function DecodeGo(s: Bytes): (r: Parsed<Go, Bytes>)
    ensures r.Ok? ==> |r.rest| < |s|
    decreases |s|, 0
  {
    var (marker, r) :- TakeByte(s);
    if IsRecord(marker) then
      var (h, r) :- TakeHead(marker, r);
      var (m, r) :- DecodeGoProps(r, ClassEntry(h));
      Ok(Map(m), r)
    else if marker == STRICT_ARRAY then
      var (n, r) :- TakeBe32(r);
      var (vs, r) :- DecodeGoAll(r, n);
      Ok(Slice(vs), r)
    else
      TakeGoLeaf(marker, r)
  }

  function DecodeGoProps(s: Bytes, acc: map<Bytes, Go>): (r: Parsed<map<Bytes, Go>, Bytes>)
    ensures r.Ok? ==> |r.rest| < |s|
    decreases |s|, 1
  {
    var (key, r) :- TakeUtf8(s);
    if key == [] then TakeEnd(r, acc) else
      var (v, r) :- DecodeGo(r);
      DecodeGoProps(r, acc[key := v])
  }

  function DecodeGoAll(s: Bytes, n: nat): (r: Parsed<seq<Go>, Bytes>)
    ensures r.Ok? ==> |r.rest| <= |s| && |r.value| == n
    decreases |s|, 1
  {
    if n == 0 then Ok([], s) else
      var (v, r) :- DecodeGo(s);
      var (vs, r) :- DecodeGoAll(r, n - 1);
      Ok([v] + vs, r)
  }

  // ----- The two decoders agree

  ghost function Overlay(base: map<Bytes, Go>, ps: map<Bytes, Value>): map<Bytes, Go> {
    base + map k | k in ps :: ToGo(ps[k])
  }

  lemma OverlayUpdate(base: map<Bytes, Go>, ps: map<Bytes, Value>, k: Bytes, v: Value)
    ensures Overlay(base, ps[k := v]) == Overlay(base, ps)[k := ToGo(v)]
  {
    hide ToGo;
    var before := map n | n in ps :: ToGo(ps[n]);
    var more := ps[k := v];
    var after := map n | n in more :: ToGo(more[n]);
    assert after == before[k := ToGo(v)];
    MergeUpdate(base, before, k, ToGo(v));
  }

  ghost function GoAll(vs: seq<Value>): (gs: seq<Go>)
    ensures |gs| == |vs|
    ensures forall i | 0 <= i < |vs| :: gs[i] == ToGo(vs[i])
  {
    if vs == [] then [] else [ToGo(vs[0])] + GoAll(vs[1..])
  }

  lemma LeavesAgree(marker: byte, s: Bytes)
    requires !IsRecord(marker) && marker != STRICT_ARRAY
    ensures TakeGoLeaf(marker, s)
            == match TakeLeaf(marker, s) case Ok(v, r) => Ok(ToGo(v), r) case Fail(e) => Fail(e)
  {
    hide TakeBe64, TakeUtf8, TakeLongUtf8, TakeDate;
  }

  /** On every input the Go decoder succeeds exactly when the other does, consumes the same bytes, fails with
      the same error, and returns the Go form of the other's value. */
  lemma {:induction false} DecodersAgree(s: Bytes)
    ensures DecodeGo(s) == match Decode(s) case Ok(v, r) => Ok(ToGo(v), r) case Fail(e) => Fail(e)
    decreases |s|, 0
  {
    hide TakeLeaf, TakeGoLeaf, TakeHead, TakeBe32, DecodeProps, DecodeGoProps, DecodeAll, DecodeGoAll;
    if s != [] {
      var marker, r := s[0], s[1..];
      if IsRecord(marker) {
        var h := TakeHead(marker, r);
        if h.Ok? {
          PropsAgree(h.rest, ClassEntry(h.value), map[], ClassEntry(h.value));
          var p := DecodeProps(h.rest, map[]);
          if p.Ok? {
            assert ToGo(Record(h.value, p.value)) == Map(Overlay(ClassEntry(h.value), p.value));
          }
        }
      } else if marker == STRICT_ARRAY {
        var n := TakeBe32(r);
        if n.Ok? {
          ElementsAgree(n.rest, n.value);
          var p := DecodeAll(n.rest, n.value);
          if p.Ok? {
            assert ToGo(StrictArray(p.value)) == Slice(GoAll(p.value));
          }
        }
      } else {
        LeavesAgree(marker, r);
      }
    }
  }

  lemma {:induction false} PropsAgree(s: Bytes, base: map<Bytes, Go>, acc: map<Bytes, Value>, goAcc: map<Bytes, Go>)
    requires goAcc == Overlay(base, acc)
    ensures DecodeGoProps(s, goAcc)
            == match DecodeProps(s, acc) case Ok(ps, r) => Ok(Overlay(base, ps), r) case Fail(e) => Fail(e)
    decreases |s|, 1
  {
    var k := TakeUtf8(s);
    if k.Ok? && k.value != [] {
      DecodersAgree(k.rest);
      var v := Decode(k.rest);
      if v.Ok? {
        OverlayUpdate(base, acc, k.value, v.value);
        PropsAgree(v.rest, base, acc[k.value := v.value], goAcc[k.value := ToGo(v.value)]);
      }
    }
  }

  lemma {:induction false} ElementsAgree(s: Bytes, n: nat)
    ensures DecodeGoAll(s, n)
            == match DecodeAll(s, n)
               case Ok(vs, r) => Ok(GoAll(vs), r)
               case Fail(e) => Fail(e)
    decreases |s|, 1
  {
    if n > 0 {
      DecodersAgree(s);
      var v := Decode(s);
      if v.Ok? {
        ElementsAgree(v.rest, n - 1);
        var vs := DecodeAll(v.rest, n - 1);
        if vs.Ok? {
          assert ([v.value] + vs.value)[1..] == vs.value;
        }
      }
    }
  }

  // ----- From Go values to AMF0 values

  /** The values that the AMF0 encoder has a case for: neither times nor AMF3 values, however deep. */
  predicate Supported(g: Go) {
    match g
    case Map(m) => forall k | k in m :: Supported(m[k])
    case Slice(gs) => forall i | 0 <= i < |gs| :: Supported(gs[i])
    case Time(_) => false
    case Amf3Value(_) => false
    case _ => true
  }

  /** The value `x` is `g` or somewhere in it. */
  ghost predicate Within(x: Go, g: Go)
    decreases g
  {
    x == g ||
    match g
    case Map(m) => exists k :: k in m && Within(x, m[k])
    case Slice(gs) => exists i :: 0 <= i < |gs| && Within(x, gs[i])
    case _ => false
  }

  lemma {:induction false} SupportedIff(g: Go)
    ensures Supported(g) <==> forall x | Within(x, g) :: !x.Time? && !x.Amf3Value?
  {
    assert Within(g, g);
    match g {
      case Map(m) =>
        forall k | k in m ensures Supported(m[k]) <==> forall x | Within(x, m[k]) :: !x.Time? && !x.Amf3Value? {
          SupportedIff(m[k]);
        }
      case Slice(gs) =>
        forall i | 0 <= i < |gs|
          ensures Supported(gs[i]) <==> forall x | Within(x, gs[i]) :: !x.Time? && !x.Amf3Value?
        {
          SupportedIff(gs[i]);
        }
      case _ =>
    }
  }

  /** The AMF0 value whose encoding a supported Go value has; `float` is the conversion of integers to doubles.
      What is not supported has none, and null stands for it. */
  function FromGo(g: Go, float: int -> u64): Value {
    match g
    case Nil => Null
    case Bool(b) => Boolean(b)
    case Int(i) => Number(float(i))
    case Float(bits) => Number(bits)
    case Str(s) => String(s)
    case Map(m) => Record(PlainObject, map k | k in m :: FromGo(m[k], float))
    case Slice(gs) => StrictArray(seq(|gs|, i requires 0 <= i < |gs| => FromGo(gs[i], float)))
    case Time(_) => Null
    case Amf0Value(v) => v
    case Amf3Value(_) => Null
  }

  /** What comes back from the wire: the value itself, with integers as doubles and AMF0 values in their Go form. */
  function Image(g: Go, float: int -> u64): Go {
    match g
    case Int(i) => Float(float(i))
    case Map(m) => Map(map k | k in m :: Image(m[k], float))
    case Slice(gs) => Slice(seq(|gs|, i requires 0 <= i < |gs| => Image(gs[i], float)))
    case Amf0Value(v) => ToGo(Normalize(v))
    case _ => g
  }

  lemma {:induction false} ImageOfNormal(g: Go, float: int -> u64)
    requires Supported(g)
    ensures ToGo(Normalize(FromGo(g, float))) == Image(g, float)
  {
    var v := FromGo(g, float);
    match g {
      case Map(m) =>
        var got, image := ToGo(Normalize(v)).entries, Image(g, float).entries;
        assert got.Keys == m.Keys == image.Keys;
        forall k | k in m ensures got[k] == image[k] {
          ImageOfNormal(m[k], float);
        }
        assert got == image;
      case Slice(gs) =>
        forall i | 0 <= i < |gs| ensures ToGo(Normalize(FromGo(gs[i], float))) == Image(gs[i], float) {
          ImageOfNormal(gs[i], float);
        }
        assert ToGo(Normalize(v)).elems == Image(g, float).elems;
      case _ =>
    }
  }

  /** The Go values that AMF0 has room for: names of properties are not empty, and every length fits its field. */
  predicate Fits(g: Go) {
    match g
    case Str(s) => |s| < 0x1_0000_0000
    case Map(m) => forall k | k in m :: 1 <= |k| <= 0xFFFF && Fits(m[k])
    case Slice(gs) => |gs| < 0x1_0000_0000 && forall i | 0 <= i < |gs| :: Fits(gs[i])
    case Amf0Value(v) => Encodable(v)
    case _ => true
  }

  lemma {:induction false} FitsIff(g: Go, float: int -> u64)
    ensures Fits(g) <==> Encodable(FromGo(g, float))
  {
    match g {
      case Map(m) =>
        var ps := FromGo(g, float).props;
        assert ps.Keys == m.Keys;
        forall k | k in m ensures Fits(m[k]) <==> Encodable(ps[k]) {
          FitsIff(m[k], float);
        }
      case Slice(gs) =>
        var vs := FromGo(g, float).elems;
        forall i | 0 <= i < |gs| ensures Fits(gs[i]) <==> Encodable(vs[i]) {
          FitsIff(gs[i], float);
        }
      case _ =>
    }
  }

  /** A supported Go value whose names are not empty and whose lengths fit comes back itself, integers as doubles and
      AMF0 values in their Go form, whatever the order in which its maps are walked. */
  lemma GoRoundTrip(g: Go, float: int -> u64, t: Listing, k: Bytes)
    requires Supported(g) && Fits(g)
    requires Lists(t) && Erase(t) == FromGo(g, float)
    ensures Writable(t)
    ensures DecodeGo(Encode(t) + k) == Ok(Image(g, float), k)
  {
    FitsIff(g, float);
    RoundTrip(t, k);
    DecodersAgree(Encode(t) + k);
    ImageOfNormal(g, float);
  }
}
