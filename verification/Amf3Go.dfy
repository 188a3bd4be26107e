/** Go values as the AMF3 encoder takes them and as `Decode` returns them. */
module Amf3Go {
  import opened Wire
  import U29
  import opened Amf3
  import G = Amf0Go

  /** What `Decode` returns: arrays and objects become Go containers, but only the outermost; the values inside
      stay AMF3 values. */
  datatype Shallow =
    | Nil
    | Bool(b: bool)
    | Int32(i: int32)
    | Float(bits: u64)
    | Str(text: Bytes)
    | Elems(elems: seq<Value>)
    | Map(entries: map<Bytes, Value>)

  // ----- Arrays with named entries

  /** `fmt.Sprintf("%d", n)`. */
  function Decimal(n: nat): (d: Bytes)
    ensures d != [] && d[|d| - 1] == 0x30 + n % 10
  {
    if n < 10 then [0x30 + n] else Decimal(n / 10) + [0x30 + n % 10]
  }

  lemma {:induction false} DecimalsDiffer(m: nat, n: nat)
    ensures Decimal(m) == Decimal(n) ==> m == n
    decreases m + n
  {
    if Decimal(m) == Decimal(n) {
      if m >= 10 && n >= 10 {
        assert Decimal(m)[..|Decimal(m)| - 1] == Decimal(m / 10);
        assert Decimal(n)[..|Decimal(n)| - 1] == Decimal(n / 10);
        DecimalsDiffer(m / 10, n / 10);
      }
    }
  }

  /** The entries `0`, `1`, ... for the elements from number `from` on. */
  function Numbered(vs: seq<Value>, from: nat): map<Bytes, Value>
    requires from <= |vs|
    decreases |vs| - from
  {
    if from == |vs| then map[] else map[Decimal(from) := vs[from]] + Numbered(vs, from + 1)
  }

  lemma {:induction false} NumberedNames(vs: seq<Value>, from: nat, k: Bytes)
    requires from <= |vs|
    ensures k in Numbered(vs, from) ==> exists i :: from <= i < |vs| && k == Decimal(i)
    decreases |vs| - from
  {
    hide Decimal;
    if from < |vs| {
      NumberedNames(vs, from + 1, k);
    }
  }

  lemma {:induction false} NumberedAt(vs: seq<Value>, from: nat, i: nat)
    requires from <= i < |vs|
    ensures Decimal(i) in Numbered(vs, from) && Numbered(vs, from)[Decimal(i)] == vs[i]
    decreases |vs| - from
  {
    hide Decimal;
    if from < i {
      NumberedAt(vs, from + 1, i);
    } else {
      forall j | from < j < |vs| ensures Decimal(j) != Decimal(from) {
        DecimalsDiffer(j, from);
      }
      NumberedNames(vs, from + 1, Decimal(from));
    }
  }

  /** A dense array is a slice; one with named entries is a map, in which the elements are entries named by
      their numbers. */
  function GoArray(ps: map<Bytes, Value>, vs: seq<Value>): Shallow {
    if ps == map[] then Elems(vs) else Map(ps + Numbered(vs, 0))
  }

  /** In that map every element is found under its number, even where an entry had that name, and every other
      entry under its own name. */
  lemma MixedArray(ps: map<Bytes, Value>, vs: seq<Value>)
    requires ps != map[]
    ensures var m := GoArray(ps, vs).entries;
            && (forall i | 0 <= i < |vs| :: Decimal(i) in m && m[Decimal(i)] == vs[i])
            && (forall k | k in ps && (forall i | 0 <= i < |vs| :: k != Decimal(i)) :: k in m && m[k] == ps[k])
            && (forall k | k in m :: k in ps || exists i :: 0 <= i < |vs| && k == Decimal(i))
  {
    hide Decimal, Numbered;
    forall i | 0 <= i < |vs| ensures Decimal(i) in Numbered(vs, 0) && Numbered(vs, 0)[Decimal(i)] == vs[i] {
      NumberedAt(vs, 0, i);
    }
    forall k | k in Numbered(vs, 0) ensures exists i :: 0 <= i < |vs| && k == Decimal(i) {
      NumberedNames(vs, 0, k);
    }
  }

  // ----- The decoder to Go values

  /** The Go form of a value that the decoder returns. */
  function ToShallow(v: Value): Shallow {
    match v
    case Undefined => Nil
    case Null => Nil
    case Boolean(b) => Bool(b)
    case Integer(i) => Int32(i)
    case Double(bits) => Float(bits)
    case String(s) => Str(s)
    case Slice(vs) => Elems(vs)
    case Array(ps, vs) => GoArray(ps, vs)
    case Object(_, ps) => Map(ps)
  }

  function TakeShallowLeaf(marker: byte, s: Input): (r: Parsed<Shallow, Input>)
    ensures r.Ok? ==> |r.rest.bytes| <= |s.bytes|
  {
    if marker == UNDEFINED then Ok(Nil, s)
    else if marker == NULL then Ok(Nil, s)
    else if marker == FALSE then Ok(Bool(false), s)
    else if marker == TRUE then Ok(Bool(true), s)
    else if marker == INTEGER then
      var (x, r) :- TakeU29(s);
      Ok(Int32(U29.ToInt32(x)), r)
    else if marker == DOUBLE then
      var (bits, r) :- WithTables(s, TakeBe64(s.bytes));
      Ok(Float(bits), r)
    else if marker == STRING then
      var (text, r) :- TakeString(s);
      Ok(Str(text), r)
    else if marker == DATE then
      Fail(NotModelled)
    else
      Fail(UnsupportedMarker(marker))
  }

  function DecodeShallow(s: Input): (r: Parsed<Shallow, Input>)
    ensures r.Ok? ==> |r.rest.bytes| < |s.bytes|
  {
    var (marker, r) :- TakeMarker(s);
    if marker == ARRAY then
      var (v, r) :- TakeArray(r);
      Ok(GoArray(v.assoc, v.dense), r)
    else if marker == OBJECT then
      var (v, r) :- TakeObject(r);
      Ok(Map(v.props), r)
    else
      TakeShallowLeaf(marker, r)
  }

  /** On every input the decoder to Go values succeeds exactly when the other does, consumes the same bytes, leaves
      the same tables, fails with the same error, and returns the Go form of the other's value. */
  lemma ShallowAgrees(s: Input)
    ensures DecodeShallow(s) == match Decode(s) case Ok(v, r) => Ok(ToShallow(v), r) case Fail(e) => Fail(e)
  {
    hide TakeU29, TakeString, TakeArray, TakeObject, GoArray;
  }

  // ----- The encoder's view of Go values

  /** No times, whose encoding is not part of the model. */
  predicate Timeless(g: G.Go) {
    match g
    case Map(m) => forall k | k in m :: Timeless(m[k])
    case Slice(gs) => forall i | 0 <= i < |gs| :: Timeless(gs[i])
    case Time(_) => false
    case _ => true
  }

  /** The values that the AMF3 encoder has a case for: no AMF0 values, however deep. */
  predicate Supported(g: G.Go) {
    match g
    case Map(m) => forall k | k in m :: Supported(m[k])
    case Slice(gs) => forall i | 0 <= i < |gs| :: Supported(gs[i])
    case Amf0Value(_) => false
    case _ => true
  }

  lemma {:induction false} SupportedIff(g: G.Go)
    ensures Supported(g) <==> forall x | G.Within(x, g) :: !x.Amf0Value?
    ensures Timeless(g) <==> forall x | G.Within(x, g) :: !x.Time?
  {
    assert G.Within(g, g);
    match g {
      case Map(m) =>
        forall k | k in m
          ensures Supported(m[k]) <==> forall x | G.Within(x, m[k]) :: !x.Amf0Value?
          ensures Timeless(m[k]) <==> forall x | G.Within(x, m[k]) :: !x.Time?
        {
          SupportedIff(m[k]);
        }
      case Slice(gs) =>
        forall i | 0 <= i < |gs|
          ensures Supported(gs[i]) <==> forall x | G.Within(x, gs[i]) :: !x.Amf0Value?
          ensures Timeless(gs[i]) <==> forall x | G.Within(x, gs[i]) :: !x.Time?
        {
          SupportedIff(gs[i]);
        }
      case _ =>
    }
  }

  /** The AMF3 value whose encoding a supported Go value has: integers of up to 29 bits are AMF3 integers, larger ones
      doubles; `float` is the conversion of integers to doubles. What is not supported has none, and null stands
      for it. */
  function FromGo(g: G.Go, float: int -> u64): Value {
    match g
    case Nil => Null
    case Bool(b) => Boolean(b)
    case Int(i) => if U29.Is29Bit(i) then Integer(i) else Double(float(i))
    case Float(bits) => Double(bits)
    case Str(s) => String(s)
    case Map(m) => Object([], map k | k in m :: FromGo(m[k], float))
    case Slice(gs) => Slice(seq(|gs|, i requires 0 <= i < |gs| => FromGo(gs[i], float)))
    case Time(_) => Null
    case Amf0Value(_) => Null
    case Amf3Value(v) => v
  }

  /** What comes back of a Go value inside a container. */
  function Inner(g: G.Go, float: int -> u64): Value {
    match g
    case Nil => Null
    case Bool(b) => Boolean(b)
    case Int(i) => if -0x1000_0000 <= i < 0x1000_0000 then Integer(i) else Double(float(i))
    case Float(bits) => Double(bits)
    case Str(s) => String(s)
    case Map(m) => Object([], map k | k in m :: Inner(m[k], float))
    case Slice(gs) => Array(map[], seq(|gs|, i requires 0 <= i < |gs| => Inner(gs[i], float)))
    case Time(_) => Null
    case Amf0Value(_) => Null
    case Amf3Value(v) => Normalize(v)
  }

  /** What comes back of a Go value on its own: nil, booleans, doubles and strings are themselves, an integer is one if
      it has 29 bits and otherwise a double, and a container has the same names or as many elements, with what comes
      back of each. */
  function Image(g: G.Go, float: int -> u64): Shallow {
    match g
    case Nil => Nil
    case Bool(b) => Bool(b)
    case Int(i) => if -0x1000_0000 <= i < 0x1000_0000 then Int32(i) else Float(float(i))
    case Float(bits) => Float(bits)
    case Str(s) => Str(s)
    case Map(m) => Map(map k | k in m :: Inner(m[k], float))
    case Slice(gs) => Elems(seq(|gs|, i requires 0 <= i < |gs| => Inner(gs[i], float)))
    case Time(_) => Nil
    case Amf0Value(_) => Nil
    case Amf3Value(v) => ToShallow(Normalize(v))
  }

  lemma {:induction false} InnerOfNormal(g: G.Go, float: int -> u64)
    ensures Normalize(FromGo(g, float)) == Inner(g, float)
  {
    var got, want := Normalize(FromGo(g, float)), Inner(g, float);
    match g {
      case Int(i) =>
        if U29.Is29Bit(i) {
          U29.IntegerSurvives(i);
        }
      case Map(m) =>
        assert got.props.Keys == m.Keys == want.props.Keys;
        forall k | k in m ensures got.props[k] == want.props[k] {
          InnerOfNormal(m[k], float);
        }
        assert got.props == want.props;
      case Slice(gs) =>
        forall i | 0 <= i < |gs| ensures got.dense[i] == want.dense[i] {
          InnerOfNormal(gs[i], float);
        }
        assert got.dense == want.dense;
      case _ =>
    }
  }

  /** The encoder's view of a value, brought to normal form and read as a Go value again, is what comes back. */
  lemma ImageOfNormal(g: G.Go, float: int -> u64)
    ensures ToShallow(Normalize(FromGo(g, float))) == Image(g, float)
  {
    InnerOfNormal(g, float);
    if g.Int? && U29.Is29Bit(g.i) {
      U29.IntegerSurvives(g.i);
    }
  }

  /** The Go values that AMF3 has room for: names of properties are not empty, every length fits a handle, and no
      `AMF3Array` is among them. */
  predicate Fits(g: G.Go) {
    match g
    case Str(s) => U29.Fits(|s|)
    case Map(m) => forall k | k in m :: NameFits(k) && Fits(m[k])
    case Slice(gs) => U29.Fits(|gs|) && forall i | 0 <= i < |gs| :: Fits(gs[i])
    case Amf3Value(v) => Encodable(v)
    case _ => true
  }

  lemma {:induction false} FitsIff(g: G.Go, float: int -> u64)
    ensures Fits(g) <==> Encodable(FromGo(g, float))
  {
    match g {
      case Map(m) =>
        var ps := FromGo(g, float).props;
        assert ps.Keys == m.Keys;
        forall k | k in m ensures Fits(m[k]) <==> Encodable(ps[k]) {
          FitsIff(m[k], float);
        }
      case Slice(gs) =>
        var vs := FromGo(g, float).elems;
        forall i | 0 <= i < |gs| ensures Fits(gs[i]) <==> Encodable(vs[i]) {
          FitsIff(gs[i], float);
        }
      case _ =>
    }
  }

  /** The Go values that survive: names are not empty, every length fits a handle, and AMF3 values among them are
      canonical. */
  predicate Survives(g: G.Go) {
    match g
    case Str(s) => U29.Fits(|s|)
    case Map(m) => forall k | k in m :: NameFits(k) && Survives(m[k])
    case Slice(gs) => U29.Fits(|gs|) && forall i | 0 <= i < |gs| :: Survives(gs[i])
    case Amf3Value(v) => Canonical(v)
    case _ => true
  }

  /** Go values have no class names and their integers at most 29 bits, so nothing is lost on the way. */
  lemma {:induction false} FromGoIsCanonical(g: G.Go, float: int -> u64)
    requires Survives(g)
    ensures Canonical(FromGo(g, float))
  {
    match g {
      case Map(m) =>
        forall k | k in m ensures Canonical(FromGo(m[k], float)) {
          FromGoIsCanonical(m[k], float);
        }
      case Slice(gs) =>
        forall i | 0 <= i < |gs| ensures Canonical(FromGo(gs[i], float)) {
          FromGoIsCanonical(gs[i], float);
        }
      case _ =>
    }
  }
}
