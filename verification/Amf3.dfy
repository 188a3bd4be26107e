/** AMF3 values, their encodings and the decoder to AMF3 values (sections 2 and 3 of the AMF 3 specification).

    Encoder and decoder each keep a table of the strings met so far, and a string met again is written as an
    index into it. Nothing on the wire carries the table. */
module Amf3 {
  import opened Wire
  import U29

  type int32 = i: int | -0x8000_0000 <= i < 0x8000_0000

  /** A slice is a `[]interface{}`, an array an `AMF3Array`. Both have the same marker on the wire, and the decoder
      makes arrays of them all. */
  datatype Value =
    | Undefined
    | Null
    | Boolean(b: bool)
    | Integer(i: int32)
    | Double(bits: u64)
    | String(text: Bytes)
    | Slice(elems: seq<Value>)
    | Array(assoc: map<Bytes, Value>, dense: seq<Value>)
    | Object(className: Bytes, props: map<Bytes, Value>)

  /** A value as one run of the encoder walks it: each map in the order in which its entries come up. */
  datatype Listing =
    | Leaf(value: Value)
    | Elements(elems: seq<Listing>)
    | Items(assoc: seq<Entry>, dense: seq<Listing>)
    | Members(className: Bytes, entries: seq<Entry>)

  datatype Entry = Entry(key: Bytes, listing: Listing)

  /** A reference table for strings, in the order of their first occurrence. */
  type Table = seq<Bytes>

  const UNDEFINED: byte := 0x00
  const NULL: byte := 0x01
  const FALSE: byte := 0x02
  const TRUE: byte := 0x03
  const INTEGER: byte := 0x04
  const DOUBLE: byte := 0x05
  const STRING: byte := 0x06
  const DATE: byte := 0x08
  const ARRAY: byte := 0x09
  const OBJECT: byte := 0x0A

  /** An anonymous dynamic object without sealed members. */
  const TRAITS: u32 := 0x0B

  // ----- Listings and the values they list

  predicate IsLeaf(v: Value) {
    !v.Slice? && !v.Array? && !v.Object?
  }

  ghost predicate Lists(t: Listing) {
    match t
    case Leaf(v) => IsLeaf(v)
    case Elements(ts) => forall i | 0 <= i < |ts| :: Lists(ts[i])
    case Items(es, ts) => ListsEntries(es) && forall i | 0 <= i < |ts| :: Lists(ts[i])
    case Members(_, es) => ListsEntries(es)
  }

  ghost predicate ListsEntries(es: seq<Entry>) {
    && (forall i | 0 <= i < |es| :: Lists(es[i].listing))
    && (forall i, j | 0 <= i < j < |es| :: es[i].key != es[j].key)
  }

  function Erase(t: Listing): Value {
    match t
    case Leaf(v) => v
    case Elements(ts) => Slice(EraseAll(ts))
    case Items(es, ts) => Array(EraseEntries(es), EraseAll(ts))
    case Members(c, es) => Object(c, EraseEntries(es))
  }

  function EraseEntries(es: seq<Entry>): map<Bytes, Value> {
    if es == [] then map[] else map[es[0].key := Erase(es[0].listing)] + EraseEntries(es[1..])
  }

  function EraseAll(ts: seq<Listing>): (vs: seq<Value>)
    ensures |vs| == |ts|
    ensures forall i | 0 <= i < |ts| :: vs[i] == Erase(ts[i])
  {
    if ts == [] then [] else [Erase(ts[0])] + EraseAll(ts[1..])
  }

  // ----- Which values survive

  predicate NameFits(k: Bytes) {
    k != [] && U29.Fits(|k|)
  }

  /** No `AMF3Array`: the encoder writes the marker of such an array twice. */
  predicate ArrayFree(v: Value) {
    match v
    case Slice(vs) => forall i | 0 <= i < |vs| :: ArrayFree(vs[i])
    case Array(_, _) => false
    case Object(_, ps) => forall k | k in ps :: ArrayFree(ps[k])
    case _ => true
  }

  /** Names are not empty, a handle carries every length, and there is no array. */
  predicate Encodable(v: Value) {
    match v
    case String(s) => U29.Fits(|s|)
    case Slice(vs) => U29.Fits(|vs|) && forall i | 0 <= i < |vs| :: Encodable(vs[i])
    case Array(_, _) => false
    case Object(_, ps) => forall k | k in ps :: NameFits(k) && Encodable(ps[k])
    case _ => true
  }

  /** Moreover integers have 29 bits, and objects no class name: the encoder writes them all as anonymous. */
  predicate Canonical(v: Value) {
    match v
    case Integer(i) => U29.Is29Bit(i)
    case String(s) => U29.Fits(|s|)
    case Slice(vs) => U29.Fits(|vs|) && forall i | 0 <= i < |vs| :: Canonical(vs[i])
    case Array(_, _) => false
    case Object(c, ps) => c == [] && forall k | k in ps :: NameFits(k) && Canonical(ps[k])
    case _ => true
  }

  /** The value with its slices as the decoder represents them. */
  function AsRead(v: Value): Value {
    match v
    case Slice(vs) => Array(map[], seq(|vs|, i requires 0 <= i < |vs| => AsRead(vs[i])))
    case Array(ps, vs) =>
      Array(map k | k in ps :: AsRead(ps[k]), seq(|vs|, i requires 0 <= i < |vs| => AsRead(vs[i])))
    case Object(c, ps) => Object(c, map k | k in ps :: AsRead(ps[k]))
    case _ => v
  }

  /** What comes back of a value without arrays: integers reduced to 29 bits, and objects without their class
      names. */
  function Normalize(v: Value): Value {
    match v
    case Integer(i) => Integer(U29.ToInt32(U29.Image(U29.FromInt32(i))))
    case Slice(vs) => Array(map[], seq(|vs|, i requires 0 <= i < |vs| => Normalize(vs[i])))
    case Object(_, ps) => Object([], map k | k in ps :: Normalize(ps[k]))
    case _ => v
  }

  /** A value the decoder can return: names are not empty, and every length survives. */
  predicate Readable(v: Value) {
    match v
    case Integer(i) => U29.Is29Bit(i)
    case String(s) => U29.Fits(|s|)
    case Slice(_) => false
    case Array(ps, vs) =>
      && U29.Fits(|vs|)
      && (forall k | k in ps :: NameFits(k) && Readable(ps[k]))
      && (forall i | 0 <= i < |vs| :: Readable(vs[i]))
    case Object(c, ps) => U29.Fits(|c|) && forall k | k in ps :: NameFits(k) && Readable(ps[k])
    case _ => true
  }

  // ----- The encoder

  /** Bytes written, and the table after writing them. */
  datatype Written = Written(bytes: Bytes, table: Table)

  function FirstIndex(s: Bytes, table: Table): (i: nat)
    requires s in table
    ensures i < |table| && table[i] == s
    ensures forall j | 0 <= j < i :: table[j] != s
  {
    if table[0] == s then 0 else 1 + FirstIndex(s, table[1..])
  }

  /** The empty string, length 0 as a literal, closes the properties of an array or object, and stands for its
      class name. */
  const EMPTY: Bytes := [0x01]

  function EncodeString(s: Bytes, table: Table): (w: Written)
    ensures |table| <= |w.table|
  {
    if s == [] then Written(EMPTY, table)
    else if s in table then Written(U29.Write(U29.Handle(FirstIndex(s, table), 0)), table)
    else Written(U29.Write(U29.Handle(|s|, 1)) + s, table + [s])
  }

  function EncodeLeaf(v: Value, table: Table): (w: Written)
    requires IsLeaf(v)
    ensures |table| <= |w.table|
  {
    match v
    case Undefined => Written([UNDEFINED], table)
    case Null => Written([NULL], table)
    case Boolean(b) => Written([if b then TRUE else FALSE], table)
    case Integer(i) => Written([INTEGER] + U29.Write(U29.FromInt32(i)), table)
    case Double(bits) => Written([DOUBLE] + Be64(bits), table)
    case String(s) => var w := EncodeString(s, table); Written([STRING] + w.bytes, w.table)
  }

  /** One marker, the number of elements, the named entries and what closes them, and the elements. */
  function ArrayBytes(n: nat, assoc: Bytes, dense: Bytes): Bytes {
    [ARRAY] + (U29.Write(U29.Handle(n, 1)) + (assoc + EMPTY + dense))
  }

  function Encode(t: Listing, table: Table): (w: Written)
    requires Lists(t)
    ensures |table| <= |w.table|
  {
    match t
    case Leaf(v) => EncodeLeaf(v, table)
    case Elements(ts) => Written(ArrayBytes(|ts|, [], EncodeAll(ts, table).bytes), EncodeAll(ts, table).table)
    case Items(es, ts) =>
      var assoc := EncodeEntries(es, table);
      var dense := EncodeAll(ts, assoc.table);
      Written([ARRAY] + ArrayBytes(|ts|, assoc.bytes, dense.bytes), dense.table)
    case Members(_, es) =>
      var w := EncodeEntries(es, table);
      Written([OBJECT] + (U29.Write(TRAITS) + (EMPTY + (w.bytes + EMPTY))), w.table)
  }

  function EncodeEntries(es: seq<Entry>, table: Table): (w: Written)
    requires ListsEntries(es)
    ensures |table| <= |w.table|
  {
    if es == [] then Written([], table) else
      var key := EncodeString(es[0].key, table);
      var value := Encode(es[0].listing, key.table);
      var tail := EncodeEntries(es[1..], value.table);
      Written((key.bytes + value.bytes) + tail.bytes, tail.table)
  }

  function EncodeAll(ts: seq<Listing>, table: Table): (w: Written)
    requires forall i | 0 <= i < |ts| :: Lists(ts[i])
    ensures |table| <= |w.table|
  {
    if ts == [] then Written([], table) else
      var head := Encode(ts[0], table);
      var tail := EncodeAll(ts[1..], head.table);
      Written(head.bytes + tail.bytes, tail.table)
  }

  // ----- The decoder

  /** The decoder's input, its string table, and how many arrays and objects its object table holds. */
  datatype Input = Input(bytes: Bytes, strings: Table, objects: nat)

  function TakeMarker(s: Input): (r: Parsed<byte, Input>)
    ensures r.Ok? ==> |r.rest.bytes| < |s.bytes|
  {
    var (b, rest) :- WithTables(s, TakeByte(s.bytes));
    Ok(b, rest)
  }

  /** A parse of bytes leaves the tables alone. */
  function WithTables<T>(s: Input, p: Parsed<T, Bytes>): Parsed<T, Input> {
    match p
    case Ok(v, rest) => Ok(v, s.(bytes := rest))
    case Fail(e) => Fail(e)
  }

  function TakeU29(s: Input): (r: Parsed<u32, Input>)
    ensures r.Ok? ==> |r.rest.bytes| < |s.bytes|
  {
    WithTables(s, U29.Read(s.bytes))
  }

  function TakeString(s: Input): (r: Parsed<Bytes, Input>)
    ensures r.Ok? ==> |r.rest.bytes| < |s.bytes|
  {
    var (handle, r) :- TakeU29(s);
    var n := handle / 2;
    if handle % 2 == 0 then
      if n >= |r.strings| then Fail(InvalidReference(n)) else Ok(r.strings[n], r)
    else if n == 0 then
      Ok([], r)
    else
      var (text, r) :- WithTables(r, Take(r.bytes, n));
      Ok(text, r.(strings := r.strings + [text]))
  }

  /** The handle of an array or object that is not a reference; the object table grows by it. */
  function TakeLiteral(s: Input): (r: Parsed<u32, Input>)
    ensures r.Ok? ==> |r.rest.bytes| < |s.bytes|
  {
    var (handle, r) :- TakeU29(s);
    if handle % 2 == 0 then
      Fail(if handle / 2 >= s.objects then InvalidReference(handle / 2) else NotModelled)
    else
      Ok(handle, r.(objects := r.objects + 1))
  }

  function TakeLeaf(marker: byte, s: Input): (r: Parsed<Value, Input>)
    ensures r.Ok? ==> |r.rest.bytes| <= |s.bytes|
  {
    if marker == UNDEFINED then Ok(Undefined, s)
    else if marker == NULL then Ok(Null, s)
    else if marker == FALSE then Ok(Boolean(false), s)
    else if marker == TRUE then Ok(Boolean(true), s)
    else if marker == INTEGER then
      var (x, r) :- TakeU29(s);
      Ok(Integer(U29.ToInt32(x)), r)
    else if marker == DOUBLE then
      var (bits, r) :- WithTables(s, TakeBe64(s.bytes));
      Ok(Double(bits), r)
    else if marker == STRING then
      var (text, r) :- TakeString(s);
      Ok(String(text), r)
    else if marker == DATE then
      Fail(NotModelled)
    else
      Fail(UnsupportedMarker(marker))
  }

  function Decode(s: Input): (r: Parsed<Value, Input>)
    ensures r.Ok? ==> |r.rest.bytes| < |s.bytes|
    decreases |s.bytes|, 0
  {
    var (marker, r) :- TakeMarker(s);
    if marker == ARRAY then
      TakeArray(r)
    else if marker == OBJECT then
      TakeObject(r)
    else
      TakeLeaf(marker, r)
  }

  function TakeArray(s: Input): (r: Parsed<Value, Input>)
    ensures r.Ok? ==> |r.rest.bytes| < |s.bytes| && r.value.Array?
    decreases |s.bytes|, 0
  {
    var (handle, r) :- TakeLiteral(s);
    var (ps, r) :- DecodeProps(r, map[]);
    var (vs, r) :- DecodeAll(r, handle / 2);
    Ok(Array(ps, vs), r)
  }

  function TakeObject(s: Input): (r: Parsed<Value, Input>)
    ensures r.Ok? ==> |r.rest.bytes| < |s.bytes| && r.value.Object?
    decreases |s.bytes|, 0
  {
    var (_, r) :- TakeLiteral(s);
    var (c, r) :- TakeString(r);
    var (ps, r) :- DecodeProps(r, map[]);
    Ok(Object(c, ps), r)
  }

  function DecodeProps(s: Input, acc: map<Bytes, Value>): (r: Parsed<map<Bytes, Value>, Input>)
    ensures r.Ok? ==> |r.rest.bytes| < |s.bytes|
    decreases |s.bytes|, 1
  {
    var (key, r) :- TakeString(s);
    if key == [] then Ok(acc, r) else
      var (v, r) :- Decode(r);
      DecodeProps(r, acc[key := v])
  }

  function DecodeAll(s: Input, n: nat): (r: Parsed<seq<Value>, Input>)
    ensures r.Ok? ==> |r.rest.bytes| <= |s.bytes| && |r.value| == n
    decreases |s.bytes|, 1
  {
    if n == 0 then Ok([], s) else
      var (v, r) :- Decode(s);
      var (vs, r) :- DecodeAll(r, n - 1);
      Ok([v] + vs, r)
  }
}
