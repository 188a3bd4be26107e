/** AMF0 values, their encodings and the decoder to AMF0 values (section 2 of the AMF 0 specification). */
module Amf0 {
  import opened Wire

  /** The three containers of named properties: they differ in their marker and in what stands between the
      marker and the properties. */
  datatype Head =
    | PlainObject
    | EcmaArray(count: u32)
    | TypedObject(className: Bytes)

  /** Doubles are opaque 64-bit words, and the time zone of a date a 16-bit word. */
  datatype Value =
    | Number(bits: u64)
    | Boolean(b: bool)
    | String(text: Bytes)
    | Null
    | Undefined
    | Date(millis: u64, timezone: u16)
    | LongString(text: Bytes)
    | Record(head: Head, props: map<Bytes, Value>)
    | StrictArray(elems: seq<Value>)

  /** A value as one run of the encoder walks it: each map in the order in which its entries come up. */
  datatype Listing =
    | Leaf(value: Value)
    | Entries(head: Head, entries: seq<Entry>)
    | Elements(elems: seq<Listing>)

  datatype Entry = Entry(key: Bytes, listing: Listing)

  const NUMBER: byte := 0x00
  const BOOLEAN: byte := 0x01
  const STRING: byte := 0x02
  const OBJECT: byte := 0x03
  const NULL: byte := 0x05
  const UNDEFINED: byte := 0x06
  const ECMA_ARRAY: byte := 0x08
  const OBJECT_END: byte := 0x09
  const STRICT_ARRAY: byte := 0x0A
  const DATE: byte := 0x0B
  const LONG_STRING: byte := 0x0C
  const TYPED_OBJECT: byte := 0x10

  // ----- Listings and the values they list

  /** Every map is listed without repetition. */
  ghost predicate Lists(t: Listing) {
    match t
    case Leaf(v) => !v.Record? && !v.StrictArray?
    case Entries(_, es) => ListsEntries(es)
    case Elements(ts) => forall i | 0 <= i < |ts| :: Lists(ts[i])
  }

  ghost predicate ListsEntries(es: seq<Entry>) {
    && (forall i | 0 <= i < |es| :: Lists(es[i].listing))
    && (forall i, j | 0 <= i < j < |es| :: es[i].key != es[j].key)
  }

  function Erase(t: Listing): Value {
    match t
    case Leaf(v) => v
    case Entries(h, es) => Record(h, EraseEntries(es))
    case Elements(ts) => StrictArray(EraseAll(ts))
  }

  function EraseEntries(es: seq<Entry>): map<Bytes, Value> {
    if es == [] then map[] else map[es[0].key := Erase(es[0].listing)] + EraseEntries(es[1..])
  }

  function EraseAll(ts: seq<Listing>): (vs: seq<Value>)
    ensures |vs| == |ts|
    ensures forall i | 0 <= i < |ts| :: vs[i] == Erase(ts[i])
  {
    if ts == [] then [] else [Erase(ts[0])] + EraseAll(ts[1..])
  }

  // ----- Which values can be encoded, and which survive

  const MAX_NAME := 0xFFFF

  predicate HeadFits(h: Head) {
    h.TypedObject? ==> |h.className| <= MAX_NAME
  }

  /** The encoder reports no error: every property and class name has a 16-bit length. */
  predicate NamesFit(v: Value) {
    match v
    case Record(h, ps) => HeadFits(h) && forall k | k in ps :: |k| <= MAX_NAME && NamesFit(ps[k])
    case StrictArray(vs) => forall i | 0 <= i < |vs| :: NamesFit(vs[i])
    case _ => true
  }

  /** Names are not empty, and every length fits its field. */
  predicate Encodable(v: Value) {
    match v
    case String(s) => |s| < U32
    case LongString(s) => |s| < U32
    case Record(h, ps) => HeadFits(h) && forall k | k in ps :: 1 <= |k| <= MAX_NAME && Encodable(ps[k])
    case StrictArray(vs) => |vs| < U32 && forall i | 0 <= i < |vs| :: Encodable(vs[i])
    case _ => true
  }

  /** A value the decoder can return: encodable, with no plain string longer than 65535 bytes. */
  predicate Canonical(v: Value) {
    match v
    case String(s) => |s| <= MAX_NAME
    case LongString(s) => |s| < U32
    case Record(h, ps) => HeadFits(h) && forall k | k in ps :: 1 <= |k| <= MAX_NAME && Canonical(ps[k])
    case StrictArray(vs) => |vs| < U32 && forall i | 0 <= i < |vs| :: Canonical(vs[i])
    case _ => true
  }

  /** The encoder writes a plain string of more than 65535 bytes as a long string. */
  function Normalize(v: Value): Value {
    match v
    case String(s) => if |s| > MAX_NAME then LongString(s) else v
    case Record(h, ps) => Record(h, map k | k in ps :: Normalize(ps[k]))
    case StrictArray(vs) => StrictArray(seq(|vs|, i requires 0 <= i < |vs| => Normalize(vs[i])))
    case _ => v
  }

  // ----- The encoder

  function Utf8(s: Bytes): Bytes
    requires |s| <= MAX_NAME
  {
    Be16(|s|) + s
  }

  function LongUtf8(s: Bytes): Bytes {
    Be32(Wrap32(|s|)) + s
  }

  function EncodeLeaf(v: Value): Bytes
    requires !v.Record? && !v.StrictArray?
  {
    match v
    case Number(bits) => [NUMBER] + Be64(bits)
    case Boolean(b) => [BOOLEAN, if b then 1 else 0]
    case String(s) => if |s| > MAX_NAME then [LONG_STRING] + LongUtf8(s) else [STRING] + Utf8(s)
    case Null => [NULL]
    case Undefined => [UNDEFINED]
    case Date(ms, tz) => [DATE] + (Be64(ms) + Be16(tz))
    case LongString(s) => [LONG_STRING] + LongUtf8(s)
  }

  function EncodeHead(h: Head): Bytes
    requires HeadFits(h)
  {
    match h
    case PlainObject => [OBJECT]
    case EcmaArray(n) => [ECMA_ARRAY] + Be32(n)
    case TypedObject(c) => [TYPED_OBJECT] + Utf8(c)
  }

  /** An empty name and the end marker close the properties. */
  const END: Bytes := [0, 0, OBJECT_END]

  ghost predicate Writable(t: Listing) {
    match t
    case Leaf(v) => !v.Record? && !v.StrictArray?
    case Entries(h, es) => HeadFits(h) && WritableEntries(es)
    case Elements(ts) => forall i | 0 <= i < |ts| :: Writable(ts[i])
  }

  ghost predicate WritableEntries(es: seq<Entry>) {
    forall i | 0 <= i < |es| :: |es[i].key| <= MAX_NAME && Writable(es[i].listing)
  }

  ghost function Encode(t: Listing): Bytes
    requires Writable(t)
  {
    match t
    case Leaf(v) => EncodeLeaf(v)
    case Entries(h, es) => EncodeHead(h) + (EncodeEntries(es) + END)
    case Elements(ts) => [STRICT_ARRAY] + (Be32(Wrap32(|ts|)) + EncodeAll(ts))
  }

  ghost function EncodeEntries(es: seq<Entry>): Bytes
    requires WritableEntries(es)
  {
    if es == [] then [] else (Utf8(es[0].key) + Encode(es[0].listing)) + EncodeEntries(es[1..])
  }

  ghost function EncodeAll(ts: seq<Listing>): Bytes
    requires forall i | 0 <= i < |ts| :: Writable(ts[i])
  {
    if ts == [] then [] else Encode(ts[0]) + EncodeAll(ts[1..])
  }

  // ----- The decoder

  function TakeUtf8(s: Bytes): (r: Parsed<Bytes, Bytes>)
    ensures r.Ok? ==> |r.rest| < |s| && |r.value| <= MAX_NAME
  {
    var (n, r) :- TakeBe16(s);
    Take(r, n)
  }

  function TakeLongUtf8(s: Bytes): (r: Parsed<Bytes, Bytes>)
    ensures r.Ok? ==> |r.rest| < |s| && |r.value| < U32
  {
    var (n, r) :- TakeBe32(s);
    Take(r, n)
  }

  function TakeDate(s: Bytes): (r: Parsed<Value, Bytes>)
    ensures r.Ok? ==> |r.rest| < |s| && r.value.Date?
  {
    var (ms, r) :- TakeBe64(s);
    var (tz, r) :- TakeBe16(r);
    Ok(Date(ms, tz), r)
  }

  /** The body of a value that holds no other value. */
  function TakeLeaf(marker: byte, s: Bytes): (r: Parsed<Value, Bytes>)
    ensures r.Ok? ==> |r.rest| <= |s| && Canonical(r.value)
  {
    if marker == NUMBER then
      var (n, r) :- TakeBe64(s);
      Ok(Number(n), r)
    else if marker == BOOLEAN then
      var (b, r) :- TakeByte(s);
      Ok(Boolean(b != 0), r)
    else if marker == STRING then
      var (t, r) :- TakeUtf8(s);
      Ok(String(t), r)
    else if marker == NULL then
      Ok(Null, s)
    else if marker == UNDEFINED then
      Ok(Undefined, s)
    else if marker == DATE then
      TakeDate(s)
    else if marker == LONG_STRING then
      var (t, r) :- TakeLongUtf8(s);
      Ok(LongString(t), r)
    else
      Fail(UnsupportedMarker(marker))
  }

  predicate IsRecord(marker: byte) {
    marker == OBJECT || marker == ECMA_ARRAY || marker == TYPED_OBJECT
  }

  /** What stands between the marker of a container of named properties and its properties. */
  function TakeHead(marker: byte, s: Bytes): (r: Parsed<Head, Bytes>)
    requires IsRecord(marker)
    ensures r.Ok? ==> |r.rest| <= |s| && HeadFits(r.value)
  {
    if marker == OBJECT then
      Ok(PlainObject, s)
    else if marker == ECMA_ARRAY then
      var (n, r) :- TakeBe32(s);
      Ok(EcmaArray(n), r)
    else
      var (c, r) :- TakeUtf8(s);
      Ok(TypedObject(c), r)
  }

  function Decode(s: Bytes): (r: Parsed<Value, Bytes>)
    ensures r.Ok? ==> |r.rest| < |s|
    decreases |s|, 0
  {
    var (marker, r) :- TakeByte(s);
    if IsRecord(marker) then
      var (h, r) :- TakeHead(marker, r);
      var (ps, r) :- DecodeProps(r, map[]);
      Ok(Record(h, ps), r)
    else if marker == STRICT_ARRAY then
      var (n, r) :- TakeBe32(r);
      var (vs, r) :- DecodeAll(r, n);
      Ok(StrictArray(vs), r)
    else
      TakeLeaf(marker, r)
  }

  /** The end marker after an empty name. */
  function TakeEnd<T>(s: Bytes, value: T): (r: Parsed<T, Bytes>)
    ensures r.Ok? ==> |r.rest| < |s| && r.value == value
  {
    var (m, r) :- TakeByte(s);
    if m == OBJECT_END then Ok(value, r) else Fail(MissingObjectEnd(m))
  }

  function DecodeProps(s: Bytes, acc: map<Bytes, Value>): (r: Parsed<map<Bytes, Value>, Bytes>)
    ensures r.Ok? ==> |r.rest| < |s|
    decreases |s|, 1
  {
    var (key, r) :- TakeUtf8(s);
    if key == [] then TakeEnd(r, acc) else
      var (v, r) :- Decode(r);
      DecodeProps(r, acc[key := v])
  }

  function DecodeAll(s: Bytes, n: nat): (r: Parsed<seq<Value>, Bytes>)
    ensures r.Ok? ==> |r.rest| <= |s| && |r.value| == n
    decreases |s|, 1
  {
    if n == 0 then Ok([], s) else
      var (v, r) :- Decode(s);
      var (vs, r) :- DecodeAll(r, n - 1);
      Ok([v] + vs, r)
  }
}
