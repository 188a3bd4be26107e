/** AMF3 in bytes: what each kind of value looks like on the wire, and what the decoders make of bytes that the encoder
    never writes. */
module Amf3Bytes {
  import opened Wire
  import opened Numbers
  import U29
  import opened Amf3
  import opened Amf3Proofs
  import Go = Amf3Go

  // ----- Values that hold no other value

  lemma IsFirst(s: Bytes, table: Table, i: nat)
    requires i < |table| && table[i] == s && s !in table[..i]
    ensures FirstIndex(s, table) == i
  {
    forall j | 0 <= j < i ensures table[j] != s {
      assert table[..i][j] == table[j];
    }
  }

  /** A string is empty, or the index of its first occurrence doubled, or its length doubled plus one, and itself. */
  lemma StringBytes(s: Bytes, table: Table, i: nat)
    requires |s| < 0x4000_0000
    ensures EncodeString([], table) == Written([0x01], table)
    ensures s != [] && s !in table ==> EncodeString(s, table) == Written(U29.Write(2 * |s| + 1) + s, table + [s])
    ensures s != [] && i < |table| && table[i] == s && s !in table[..i] && i < 0x4000_0000 ==>
              EncodeString(s, table) == Written(U29.Write(2 * i), table)
  {
    hide U29.Write;
    if s != [] && i < |table| && table[i] == s && s !in table[..i] {
      IsFirst(s, table, i);
    }
  }

  /** A marker, and for a boolean nothing but its marker; an integer is written as its low 29 bits, a double as its
      eight bytes, high byte first. */
  lemma LeafBytes(i: int32, d: seq<byte>, s: Bytes, table: Table)
    requires |d| == 8
    ensures Encode(Leaf(Undefined), table) == Written([0x00], table)
    ensures Encode(Leaf(Null), table) == Written([0x01], table)
    ensures Encode(Leaf(Boolean(false)), table) == Written([0x02], table)
    ensures Encode(Leaf(Boolean(true)), table) == Written([0x03], table)
    ensures Encode(Leaf(Integer(i)), table)
            == Written([0x04] + U29.Write(if i >= 0 then i else i + 0x1_0000_0000), table)
    ensures Encode(Leaf(Double(High8(d))), table) == Written([0x05] + d, table)
    ensures Encode(Leaf(String(s)), table).bytes == [0x06] + EncodeString(s, table).bytes
  {
    hide U29.Write, EncodeString, High8, Be64;
    NumbersWritten([0, 0], [0, 0, 0, 0], d);
  }

  // ----- Containers

  /** An object is anonymous and dynamic, and an empty name closes it. A slice has its length doubled plus one and no
      named entries. An `AMF3Array` has its marker twice. */
  lemma ContainerBytes(c: Bytes, es: seq<Entry>, ts: seq<Listing>, table: Table)
    requires ListsEntries(es) && (forall i | 0 <= i < |ts| :: Lists(ts[i])) && |ts| < 0x4000_0000
    ensures Encode(Members(c, es), table).bytes == [0x0A, 0x0B, 0x01] + EncodeEntries(es, table).bytes + [0x01]
    ensures Encode(Elements(ts), table).bytes
            == [0x09] + U29.Write(2 * |ts| + 1) + [0x01] + EncodeAll(ts, table).bytes
    ensures Encode(Items(es, ts), table).bytes
            == [0x09, 0x09] + U29.Write(2 * |ts| + 1) + EncodeEntries(es, table).bytes + [0x01]
               + EncodeAll(ts, EncodeEntries(es, table).table).bytes
  {
    hide EncodeEntries, EncodeAll, ArrayBytes, U29.Write;
    var w := EncodeEntries(es, table).bytes;
    assert [0x09] + U29.Write(2 * |ts| + 1) + [] == [0x09] + U29.Write(2 * |ts| + 1);
    ObjectBytes(w);
    OneMarker(|ts|, [], EncodeAll(ts, table).bytes);
    OneMarker(|ts|, w, EncodeAll(ts, EncodeEntries(es, table).table).bytes);
  }

  lemma ObjectBytes(w: Bytes)
    ensures [OBJECT] + (U29.Write(TRAITS) + (EMPTY + (w + EMPTY))) == [0x0A, 0x0B, 0x01] + w + [0x01]
  {
    assert U29.Write(TRAITS) == [0x0B];
  }

  lemma OneMarker(n: nat, assoc: Bytes, dense: Bytes)
    requires n < 0x4000_0000
    ensures ArrayBytes(n, assoc, dense) == [0x09] + U29.Write(2 * n + 1) + assoc + [0x01] + dense
    ensures [ARRAY] + ArrayBytes(n, assoc, dense) == [0x09, 0x09] + U29.Write(2 * n + 1) + assoc + [0x01] + dense
  {
    hide U29.Write;
    var h := U29.Write(2 * n + 1);
    assert U29.Handle(n, 1) == 2 * n + 1;
    Concat5([0x09], h, assoc, [0x01], dense);
    Concat5([0x09, 0x09], h, assoc, [0x01], dense);
    assert [0x09] + ([0x09] + (h + (assoc + [0x01] + dense))) == [0x09, 0x09] + (h + (assoc + [0x01] + dense));
  }

  lemma Concat5(a: Bytes, b: Bytes, c: Bytes, d: Bytes, e: Bytes)
    ensures a + b + c + d + e == a + (b + (c + d + e))
  {
    Concat(a, b, c + d + e);
    Concat(a + b, c, d);
    Concat(a + b, c + d, e);
  }

  /** Entries and elements one after another, with one table through all of them. */
  lemma SeriesBytes(e: Entry, es: seq<Entry>, ts: seq<Listing>, table: Table)
    requires ListsEntries([e] + es) && ListsEntries(es) && Lists(e.listing) && forall i | 0 <= i < |ts| :: Lists(ts[i])
    ensures var key := EncodeString(e.key, table);
            var value := Encode(e.listing, key.table);
            var tail := EncodeEntries(es, value.table);
            EncodeEntries([e] + es, table) == Written(key.bytes + value.bytes + tail.bytes, tail.table)
    ensures var head := Encode(e.listing, table);
            var tail := EncodeAll(ts, head.table);
            EncodeAll([e.listing] + ts, table) == Written(head.bytes + tail.bytes, tail.table)
    ensures EncodeEntries([], table) == EncodeAll([], table) == Written([], table)
  {
    hide Encode, Lists, EncodeString;
    assert ([e] + es)[1..] == es && ([e.listing] + ts)[1..] == ts;
  }

  // ----- Bytes that the encoder never writes

  /** A string reference is an index into the table; a reference to an object that does not exist, and a marker that
      no value has, are errors. */
  lemma OtherBytes(i: nat, m: byte, table: Table, n: nat, k: Bytes)
    requires i < 0x800_0000
    ensures TakeString(Input(U29.Write(2 * i) + k, table, n))
            == if i < |table| then Ok(table[i], Input(k, table, n)) else Fail(InvalidReference(i))
    ensures (m == 0x09 || m == 0x0A) && i >= n ==>
              Decode(Input([m] + (U29.Write(2 * i) + k), table, n)) == Fail(InvalidReference(i))
    ensures m == 0x07 || m > 0x0A ==> Decode(Input([m] + k, table, n)) == Fail(UnsupportedMarker(m))
  {
    hide U29.Write, U29.Image;
    U29RoundTrip(2 * i, k, table, n);
    assert U29.Image(2 * i) == 2 * i by { U29.HandleSurvives(i, 0); }
    TakeMarkerOf(m, U29.Write(2 * i) + k, table, n);
    TakeMarkerOf(m, k, table, n);
  }

  /** A named entry is read after those before it, and if its name was there already takes the old value's place; an
      empty name ends them. */
  lemma PropRead(key: Bytes, t: Listing, table: Table, acc: map<Bytes, Value>, n: nat, k: Bytes)
    requires NameFits(key) && Lists(t) && Encodable(Erase(t))
    requires |Encode(t, EncodeString(key, table).table).table| <= MAX_TABLE
    ensures var name := EncodeString(key, table);
            var value := Encode(t, name.table);
            DecodeProps(Input(name.bytes + (value.bytes + k), table, n), acc)
            == DecodeProps(Input(k, value.table, n + Containers(t)), acc[key := Normalize(Erase(t))])
    ensures DecodeProps(Input([0x01] + k, table, n), acc) == Ok(acc, Input(k, table, n))
  {
    hide Encode, EncodeString, Decode, TakeString, Normalize, Erase;
    var name := EncodeString(key, table);
    var value := Encode(t, name.table);
    StringRoundTrip(key, table, value.bytes + k, n);
    RoundTrip(t, name.table, k, n);
    NextProp(Input(name.bytes + (value.bytes + k), table, n), acc);
    EmptyRoundTrip(k, table, n);
  }

  /** An array as others write it, with its marker once: its named entries and its elements are read. */
  lemma ArrayRead(es: seq<Entry>, ts: seq<Listing>, table: Table, n: nat, k: Bytes)
    requires ListsEntries(es) && EntriesEncodable(es) && |ts| < 0x800_0000
    requires forall i | 0 <= i < |ts| :: Lists(ts[i]) && Encodable(Erase(ts[i]))
    requires |EncodeAll(ts, EncodeEntries(es, table).table).table| <= MAX_TABLE
    ensures var assoc := EncodeEntries(es, table);
            var dense := EncodeAll(ts, assoc.table);
            var s := [0x09] + U29.Write(2 * |ts| + 1) + assoc.bytes + [0x01] + dense.bytes;
            Decode(Input(s + k, table, n))
            == Ok(Array(NormalizedEntries(es), NormalizedAll(ts)),
                  Input(k, dense.table, n + 1 + EntryContainers(es) + AllContainers(ts)))
  {
    hide Decode, DecodeProps, DecodeAll, TakeMarker, TakeLiteral, EncodeAll, EncodeEntries, U29.Write, ArrayBytes;
    hide Erase, NormalizedEntries, NormalizedAll, Encodable, U29.Handle;
    var h := U29.Handle(|ts|, 1);
    var assoc := EncodeEntries(es, table);
    var dense := EncodeAll(ts, assoc.table);
    var body := assoc.bytes + EMPTY + (dense.bytes + k);
    var m := n + 1 + EntryContainers(es);
    OneMarker(|ts|, assoc.bytes, dense.bytes);
    ConcatArray(|ts|, assoc.bytes, dense.bytes, k);
    var s0 := Input([ARRAY] + (U29.Write(h) + body), table, n);
    var s1 := Input(U29.Write(h) + body, table, n);
    var s2 := Input(body, table, n + 1);
    var s3 := Input(dense.bytes + k, assoc.table, m);
    U29.HandleSurvives(|ts|, 1);
    TakeMarkerOf(ARRAY, U29.Write(h) + body, table, n);
    TakeLiteralOf(h, body, table, n);
    RoundTripEntries(es, table, map[], dense.bytes + k, n + 1);
    assert map[] + NormalizedEntries(es) == NormalizedEntries(es);
    assert DecodeProps(s2, map[]) == Ok(NormalizedEntries(es), s3);
    RoundTripAll(ts, assoc.table, k, m);
    DecodeArray(s0, s1, U29.Image(h), s2, NormalizedEntries(es), s3);
  }

  /** An object as others write it, whatever its traits, if they are not a reference: its class name and its entries are
      read. */
  lemma ObjectRead(traits: u32, c: Bytes, es: seq<Entry>, table: Table, n: nat, k: Bytes)
    requires U29.Image(traits) % 2 == 1 && U29.Fits(|c|)
    requires ListsEntries(es) && EntriesEncodable(es)
    requires |EncodeEntries(es, EncodeString(c, table).table).table| <= MAX_TABLE
    ensures var name := EncodeString(c, table);
            var w := EncodeEntries(es, name.table);
            var s := [0x0A] + (U29.Write(traits) + (name.bytes + (w.bytes + [0x01] + k)));
            Decode(Input(s, table, n))
            == Ok(Object(c, NormalizedEntries(es)), Input(k, w.table, n + 1 + EntryContainers(es)))
  {
    hide Decode, DecodeProps, TakeMarker, TakeLiteral, TakeString, EncodeString, EncodeEntries, U29.Write;
    hide Erase, NormalizedEntries, Encodable, U29.Image;
    var name := EncodeString(c, table);
    var w := EncodeEntries(es, name.table);
    var body := w.bytes + EMPTY + k;
    TakeMarkerOf(OBJECT, U29.Write(traits) + (name.bytes + body), table, n);
    TakeLiteralOf(traits, name.bytes + body, table, n);
    StringRoundTrip(c, table, body, n + 1);
    RoundTripEntries(es, name.table, map[], k, n + 1);
    assert map[] + NormalizedEntries(es) == NormalizedEntries(es);
    var s0 := Input([OBJECT] + (U29.Write(traits) + (name.bytes + body)), table, n);
    var s1 := Input(U29.Write(traits) + (name.bytes + body), table, n);
    var s2 := Input(name.bytes + body, table, n + 1);
    var s3 := Input(body, name.table, n + 1);
    DecodeObject(s0, s1, s2, c, s3);
  }

  lemma DecodeObject(s0: Input, s1: Input, s2: Input, c: Bytes, s3: Input)
    requires TakeMarker(s0) == Ok(OBJECT, s1) && TakeLiteral(s1).Ok? && TakeLiteral(s1).rest == s2
    requires TakeString(s2) == Ok(c, s3) && DecodeProps(s3, map[]).Ok?
    ensures Decode(s0) == Ok(Object(c, DecodeProps(s3, map[]).value), DecodeProps(s3, map[]).rest)
  {
  }

  // ----- Go forms

  /** The decoder to Go values makes a slice of an array without named entries, and a map of an object, whatever its
      class. */
  lemma GoContainers(traits: u32, c: Bytes, es: seq<Entry>, ts: seq<Listing>, table: Table, n: nat, k: Bytes)
    requires U29.Image(traits) % 2 == 1 && U29.Fits(|c|) && |ts| < 0x800_0000
    requires ListsEntries(es) && EntriesEncodable(es)
    requires forall i | 0 <= i < |ts| :: Lists(ts[i]) && Encodable(Erase(ts[i]))
    requires |EncodeEntries(es, EncodeString(c, table).table).table| <= MAX_TABLE
    requires |EncodeAll(ts, table).table| <= MAX_TABLE
    ensures var name := EncodeString(c, table);
            var w := EncodeEntries(es, name.table);
            var s := [0x0A] + (U29.Write(traits) + (name.bytes + (w.bytes + [0x01] + k)));
            Go.DecodeShallow(Input(s, table, n))
            == Ok(Go.Map(NormalizedEntries(es)), Input(k, w.table, n + 1 + EntryContainers(es)))
    ensures var dense := EncodeAll(ts, table);
            var s := [0x09] + U29.Write(2 * |ts| + 1) + [0x01] + dense.bytes;
            Go.DecodeShallow(Input(s + k, table, n))
            == Ok(Go.Elems(NormalizedAll(ts)), Input(k, dense.table, n + 1 + AllContainers(ts)))
  {
    hide Decode, Go.DecodeShallow, EncodeString, EncodeAll, U29.Write, U29.Image, Erase, NormalizedAll, Encodable;
    var name := EncodeString(c, table);
    var w := EncodeEntries(es, name.table);
    ObjectRead(traits, c, es, table, n, k);
    Go.ShallowAgrees(Input([0x0A] + (U29.Write(traits) + (name.bytes + (w.bytes + [0x01] + k))), table, n));
    ArrayRead([], ts, table, n, k);
    var s := [0x09] + U29.Write(2 * |ts| + 1);
    assert s + [] == s;
    Go.ShallowAgrees(Input(s + [0x01] + EncodeAll(ts, table).bytes + k, table, n));
  }

  /** What the decoder to Go values makes of each value that holds no other, but for strings. */
  lemma GoLeaves(a: byte, d: seq<byte>, table: Table, n: nat, k: Bytes)
    requires a < 128 && |d| == 8
    ensures Go.DecodeShallow(Input([0x00] + k, table, n)) == Ok(Go.Nil, Input(k, table, n))
    ensures Go.DecodeShallow(Input([0x01] + k, table, n)) == Ok(Go.Nil, Input(k, table, n))
    ensures Go.DecodeShallow(Input([0x02] + k, table, n)) == Ok(Go.Bool(false), Input(k, table, n))
    ensures Go.DecodeShallow(Input([0x03] + k, table, n)) == Ok(Go.Bool(true), Input(k, table, n))
    ensures Go.DecodeShallow(Input([0x04, a] + k, table, n)) == Ok(Go.Int32(a), Input(k, table, n))
    ensures Go.DecodeShallow(Input([0x04, 0xFF, 0xFF, 0xFF, 0xFF] + k, table, n))
            == Ok(Go.Int32(-1), Input(k, table, n))
    ensures Go.DecodeShallow(Input([0x05] + d + k, table, n)) == Ok(Go.Float(High8(d)), Input(k, table, n))
  {
    hide U29.Read, High8, TakeBe64;
    var e := [0xFF, 0xFF, 0xFF, 0xFF];
    TakeMarkerOf(0x00, k, table, n);
    TakeMarkerOf(0x01, k, table, n);
    TakeMarkerOf(0x02, k, table, n);
    TakeMarkerOf(0x03, k, table, n);
    U29.ReadBits([a], a, k);
    U29.ReadBits(e, 0x1FFF_FFFF, k);
    assert [0x04, a] + k == [0x04] + ([a] + k) && [0x04, 0xFF, 0xFF, 0xFF, 0xFF] + k == [0x04] + (e + k);
    TakeMarkerOf(0x04, [a] + k, table, n);
    TakeMarkerOf(0x04, e + k, table, n);
    Concat([0x05], d, k);
    TakeMarkerOf(0x05, d + k, table, n);
    NumbersWritten([0, 0], [0, 0, 0, 0], d);
    TakeWords(0, 0, High8(d), k);
  }
}
