/** The two AMF3 string tables stay equal, and values come back. */
module Amf3Proofs {
  import opened Wire
  import opened Collections
  import U29
  import opened Amf3

  /** The most strings a table may hold for every index into it to fit. */
  const MAX_TABLE := 0x800_0000

  // ----- What one traversal adds to the decoder's object table

  function Containers(t: Listing): nat {
    match t
    case Leaf(_) => 0
    case Elements(ts) => 1 + AllContainers(ts)
    case Items(es, ts) => 1 + EntryContainers(es) + AllContainers(ts)
    case Members(_, es) => 1 + EntryContainers(es)
  }

  function EntryContainers(es: seq<Entry>): nat {
    if es == [] then 0 else Containers(es[0].listing) + EntryContainers(es[1..])
  }

  function AllContainers(ts: seq<Listing>): nat {
    if ts == [] then 0 else Containers(ts[0]) + AllContainers(ts[1..])
  }

  // ----- Strings

  lemma U29RoundTrip(x: u32, k: Bytes, table: Table, n: nat)
    ensures TakeU29(Input(U29.Write(x) + k, table, n)) == Ok(U29.Image(x), Input(k, table, n))
  {
    U29.ReadWrite(x, k);
  }

  lemma EmptyRoundTrip(k: Bytes, table: Table, n: nat)
    ensures TakeString(Input(EMPTY + k, table, n)) == Ok([], Input(k, table, n))
  {
    U29RoundTrip(1, k, table, n);
  }

  /** A string, new or met before, is read back, and both tables change alike. */
  lemma StringRoundTrip(s: Bytes, table: Table, k: Bytes, n: nat)
    requires U29.Fits(|s|) && |EncodeString(s, table).table| <= MAX_TABLE
    ensures TakeString(Input(EncodeString(s, table).bytes + k, table, n))
            == Ok(s, Input(k, EncodeString(s, table).table, n))
  {
    if s == [] {
      EmptyRoundTrip(k, table, n);
    } else if s in table {
      var i := FirstIndex(s, table);
      U29.HandleSurvives(i, 0);
      U29RoundTrip(U29.Handle(i, 0), k, table, n);
    } else {
      var h := U29.Handle(|s|, 1);
      U29.HandleSurvives(|s|, 1);
      Concat(U29.Write(h), s, k);
      U29RoundTrip(h, s + k, table, n);
      TakeAppend(s, k);
    }
  }

  // ----- Values

  lemma TakeMarkerOf(marker: byte, body: Bytes, table: Table, n: nat)
    ensures TakeMarker(Input([marker] + body, table, n)) == Ok(marker, Input(body, table, n))
  {
    assert ([marker] + body)[1..] == body;
  }

  lemma DecodeLeaf(marker: byte, body: Bytes, table: Table, n: nat)
    requires marker != ARRAY && marker != OBJECT
    ensures Decode(Input([marker] + body, table, n)) == TakeLeaf(marker, Input(body, table, n))
  {
    hide TakeMarker, TakeLeaf;
    TakeMarkerOf(marker, body, table, n);
  }

  lemma LeafRoundTrip(v: Value, table: Table, k: Bytes, n: nat)
    requires IsLeaf(v) && Encodable(v) && |EncodeLeaf(v, table).table| <= MAX_TABLE
    ensures Decode(Input(EncodeLeaf(v, table).bytes + k, table, n))
            == Ok(Normalize(v), Input(k, EncodeLeaf(v, table).table, n))
  {
    hide Decode, TakeU29, TakeString, EncodeString, U29.Write, TakeBe64, Be64, U29.Image, U29.ToInt32, U29.FromInt32,
      U29.Fits;
    match v {
      case Undefined => DecodeLeaf(UNDEFINED, k, table, n);
      case Null => DecodeLeaf(NULL, k, table, n);
      case Boolean(b) => DecodeLeaf(if b then TRUE else FALSE, k, table, n);
      case Integer(i) =>
        var x := U29.FromInt32(i);
        Concat([INTEGER], U29.Write(x), k);
        DecodeLeaf(INTEGER, U29.Write(x) + k, table, n);
        U29RoundTrip(x, k, table, n);
      case Double(bits) =>
        Concat([DOUBLE], Be64(bits), k);
        DecodeLeaf(DOUBLE, Be64(bits) + k, table, n);
        TakeWords(0, 0, bits, k);
      case String(s) =>
        var w := EncodeString(s, table);
        Concat([STRING], w.bytes, k);
        DecodeLeaf(STRING, w.bytes + k, table, n);
        StringRoundTrip(s, table, k, n);
      case Slice(_) =>
      case Array(_, _) =>
      case Object(_, _) =>
    }
  }

  ghost function NormalizedEntries(es: seq<Entry>): map<Bytes, Value> {
    if es == [] then map[] else map[es[0].key := Normalize(Erase(es[0].listing))] + NormalizedEntries(es[1..])
  }

  lemma {:induction false} NormalizedEntriesAre(es: seq<Entry>)
    ensures NormalizedEntries(es).Keys == EraseEntries(es).Keys
    ensures forall n | n in EraseEntries(es) :: NormalizedEntries(es)[n] == Normalize(EraseEntries(es)[n])
  {
    if es != [] {
      NormalizedEntriesAre(es[1..]);
      assert EraseEntries(es) == map[es[0].key := Erase(es[0].listing)] + EraseEntries(es[1..]);
    }
  }

  ghost function NormalizedAll(ts: seq<Listing>): seq<Value> {
    seq(|ts|, i requires 0 <= i < |ts| => Normalize(Erase(ts[i])))
  }

  lemma NormalizedSlice(ts: seq<Listing>)
    ensures Normalize(Erase(Elements(ts))) == Array(map[], NormalizedAll(ts))
  {
    assert Normalize(Slice(EraseAll(ts))).dense == NormalizedAll(ts);
  }

  lemma NormalizedObject(c: Bytes, es: seq<Entry>)
    ensures Normalize(Erase(Members(c, es))) == Object([], NormalizedEntries(es))
  {
    NormalizedEntriesAre(es);
    assert Normalize(Object(c, EraseEntries(es))).props == NormalizedEntries(es);
  }

  lemma {:induction false} NamesOf(es: seq<Entry>, k: Bytes)
    ensures k in EraseEntries(es) <==> exists i :: 0 <= i < |es| && es[i].key == k
  {
    if es != [] {
      NamesOf(es[1..], k);
      assert forall i | 1 <= i < |es| :: es[i] == es[1..][i - 1];
      if exists i :: 0 <= i < |es[1..]| && es[1..][i].key == k {
        var i :| 0 <= i < |es[1..]| && es[1..][i].key == k;
        assert es[i + 1].key == k;
      }
    }
  }

  lemma EraseEntriesAt(es: seq<Entry>, i: nat)
    requires i < |es| && ListsEntries(es)
    ensures es[i].key in EraseEntries(es) && EraseEntries(es)[es[i].key] == Erase(es[i].listing)
  {
    NamesOf(es[1..], es[0].key);
    if i > 0 {
      assert es[i] == es[1..][i - 1];
      EraseEntriesAt(es[1..], i - 1);
    }
    forall j | 0 <= j < |es[1..]| ensures es[1..][j].key != es[0].key {
      assert es[1..][j] == es[j + 1];
    }
  }

  ghost predicate EntriesEncodable(es: seq<Entry>) {
    forall i | 0 <= i < |es| :: NameFits(es[i].key) && Encodable(Erase(es[i].listing))
  }

  lemma EntriesAreEncodable(es: seq<Entry>)
    requires ListsEntries(es)
    requires forall k | k in EraseEntries(es) :: NameFits(k) && Encodable(EraseEntries(es)[k])
    ensures EntriesEncodable(es)
  {
    forall i | 0 <= i < |es| ensures NameFits(es[i].key) && Encodable(Erase(es[i].listing)) {
      EraseEntriesAt(es, i);
    }
  }

  /** Decoding with the encoder's table any encoding of an encodable value, followed by anything, gives the
      normal form of the value, leaves what followed, and grows the table exactly as encoding did. */
  lemma {:induction false} RoundTrip(t: Listing, table: Table, k: Bytes, n: nat)
    requires Lists(t) && Encodable(Erase(t)) && |Encode(t, table).table| <= MAX_TABLE
    ensures Decode(Input(Encode(t, table).bytes + k, table, n))
            == Ok(Normalize(Erase(t)), Input(k, Encode(t, table).table, n + Containers(t)))
    decreases t, 1
  {
    hide Decode, Normalize, EncodeLeaf, EncodeEntries, EncodeAll, EncodeString, EraseEntries;
    match t {
      case Leaf(v) =>
        assert Encode(t, table) == EncodeLeaf(v, table);
        LeafRoundTrip(v, table, k, n);
      case Elements(ts) =>
        assert forall i | 0 <= i < |ts| :: Erase(ts[i]) == EraseAll(ts)[i];
        ElementsRoundTrip(ts, table, k, n);
      case Items(_, _) =>
      case Members(c, es) =>
        EntriesAreEncodable(es);
        MembersRoundTrip(c, es, table, k, n);
    }
  }

  lemma ConcatArray(n: nat, assoc: Bytes, dense: Bytes, k: Bytes)
    ensures ArrayBytes(n, assoc, dense) + k == [ARRAY] + (U29.Write(U29.Handle(n, 1)) + (assoc + EMPTY + (dense + k)))
  {
    hide U29.Write, U29.Handle;
    var h := U29.Write(U29.Handle(n, 1));
    Concat([ARRAY], h + (assoc + EMPTY + dense), k);
    Concat(h, assoc + EMPTY + dense, k);
    Concat(assoc + EMPTY, dense, k);
  }

  lemma TakeLiteralOf(h: u32, body: Bytes, table: Table, n: nat)
    requires U29.Image(h) % 2 == 1
    ensures TakeLiteral(Input(U29.Write(h) + body, table, n)) == Ok(U29.Image(h), Input(body, table, n + 1))
  {
    U29RoundTrip(h, body, table, n);
  }

  /** An array, from the parses of its parts. */
  lemma DecodeArray(s0: Input, s1: Input, h: u32, s2: Input, ps: map<Bytes, Value>, s3: Input)
    requires TakeMarker(s0) == Ok(ARRAY, s1) && TakeLiteral(s1) == Ok(h, s2)
    requires DecodeProps(s2, map[]) == Ok(ps, s3) && DecodeAll(s3, h / 2).Ok?
    ensures Decode(s0) == Ok(Array(ps, DecodeAll(s3, h / 2).value), DecodeAll(s3, h / 2).rest)
  {
  }

  /** An anonymous object, from the parses of its parts. */
  lemma DecodeAnonymous(s0: Input, s1: Input, s2: Input, s3: Input)
    requires TakeMarker(s0) == Ok(OBJECT, s1) && TakeLiteral(s1).Ok? && TakeLiteral(s1).rest == s2
    requires TakeString(s2) == Ok([], s3) && DecodeProps(s3, map[]).Ok?
    ensures Decode(s0) == Ok(Object([], DecodeProps(s3, map[]).value), DecodeProps(s3, map[]).rest)
  {
  }

  lemma NoProps(k: Bytes, table: Table, n: nat)
    ensures DecodeProps(Input([] + EMPTY + k, table, n), map[]) == Ok(map[], Input(k, table, n))
  {
    assert [] + EMPTY + k == EMPTY + k;
    EmptyRoundTrip(k, table, n);
  }

  lemma {:induction false} ElementsRoundTrip(ts: seq<Listing>, table: Table, k: Bytes, n: nat)
    requires U29.Fits(|ts|) && forall i | 0 <= i < |ts| :: Lists(ts[i]) && Encodable(Erase(ts[i]))
    requires |Encode(Elements(ts), table).table| <= MAX_TABLE
    ensures Decode(Input(Encode(Elements(ts), table).bytes + k, table, n))
            == Ok(Normalize(Erase(Elements(ts))),
                  Input(k, Encode(Elements(ts), table).table, n + Containers(Elements(ts))))
    decreases Elements(ts), 0
  {
    hide Decode, DecodeProps, DecodeAll, TakeMarker, TakeLiteral, EncodeAll, U29.Write, ArrayBytes;
    hide Erase, EraseAll, Normalize, NormalizedAll, Encodable, U29.Handle;
    var h := U29.Handle(|ts|, 1);
    var dense := EncodeAll(ts, table);
    var body := [] + EMPTY + (dense.bytes + k);
    ConcatArray(|ts|, [], dense.bytes, k);
    var s0 := Input([ARRAY] + (U29.Write(h) + body), table, n);
    var s1 := Input(U29.Write(h) + body, table, n);
    var s2 := Input(body, table, n + 1);
    var s3 := Input(dense.bytes + k, table, n + 1);
    U29.HandleSurvives(|ts|, 1);
    TakeMarkerOf(ARRAY, U29.Write(h) + body, table, n);
    TakeLiteralOf(h, body, table, n);
    NoProps(dense.bytes + k, table, n + 1);
    RoundTripAll(ts, table, k, n + 1);
    DecodeArray(s0, s1, U29.Image(h), s2, map[], s3);
    NormalizedSlice(ts);
  }

  lemma ConcatObject(m: Bytes, h: Bytes, es: Bytes, k: Bytes)
    ensures (m + (h + (EMPTY + (es + EMPTY)))) + k == m + (h + (EMPTY + (es + EMPTY + k)))
  {
    Concat(m, h + (EMPTY + (es + EMPTY)), k);
    Concat(h, EMPTY + (es + EMPTY), k);
    Concat(EMPTY, es + EMPTY, k);
  }

  lemma {:induction false} MembersRoundTrip(c: Bytes, es: seq<Entry>, table: Table, k: Bytes, n: nat)
    requires ListsEntries(es) && EntriesEncodable(es)
    requires |Encode(Members(c, es), table).table| <= MAX_TABLE
    ensures Decode(Input(Encode(Members(c, es), table).bytes + k, table, n))
            == Ok(Normalize(Erase(Members(c, es))),
                  Input(k, Encode(Members(c, es), table).table, n + Containers(Members(c, es))))
    decreases Members(c, es), 0
  {
    hide Decode, DecodeProps, DecodeAll, TakeMarker, TakeLiteral, TakeString, EncodeAll, EncodeEntries, U29.Write;
    hide Erase, EraseEntries, Normalize, NormalizedEntries, Encodable;
    var w := EncodeEntries(es, table);
    var body := w.bytes + EMPTY + k;
    ConcatObject([OBJECT], U29.Write(TRAITS), w.bytes, k);
    var s0 := Input([OBJECT] + (U29.Write(TRAITS) + (EMPTY + body)), table, n);
    var s1 := Input(U29.Write(TRAITS) + (EMPTY + body), table, n);
    var s2 := Input(EMPTY + body, table, n + 1);
    var s3 := Input(body, table, n + 1);
    TakeMarkerOf(OBJECT, U29.Write(TRAITS) + (EMPTY + body), table, n);
    TakeLiteralOf(TRAITS, EMPTY + body, table, n);
    EmptyRoundTrip(body, table, n + 1);
    RoundTripEntries(es, table, map[], k, n + 1);
    assert map[] + NormalizedEntries(es) == NormalizedEntries(es);
    assert DecodeProps(s3, map[]).Ok?;
    DecodeAnonymous(s0, s1, s2, s3);
    NormalizedObject(c, es);
  }

  lemma ConcatEntry(name: Bytes, value: Bytes, tail: Bytes, k: Bytes)
    ensures (name + value) + tail + EMPTY + k == name + (value + (tail + EMPTY + k))
  {
    Concat(name + value, tail, EMPTY);
    Concat(name + value, tail + EMPTY, k);
    Concat(name, value, tail + EMPTY + k);
  }

  lemma NextProp(s: Input, acc: map<Bytes, Value>)
    requires TakeString(s).Ok? && TakeString(s).value != [] && Decode(TakeString(s).rest).Ok?
    ensures var v := Decode(TakeString(s).rest);
            DecodeProps(s, acc) == DecodeProps(v.rest, acc[TakeString(s).value := v.value])
  {
  }

  lemma {:induction false} RoundTripEntries(es: seq<Entry>, table: Table, acc: map<Bytes, Value>, k: Bytes, n: nat)
    requires ListsEntries(es) && EntriesEncodable(es) && |EncodeEntries(es, table).table| <= MAX_TABLE
    ensures DecodeProps(Input(EncodeEntries(es, table).bytes + EMPTY + k, table, n), acc)
            == Ok(acc + NormalizedEntries(es), Input(k, EncodeEntries(es, table).table, n + EntryContainers(es)))
    decreases es, 0
  {
    hide TakeString, TakeMarker, TakeLeaf, Encode, Decode;
    if es == [] {
      assert EncodeEntries(es, table).bytes + EMPTY + k == EMPTY + k;
      EmptyRoundTrip(k, table, n);
      assert acc + NormalizedEntries(es) == acc;
    } else {
      var e, tail := es[0], es[1..];
      var key := EncodeString(e.key, table);
      var value := Encode(e.listing, key.table);
      var more := EncodeEntries(tail, value.table);
      var v := Normalize(Erase(e.listing));
      var m := n + Containers(e.listing);
      var rest := more.bytes + EMPTY + k;
      ConcatEntry(key.bytes, value.bytes, more.bytes, k);
      var s1 := Input(key.bytes + (value.bytes + rest), table, n);
      var s2 := Input(value.bytes + rest, key.table, n);
      var s3 := Input(rest, value.table, m);
      StringRoundTrip(e.key, table, value.bytes + rest, n);
      assert TakeString(s1) == Ok(e.key, s2);
      RoundTrip(e.listing, key.table, rest, n);
      assert Decode(s2) == Ok(v, s3);
      NextProp(s1, acc);
      RoundTripEntries(tail, value.table, acc[e.key := v], k, m);
      MergeEntry(acc, e.key, v, NormalizedEntries(tail));
    }
  }

  lemma NextElement(s: Input, n: nat)
    requires Decode(s).Ok? && DecodeAll(Decode(s).rest, n).Ok?
    ensures DecodeAll(s, n + 1)
            == Ok([Decode(s).value] + DecodeAll(Decode(s).rest, n).value, DecodeAll(Decode(s).rest, n).rest)
  {
  }

  /** A series of values on one encoder and one decoder. */
  lemma {:induction false} RoundTripAll(ts: seq<Listing>, table: Table, k: Bytes, n: nat)
    requires forall i | 0 <= i < |ts| :: Lists(ts[i]) && Encodable(Erase(ts[i]))
    requires |EncodeAll(ts, table).table| <= MAX_TABLE
    ensures DecodeAll(Input(EncodeAll(ts, table).bytes + k, table, n), |ts|)
            == Ok(NormalizedAll(ts), Input(k, EncodeAll(ts, table).table, n + AllContainers(ts)))
    decreases ts, 0
  {
    hide Decode, Encode;
    if ts == [] {
      assert EncodeAll(ts, table).bytes + k == k;
    } else {
      var tail := ts[1..];
      var head := Encode(ts[0], table);
      var more := EncodeAll(tail, head.table);
      var m := n + Containers(ts[0]);
      RoundTripAll(tail, head.table, k, m);
      RoundTrip(ts[0], table, more.bytes + k, n);
      Concat(head.bytes, more.bytes, k);
      var s1 := Input(head.bytes + (more.bytes + k), table, n);
      var s2 := Input(more.bytes + k, head.table, m);
      assert DecodeAll(s2, |tail|).Ok?;
      assert Decode(s1).Ok?;
      assert Decode(s1).rest == s2;
      NextElement(s1, |tail|);
      assert NormalizedAll(ts) == [Normalize(Erase(ts[0]))] + NormalizedAll(tail);
    }
  }
}
