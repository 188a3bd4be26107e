/** What the AMF3 decoder can return, when a value comes back unchanged, and the tables over a whole run. */
module Amf3Sync {
  import opened Wire
  import U29
  import opened Amf3
  import opened Amf3Proofs

  // ----- The encoder's table

  predicate Distinct(table: Table) {
    forall i, j | 0 <= i < j < |table| :: table[i] != table[j]
  }

  /** The strings that a traversal writes, in order and with the empty ones. */
  function Strings(t: Listing): seq<Bytes> {
    match t
    case Leaf(v) => if v.String? then [v.text] else []
    case Elements(ts) => AllStrings(ts)
    case Items(es, ts) => EntryStrings(es) + AllStrings(ts)
    case Members(_, es) => EntryStrings(es)
  }

  function EntryStrings(es: seq<Entry>): seq<Bytes> {
    if es == [] then [] else [es[0].key] + Strings(es[0].listing) + EntryStrings(es[1..])
  }

  function AllStrings(ts: seq<Listing>): seq<Bytes> {
    if ts == [] then [] else Strings(ts[0]) + AllStrings(ts[1..])
  }

  /** The table after a run of strings: each that is new and not empty is added at the end. */
  function Collect(table: Table, strings: seq<Bytes>): Table
    decreases |strings|
  {
    if strings == [] then table
    else
      var s := strings[0];
      Collect(if s == [] || s in table then table else table + [s], strings[1..])
  }

  lemma {:induction false} CollectAppend(table: Table, a: seq<Bytes>, b: seq<Bytes>)
    ensures Collect(table, a + b) == Collect(Collect(table, a), b)
    decreases |a|
  {
    if a == [] {
      assert a + b == b;
    } else {
      var s := a[0];
      assert (a + b)[1..] == a[1..] + b;
      CollectAppend(if s == [] || s in table then table else table + [s], a[1..], b);
    }
  }

  lemma CollectOne(table: Table, s: Bytes)
    ensures Collect(table, [s]) == EncodeString(s, table).table
  {
  }

  /** A table without repetitions stays so, keeps its prefix, and gains exactly the new strings. */
  lemma {:induction false} CollectGrows(table: Table, strings: seq<Bytes>)
    requires Distinct(table)
    ensures Distinct(Collect(table, strings))
    ensures table <= Collect(table, strings)
    ensures forall s :: s in Collect(table, strings) <==> s in table || (s != [] && s in strings)
    decreases |strings|
  {
    if strings != [] {
      var s := strings[0];
      CollectGrows(if s == [] || s in table then table else table + [s], strings[1..]);
      assert strings == [s] + strings[1..];
    }
  }

  /** The encoder's table after a value is determined by the strings written, for every order of the walk. */
  lemma {:induction false} EncodeCollects(t: Listing, table: Table)
    requires Lists(t)
    ensures Encode(t, table).table == Collect(table, Strings(t))
    decreases t
  {
    match t {
      case Leaf(v) =>
        if v.String? {
          CollectOne(table, v.text);
        }
      case Elements(ts) =>
        AllCollect(ts, table);
      case Items(es, ts) =>
        EntriesCollect(es, table);
        AllCollect(ts, EncodeEntries(es, table).table);
        CollectAppend(table, EntryStrings(es), AllStrings(ts));
      case Members(_, es) =>
        EntriesCollect(es, table);
    }
  }

  lemma {:induction false} EntriesCollect(es: seq<Entry>, table: Table)
    requires ListsEntries(es)
    ensures EncodeEntries(es, table).table == Collect(table, EntryStrings(es))
    decreases es
  {
    if es != [] {
      var key := EncodeString(es[0].key, table);
      var value := Encode(es[0].listing, key.table);
      CollectOne(table, es[0].key);
      EncodeCollects(es[0].listing, key.table);
      EntriesCollect(es[1..], value.table);
      CollectAppend(table, [es[0].key], Strings(es[0].listing));
      CollectAppend(table, [es[0].key] + Strings(es[0].listing), EntryStrings(es[1..]));
    }
  }

  lemma {:induction false} AllCollect(ts: seq<Listing>, table: Table)
    requires forall i | 0 <= i < |ts| :: Lists(ts[i])
    ensures EncodeAll(ts, table).table == Collect(table, AllStrings(ts))
    decreases ts
  {
    if ts != [] {
      EncodeCollects(ts[0], table);
      AllCollect(ts[1..], Encode(ts[0], table).table);
      CollectAppend(table, Strings(ts[0]), AllStrings(ts[1..]));
    }
  }

  // ----- What the decoder can return

  ghost predicate TableFits(table: Table) {
    forall i | 0 <= i < |table| :: NameFits(table[i])
  }

  ghost predicate PropsReadable(ps: map<Bytes, Value>) {
    forall k | k in ps :: NameFits(k) && Readable(ps[k])
  }

  lemma TakenStringFits(s: Input)
    requires TableFits(s.strings) && TakeString(s).Ok?
    ensures U29.Fits(|TakeString(s).value|) && TableFits(TakeString(s).rest.strings)
  {
    U29.ReadFits(s.bytes);
  }

  lemma {:induction false} DecodedIsReadable(s: Input)
    requires TableFits(s.strings) && Decode(s).Ok?
    ensures Readable(Decode(s).value) && TableFits(Decode(s).rest.strings)
    decreases |s.bytes|, 0
  {
    hide TakeString, U29.Read, DecodeProps, DecodeAll;
    var r := TakeMarker(s).rest;
    if TakeMarker(s).value == ARRAY {
      var h := TakeLiteral(r);
      U29.ReadFits(r.bytes);
      DecodedPropsAreReadable(h.rest, map[]);
      DecodedElementsAreReadable(DecodeProps(h.rest, map[]).rest, h.value / 2);
    } else if TakeMarker(s).value == OBJECT {
      var h := TakeLiteral(r);
      TakenStringFits(h.rest);
      DecodedPropsAreReadable(TakeString(h.rest).rest, map[]);
    } else if TakeMarker(s).value == STRING {
      TakenStringFits(r);
    } else if TakeMarker(s).value == INTEGER {
      U29.ReadFits(r.bytes);
    }
  }

  lemma {:induction false} DecodedPropsAreReadable(s: Input, acc: map<Bytes, Value>)
    requires TableFits(s.strings) && PropsReadable(acc) && DecodeProps(s, acc).Ok?
    ensures PropsReadable(DecodeProps(s, acc).value) && TableFits(DecodeProps(s, acc).rest.strings)
    decreases |s.bytes|, 1
  {
    hide TakeString, Decode, U29.Fits;
    TakenStringFits(s);
    var k := TakeString(s);
    if k.value != [] {
      DecodedIsReadable(k.rest);
      DecodedPropsAreReadable(Decode(k.rest).rest, acc[k.value := Decode(k.rest).value]);
    }
  }

  lemma {:induction false} DecodedElementsAreReadable(s: Input, n: nat)
    requires TableFits(s.strings) && DecodeAll(s, n).Ok?
    ensures forall i | 0 <= i < n :: Readable(DecodeAll(s, n).value[i])
    ensures TableFits(DecodeAll(s, n).rest.strings)
    decreases |s.bytes|, 1
  {
    hide Decode;
    if n > 0 {
      DecodedIsReadable(s);
      DecodedElementsAreReadable(Decode(s).rest, n - 1);
    }
  }

  /** Of the values without arrays, those whose names and lengths the decoder can return are encodable. */
  lemma {:induction false} ReadableIsEncodable(v: Value)
    requires ArrayFree(v) && Readable(AsRead(v))
    ensures Encodable(v)
  {
    match v {
      case Slice(vs) =>
        var ws := AsRead(v).dense;
        forall i | 0 <= i < |vs| ensures Encodable(vs[i]) {
          assert ws[i] == AsRead(vs[i]);
          ReadableIsEncodable(vs[i]);
        }
      case Object(_, ps) =>
        var qs := AsRead(v).props;
        forall k | k in ps ensures NameFits(k) && Encodable(ps[k]) {
          assert k in qs && qs[k] == AsRead(ps[k]);
          ReadableIsEncodable(ps[k]);
        }
      case _ =>
    }
  }

  lemma {:induction false} EncodableIsArrayFree(v: Value)
    requires Encodable(v)
    ensures ArrayFree(v)
  {
    match v {
      case Slice(vs) =>
        forall i | 0 <= i < |vs| ensures ArrayFree(vs[i]) {
          EncodableIsArrayFree(vs[i]);
        }
      case Object(_, ps) =>
        forall k | k in ps ensures ArrayFree(ps[k]) {
          EncodableIsArrayFree(ps[k]);
        }
      case _ =>
    }
  }

  lemma {:induction false} CanonicalIsNormal(v: Value)
    ensures Canonical(v) <==> Encodable(v) && Normalize(v) == AsRead(v)
  {
    match v {
      case Integer(i) =>
        U29.IntegerSurvives(i);
      case Slice(vs) =>
        forall i | 0 <= i < |vs| ensures Canonical(vs[i]) <==> Encodable(vs[i]) && Normalize(vs[i]) == AsRead(vs[i]) {
          CanonicalIsNormal(vs[i]);
        }
        var ws, us := Normalize(v).dense, AsRead(v).dense;
        assert forall i | 0 <= i < |vs| :: ws[i] == Normalize(vs[i]) && us[i] == AsRead(vs[i]);
        assert (forall i | 0 <= i < |vs| :: ws[i] == us[i]) <==> ws == us;
      case Object(_, ps) =>
        var qs, us := Normalize(v).props, AsRead(v).props;
        forall k | k in ps ensures Canonical(ps[k]) <==> Encodable(ps[k]) && qs[k] == us[k] {
          CanonicalIsNormal(ps[k]);
        }
        assert (forall k | k in ps :: qs[k] == us[k]) <==> qs == us;
      case _ =>
    }
  }

  /** Decoding with the encoder's table gives the value, leaves what followed, and ends with the encoder's table. */
  ghost predicate ComesBack(t: Listing, table: Table, k: Bytes, n: nat)
    requires Lists(t)
  {
    Decode(Input(Encode(t, table).bytes + k, table, n))
    == Ok(AsRead(Erase(t)), Input(k, Encode(t, table).table, n + Containers(t)))
  }

  /** The exact condition under which a value without arrays comes back and the tables stay equal. */
  lemma RoundTripIff(t: Listing, table: Table, k: Bytes, n: nat)
    requires Lists(t) && ArrayFree(Erase(t)) && TableFits(table) && |Encode(t, table).table| <= MAX_TABLE
    ensures ComesBack(t, table, k, n) <==> Canonical(Erase(t))
  {
    hide Decode, Encode, Erase, Normalize, AsRead, Readable, Encodable, Canonical, ArrayFree;
    var s := Input(Encode(t, table).bytes + k, table, n);
    CanonicalIsNormal(Erase(t));
    if ComesBack(t, table, k, n) {
      DecodedIsReadable(s);
      ReadableIsEncodable(Erase(t));
    }
    if Encodable(Erase(t)) {
      RoundTrip(t, table, k, n);
    }
  }

  /** An object with an empty property name comes back without its properties, and leaves bytes behind. */
  lemma EmptyNameLost()
    ensures var t := Members([], [Entry([], Leaf(Null))]);
            && Lists(t) && !Canonical(Erase(t))
            && Decode(Input(Encode(t, []).bytes, [], 0)) == Ok(Object([], map[]), Input([NULL, 1], [], 1))
  {
    var es := [Entry([], Leaf(Null))];
    var t := Members([], es);
    assert es[1..] == [];
    assert EraseEntries(es)[[]] == Null;
    assert U29.Write(TRAITS) == [0x0B];
    var b := Encode(t, []).bytes;
    assert b == [OBJECT] + ([0x0B] + (EMPTY + (EMPTY + [NULL, 1])));
    var s1 := Input([0x0B] + (EMPTY + (EMPTY + [NULL, 1])), [], 0);
    TakeMarkerOf(OBJECT, s1.bytes, [], 0);
    TakeLiteralOf(TRAITS, EMPTY + (EMPTY + [NULL, 1]), [], 0);
    EmptyRoundTrip(EMPTY + [NULL, 1], [], 1);
    EmptyRoundTrip([NULL, 1], [], 1);
    DecodeAnonymous(Input(b, [], 0), s1, Input(EMPTY + (EMPTY + [NULL, 1]), [], 1), Input(EMPTY + [NULL, 1], [], 1));
  }

  /** Any series of values encoded by one fresh encoder and decoded by one fresh decoder: every value comes
      back in normal form, and after the first `m` of them, for every `m`, both tables are the same table
      without repetitions, which holds exactly the non-empty strings written so far. */
  lemma Series(ts: seq<Listing>, m: nat)
    requires forall i | 0 <= i < |ts| :: Lists(ts[i]) && Encodable(Erase(ts[i]))
    requires |EncodeAll(ts, []).table| <= MAX_TABLE
    requires m <= |ts|
    ensures var w := EncodeAll(ts[..m], []);
            && w.bytes <= EncodeAll(ts, []).bytes
            && Distinct(w.table) && (forall s :: s in w.table <==> s != [] && s in AllStrings(ts[..m]))
            && DecodeAll(Input(EncodeAll(ts, []).bytes, [], 0), m)
               == Ok(NormalizedAll(ts[..m]),
                     Input(EncodeAll(ts, []).bytes[|w.bytes|..], w.table, AllContainers(ts[..m])))
  {
    hide EncodeAll, DecodeAll, AllContainers, NormalizedAll, AllStrings, Collect;
    var w := EncodeAll(ts[..m], []);
    var rest := EncodeAll(ts[m..], w.table);
    EncodeAllSplit(ts, m, []);
    RoundTripAll(ts[..m], [], rest.bytes, 0);
    assert EncodeAll(ts, []).bytes[|w.bytes|..] == rest.bytes;
    AllCollect(ts[..m], []);
    CollectGrows([], AllStrings(ts[..m]));
  }

  lemma {:induction false} EncodeAllSplit(ts: seq<Listing>, m: nat, table: Table)
    requires m <= |ts| && forall i | 0 <= i < |ts| :: Lists(ts[i])
    ensures var w := EncodeAll(ts[..m], table);
            var rest := EncodeAll(ts[m..], w.table);
            EncodeAll(ts, table) == Written(w.bytes + rest.bytes, rest.table)
    decreases m
  {
    if m == 0 {
      assert ts[..0] == [] && ts[0..] == ts;
      assert [] + EncodeAll(ts, table).bytes == EncodeAll(ts, table).bytes;
    } else {
      var head := Encode(ts[0], table);
      assert ts[..m][1..] == ts[1..][..m - 1] && ts[1..][m - 1..] == ts[m..];
      EncodeAllSplit(ts[1..], m - 1, head.table);
      var w := EncodeAll(ts[1..][..m - 1], head.table);
      Concat(head.bytes, w.bytes, EncodeAll(ts[m..], w.table).bytes);
    }
  }
}
