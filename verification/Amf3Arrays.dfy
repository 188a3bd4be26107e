/** Arrays passed as `AMF3Array`, whose marker the encoder writes twice, do not come back. */
module Amf3Arrays {
  import opened Wire
  import U29
  import opened Amf3
  import opened Amf3Proofs
  import opened Amf3Sync

  // ----- The decoder's table only grows

  lemma {:induction false} DecodeGrows(s: Input)
    requires Decode(s).Ok?
    ensures s.strings <= Decode(s).rest.strings
    decreases |s.bytes|, 0
  {
    hide U29.Read, DecodeProps, DecodeAll;
    var r := TakeMarker(s).rest;
    if TakeMarker(s).value == ARRAY {
      var h := TakeLiteral(r);
      PropsGrow(h.rest, map[]);
      AllGrow(DecodeProps(h.rest, map[]).rest, h.value / 2);
    } else if TakeMarker(s).value == OBJECT {
      PropsGrow(TakeString(TakeLiteral(r).rest).rest, map[]);
    }
  }

  lemma {:induction false} PropsGrow(s: Input, acc: map<Bytes, Value>)
    requires DecodeProps(s, acc).Ok?
    ensures s.strings <= DecodeProps(s, acc).rest.strings
    ensures acc.Keys <= DecodeProps(s, acc).value.Keys
    decreases |s.bytes|, 1
  {
    hide U29.Read, Decode;
    var k := TakeString(s);
    if k.value != [] {
      DecodeGrows(k.rest);
      PropsGrow(Decode(k.rest).rest, acc[k.value := Decode(k.rest).value]);
    }
  }

  lemma {:induction false} AllGrow(s: Input, n: nat)
    requires DecodeAll(s, n).Ok?
    ensures s.strings <= DecodeAll(s, n).rest.strings
    decreases |s.bytes|, 1
  {
    hide Decode;
    if n > 0 {
      DecodeGrows(s);
      AllGrow(Decode(s).rest, n - 1);
    }
  }

  // ----- What the decoder makes of a doubled marker

  /** The second marker is taken for a count of four elements, and the count, unless it is 0, for the length of a
      first name, which is new to the table. No name is empty. */
  lemma DoubledMarker(m: nat, body: Bytes, table: Table, n: nat)
    requires Decode(Input([ARRAY] + ([ARRAY] + (U29.Write(U29.Handle(m, 1)) + body)), table, n)).Ok?
    ensures var p := Decode(Input([ARRAY] + ([ARRAY] + (U29.Write(U29.Handle(m, 1)) + body)), table, n));
            && p.value.Array? && |p.value.dense| == 4 && [] !in p.value.assoc
            && (m > 0 && U29.Fits(m) ==>
                  p.value.assoc != map[] && |body| >= m && table + [body[..m]] <= p.rest.strings)
  {
    hide U29.Write, U29.Read, U29.Handle, U29.Fits, DecodeProps, DecodeAll, TakeMarker, TakeLiteral, TakeString;
    var h := U29.Write(U29.Handle(m, 1));
    var s0 := Input([ARRAY] + ([ARRAY] + (h + body)), table, n);
    TakeMarkerOf(ARRAY, [ARRAY] + (h + body), table, n);
    NineIsLiteral(h + body, table, n);
    var s2 := Input(h + body, table, n + 1);
    var ps := DecodeProps(s2, map[]);
    assert ps.Ok?;
    assert DecodeAll(ps.rest, 4).Ok?;
    AllGrow(ps.rest, 4);
    PropsNamed(s2, map[]);
    if m > 0 && U29.Fits(m) {
      FirstName(m, body, table, n + 1);
    }
  }

  lemma {:induction false} PropsNamed(s: Input, acc: map<Bytes, Value>)
    requires DecodeProps(s, acc).Ok? && [] !in acc
    ensures [] !in DecodeProps(s, acc).value
    decreases |s.bytes|
  {
    hide TakeString, Decode;
    var k := TakeString(s);
    if k.value != [] {
      PropsNamed(Decode(k.rest).rest, acc[k.value := Decode(k.rest).value]);
    }
  }

  lemma NineIsLiteral(body: Bytes, table: Table, n: nat)
    ensures TakeLiteral(Input([ARRAY] + body, table, n)) == Ok(9, Input(body, table, n + 1))
  {
    hide U29.Read;
    assert U29.Write(9) == [ARRAY];
    TakeLiteralOf(9, body, table, n);
  }

  lemma FirstName(m: nat, body: Bytes, table: Table, n: nat)
    requires m > 0 && U29.Fits(m)
    requires DecodeProps(Input(U29.Write(U29.Handle(m, 1)) + body, table, n), map[]).Ok?
    ensures var p := DecodeProps(Input(U29.Write(U29.Handle(m, 1)) + body, table, n), map[]);
            p.value != map[] && |body| >= m && table + [body[..m]] <= p.rest.strings
  {
    hide U29.Read, U29.Write, U29.Handle, U29.Image, Decode;
    var h := U29.Handle(m, 1);
    var s := Input(U29.Write(h) + body, table, n);
    U29RoundTrip(h, body, table, n);
    U29.HandleSurvives(m, 1);
    var k := TakeString(s);
    assert k.value == body[..m] && k.rest.strings == table + [k.value];
    DecodeGrows(k.rest);
    var acc := map[][k.value := Decode(k.rest).value];
    PropsGrow(Decode(k.rest).rest, acc);
    assert k.value in acc.Keys;
  }

  lemma ConcatDoubled(n: nat, assoc: Bytes, dense: Bytes, k: Bytes)
    ensures ([ARRAY] + ArrayBytes(n, assoc, dense)) + k
            == [ARRAY] + ([ARRAY] + (U29.Write(U29.Handle(n, 1)) + (assoc + EMPTY + (dense + k))))
  {
    hide ArrayBytes;
    Concat([ARRAY], ArrayBytes(n, assoc, dense), k);
    ConcatArray(n, assoc, dense, k);
  }

  const NINES: Bytes := [9, 9, 9, 9]

  lemma {:induction false} CollectKeeps(table: Table, strings: seq<Bytes>)
    ensures table <= Collect(table, strings)
    decreases |strings|
  {
    if strings != [] {
      var s := strings[0];
      CollectKeeps(if s == [] || s in table then table else table + [s], strings[1..]);
    }
  }

  lemma NewNameKept(es: seq<Entry>, ts: seq<Listing>, table: Table)
    requires Lists(Items(es, ts)) && es != [] && es[0].key != [] && es[0].key !in table
    ensures table + [es[0].key] <= Encode(Items(es, ts), table).table
  {
    hide Encode, Collect, EncodeString, Strings, EntryStrings, AllStrings, Lists, ListsEntries;
    EncodeCollects(Items(es, ts), table);
    var others := Strings(es[0].listing) + EntryStrings(es[1..]) + AllStrings(ts);
    FirstString(es, ts);
    CollectAppend(table, [es[0].key], others);
    CollectNew(table, es[0].key);
    CollectKeeps(table + [es[0].key], others);
  }

  lemma CollectNew(table: Table, s: Bytes)
    requires s != [] && s !in table
    ensures Collect(table, [s]) == table + [s]
  {
    CollectOne(table, s);
  }

  lemma FirstString(es: seq<Entry>, ts: seq<Listing>)
    requires es != []
    ensures Strings(Items(es, ts))
            == [es[0].key] + (Strings(es[0].listing) + EntryStrings(es[1..]) + AllStrings(ts))
  {
    hide AllStrings;
    FrontOfFour([es[0].key], Strings(es[0].listing), EntryStrings(es[1..]), AllStrings(ts));
  }

  lemma FrontOfFour(a: seq<Bytes>, b: seq<Bytes>, c: seq<Bytes>, d: seq<Bytes>)
    ensures a + b + c + d == a + (b + c + d)
  {
  }

  /** What an encoding with a new first name begins with. */
  lemma NewNameFirst(es: seq<Entry>, table: Table, k: Bytes)
    requires ListsEntries(es) && es != [] && es[0].key != [] && es[0].key !in table
    ensures var name := es[0].key;
            exists tail: Bytes ::
              EncodeEntries(es, table).bytes + EMPTY + k == U29.Write(U29.Handle(|name|, 1)) + (name + tail)
  {
    hide Encode, U29.Write, U29.Handle, Lists;
    var name := es[0].key;
    var key := EncodeString(name, table);
    var value := Encode(es[0].listing, key.table);
    var more := EncodeEntries(es[1..], value.table);
    FrontOf(U29.Write(U29.Handle(|name|, 1)), name, value.bytes, more.bytes, k);
  }

  lemma FrontOf(h: Bytes, name: Bytes, value: Bytes, more: Bytes, k: Bytes)
    ensures (((h + name) + value) + more) + EMPTY + k == h + (name + (value + more + EMPTY + k))
  {
  }

  /** A name that begins with the count it has and goes on with itself. */
  lemma FourNines(name: Bytes, tail: Bytes)
    requires var b := U29.Write(U29.Handle(|name|, 1)) + (name + tail); |b| >= 4 && b[..4] == name
    ensures name == NINES
  {
    assert |name| == 4;
    assert U29.Write(U29.Handle(4, 1)) == [9];
    var b := [9] + (name + tail);
    assert b[0] == 9 && b[1] == name[0] && b[2] == name[1] && b[3] == name[2];
    assert forall i | 0 <= i < 4 :: b[..4][i] == b[i];
  }

  /** No array comes back, from whatever table and whatever follows it, unless it has exactly four elements, some
      named entries, none of them with an empty name, and as its first name one that the table knows or 09 09 09 09.
      And from a table that knows all its strings, no array at all. */
  lemma ArrayLost(es: seq<Entry>, ts: seq<Listing>, table: Table, k: Bytes, n: nat)
    requires Lists(Items(es, ts))
    requires || |ts| != 4
             || es == []
             || [] in EraseEntries(es)
             || (es[0].key !in table && es[0].key != NINES)
             || Encode(Items(es, ts), table).table == table
    ensures !ComesBack(Items(es, ts), table, k, n)
  {
    hide Decode, EncodeAll, EncodeEntries, U29.Write, U29.Handle, ArrayBytes, EraseAll;
    var t := Items(es, ts);
    var assoc := EncodeEntries(es, table);
    var dense := EncodeAll(ts, assoc.table);
    ConcatDoubled(|ts|, assoc.bytes, dense.bytes, k);
    var v := AsRead(Erase(t));
    assert |v.dense| == |ts| && v.assoc.Keys == EraseEntries(es).Keys;
    if es == [] {
      assert v.assoc.Keys == {};
    }
    var body := assoc.bytes + EMPTY + (dense.bytes + k);
    if Decode(Input(Encode(t, table).bytes + k, table, n)).Ok? {
      DoubledMarker(|ts|, body, table, n);
      if |ts| == 4 && es != [] && [] !in EraseEntries(es) && es[0].key !in table && es[0].key != NINES {
        assert es[0].key in EraseEntries(es);
        NewNameKept(es, ts, table);
        NewNameFirst(es, table, dense.bytes + k);
        OtherName(es[0].key, body, table, Encode(t, table).table,
                  Decode(Input(Encode(t, table).bytes + k, table, n)).rest.strings);
      }
    }
  }

  lemma OtherName(name: Bytes, body: Bytes, table: Table, encoded: Table, decoded: Table)
    requires name != NINES && table + [name] <= encoded
    requires |body| >= 4 && table + [body[..4]] <= decoded
    requires exists tail: Bytes :: body == U29.Write(U29.Handle(|name|, 1)) + (name + tail)
    ensures encoded != decoded
  {
    hide U29.Write, U29.Handle;
    var tail: Bytes :| body == U29.Write(U29.Handle(|name|, 1)) + (name + tail);
    assert encoded[|table|] == name && decoded[|table|] == body[..4];
    if body[..4] == name {
      FourNines(name, tail);
    }
  }

  lemma AStringBytes()
    ensures EncodeString([0x61], []) == Written([3, 0x61], [[0x61]])
    ensures ArrayBytes(0, [3, 0x61, NULL], []) == [ARRAY, 1, 3, 0x61, NULL, 1]
  {
    assert U29.Write(3) == [3] && U29.Write(1) == [1];
  }

  lemma NamedEntryBytes()
    ensures var t := Items([Entry([0x61], Leaf(Null))], []);
            Lists(t) && Encode(t, []).bytes == [ARRAY, ARRAY, 1, 3, 0x61, NULL, 1]
  {
    hide EncodeString, ArrayBytes;
    var es := [Entry([0x61], Leaf(Null))];
    assert es[1..] == [];
    AStringBytes();
    assert Encode(Leaf(Null), [[0x61]]) == Written([NULL], [[0x61]]);
    var assoc := EncodeEntries(es, []);
    assert assoc.bytes == ([3, 0x61] + [NULL]) + [];
    assert assoc.bytes == [3, 0x61, NULL];
    assert EncodeAll([], assoc.table).bytes == [];
    assert Encode(Items(es, []), []).bytes == [ARRAY] + ArrayBytes(0, [3, 0x61, NULL], []);
  }

  /** `AMF3Array{Associative: {"a": AMF3Null{}}}`: the name of its entry is taken for a marker. */
  lemma NamedEntryMisread()
    ensures var t := Items([Entry([0x61], Leaf(Null))], []);
            && Lists(t) && Encode(t, []).bytes == [ARRAY, ARRAY, 1, 3, 0x61, NULL, 1]
            && Decode(Input(Encode(t, []).bytes, [], 0)) == Fail(UnsupportedMarker(0x61))
  {
    hide Encode, Decode, DecodeAll, DecodeProps, TakeMarker, TakeLiteral;
    NamedEntryBytes();
    var tail := [3, 0x61, NULL, 1];
    var b := [ARRAY] + ([ARRAY] + (EMPTY + tail));
    assert b == [ARRAY, ARRAY, 1, 3, 0x61, NULL, 1];
    TakeMarkerOf(ARRAY, [ARRAY] + (EMPTY + tail), [], 0);
    NineIsLiteral(EMPTY + tail, [], 0);
    NoProps(tail, [], 1);
    assert [] + EMPTY + tail == EMPTY + tail;
    TrueThenA();
    ArrayFails(Input(b, [], 0), Input([ARRAY] + (EMPTY + tail), [], 0), 9, Input(EMPTY + tail, [], 1), map[],
               Input(tail, [], 1), UnsupportedMarker(0x61));
  }

  lemma ArrayFails(s0: Input, s1: Input, h: u32, s2: Input, ps: map<Bytes, Value>, s3: Input, e: Error)
    requires TakeMarker(s0) == Ok(ARRAY, s1) && TakeLiteral(s1) == Ok(h, s2)
    requires DecodeProps(s2, map[]) == Ok(ps, s3) && DecodeAll(s3, h / 2) == Fail(e)
    ensures Decode(s0) == Fail(e)
  {
  }

  lemma TrueThenA()
    ensures DecodeAll(Input([3, 0x61, NULL, 1], [], 1), 4) == Fail(UnsupportedMarker(0x61))
  {
    hide TakeLiteral, TakeString, TakeU29, DecodeProps;
    var s, r := Input([3, 0x61, NULL, 1], [], 1), Input([0x61, NULL, 1], [], 1);
    assert s.bytes[1..] == r.bytes;
    assert Decode(s) == Ok(Boolean(true), r);
    assert Decode(r) == Fail(UnsupportedMarker(0x61));
  }

  // ----- The exact condition for all values

  /** The value comes back from every table and before everything. */
  ghost predicate Always(t: Listing)
    requires Lists(t)
  {
    forall table: Table, k: Bytes, n: nat | |Encode(t, table).table| <= MAX_TABLE :: ComesBack(t, table, k, n)
  }

  /** So does every value in it. */
  ghost predicate Thoroughly(t: Listing)
    requires Lists(t)
  {
    && Always(t)
    && match t
       case Leaf(_) => true
       case Elements(ts) => forall i | 0 <= i < |ts| :: Thoroughly(ts[i])
       case Items(es, ts) => ThoroughlyEntries(es) && forall i | 0 <= i < |ts| :: Thoroughly(ts[i])
       case Members(_, es) => ThoroughlyEntries(es)
  }

  ghost predicate ThoroughlyEntries(es: seq<Entry>)
    requires ListsEntries(es)
  {
    forall i | 0 <= i < |es| :: Thoroughly(es[i].listing)
  }

  lemma {:induction false} CollectKnown(table: Table, strings: seq<Bytes>)
    requires forall s | s in strings :: s == [] || s in table
    ensures Collect(table, strings) == table
    decreases |strings|
  {
    if strings != [] {
      assert strings[0] in strings;
      assert forall s | s in strings[1..] :: s in strings;
      CollectKnown(table, strings[1..]);
    }
  }

  /** The table after a value knows its strings. */
  lemma KnownAfter(t: Listing)
    requires Lists(t)
    ensures var table := Encode(t, []).table; Encode(t, table).table == table
  {
    hide Encode, Strings, Collect;
    EncodeCollects(t, []);
    var table := Encode(t, []).table;
    EncodeCollects(t, table);
    CollectGrows([], Strings(t));
    CollectKnown(table, Strings(t));
  }

  lemma ArrayNotAlways(es: seq<Entry>, ts: seq<Listing>)
    requires Lists(Items(es, ts)) && |Encode(Items(es, ts), []).table| <= MAX_TABLE
    ensures !Always(Items(es, ts))
  {
    hide Encode, ComesBack, Lists;
    var t := Items(es, ts);
    var table := if |ts| != 4 then [] else Encode(t, []).table;
    KnownAfter(t);
    ArrayLost(es, ts, table, [], 0);
  }

  // ----- The strings of the parts are among those of the whole

  ghost predicate Among(a: seq<Bytes>, b: seq<Bytes>) {
    forall s | s in a :: s in b
  }

  lemma {:induction false} EntryAmong(es: seq<Entry>, i: nat)
    requires i < |es|
    ensures Among(Strings(es[i].listing), EntryStrings(es))
    decreases es
  {
    if i > 0 {
      EntryAmong(es[1..], i - 1);
    }
  }

  lemma {:induction false} ElementAmong(ts: seq<Listing>, i: nat)
    requires i < |ts|
    ensures Among(Strings(ts[i]), AllStrings(ts))
    decreases ts
  {
    if i > 0 {
      ElementAmong(ts[1..], i - 1);
    }
  }

  lemma {:induction false} DistinctAmong(a: Table, b: Table)
    requires Distinct(a) && Among(a, b)
    ensures |a| <= |b|
    decreases |a|
  {
    if a != [] {
      var x := a[|a| - 1];
      assert x in a;
      var i :| 0 <= i < |b| && b[i] == x;
      var a', b' := a[..|a| - 1], b[..i] + b[i + 1..];
      forall s | s in a' ensures s in b' {
        var j :| 0 <= j < |a'| && a'[j] == s;
        assert s in a && s != x;
        var m :| 0 <= m < |b| && b[m] == s;
        assert b'[if m < i then m else m - 1] == s;
      }
      DistinctAmong(a', b');
    }
  }

  /** The table after a part is no longer than the table after the whole. */
  lemma PartTable(part: Listing, t: Listing)
    requires Lists(part) && Lists(t) && Among(Strings(part), Strings(t))
    ensures |Encode(part, []).table| <= |Encode(t, []).table|
  {
    hide Encode, Strings, Collect, Lists;
    EncodeCollects(part, []);
    EncodeCollects(t, []);
    CollectGrows([], Strings(part));
    CollectGrows([], Strings(t));
    DistinctAmong(Encode(part, []).table, Encode(t, []).table);
  }

  lemma CanonicalAlways(t: Listing)
    requires Lists(t) && Canonical(Erase(t))
    ensures Always(t)
  {
    hide Encode, Decode, Lists, Canonical, Encodable, Erase, Normalize, AsRead;
    CanonicalIsNormal(Erase(t));
    forall table: Table, k: Bytes, n: nat | |Encode(t, table).table| <= MAX_TABLE ensures ComesBack(t, table, k, n) {
      RoundTrip(t, table, k, n);
    }
  }

  lemma AlwaysCanonical(t: Listing)
    requires Lists(t) && ArrayFree(Erase(t)) && |Encode(t, []).table| <= MAX_TABLE && Always(t)
    ensures Canonical(Erase(t))
  {
    hide Encode, Decode, Lists, Canonical, ArrayFree, Erase, ComesBack;
    RoundTripIff(t, [], [], 0);
    assert ComesBack(t, [], [], 0);
  }

  /** The exact condition for every value, arrays included: it and every value in it come back, from every table and
      whatever follows, if and only if it is canonical, which no value with an array in it is. */
  lemma {:induction false} ThoroughlyIff(t: Listing)
    requires Lists(t) && |Encode(t, []).table| <= MAX_TABLE
    ensures Thoroughly(t) <==> Canonical(Erase(t))
    decreases t, 1
  {
    hide Encode, ComesBack, Always, Encodable, Strings;
    match t {
      case Leaf(v) =>
        LeafThoroughly(t);
      case Elements(ts) =>
        ElementsThoroughly(t, ts);
      case Items(es, ts) =>
        ArrayNotAlways(es, ts);
      case Members(_, es) =>
        MembersThoroughly(t, es);
    }
  }

  lemma LeafThoroughly(t: Listing)
    requires t.Leaf? && Lists(t) && |Encode(t, []).table| <= MAX_TABLE
    ensures Always(t) <==> Canonical(Erase(t))
  {
    hide Encode, ComesBack, Always, Encodable;
    if Canonical(Erase(t)) {
      CanonicalAlways(t);
    }
    if Always(t) {
      AlwaysCanonical(t);
    }
  }

  lemma {:induction false} ElementsThoroughly(t: Listing, ts: seq<Listing>)
    requires t == Elements(ts) && Lists(t) && |Encode(t, []).table| <= MAX_TABLE
    ensures Thoroughly(t) <==> Canonical(Erase(t))
    decreases t, 0
  {
    hide Encode, ComesBack, Always, Encodable, Strings;
    assert Strings(t) == AllStrings(ts) by { StringsOf(t); }
    forall i | 0 <= i < |ts| ensures Thoroughly(ts[i]) <==> Canonical(EraseAll(ts)[i]) {
      ElementAmong(ts, i);
      PartTable(ts[i], t);
      ThoroughlyIff(ts[i]);
    }
    if Canonical(Erase(t)) {
      CanonicalAlways(t);
    }
    if Thoroughly(t) {
      forall i | 0 <= i < |ts| ensures ArrayFree(EraseAll(ts)[i]) {
        CanonicalIsArrayFree(EraseAll(ts)[i]);
      }
      AlwaysCanonical(t);
    }
  }

  lemma StringsOf(t: Listing)
    ensures t.Elements? ==> Strings(t) == AllStrings(t.elems)
    ensures t.Members? ==> Strings(t) == EntryStrings(t.entries)
  {
  }

  lemma CanonicalIsArrayFree(v: Value)
    requires Canonical(v)
    ensures ArrayFree(v)
  {
    CanonicalIsNormal(v);
    EncodableIsArrayFree(v);
  }

  lemma {:induction false} MembersThoroughly(t: Listing, es: seq<Entry>)
    requires t.Members? && t.entries == es && Lists(t) && |Encode(t, []).table| <= MAX_TABLE
    ensures Thoroughly(t) <==> Canonical(Erase(t))
    decreases t, 0
  {
    hide Encode, ComesBack, Always, Encodable, Strings, EraseEntries;
    assert Strings(t) == EntryStrings(es) by { StringsOf(t); }
    var ps := EraseEntries(es);
    forall i | 0 <= i < |es|
      ensures es[i].key in ps && (Thoroughly(es[i].listing) <==> Canonical(ps[es[i].key]))
    {
      EraseEntriesAt(es, i);
      EntryAmong(es, i);
      PartTable(es[i].listing, t);
      ThoroughlyIff(es[i].listing);
    }
    if Canonical(Erase(t)) {
      CanonicalAlways(t);
    }
    if Thoroughly(t) {
      forall k | k in ps ensures ArrayFree(ps[k]) {
        NamesOf(es, k);
        var i :| 0 <= i < |es| && es[i].key == k;
        assert ThoroughlyEntries(es) && Thoroughly(es[i].listing);
        CanonicalIsArrayFree(ps[k]);
      }
      AlwaysCanonical(t);
    }
  }

  // ----- Values with an array deeper down

  /** On the way to the first array in a value there are slices only, or, where there are objects on the way (`deep`),
      the array has elements; lengths and names on the way fit, and whatever is written before the array is
      encodable. */
  ghost predicate Spoils(t: Listing, deep: bool) {
    match t
    case Leaf(_) => false
    case Elements(ts) =>
      (deep ==> U29.Fits(|ts|)) &&
      exists i :: 0 <= i < |ts| && Spoils(ts[i], deep) && forall j | 0 <= j < i :: Encodable(Erase(ts[j]))
    case Items(_, ts) => deep ==> |ts| > 0 && U29.Fits(|ts|)
    case Members(_, es) =>
      exists i :: 0 <= i < |es| && Spoils(es[i].listing, true) && (forall j | 0 <= j <= i :: NameFits(es[j].key))
                  && forall j | 0 <= j < i :: Encodable(Erase(es[j].listing))
  }

  /** The table knows these strings, so that an encoder never adds to it. */
  ghost predicate Knows(table: Table, strings: seq<Bytes>) {
    forall s | s in strings :: s == [] || s in table
  }

  lemma KnownStays(t: Listing, table: Table)
    requires Lists(t) && Knows(table, Strings(t))
    ensures Encode(t, table).table == table
  {
    hide Encode, Strings, Collect;
    EncodeCollects(t, table);
    CollectKnown(table, Strings(t));
  }

  lemma KnownElements(ts: seq<Listing>, table: Table)
    requires (forall i | 0 <= i < |ts| :: Lists(ts[i])) && Knows(table, AllStrings(ts))
    ensures EncodeAll(ts, table).table == table
    ensures ts != [] ==> Knows(table, Strings(ts[0])) && Knows(table, AllStrings(ts[1..]))
  {
    hide EncodeAll, Collect;
    AllCollect(ts, table);
    CollectKnown(table, AllStrings(ts));
  }

  lemma KnownEntries(es: seq<Entry>, table: Table)
    requires ListsEntries(es) && Knows(table, EntryStrings(es))
    ensures EncodeEntries(es, table).table == table
    ensures es != [] ==> && ListsEntries(es[1..]) && (es[0].key == [] || es[0].key in table)
                         && Knows(table, Strings(es[0].listing)) && Knows(table, EntryStrings(es[1..]))
  {
    hide EncodeEntries, Collect, Lists;
    EntriesCollect(es, table);
    CollectKnown(table, EntryStrings(es));
    if es != [] {
      assert es[0].key in EntryStrings(es);
      assert forall s | s in Strings(es[0].listing) :: s in EntryStrings(es);
      assert forall s | s in EntryStrings(es[1..]) :: s in EntryStrings(es);
    }
  }

  /** From a table that knows its strings, such a value is misread in a way that shows: the decoder's table has
      grown, or the value is another. */
  lemma {:induction false} Spoiled(t: Listing, deep: bool, table: Table, k: Bytes, n: nat)
    requires Lists(t) && Spoils(t, deep) && Knows(table, Strings(t)) && |table| <= MAX_TABLE
    ensures var p := Decode(Input(Encode(t, table).bytes + k, table, n));
            p.Ok? ==> |table| < |p.rest.strings| || (!deep && p.value != AsRead(Erase(t)))
    decreases t, 1
  {
    match t {
      case Elements(ts) => ElementsSpoiled(t, ts, deep, table, k, n);
      case Items(es, ts) => ItemsSpoiled(es, ts, deep, table, k, n);
      case Members(c, es) => MembersSpoiled(t, es, table, k, n);
    }
  }

  lemma ItemsSpoiled(es: seq<Entry>, ts: seq<Listing>, deep: bool, table: Table, k: Bytes, n: nat)
    requires Lists(Items(es, ts)) && (deep ==> |ts| > 0 && U29.Fits(|ts|))
    ensures var p := Decode(Input(Encode(Items(es, ts), table).bytes + k, table, n));
            p.Ok? ==> |table| < |p.rest.strings| || (!deep && p.value != AsRead(Erase(Items(es, ts))))
  {
    hide Decode, EncodeAll, EncodeEntries, U29.Write, U29.Handle, ArrayBytes, EraseAll, EraseEntries;
    var t := Items(es, ts);
    var assoc := EncodeEntries(es, table);
    var dense := EncodeAll(ts, assoc.table);
    ConcatDoubled(|ts|, assoc.bytes, dense.bytes, k);
    var v := AsRead(Erase(t));
    assert |v.dense| == |ts|;
    if Decode(Input(Encode(t, table).bytes + k, table, n)).Ok? {
      DoubledMarker(|ts|, assoc.bytes + EMPTY + (dense.bytes + k), table, n);
    }
  }

  lemma {:induction false} ElementsSpoiled(t: Listing, ts: seq<Listing>, deep: bool, table: Table, k: Bytes, n: nat)
    requires t == Elements(ts) && Lists(t) && Spoils(t, deep) && Knows(table, Strings(t)) && |table| <= MAX_TABLE
    ensures var p := Decode(Input(Encode(t, table).bytes + k, table, n));
            p.Ok? ==> |table| < |p.rest.strings| || (!deep && p.value != AsRead(Erase(t)))
    decreases t, 0
  {
    hide Decode, DecodeProps, DecodeAll, TakeMarker, TakeLiteral, EncodeAll, U29.Write, U29.Handle, ArrayBytes;
    hide Encodable, AllStrings;
    var i :| 0 <= i < |ts| && Spoils(ts[i], deep) && forall j | 0 <= j < i :: Encodable(Erase(ts[j]));
    var dense := EncodeAll(ts, table).bytes;
    AllSpoiled(t, ts, i, deep, table, k, n + 1);
    SliceDecoded(|ts|, dense, table, k, n);
    var p := Decode(Input(Encode(t, table).bytes + k, table, n));
    var v := AsRead(Erase(t));
    assert |v.dense| == |ts| && v.dense[i] == AsRead(Erase(ts[i]));
  }

  /** A slice's encoding is decoded element by element, if its count survives; otherwise to another number of them. */
  lemma SliceDecoded(m: nat, dense: Bytes, table: Table, k: Bytes, n: nat)
    ensures var p := Decode(Input(ArrayBytes(m, [], dense) + k, table, n));
            p.Ok? ==>
              && p.value.Array? && |table| <= |p.rest.strings|
              && if U29.Fits(m) then DecodeAll(Input(dense + k, table, n + 1), m) == Ok(p.value.dense, p.rest)
                 else |p.value.dense| != m
  {
    hide DecodeProps, DecodeAll, TakeMarker, TakeLiteral, U29.Write, U29.Handle, U29.Fits, U29.Image, ArrayBytes;
    var h := U29.Handle(m, 1);
    var body := [] + EMPTY + (dense + k);
    ConcatArray(m, [], dense, k);
    U29.HandleSurvives(m, 1);
    TakeMarkerOf(ARRAY, U29.Write(h) + body, table, n);
    TakeLiteralOf(h, body, table, n);
    NoProps(dense + k, table, n + 1);
    var all := DecodeAll(Input(dense + k, table, n + 1), U29.Image(h) / 2);
    if all.Ok? {
      AllGrow(Input(dense + k, table, n + 1), U29.Image(h) / 2);
    }
  }

  lemma {:induction false} AllSpoiled(t: Listing, ts: seq<Listing>, i: nat, deep: bool, table: Table, k: Bytes, n: nat)
    requires forall j | 0 <= j < |ts| :: Lists(ts[j]) && ts[j] < t
    requires i < |ts| && Spoils(ts[i], deep) && forall j | 0 <= j < i :: Encodable(Erase(ts[j]))
    requires Knows(table, AllStrings(ts)) && |table| <= MAX_TABLE
    ensures var p := DecodeAll(Input(EncodeAll(ts, table).bytes + k, table, n), |ts|);
            p.Ok? ==> |table| < |p.rest.strings| || (!deep && p.value[i] != AsRead(Erase(ts[i])))
    decreases t, 0, |ts|
  {
    hide Decode, Encode, Encodable, Spoils, Lists, Erase, AsRead, AllStrings, Strings, Knows;
    KnownElements(ts, table);
    KnownStays(ts[0], table);
    var head, tail := Encode(ts[0], table).bytes, EncodeAll(ts[1..], table).bytes;
    Concat(head, tail, k);
    var s := Input(head + (tail + k), table, n);
    if i == 0 {
      Spoiled(ts[0], deep, table, tail + k, n);
      if Decode(s).Ok? && DecodeAll(Decode(s).rest, |ts| - 1).Ok? {
        AllGrow(Decode(s).rest, |ts| - 1);
        DecodeGrows(s);
      }
    } else {
      RoundTrip(ts[0], table, tail + k, n);
      AllSpoiled(t, ts[1..], i - 1, deep, table, k, n + Containers(ts[0]));
    }
  }

  lemma {:induction false} MembersSpoiled(t: Listing, es: seq<Entry>, table: Table, k: Bytes, n: nat)
    requires t.Members? && t.entries == es && Lists(t) && Spoils(t, true)
    requires Knows(table, Strings(t)) && |table| <= MAX_TABLE
    ensures var p := Decode(Input(Encode(t, table).bytes + k, table, n)); p.Ok? ==> |table| < |p.rest.strings|
    decreases t, 0
  {
    hide Decode, DecodeProps, EncodeEntries, U29.Write, Encodable, EntryStrings, NameFits;
    var i :| 0 <= i < |es| && Spoils(es[i].listing, true) && (forall j | 0 <= j <= i :: NameFits(es[j].key))
             && forall j | 0 <= j < i :: Encodable(Erase(es[j].listing));
    PropsSpoiled(t, es, i, table, map[], k, n + 1);
    ObjectDecoded(EncodeEntries(es, table).bytes, table, k, n);
  }

  lemma ObjectDecoded(entries: Bytes, table: Table, k: Bytes, n: nat)
    ensures var p := Decode(Input([OBJECT] + (U29.Write(TRAITS) + (EMPTY + (entries + EMPTY))) + k, table, n));
            var ps := DecodeProps(Input(entries + EMPTY + k, table, n + 1), map[]);
            p.Ok? ==> ps.Ok? && p.rest == ps.rest
  {
    hide DecodeProps, TakeMarker, TakeLiteral, TakeString, U29.Write;
    var body := entries + EMPTY + k;
    ConcatObject([OBJECT], U29.Write(TRAITS), entries, k);
    TakeMarkerOf(OBJECT, U29.Write(TRAITS) + (EMPTY + body), table, n);
    TakeLiteralOf(TRAITS, EMPTY + body, table, n);
    EmptyRoundTrip(body, table, n + 1);
  }

  lemma {:induction false} PropsSpoiled(t: Listing, es: seq<Entry>, i: nat, table: Table, acc: map<Bytes, Value>,
                                        k: Bytes, n: nat)
    requires ListsEntries(es) && forall j | 0 <= j < |es| :: es[j].listing < t
    requires i < |es| && Spoils(es[i].listing, true) && forall j | 0 <= j <= i :: NameFits(es[j].key)
    requires forall j | 0 <= j < i :: Encodable(Erase(es[j].listing))
    requires Knows(table, EntryStrings(es)) && |table| <= MAX_TABLE
    ensures var p := DecodeProps(Input(EncodeEntries(es, table).bytes + EMPTY + k, table, n), acc);
            p.Ok? ==> |table| < |p.rest.strings|
    decreases t, 0, |es|
  {
    hide Decode, Encode, EncodeString, TakeString, Encodable, Spoils, Lists, Erase, EntryStrings, Strings, Knows;
    KnownEntries(es, table);
    var e := es[0];
    assert EncodeString(e.key, table).table == table by { KnownString(e.key, table); }
    KnownStays(e.listing, table);
    var key, value := EncodeString(e.key, table).bytes, Encode(e.listing, table).bytes;
    var more := EncodeEntries(es[1..], table).bytes;
    var rest := more + EMPTY + k;
    ConcatEntry(key, value, more, k);
    StringRoundTrip(e.key, table, value + rest, n);
    var s := Input(value + rest, table, n);
    if i == 0 {
      Spoiled(e.listing, true, table, rest, n);
      if Decode(s).Ok? && DecodeProps(Decode(s).rest, acc[e.key := Decode(s).value]).Ok? {
        PropsGrow(Decode(s).rest, acc[e.key := Decode(s).value]);
      }
    } else {
      RoundTrip(e.listing, table, rest, n);
      var v := Decode(s).value;
      PropsSpoiled(t, es[1..], i - 1, table, acc[e.key := v], k, n + Containers(e.listing));
    }
  }

  lemma KnownString(s: Bytes, table: Table)
    requires s == [] || s in table
    ensures EncodeString(s, table).table == table
  {
  }

  lemma KnowsAfter(t: Listing)
    requires Lists(t)
    ensures Knows(Encode(t, []).table, Strings(t))
  {
    hide Encode, Strings, Collect;
    EncodeCollects(t, []);
    CollectGrows([], Strings(t));
  }

  /** For the whole of a value, without asking anything of its parts: where it has no array, or an array is met first
      as above, it comes back from every table and whatever follows if and only if it is canonical. */
  lemma AlwaysIff(t: Listing)
    requires Lists(t) && |Encode(t, []).table| <= MAX_TABLE
    requires ArrayFree(Erase(t)) || Spoils(t, false)
    ensures Always(t) <==> Canonical(Erase(t))
  {
    hide Encode, Decode, Lists, Canonical, Erase, AsRead, Strings, Spoils, ArrayFree, Knows;
    if Canonical(Erase(t)) {
      CanonicalAlways(t);
    } else if ArrayFree(Erase(t)) {
      if Always(t) {
        AlwaysCanonical(t);
      }
    } else {
      var table := Encode(t, []).table;
      KnowsAfter(t);
      KnownAfter(t);
      Spoiled(t, false, table, [], 0);
      assert !ComesBack(t, table, [], 0);
    }
  }
}
