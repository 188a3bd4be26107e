/** The AMF3 encoder and decoder as objects, each with its own string table. */
module Amf3Codec {
  import opened Wire
  import opened Collections
  import U29
  import opened Amf3
  import opened Amf3Proofs
  import opened Amf3Sync
  import Amf3Go
  import G = Amf0Go

  // ----- Listings grow at their end as the encoder walks

  /** What one entry adds after the bytes and the table of `w`. */
  function EncodeEntry(w: Written, e: Entry): Written
    requires Lists(e.listing)
  {
    var key := EncodeString(e.key, w.table);
    var value := Encode(e.listing, key.table);
    Written(w.bytes + (key.bytes + value.bytes), value.table)
  }

  lemma {:induction false} AppendEncoded(es: seq<Entry>, e: Entry, table: Table)
    requires ListsEntries(es) && ListsEntries(es + [e]) && Lists(e.listing)
    ensures EncodeEntries(es + [e], table) == EncodeEntry(EncodeEntries(es, table), e)
    decreases |es|
  {
    hide Encode, EncodeString;
    if es == [] {
      assert es + [e] == [e];
      var w := EncodeEntry(Written([], table), e);
      assert w.bytes + [] == w.bytes;
      assert [] + (EncodeString(e.key, table).bytes + Encode(e.listing, EncodeString(e.key, table).table).bytes)
          == w.bytes;
    } else {
      assert (es + [e])[1..] == es[1..] + [e];
      var key := EncodeString(es[0].key, table);
      var value := Encode(es[0].listing, key.table);
      AppendEncoded(es[1..], e, value.table);
      var tail := EncodeEntries(es[1..], value.table);
      var last := EncodeEntry(Written([], tail.table), e);
      Concat(key.bytes + value.bytes, tail.bytes, last.bytes);
      assert [] + last.bytes == last.bytes;
    }
  }

  lemma {:induction false} AppendErased(es: seq<Entry>, e: Entry)
    ensures EraseEntries(es + [e]) == EraseEntries(es)[e.key := Erase(e.listing)]
    decreases |es|
  {
    hide Erase;
    if es == [] {
      assert es + [e] == [e];
      assert EraseEntries([e]) == map[e.key := Erase(e.listing)] + map[];
    } else {
      AppendErased(es[1..], e);
      assert (es + [e])[1..] == es[1..] + [e];
      MergeUpdate(map[es[0].key := Erase(es[0].listing)], EraseEntries(es[1..]), e.key, Erase(e.listing));
    }
  }

  lemma AppendListed(es: seq<Entry>, e: Entry)
    requires ListsEntries(es) && Lists(e.listing) && e.key !in EraseEntries(es)
    ensures ListsEntries(es + [e])
  {
    hide Lists, EraseEntries;
    forall i | 0 <= i < |es| ensures es[i].key != e.key {
      NamesOf(es, e.key);
    }
  }

  /** The entries `es` are those of the map `ps` but for the names `left`. */
  ghost predicate Listed(es: seq<Entry>, ps: map<Bytes, Value>, left: set<Bytes>) {
    && ListsEntries(es)
    && EraseEntries(es).Keys == ps.Keys - left
    && forall k | k in EraseEntries(es) :: EraseEntries(es)[k] == ps[k]
  }

  lemma ListNone(ps: map<Bytes, Value>, table: Table)
    ensures Listed([], ps, ps.Keys) && EncodeEntries([], table) == Written([], table)
  {
  }

  lemma ListNext(es: seq<Entry>, ps: map<Bytes, Value>, left: set<Bytes>, e: Entry, table: Table)
    requires Listed(es, ps, left) && left <= ps.Keys && e.key in left
    requires Lists(e.listing) && Erase(e.listing) == ps[e.key]
    ensures Listed(es + [e], ps, left - {e.key}) && ListsEntries(es) && ListsEntries(es + [e])
    ensures EncodeEntries(es + [e], table) == EncodeEntry(EncodeEntries(es, table), e)
  {
    hide Lists, ListsEntries, EncodeEntries, EncodeEntry, EraseEntries, Erase;
    AppendListed(es, e);
    AppendErased(es, e);
    AppendEncoded(es, e, table);
    MapNext(EraseEntries(es), ps, left, e.key);
  }

  lemma ListAll(es: seq<Entry>, ps: map<Bytes, Value>)
    requires Listed(es, ps, {})
    ensures ListsEntries(es) && EraseEntries(es) == ps
  {
  }

  lemma {:induction false} AppendElement(ts: seq<Listing>, t: Listing, table: Table)
    requires (forall i | 0 <= i < |ts| :: Lists(ts[i])) && Lists(t)
    ensures EraseAll(ts + [t]) == EraseAll(ts) + [Erase(t)]
    ensures var w := EncodeAll(ts, table);
            EncodeAll(ts + [t], table) == Written(w.bytes + Encode(t, w.table).bytes, Encode(t, w.table).table)
  {
    hide Encode, Erase, Lists;
    var w := EncodeAll(ts, table);
    assert (ts + [t])[..|ts|] == ts && (ts + [t])[|ts|..] == [t];
    EncodeAllSplit(ts + [t], |ts|, table);
    assert EncodeAll([t], w.table).bytes == Encode(t, w.table).bytes + [];
  }

  class Encoder {
    /** Everything written so far. */
    var out: Bytes
    /** The strings written in full so far. */
    var strings: Table

    constructor ()
      ensures out == [] && strings == []
    {
      out, strings := [], [];
    }

    method Write(b: Bytes)
      modifies this`out
      ensures out == old(out) + b
    {
      out := out + b;
    }

    method WriteU29(x: u32)
      modifies this`out
      ensures out == old(out) + U29.Write(x)
    {
      var v := x % U29.TWO29;
      if v < 0x80 {
        Write([v]);
      } else if v < 0x4000 {
        Write([v / 0x80 + 0x80]);
        Write([v % 0x80]);
      } else if v < 0x20_0000 {
        Write([v / 0x4000 + 0x80]);
        Write([v / 0x80 % 0x80 + 0x80]);
        Write([v % 0x80]);
      } else {
        Write([v / 0x40_0000 + 0x80]);
        Write([v / 0x8000 % 0x80 + 0x80]);
        Write([v / 0x100 % 0x80 + 0x80]);
        Write([v % 0x100]);
      }
    }

    method WriteStringWithReference(s: Bytes)
      modifies this
      ensures out == old(out) + EncodeString(s, old(strings)).bytes
      ensures strings == EncodeString(s, old(strings)).table
    {
      hide U29.Write;
      if s == [] {
        WriteU29(1);
        EmptyIsOne();
        return;
      }
      for i := 0 to |strings|
        invariant s !in strings[..i]
        invariant out == old(out) && strings == old(strings)
      {
        if strings[i] == s {
          FirstIndexIs(s, strings, i);
          WriteU29(U29.Handle(i, 0));
          return;
        }
      }
      strings := strings + [s];
      WriteU29(U29.Handle(|s|, 1));
      Write(s);
      Concat(old(out), U29.Write(U29.Handle(|s|, 1)), s);
    }

    method EncodeLeafValue(v: Value)
      requires IsLeaf(v)
      modifies this
      ensures out == old(out) + EncodeLeaf(v, old(strings)).bytes
      ensures strings == EncodeLeaf(v, old(strings)).table
    {
      hide U29.Write, EncodeString, Be64;
      match v
      case Undefined => Write([UNDEFINED]);
      case Null => Write([NULL]);
      case Boolean(b) => Write([if b then TRUE else FALSE]);
      case Integer(i) =>
        Write([INTEGER]);
        WriteU29(U29.FromInt32(i));
        Concat(old(out), [INTEGER], U29.Write(U29.FromInt32(i)));
      case Double(bits) =>
        Write([DOUBLE]);
        Write(Be64(bits));
        Concat(old(out), [DOUBLE], Be64(bits));
      case String(s) =>
        Write([STRING]);
        WriteStringWithReference(s);
        Concat(old(out), [STRING], EncodeString(s, old(strings)).bytes);
    }

    /** Writes one of the encodings of `v`, that of the listing `t`. */
    method EncodeValue(v: Value) returns (ghost t: Listing)
      modifies this
      ensures Lists(t) && Erase(t) == v
      ensures out == old(out) + Encode(t, old(strings)).bytes
      ensures strings == Encode(t, old(strings)).table
      decreases v, 3
    {
      hide EncodeLeaf, EncodeEntries, EncodeAll, ArrayBytes;
      match v
      case Slice(vs) =>
        ghost var es, ts := EncodeArray(v, vs, map[]);
        t := Elements(ts);
        NoEntries(old(strings));
      case Array(_, _) =>
        t := EncodeArrayValue(v);
      case Object(_, _) =>
        t := EncodeObject(v);
      case Undefined => EncodeLeafValue(v); t := Leaf(v);
      case Null => EncodeLeafValue(v); t := Leaf(v);
      case Boolean(_) => EncodeLeafValue(v); t := Leaf(v);
      case Integer(_) => EncodeLeafValue(v); t := Leaf(v);
      case Double(_) => EncodeLeafValue(v); t := Leaf(v);
      case String(_) => EncodeLeafValue(v); t := Leaf(v);
    }

    /** Marker, count, named entries, end of the entries, elements. */
    method EncodeArray(ghost v: Value, dense: seq<Value>, assoc: map<Bytes, Value>)
      returns (ghost es: seq<Entry>, ghost ts: seq<Listing>)
      requires (forall i | 0 <= i < |dense| :: dense[i] < v) && (forall k | k in assoc :: assoc[k] < v)
      modifies this
      ensures ListsEntries(es) && EraseEntries(es) == assoc
      ensures (forall i | 0 <= i < |ts| :: Lists(ts[i])) && EraseAll(ts) == dense
      ensures var named := EncodeEntries(es, old(strings));
              var elems := EncodeAll(ts, named.table);
              out == old(out) + ArrayBytes(|dense|, named.bytes, elems.bytes) && strings == elems.table
      ensures assoc == map[] ==> es == []
      decreases v, 1
    {
      hide EncodeEntries, EncodeAll, U29.Write, EraseAll, U29.Handle;
      ghost var h := U29.Write(U29.Handle(|dense|, 1));
      Write([ARRAY]);
      WriteU29(U29.Handle(|dense|, 1));
      es := EncodeProperties(v, assoc);
      NoneErased(es);
      ghost var named := EncodeEntries(es, old(strings));
      ts := EncodeElements(v, dense);
      ghost var elems := EncodeAll(ts, named.table);
      Concat(old(out), [ARRAY], h + (named.bytes + EMPTY + elems.bytes));
      Concat(old(out) + [ARRAY], h, named.bytes + EMPTY + elems.bytes);
      Concat(old(out) + [ARRAY] + h, named.bytes + EMPTY, elems.bytes);
    }

    /** An `AMF3Array`: its marker is written here and once more by `EncodeArray`. */
    method EncodeArrayValue(v: Value) returns (ghost t: Listing)
      requires v.Array?
      modifies this
      ensures Lists(t) && Erase(t) == v
      ensures out == old(out) + Encode(t, old(strings)).bytes
      ensures strings == Encode(t, old(strings)).table
      decreases v, 2
    {
      hide EncodeEntries, EncodeAll, ArrayBytes, EraseEntries, EraseAll;
      Write([ARRAY]);
      ghost var es, ts := EncodeArray(v, v.dense, v.assoc);
      t := Items(es, ts);
      ghost var named := EncodeEntries(es, old(strings));
      Concat(old(out), [ARRAY], ArrayBytes(|v.dense|, named.bytes, EncodeAll(ts, named.table).bytes));
    }

    /** Every object is written as an anonymous dynamic one: its class name is dropped. */
    method EncodeObject(v: Value) returns (ghost t: Listing)
      requires v.Object?
      modifies this
      ensures Lists(t) && Erase(t) == v
      ensures out == old(out) + Encode(t, old(strings)).bytes
      ensures strings == Encode(t, old(strings)).table
      decreases v, 1
    {
      hide EncodeEntries, U29.Write, EraseEntries;
      ghost var h := U29.Write(TRAITS);
      Write([OBJECT]);
      WriteU29(TRAITS);
      WriteStringWithReference([]);
      ghost var es := EncodeProperties(v, v.props);
      ghost var w := EncodeEntries(es, old(strings));
      t := Members(v.className, es);
      Concat(old(out), [OBJECT], h + (EMPTY + (w.bytes + EMPTY)));
      Concat(old(out) + [OBJECT], h, EMPTY + (w.bytes + EMPTY));
      Concat(old(out) + [OBJECT] + h, EMPTY, w.bytes + EMPTY);
    }

    /** The properties in some order, and the empty string that closes them. */
    method EncodeProperties(ghost v: Value, ps: map<Bytes, Value>) returns (ghost es: seq<Entry>)
      requires forall k | k in ps :: ps[k] < v
      modifies this
      ensures ListsEntries(es) && EraseEntries(es) == ps
      ensures out == old(out) + (EncodeEntries(es, old(strings)).bytes + EMPTY)
      ensures strings == EncodeEntries(es, old(strings)).table
      decreases v, 0
    {
      hide Lists, ListsEntries, Listed, Encode, EncodeEntries, EncodeString, EraseEntries, Erase;
      var left := ps.Keys;
      es := [];
      ListNone(ps, strings);
      while left != {}
        invariant left <= ps.Keys
        invariant Listed(es, ps, left) && ListsEntries(es)
        invariant out == old(out) + EncodeEntries(es, old(strings)).bytes
        invariant strings == EncodeEntries(es, old(strings)).table
        decreases |left|
      {
        var key :| key in left;
        ghost var w := EncodeEntries(es, old(strings));
        WriteStringWithReference(key);
        ghost var k := EncodeString(key, w.table);
        ghost var l := EncodeValue(ps[key]);
        ListNext(es, ps, left, Entry(key, l), old(strings));
        ghost var value := Encode(l, k.table);
        Concat(old(out) + w.bytes, k.bytes, value.bytes);
        Concat(old(out), w.bytes, k.bytes + value.bytes);
        left := left - {key};
        es := es + [Entry(key, l)];
      }
      ListAll(es, ps);
      WriteEnd();
      Concat(old(out), EncodeEntries(es, old(strings)).bytes, EMPTY);
    }

    method WriteEnd()
      modifies this
      ensures out == old(out) + EMPTY && strings == old(strings)
    {
      WriteStringWithReference([]);
    }

    method EncodeElements(ghost v: Value, vs: seq<Value>) returns (ghost ts: seq<Listing>)
      requires forall i | 0 <= i < |vs| :: vs[i] < v
      modifies this
      ensures (forall i | 0 <= i < |ts| :: Lists(ts[i])) && EraseAll(ts) == vs
      ensures out == old(out) + EncodeAll(ts, old(strings)).bytes
      ensures strings == EncodeAll(ts, old(strings)).table
      decreases v, 0
    {
      hide Lists, Encode, EncodeAll, Erase, EraseAll;
      ts := [];
      NoElements(strings);
      for i := 0 to |vs|
        invariant forall j | 0 <= j < |ts| :: Lists(ts[j])
        invariant EraseAll(ts) == vs[..i]
        invariant out == old(out) + EncodeAll(ts, old(strings)).bytes
        invariant strings == EncodeAll(ts, old(strings)).table
      {
        ghost var w := EncodeAll(ts, old(strings));
        ghost var l := EncodeValue(vs[i]);
        assert vs[..i + 1] == vs[..i] + [vs[i]];
        AppendElement(ts, l, old(strings));
        Concat(old(out), w.bytes, Encode(l, w.table).bytes);
        ts := ts + [l];
      }
    }

    /** Writes a Go value by its type; an error exactly for AMF0 values, wherever they are. */
    method EncodeGo(g: G.Go, float: int -> u64) returns (ok: bool, ghost t: Listing)
      requires Amf3Go.Timeless(g)
      modifies this
      ensures ok <==> Amf3Go.Supported(g)
      ensures ok ==> Lists(t) && Erase(t) == Amf3Go.FromGo(g, float)
      ensures ok ==> Normalize(Erase(t)) == Amf3Go.Inner(g, float)
      ensures ok ==> out == old(out) + Encode(t, old(strings)).bytes && strings == Encode(t, old(strings)).table
      decreases g, 1
    {
      hide EncodeLeaf, EncodeEntries, EncodeAll, Normalize, Amf3Go.Inner;
      Amf3Go.InnerOfNormal(g, float);
      ok, t := true, Leaf(Null);
      match g
      case Nil =>
        EncodeLeafValue(Null);
      case Bool(b) =>
        EncodeLeafValue(Boolean(b));
        t := Leaf(Boolean(b));
      case Int(i) =>
        if U29.Is29Bit(i) {
          EncodeLeafValue(Integer(i));
          t := Leaf(Integer(i));
        } else {
          EncodeLeafValue(Double(float(i)));
          t := Leaf(Double(float(i)));
        }
      case Float(bits) =>
        EncodeLeafValue(Double(bits));
        t := Leaf(Double(bits));
      case Str(s) =>
        EncodeLeafValue(String(s));
        t := Leaf(String(s));
      case Map(m) =>
        ok, t := EncodeGoObject(g, float);
      case Slice(gs) =>
        ok, t := EncodeGoSlice(g, float);
      case Amf0Value(_) =>
        ok := false;
      case Amf3Value(v) =>
        t := EncodeValue(v);
    }

    method EncodeGoObject(g: G.Go, float: int -> u64) returns (ok: bool, ghost t: Listing)
      requires g.Map? && Amf3Go.Timeless(g)
      modifies this
      ensures ok <==> Amf3Go.Supported(g)
      ensures ok ==> Lists(t) && Erase(t) == Amf3Go.FromGo(g, float)
      ensures ok ==> out == old(out) + Encode(t, old(strings)).bytes && strings == Encode(t, old(strings)).table
      decreases g, 0
    {
      hide Lists, ListsEntries, Listed, Encode, EncodeEntries, EncodeString, EraseEntries, Erase, U29.Write,
        Amf3Go.FromGo, Amf3Go.Supported, Amf3Go.Timeless;
      ghost var ps := map k | k in g.entries :: Amf3Go.FromGo(g.entries[k], float);
      ObjectIs(g, ps, float);
      Write([OBJECT]);
      WriteU29(TRAITS);
      WriteEnd();
      ghost var start := out;
      var left := g.entries.Keys;
      ghost var es: seq<Entry> := [];
      ListNone(ps, strings);
      t := Leaf(Null);
      while left != {}
        invariant left <= ps.Keys
        invariant Listed(es, ps, left) && ListsEntries(es)
        invariant forall k | k in g.entries.Keys - left :: Amf3Go.Supported(g.entries[k])
        invariant out == start + EncodeEntries(es, old(strings)).bytes
        invariant strings == EncodeEntries(es, old(strings)).table
        decreases |left|
      {
        var key :| key in left;
        ghost var w := EncodeEntries(es, old(strings));
        WriteStringWithReference(key);
        ghost var k := EncodeString(key, w.table);
        ghost var l;
        ok, l := EncodeGo(g.entries[key], float);
        if !ok {
          return;
        }
        ListNext(es, ps, left, Entry(key, l), old(strings));
        ghost var value := Encode(l, k.table);
        Concat(start + w.bytes, k.bytes, value.bytes);
        Concat(start, w.bytes, k.bytes + value.bytes);
        left := left - {key};
        es := es + [Entry(key, l)];
      }
      ListAll(es, ps);
      WriteEnd();
      ok := true;
      t := Members([], es);
      ObjectListing(es, ps, old(strings));
      ghost var w := EncodeEntries(es, old(strings));
      Concat(start, w.bytes, EMPTY);
      ghost var h := U29.Write(TRAITS);
      Concat(old(out), [OBJECT], h + (EMPTY + (w.bytes + EMPTY)));
      Concat(old(out) + [OBJECT], h, EMPTY + (w.bytes + EMPTY));
      Concat(old(out) + [OBJECT] + h, EMPTY, w.bytes + EMPTY);
    }

    method EncodeGoSlice(g: G.Go, float: int -> u64) returns (ok: bool, ghost t: Listing)
      requires g.Slice? && Amf3Go.Timeless(g)
      modifies this
      ensures ok <==> Amf3Go.Supported(g)
      ensures ok ==> Lists(t) && Erase(t) == Amf3Go.FromGo(g, float)
      ensures ok ==> out == old(out) + Encode(t, old(strings)).bytes && strings == Encode(t, old(strings)).table
      decreases g, 0
    {
      hide Lists, Encode, EncodeAll, Erase, EraseAll, U29.Write, U29.Handle, Amf3Go.FromGo,
        Amf3Go.Supported, Amf3Go.Timeless;
      var gs := g.elems;
      ghost var vs := seq(|gs|, i requires 0 <= i < |gs| => Amf3Go.FromGo(gs[i], float));
      SliceIs(g, vs, float);
      Write([ARRAY]);
      WriteU29(U29.Handle(|gs|, 1));
      WriteEnd();
      ghost var start := out;
      ghost var ts: seq<Listing> := [];
      t := Leaf(Null);
      NoElements(old(strings));
      for i := 0 to |gs|
        invariant forall j | 0 <= j < |ts| :: Lists(ts[j])
        invariant EraseAll(ts) == vs[..i]
        invariant forall j | 0 <= j < i :: Amf3Go.Supported(gs[j])
        invariant out == start + EncodeAll(ts, old(strings)).bytes
        invariant strings == EncodeAll(ts, old(strings)).table
      {
        ghost var w := EncodeAll(ts, old(strings));
        ghost var l;
        ok, l := EncodeGo(gs[i], float);
        if !ok {
          return;
        }
        assert vs[..i + 1] == vs[..i] + [vs[i]];
        AppendElement(ts, l, old(strings));
        Concat(start, w.bytes, Encode(l, w.table).bytes);
        ts := ts + [l];
      }
      ok := true;
      t := Elements(ts);
      SliceListing(ts, vs, old(strings));
      ghost var h, elems := U29.Write(U29.Handle(|gs|, 1)), EncodeAll(ts, old(strings)).bytes;
      Concat(old(out), [ARRAY], h + (EMPTY + elems));
      Concat(old(out) + [ARRAY], h, EMPTY + elems);
      Concat(old(out) + [ARRAY] + h, EMPTY, elems);
    }
  }

  lemma NoEntries(table: Table)
    ensures EncodeEntries([], table) == Written([], table)
  {
  }

  lemma NoneErased(es: seq<Entry>)
    ensures EraseEntries(es) == map[] ==> es == []
  {
    if es != [] {
      assert es[0].key in EraseEntries(es);
    }
  }

  lemma ObjectIs(g: G.Go, ps: map<Bytes, Value>, float: int -> u64)
    requires g.Map? && ps == map k | k in g.entries :: Amf3Go.FromGo(g.entries[k], float)
    ensures Amf3Go.FromGo(g, float) == Object([], ps) && ps.Keys == g.entries.Keys
    ensures Amf3Go.Supported(g) <==> forall k | k in g.entries :: Amf3Go.Supported(g.entries[k])
    ensures Amf3Go.Timeless(g) <==> forall k | k in g.entries :: Amf3Go.Timeless(g.entries[k])
  {
  }

  lemma ObjectListing(es: seq<Entry>, ps: map<Bytes, Value>, table: Table)
    requires ListsEntries(es) && EraseEntries(es) == ps
    ensures var t, w := Members([], es), EncodeEntries(es, table);
            && Lists(t) && Erase(t) == Object([], ps)
            && Encode(t, table) == Written([OBJECT] + (U29.Write(TRAITS) + (EMPTY + (w.bytes + EMPTY))), w.table)
  {
    hide U29.Write;
  }

  lemma SliceIs(g: G.Go, vs: seq<Value>, float: int -> u64)
    requires g.Slice? && |vs| == |g.elems|
    requires forall i | 0 <= i < |vs| :: vs[i] == Amf3Go.FromGo(g.elems[i], float)
    ensures Amf3Go.FromGo(g, float) == Slice(vs)
    ensures Amf3Go.Supported(g) <==> forall i | 0 <= i < |vs| :: Amf3Go.Supported(g.elems[i])
    ensures Amf3Go.Timeless(g) <==> forall i | 0 <= i < |vs| :: Amf3Go.Timeless(g.elems[i])
  {
    assert Amf3Go.FromGo(g, float).elems == vs;
  }

  lemma NoElements(table: Table)
    ensures EncodeAll([], table) == Written([], table) && EraseAll([]) == []
  {
  }

  lemma SliceListing(ts: seq<Listing>, vs: seq<Value>, table: Table)
    requires EraseAll(ts) == vs && forall i | 0 <= i < |ts| :: Lists(ts[i])
    ensures var t, w := Elements(ts), EncodeAll(ts, table);
            && Lists(t) && Erase(t) == Slice(vs)
            && Encode(t, table) == Written([ARRAY] + (U29.Write(U29.Handle(|ts|, 1)) + (EMPTY + w.bytes)), w.table)
  {
    hide U29.Write, U29.Handle;
    assert [] + EMPTY + EncodeAll(ts, table).bytes == EMPTY + EncodeAll(ts, table).bytes;
  }

  class Decoder {
    /** The input not yet read. */
    var rest: Bytes
    /** The strings read in full so far. */
    var strings: Table
    /** The number of arrays and objects met so far. */
    var objects: nat

    ghost function State(): Input
      reads this
    {
      Input(rest, strings, objects)
    }

    constructor (input: Bytes)
      ensures State() == Input(input, [], 0)
    {
      rest, strings, objects := input, [], 0;
    }

    method ReadByte() returns (r: Result<byte>)
      modifies this`rest
      ensures Reflects(TakeMarker(old(State())), r, State())
      ensures Reflects(TakeByte(old(rest)), r, rest)
    {
      if rest == [] {
        return Failure(Truncated);
      }
      r := Success(rest[0]);
      rest := rest[1..];
    }

    /** `io.ReadFull` of `n` bytes. */
    method Read(n: nat) returns (r: Result<Bytes>)
      modifies this`rest
      ensures Reflects(Take(old(rest), n), r, rest)
    {
      if |rest| < n {
        return Failure(Truncated);
      }
      r := Success(rest[..n]);
      rest := rest[n..];
    }

    method ReadU29() returns (r: Result<u32>)
      modifies this`rest
      ensures Reflects(TakeU29(old(State())), r, State())
    {
      var result := 0;
      var bytesRead := 0;
      while bytesRead < 4
        invariant 0 <= bytesRead <= 4
        invariant bytesRead < 4 ==> U29.ReadFrom.requires(rest, bytesRead, result)
        invariant bytesRead < 4 ==> U29.ReadFrom(rest, bytesRead, result) == U29.ReadFrom(old(rest), 0, 0)
        invariant bytesRead == 4 ==> 0 <= result < U29.TWO29
        invariant bytesRead == 4 ==> U29.ReadFrom(old(rest), 0, 0) == Ok(U29.SignExtend(result), rest)
      {
        var b := ReadByte();
        if b.Failure? {
          return Failure(b.error);
        }
        bytesRead := bytesRead + 1;
        if bytesRead < 4 {
          result := U29.Next7(result, b.value);
          if b.value < 0x80 {
            break;
          }
        } else {
          result := U29.Next8(result, b.value);
        }
      }
      r := Success(if bytesRead == 4 && result >= 0x1000_0000 then result + 0xE000_0000 else result);
    }

    method ReadStringWithReference() returns (r: Result<Bytes>)
      modifies this
      ensures Reflects(TakeString(old(State())), r, State())
    {
      hide TakeU29;
      var handle := ReadU29();
      if handle.Failure? {
        return Failure(handle.error);
      }
      var n := handle.value / 2;
      if handle.value % 2 == 0 {
        return if n >= |strings| then Failure(InvalidReference(n)) else Success(strings[n]);
      }
      if n == 0 {
        return Success([]);
      }
      r := Read(n);
      if r.Success? {
        strings := strings + [r.value];
      }
    }

    method ReadLiteral() returns (r: Result<u32>)
      modifies this
      ensures Reflects(TakeLiteral(old(State())), r, State())
    {
      hide TakeU29;
      r := ReadU29();
      if r.Failure? {
        return;
      }
      if r.value % 2 == 0 {
        return Failure(if r.value / 2 >= objects then InvalidReference(r.value / 2) else NotModelled);
      }
      objects := objects + 1;
    }

    /** The value whose marker has been read and which holds no other value. */
    method DecodeLeaf(marker: byte) returns (r: Result<Value>)
      modifies this
      ensures Reflects(TakeLeaf(marker, old(State())), r, State())
    {
      hide TakeU29, TakeString;
      if marker == UNDEFINED {
        r := Success(Undefined);
      } else if marker == NULL {
        r := Success(Null);
      } else if marker == FALSE {
        r := Success(Boolean(false));
      } else if marker == TRUE {
        r := Success(Boolean(true));
      } else if marker == INTEGER {
        var x := ReadU29();
        r := if x.Failure? then Failure(x.error) else Success(Integer(U29.ToInt32(x.value)));
      } else if marker == DOUBLE {
        var b := Read(8);
        r := if b.Failure? then Failure(b.error) else Success(Double(FromBe64(b.value)));
      } else if marker == STRING {
        var s := ReadStringWithReference();
        r := if s.Failure? then Failure(s.error) else Success(String(s.value));
      } else if marker == DATE {
        r := Failure(NotModelled);
      } else {
        r := Failure(UnsupportedMarker(marker));
      }
    }

    method DecodeAmf3Value() returns (r: Result<Value>)
      modifies this
      ensures Reflects(Decode(old(State())), r, State())
      decreases |rest|, 0
    {
      hide TakeLeaf, TakeArray, TakeObject, TakeMarker;
      var marker := ReadByte();
      if marker.Failure? {
        return Failure(marker.error);
      }
      if marker.value == ARRAY {
        r := DecodeArrayValue();
      } else if marker.value == OBJECT {
        r := DecodeObjectValue();
      } else {
        r := DecodeLeaf(marker.value);
      }
    }

    method DecodeArrayValue() returns (r: Result<Value>)
      modifies this
      ensures Reflects(TakeArray(old(State())), r, State())
      decreases |rest|, 0
    {
      hide TakeLiteral, DecodeProps, DecodeAll;
      var handle := ReadLiteral();
      if handle.Failure? {
        return Failure(handle.error);
      }
      var ps := DecodeProperties();
      if ps.Failure? {
        return Failure(ps.error);
      }
      var vs := DecodeElements(handle.value / 2);
      r := if vs.Failure? then Failure(vs.error) else Success(Array(ps.value, vs.value));
    }

    method DecodeObjectValue() returns (r: Result<Value>)
      modifies this
      ensures Reflects(TakeObject(old(State())), r, State())
      decreases |rest|, 0
    {
      hide TakeLiteral, TakeString, DecodeProps;
      var handle := ReadLiteral();
      if handle.Failure? {
        return Failure(handle.error);
      }
      var c := ReadStringWithReference();
      if c.Failure? {
        return Failure(c.error);
      }
      var ps := DecodeProperties();
      r := if ps.Failure? then Failure(ps.error) else Success(Object(c.value, ps.value));
    }

    /** Names and values up to an empty name. */
    method DecodeProperties() returns (r: Result<map<Bytes, Value>>)
      modifies this
      ensures Reflects(DecodeProps(old(State()), map[]), r, State())
      decreases |rest|, 1
    {
      hide TakeString, Decode;
      var ps: map<Bytes, Value> := map[];
      while true
        invariant |rest| <= old(|rest|)
        invariant DecodeProps(State(), ps) == DecodeProps(old(State()), map[])
        decreases |rest|
      {
        var key := ReadStringWithReference();
        if key.Failure? {
          return Failure(key.error);
        }
        if key.value == [] {
          return Success(ps);
        }
        var value := DecodeAmf3Value();
        if value.Failure? {
          return Failure(value.error);
        }
        ps := ps[key.value := value.value];
      }
    }

    method DecodeElements(count: nat) returns (r: Result<seq<Value>>)
      modifies this
      ensures Reflects(DecodeAll(old(State()), count), r, State())
      decreases |rest|, 1
    {
      hide Decode;
      var arr: seq<Value> := [];
      PrependEnds(arr, State(), DecodeAll(State(), count));
      for i := 0 to count
        invariant |rest| <= old(|rest|)
        invariant DecodeAll(old(State()), count) == Prepend(arr, DecodeAll(State(), count - i))
      {
        var value := DecodeAmf3Value();
        if value.Failure? {
          return Failure(value.error);
        }
        PrependStep(arr, value.value, DecodeAll(State(), count - i - 1));
        arr := arr + [value.value];
      }
      PrependEnds(arr, State(), DecodeAll(State(), 0));
      r := Success(arr);
    }

    // ----- Go values

    /** `Decode`: the Go form of the outermost value. */
    method DecodeValue() returns (r: Result<Amf3Go.Shallow>)
      modifies this
      ensures Reflects(Amf3Go.DecodeShallow(old(State())), r, State())
    {
      hide Amf3Go.TakeShallowLeaf, TakeArray, TakeObject, TakeMarker, Amf3Go.GoArray;
      var marker := ReadByte();
      if marker.Failure? {
        return Failure(marker.error);
      }
      if marker.value == ARRAY {
        r := DecodeArray();
      } else if marker.value == OBJECT {
        var v := DecodeObjectValue();
        r := if v.Failure? then Failure(v.error) else Success(Amf3Go.Map(v.value.props));
      } else {
        r := DecodeGoLeaf(marker.value);
      }
    }

    method DecodeGoLeaf(marker: byte) returns (r: Result<Amf3Go.Shallow>)
      modifies this
      ensures Reflects(Amf3Go.TakeShallowLeaf(marker, old(State())), r, State())
    {
      hide TakeU29, TakeString;
      if marker == UNDEFINED {
        r := Success(Amf3Go.Nil);
      } else if marker == NULL {
        r := Success(Amf3Go.Nil);
      } else if marker == FALSE {
        r := Success(Amf3Go.Bool(false));
      } else if marker == TRUE {
        r := Success(Amf3Go.Bool(true));
      } else if marker == INTEGER {
        var x := ReadU29();
        r := if x.Failure? then Failure(x.error) else Success(Amf3Go.Int32(U29.ToInt32(x.value)));
      } else if marker == DOUBLE {
        var b := Read(8);
        r := if b.Failure? then Failure(b.error) else Success(Amf3Go.Float(FromBe64(b.value)));
      } else if marker == STRING {
        var s := ReadStringWithReference();
        r := if s.Failure? then Failure(s.error) else Success(Amf3Go.Str(s.value));
      } else if marker == DATE {
        r := Failure(NotModelled);
      } else {
        r := Failure(UnsupportedMarker(marker));
      }
    }

    /** An array as a slice, or as a map in which its elements are numbered. */
    method DecodeArray() returns (r: Result<Amf3Go.Shallow>)
      modifies this
      ensures match TakeArray(old(State()))
              case Ok(v, rest) => r == Success(Amf3Go.GoArray(v.assoc, v.dense)) && State() == rest
              case Fail(e) => r == Failure(e)
    {
      hide TakeArray;
      var v := DecodeArrayValue();
      if v.Failure? {
        return Failure(v.error);
      }
      var ps, vs := v.value.assoc, v.value.dense;
      if ps == map[] {
        return Success(Amf3Go.Elems(vs));
      }
      var m := ps;
      ghost var after := State();
      for i := 0 to |vs|
        invariant m + Amf3Go.Numbered(vs, i) == ps + Amf3Go.Numbered(vs, 0)
        invariant State() == after
      {
        MergeEntry(m, Amf3Go.Decimal(i), vs[i], Amf3Go.Numbered(vs, i + 1));
        m := m[Amf3Go.Decimal(i) := vs[i]];
      }
      assert m + map[] == m;
      r := Success(Amf3Go.Map(m));
    }
  }

  lemma EmptyIsOne()
    ensures U29.Write(1) == EMPTY
  {
  }

  lemma {:induction false} FirstIndexIs(s: Bytes, table: Table, i: nat)
    requires i < |table| && table[i] == s && s !in table[..i]
    ensures s in table && FirstIndex(s, table) == i
    decreases i
  {
    if i > 0 {
      assert table[0] in table[..i];
      assert table[1..][..i - 1] == table[..i][1..];
      FirstIndexIs(s, table[1..], i - 1);
    }
  }
}
