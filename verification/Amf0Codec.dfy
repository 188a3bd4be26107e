/** The AMF0 encoder and decoder as objects over a byte stream. */
module Amf0Codec {
  import opened Wire
  import opened Collections
  import opened Amf0
  import opened Amf0Proofs
  import opened Amf0Go

  // ----- Listings grow at their end as the encoder walks a map

  lemma {:induction false} AppendErased(es: seq<Entry>, e: Entry)
    ensures EraseEntries(es + [e]) == EraseEntries(es)[e.key := Erase(e.listing)]
  {
    if es == [] {
      assert es + [e] == [e];
      assert EraseEntries([e]) == map[e.key := Erase(e.listing)] + map[];
    } else {
      AppendErased(es[1..], e);
      assert (es + [e])[1..] == es[1..] + [e];
      MergeUpdate(map[es[0].key := Erase(es[0].listing)], EraseEntries(es[1..]), e.key, Erase(e.listing));
    }
  }

  ghost function EncodeEntry(e: Entry): Bytes
    requires |e.key| <= MAX_NAME && Writable(e.listing)
  {
    Utf8(e.key) + Encode(e.listing)
  }

  lemma {:induction false} AppendEncoded(es: seq<Entry>, e: Entry)
    requires WritableEntries(es) && |e.key| <= MAX_NAME && Writable(e.listing)
    ensures EncodeEntries(es + [e]) == EncodeEntries(es) + EncodeEntry(e)
  {
    if es == [] {
      assert es + [e] == [e];
      assert EncodeEntries([e]) == EncodeEntry(e) + [];
    } else {
      AppendEncoded(es[1..], e);
      assert (es + [e])[1..] == es[1..] + [e];
      Concat(EncodeEntry(es[0]), EncodeEntries(es[1..]), EncodeEntry(e));
    }
  }

  /** The entries `es` are those of the map `ps` but for the names `left`. */
  ghost predicate Listed(es: seq<Entry>, ps: map<Bytes, Value>, left: set<Bytes>) {
    && ListsEntries(es)
    && WritableEntries(es)
    && EraseEntries(es).Keys == ps.Keys - left
    && forall k | k in EraseEntries(es) :: EraseEntries(es)[k] == ps[k]
  }

  lemma ListNone(ps: map<Bytes, Value>)
    ensures Listed([], ps, ps.Keys) && WritableEntries([]) && EncodeEntries([]) == []
  {
  }

  lemma ListAll(es: seq<Entry>, ps: map<Bytes, Value>)
    requires Listed(es, ps, {})
    ensures ListsEntries(es) && WritableEntries(es) && EraseEntries(es) == ps
    ensures forall k | k in ps :: |k| <= MAX_NAME && NamesFit(ps[k])
  {
    hide Lists, Writable, NamesFit, Erase;
    WritableEntriesIff(es);
    assert EraseEntries(es) == ps;
  }

  lemma ListNext(es: seq<Entry>, ps: map<Bytes, Value>, left: set<Bytes>, e: Entry)
    requires Listed(es, ps, left) && left <= ps.Keys
    requires e.key in left && |e.key| <= MAX_NAME
    requires Lists(e.listing) && Writable(e.listing) && Erase(e.listing) == ps[e.key]
    ensures Listed(es + [e], ps, left - {e.key}) && WritableEntries(es) && WritableEntries(es + [e])
    ensures EncodeEntries(es + [e]) == EncodeEntries(es) + EncodeEntry(e)
  {
    NameIsNew(es, e.key);
    AppendListed(es, e);
    AppendErased(es, e);
    AppendEncoded(es, e);
    MapNext(EraseEntries(es), ps, left, e.key);
  }

  lemma AppendListed(es: seq<Entry>, e: Entry)
    requires ListsEntries(es) && Lists(e.listing) && forall i | 0 <= i < |es| :: es[i].key != e.key
    requires WritableEntries(es) && Writable(e.listing) && |e.key| <= MAX_NAME
    ensures ListsEntries(es + [e]) && WritableEntries(es + [e])
  {
  }

  lemma {:induction false} AppendElement(ts: seq<Listing>, t: Listing)
    requires forall i | 0 <= i < |ts| :: Writable(ts[i])
    requires Writable(t)
    ensures EraseAll(ts + [t]) == EraseAll(ts) + [Erase(t)]
    ensures EncodeAll(ts + [t]) == EncodeAll(ts) + Encode(t)
  {
    if ts == [] {
      assert ts + [t] == [t];
      assert EncodeAll([t]) == Encode(t) + [];
    } else {
      AppendElement(ts[1..], t);
      assert (ts + [t])[1..] == ts[1..] + [t];
      Concat(Encode(ts[0]), EncodeAll(ts[1..]), Encode(t));
    }
  }

  class Encoder {
    /** Everything written so far. */
    var out: Bytes

    constructor ()
      ensures out == []
    {
      out := [];
    }

    method Write(b: Bytes)
      modifies this
      ensures out == old(out) + b
    {
      out := out + b;
    }

    /** A length and the bytes of a string; a short form that does not fit is an error. */
    method WriteUtf8(s: Bytes, long: bool) returns (ok: bool)
      modifies this
      ensures ok <==> long || |s| <= MAX_NAME
      ensures ok ==> out == old(out) + if long then LongUtf8(s) else Utf8(s)
    {
      if long {
        Write(Be32(Wrap32(|s|)));
      } else {
        if |s| > MAX_NAME {
          return false;
        }
        Write(Be16(|s|));
      }
      Write(s);
      ok := true;
    }

    method EncodeNumber(bits: u64)
      modifies this
      ensures out == old(out) + EncodeLeaf(Number(bits))
    {
      Write([NUMBER]);
      Write(Be64(bits));
    }

    method EncodeBoolean(b: bool)
      modifies this
      ensures out == old(out) + EncodeLeaf(Boolean(b))
    {
      Write([BOOLEAN]);
      Write([if b then 1 else 0]);
    }

    method EncodeLongString(s: Bytes)
      modifies this
      ensures out == old(out) + ([LONG_STRING] + LongUtf8(s))
    {
      Write([LONG_STRING]);
      var _ := WriteUtf8(s, true);
      Concat(old(out), [LONG_STRING], LongUtf8(s));
    }

    method EncodeString(s: Bytes)
      modifies this
      ensures out == old(out) + EncodeLeaf(String(s))
    {
      if |s| > MAX_NAME {
        EncodeLongString(s);
      } else {
        Write([STRING]);
        var _ := WriteUtf8(s, false);
        Concat(old(out), [STRING], Utf8(s));
      }
    }

    method EncodeDate(ms: u64, tz: u16)
      modifies this
      ensures out == old(out) + EncodeLeaf(Date(ms, tz))
    {
      Write([DATE]);
      Write(Be64(ms));
      Write(Be16(tz));
      Concat(old(out), [DATE], Be64(ms) + Be16(tz));
      Concat(old(out) + [DATE], Be64(ms), Be16(tz));
    }

    method EncodeHeadOf(h: Head) returns (ok: bool)
      modifies this
      ensures ok <==> HeadFits(h)
      ensures ok ==> out == old(out) + EncodeHead(h)
    {
      ok := true;
      match h
      case PlainObject =>
        Write([OBJECT]);
      case EcmaArray(n) =>
        Write([ECMA_ARRAY]);
        Write(Be32(n));
        Concat(old(out), [ECMA_ARRAY], Be32(n));
      case TypedObject(c) =>
        Write([TYPED_OBJECT]);
        ok := WriteUtf8(c, false);
        if ok {
          Concat(old(out), [TYPED_OBJECT], Utf8(c));
        }
    }

    method WriteEnd()
      modifies this
      ensures out == old(out) + END
    {
      var _ := WriteUtf8([], false);
      Write([OBJECT_END]);
      assert Utf8([]) + [OBJECT_END] == END;
      Concat(old(out), Utf8([]), [OBJECT_END]);
    }

    /** Writes one of the encodings of `v`, that of the listing `t`, or reports an error, which happens exactly
        when a name is too long. */
    method EncodeValue(v: Value) returns (ok: bool, ghost t: Listing)
      modifies this
      ensures ok <==> NamesFit(v)
      ensures ok ==> Lists(t) && Erase(t) == v && Writable(t) && out == old(out) + Encode(t)
      decreases v, 1
    {
      ok, t := true, Leaf(v);
      match v
      case Record(_, _) =>
        ok, t := EncodeRecord(v);
      case StrictArray(_) =>
        ok, t := EncodeStrictArray(v);
      case Number(bits) => EncodeNumber(bits);
      case Boolean(b) => EncodeBoolean(b);
      case String(s) => EncodeString(s);
      case Null => Write([NULL]);
      case Undefined => Write([UNDEFINED]);
      case Date(ms, tz) => EncodeDate(ms, tz);
      case LongString(s) => EncodeLongString(s);
    }

    method EncodeRecord(v: Value) returns (ok: bool, ghost t: Listing)
      requires v.Record?
      modifies this
      ensures ok <==> NamesFit(v)
      ensures ok ==> Lists(t) && Erase(t) == v && Writable(t) && out == old(out) + Encode(t)
      decreases v, 0, 1
    {
      t := Leaf(Null);
      ok := EncodeHeadOf(v.head);
      if ok {
        ghost var es;
        ok, es := EncodeProperties(v);
        t := Entries(v.head, es);
        if ok {
          Concat(old(out), EncodeHead(v.head), EncodeEntries(es) + END);
        }
      }
    }

    /** The properties in some order, and what closes them. */
    method EncodeProperties(v: Value) returns (ok: bool, ghost es: seq<Entry>)
      requires v.Record?
      modifies this
      ensures ok <==> forall k | k in v.props :: |k| <= MAX_NAME && NamesFit(v.props[k])
      ensures ok ==> ListsEntries(es) && EraseEntries(es) == v.props && WritableEntries(es)
      ensures ok ==> out == old(out) + (EncodeEntries(es) + END)
      decreases v, 0, 0
    {
      hide Encode, EncodeEntries, EraseEntries, Erase, Lists, ListsEntries, Writable, WritableEntries, Listed, Utf8,
        NamesFit;
      ghost var start := out;
      var left := v.props.Keys;
      es := [];
      ListNone(v.props);
      while left != {}
        invariant left <= v.props.Keys
        invariant Listed(es, v.props, left) && WritableEntries(es)
        invariant out == start + EncodeEntries(es)
        decreases |left|
      {
        var key :| key in left;
        ok := WriteUtf8(key, false);
        if !ok {
          return;
        }
        ghost var l;
        ok, l := EncodeValue(v.props[key]);
        if !ok {
          return;
        }
        ListNext(es, v.props, left, Entry(key, l));
        Concat(start, EncodeEntries(es), EncodeEntry(Entry(key, l)));
        Concat(start + EncodeEntries(es), Utf8(key), Encode(l));
        left := left - {key};
        es := es + [Entry(key, l)];
      }
      WriteEnd();
      ok := true;
      Concat(start, EncodeEntries(es), END);
      ListAll(es, v.props);
    }

    method EncodeStrictArray(v: Value) returns (ok: bool, ghost t: Listing)
      requires v.StrictArray?
      modifies this
      ensures ok <==> NamesFit(v)
      ensures ok ==> Lists(t) && Erase(t) == v && Writable(t) && out == old(out) + Encode(t)
      decreases v, 0, 1
    {
      var n := Wrap32(|v.elems|);
      Write([STRICT_ARRAY]);
      Write(Be32(n));
      ghost var ts;
      ok, ts := EncodeElements(v);
      t := Elements(ts);
      if ok {
        Concat(old(out), [STRICT_ARRAY], Be32(n) + EncodeAll(ts));
        Concat(old(out) + [STRICT_ARRAY], Be32(n), EncodeAll(ts));
      }
    }

    method EncodeElements(v: Value) returns (ok: bool, ghost ts: seq<Listing>)
      requires v.StrictArray?
      modifies this
      ensures ok <==> NamesFit(v)
      ensures ok ==> EraseAll(ts) == v.elems && forall i | 0 <= i < |ts| :: Lists(ts[i]) && Writable(ts[i])
      ensures ok ==> out == old(out) + EncodeAll(ts)
      decreases v, 0, 0
    {
      hide Encode, EncodeAll, Lists, Writable, Erase, EraseAll;
      ts := [];
      NoElements();
      for i := 0 to |v.elems|
        invariant forall j | 0 <= j < |ts| :: Lists(ts[j]) && Writable(ts[j])
        invariant EraseAll(ts) == v.elems[..i]
        invariant forall j | 0 <= j < i :: NamesFit(v.elems[j])
        invariant out == old(out) + EncodeAll(ts)
      {
        ghost var l;
        ok, l := EncodeValue(v.elems[i]);
        if !ok {
          return;
        }
        AppendElement(ts, l);
        Concat(old(out), EncodeAll(ts), Encode(l));
        ts := ts + [l];
      }
      ok := true;
    }

    /** Writes a Go value by its type; an error for times and AMF3 values, wherever they are, and for long names. */
    method EncodeGo(g: Go, float: int -> u64) returns (ok: bool, ghost t: Listing)
      modifies this
      ensures ok <==> Supported(g) && NamesFit(FromGo(g, float))
      ensures ok ==> Lists(t) && Erase(t) == FromGo(g, float) && Writable(t) && out == old(out) + Encode(t)
      ensures ok ==> ToGo(Normalize(Erase(t))) == Image(g, float)
      decreases g, 1
    {
      hide EncodeLeaf, Normalize, ToGo, Image;
      if Supported(g) {
        ImageOfNormal(g, float);
      }
      ok, t := true, Leaf(Null);
      match g
      case Nil =>
        Write([NULL]);
        NullLeaf();
      case Bool(b) =>
        EncodeBoolean(b);
        t := Leaf(Boolean(b));
      case Int(i) =>
        EncodeNumber(float(i));
        t := Leaf(Number(float(i)));
      case Float(bits) =>
        EncodeNumber(bits);
        t := Leaf(Number(bits));
      case Str(s) =>
        EncodeString(s);
        t := Leaf(String(s));
      case Map(m) =>
        ok, t := EncodeGoObject(g, float);
      case Slice(gs) =>
        ok, t := EncodeGoSlice(g, float);
      case Amf0Value(v) =>
        ok, t := EncodeValue(v);
      case Time(_) =>
        ok := false;
      case Amf3Value(_) =>
        ok := false;
    }

    method EncodeGoObject(g: Go, float: int -> u64) returns (ok: bool, ghost t: Listing)
      requires g.Map?
      modifies this
      ensures ok <==> Supported(g) && NamesFit(FromGo(g, float))
      ensures ok ==> Lists(t) && Erase(t) == FromGo(g, float) && Writable(t) && out == old(out) + Encode(t)
      decreases g, 0
    {
      hide Encode, EncodeEntries, EraseEntries, Erase, Lists, ListsEntries, Writable, WritableEntries, Listed, Utf8,
        NamesFit, FromGo, Supported;
      ghost var ps := map k | k in g.entries :: FromGo(g.entries[k], float);
      ObjectIs(g, ps, float);
      Write([OBJECT]);
      ghost var start := out;
      var left := g.entries.Keys;
      ghost var es: seq<Entry> := [];
      ListNone(ps);
      t := Leaf(Null);
      while left != {}
        invariant left <= g.entries.Keys
        invariant Listed(es, ps, left) && WritableEntries(es)
        invariant forall k | k in g.entries.Keys - left :: Supported(g.entries[k])
        invariant out == start + EncodeEntries(es)
        decreases |left|
      {
        var key :| key in left;
        ok := WriteUtf8(key, false);
        if !ok {
          return;
        }
        ghost var l;
        ok, l := EncodeGo(g.entries[key], float);
        if !ok {
          return;
        }
        ListNext(es, ps, left, Entry(key, l));
        Concat(start, EncodeEntries(es), EncodeEntry(Entry(key, l)));
        Concat(start + EncodeEntries(es), Utf8(key), Encode(l));
        left := left - {key};
        es := es + [Entry(key, l)];
      }
      WriteEnd();
      ok := true;
      Concat(start, EncodeEntries(es), END);
      Concat(old(out), [OBJECT], EncodeEntries(es) + END);
      ListAll(es, ps);
      t := Entries(PlainObject, es);
      ObjectListing(es, ps);
    }

    method EncodeGoSlice(g: Go, float: int -> u64) returns (ok: bool, ghost t: Listing)
      requires g.Slice?
      modifies this
      ensures ok <==> Supported(g) && NamesFit(FromGo(g, float))
      ensures ok ==> Lists(t) && Erase(t) == FromGo(g, float) && Writable(t) && out == old(out) + Encode(t)
      decreases g, 0
    {
      hide Encode, EncodeAll, Erase, EraseAll, Lists, Writable, NamesFit, FromGo, Supported;
      var gs := g.elems;
      ghost var vs := seq(|gs|, i requires 0 <= i < |gs| => FromGo(gs[i], float));
      SliceIs(g, vs, float);
      var n := Wrap32(|gs|);
      Write([STRICT_ARRAY]);
      Write(Be32(n));
      ghost var start := out;
      ghost var ts: seq<Listing> := [];
      t := Leaf(Null);
      NoElements();
      for i := 0 to |gs|
        invariant forall j | 0 <= j < |ts| :: Lists(ts[j]) && Writable(ts[j])
        invariant EraseAll(ts) == vs[..i]
        invariant forall j | 0 <= j < i :: Supported(gs[j]) && NamesFit(vs[j])
        invariant out == start + EncodeAll(ts)
      {
        ghost var l;
        ok, l := EncodeGo(gs[i], float);
        if !ok {
          return;
        }
        assert vs[..i + 1] == vs[..i] + [vs[i]];
        AppendElement(ts, l);
        Concat(start, EncodeAll(ts), Encode(l));
        ts := ts + [l];
      }
      ok := true;
      t := Elements(ts);
      ArrayListing(ts, vs);
      Concat(old(out), [STRICT_ARRAY], Be32(n) + EncodeAll(ts));
      Concat(old(out) + [STRICT_ARRAY], Be32(n), EncodeAll(ts));
    }
  }

  lemma NullLeaf()
    ensures EncodeLeaf(Null) == [NULL]
  {
  }

  lemma ObjectIs(g: Go, ps: map<Bytes, Value>, float: int -> u64)
    requires g.Map? && ps == map k | k in g.entries :: FromGo(g.entries[k], float)
    ensures FromGo(g, float) == Record(PlainObject, ps) && ps.Keys == g.entries.Keys
    ensures Supported(g) <==> forall k | k in g.entries :: Supported(g.entries[k])
    ensures NamesFit(FromGo(g, float)) <==> forall k | k in ps :: |k| <= MAX_NAME && NamesFit(ps[k])
  {
  }

  lemma ObjectListing(es: seq<Entry>, ps: map<Bytes, Value>)
    requires ListsEntries(es) && WritableEntries(es) && EraseEntries(es) == ps
    ensures var t := Entries(PlainObject, es);
            Lists(t) && Writable(t) && Erase(t) == Record(PlainObject, ps)
            && Encode(t) == [OBJECT] + (EncodeEntries(es) + END)
  {
  }

  lemma SliceIs(g: Go, vs: seq<Value>, float: int -> u64)
    requires g.Slice? && |vs| == |g.elems| && forall i | 0 <= i < |vs| :: vs[i] == FromGo(g.elems[i], float)
    ensures FromGo(g, float) == StrictArray(vs)
    ensures Supported(g) <==> forall i | 0 <= i < |vs| :: Supported(g.elems[i])
    ensures NamesFit(FromGo(g, float)) <==> forall i | 0 <= i < |vs| :: NamesFit(vs[i])
  {
    assert FromGo(g, float).elems == vs;
  }

  lemma NoElements()
    ensures EncodeAll([]) == [] && EraseAll([]) == []
  {
  }

  lemma ArrayListing(ts: seq<Listing>, vs: seq<Value>)
    requires EraseAll(ts) == vs && forall i | 0 <= i < |ts| :: Lists(ts[i]) && Writable(ts[i])
    ensures var t := Elements(ts);
            Lists(t) && Writable(t) && Erase(t) == StrictArray(vs)
            && Encode(t) == [STRICT_ARRAY] + (Be32(Wrap32(|ts|)) + EncodeAll(ts))
  {
  }

  class Decoder {
    /** The input not yet read. */
    var rest: Bytes

    constructor (input: Bytes)
      ensures rest == input
    {
      rest := input;
    }

    /** `io.ReadFull` of `n` bytes. */
    method Read(n: nat) returns (r: Result<Bytes>)
      modifies this
      ensures Reflects(Take(old(rest), n), r, rest)
    {
      if |rest| < n {
        return Failure(Truncated);
      }
      r := Success(rest[..n]);
      rest := rest[n..];
    }

    method ReadByte() returns (r: Result<byte>)
      modifies this
      ensures Reflects(TakeByte(old(rest)), r, rest)
    {
      if rest == [] {
        return Failure(Truncated);
      }
      r := Success(rest[0]);
      rest := rest[1..];
    }

    method ReadUtf8(long: bool) returns (r: Result<Bytes>)
      modifies this
      ensures Reflects(if long then TakeLongUtf8(old(rest)) else TakeUtf8(old(rest)), r, rest)
    {
      var length := Read(if long then 4 else 2);
      if length.Failure? {
        return length;
      }
      r := Read(if long then FromBe32(length.value) else FromBe16(length.value));
    }

    /** The value whose marker has been read and which holds no other value. */
    method DecodeLeaf(marker: byte) returns (r: Result<Value>)
      modifies this
      ensures Reflects(TakeLeaf(marker, old(rest)), r, rest)
    {
      if marker == NUMBER {
        var b := Read(8);
        r := if b.Failure? then Failure(b.error) else Success(Number(FromBe64(b.value)));
      } else if marker == BOOLEAN {
        var b := ReadByte();
        r := if b.Failure? then Failure(b.error) else Success(Boolean(b.value != 0));
      } else if marker == STRING {
        var t := ReadUtf8(false);
        r := if t.Failure? then Failure(t.error) else Success(String(t.value));
      } else if marker == NULL {
        r := Success(Null);
      } else if marker == UNDEFINED {
        r := Success(Undefined);
      } else if marker == DATE {
        r := DecodeDateValue();
      } else if marker == LONG_STRING {
        var t := ReadUtf8(true);
        r := if t.Failure? then Failure(t.error) else Success(LongString(t.value));
      } else {
        r := Failure(UnsupportedMarker(marker));
      }
    }

    method DecodeDateValue() returns (r: Result<Value>)
      modifies this
      ensures Reflects(TakeDate(old(rest)), r, rest)
    {
      var millis := Read(8);
      if millis.Failure? {
        return Failure(millis.error);
      }
      var timezone := Read(2);
      if timezone.Failure? {
        return Failure(timezone.error);
      }
      r := Success(Date(FromBe64(millis.value), FromBe16(timezone.value)));
    }

    method DecodeHead(marker: byte) returns (r: Result<Head>)
      requires IsRecord(marker)
      modifies this
      ensures Reflects(TakeHead(marker, old(rest)), r, rest)
    {
      if marker == OBJECT {
        r := Success(PlainObject);
      } else if marker == ECMA_ARRAY {
        var n := Read(4);
        r := if n.Failure? then Failure(n.error) else Success(EcmaArray(FromBe32(n.value)));
      } else {
        var c := ReadUtf8(false);
        r := if c.Failure? then Failure(c.error) else Success(TypedObject(c.value));
      }
    }

    // ----- To AMF0 values

    method DecodeAmf0Value() returns (r: Result<Value>)
      modifies this
      ensures Reflects(Decode(old(rest)), r, rest)
      decreases |rest|, 0
    {
      var marker := ReadByte();
      if marker.Failure? {
        return Failure(marker.error);
      }
      if IsRecord(marker.value) {
        var h := DecodeHead(marker.value);
        if h.Failure? {
          return Failure(h.error);
        }
        var ps := DecodeProperties();
        r := if ps.Failure? then Failure(ps.error) else Success(Record(h.value, ps.value));
      } else if marker.value == STRICT_ARRAY {
        var n := Read(4);
        if n.Failure? {
          return Failure(n.error);
        }
        var vs := DecodeElements(FromBe32(n.value));
        r := if vs.Failure? then Failure(vs.error) else Success(StrictArray(vs.value));
      } else {
        r := DecodeLeaf(marker.value);
      }
    }

    method DecodeProperties() returns (r: Result<map<Bytes, Value>>)
      modifies this
      ensures Reflects(DecodeProps(old(rest), map[]), r, rest)
      decreases |rest|, 1
    {
      hide Decode, TakeUtf8;
      var obj: map<Bytes, Value> := map[];
      while true
        invariant |rest| <= old(|rest|)
        invariant DecodeProps(rest, obj) == DecodeProps(old(rest), map[])
        decreases |rest|
      {
        var key := ReadUtf8(false);
        if key.Failure? {
          return Failure(key.error);
        }
        if key.value == [] {
          var marker := ReadByte();
          if marker.Failure? {
            return Failure(marker.error);
          }
          return if marker.value == OBJECT_END then Success(obj) else Failure(MissingObjectEnd(marker.value));
        }
        var value := DecodeAmf0Value();
        if value.Failure? {
          return Failure(value.error);
        }
        obj := obj[key.value := value.value];
      }
    }

    method DecodeElements(count: nat) returns (r: Result<seq<Value>>)
      modifies this
      ensures Reflects(DecodeAll(old(rest), count), r, rest)
      decreases |rest|, 1
    {
      hide Decode;
      var arr: seq<Value> := [];
      PrependEnds(arr, rest, DecodeAll(rest, count));
      for i := 0 to count
        invariant |rest| <= old(|rest|)
        invariant DecodeAll(old(rest), count) == Prepend(arr, DecodeAll(rest, count - i))
      {
        var value := DecodeAmf0Value();
        if value.Failure? {
          return Failure(value.error);
        }
        PrependStep(arr, value.value, DecodeAll(rest, count - i - 1));
        arr := arr + [value.value];
      }
      PrependEnds(arr, rest, DecodeAll(rest, 0));
      r := Success(arr);
    }

    // ----- To Go values

    method DecodeGoLeaf(marker: byte) returns (r: Result<Go>)
      modifies this
      ensures Reflects(TakeGoLeaf(marker, old(rest)), r, rest)
    {
      if marker == NUMBER {
        var b := Read(8);
        r := if b.Failure? then Failure(b.error) else Success(Float(FromBe64(b.value)));
      } else if marker == BOOLEAN {
        var b := ReadByte();
        r := if b.Failure? then Failure(b.error) else Success(Bool(b.value != 0));
      } else if marker == STRING {
        var t := ReadUtf8(false);
        r := if t.Failure? then Failure(t.error) else Success(Str(t.value));
      } else if marker == NULL || marker == UNDEFINED {
        r := Success(Nil);
      } else if marker == DATE {
        var d := DecodeDateValue();
        r := if d.Failure? then Failure(d.error) else Success(Time(d.value.millis));
      } else if marker == LONG_STRING {
        var t := ReadUtf8(true);
        r := if t.Failure? then Failure(t.error) else Success(Str(t.value));
      } else {
        r := Failure(UnsupportedMarker(marker));
      }
    }

    method DecodeValue() returns (r: Result<Go>)
      modifies this
      ensures Reflects(DecodeGo(old(rest)), r, rest)
      decreases |rest|, 0
    {
      var marker := ReadByte();
      if marker.Failure? {
        return Failure(marker.error);
      }
      if IsRecord(marker.value) {
        var h := DecodeHead(marker.value);
        if h.Failure? {
          return Failure(h.error);
        }
        var m := DecodeGoProperties(ClassEntry(h.value));
        r := if m.Failure? then Failure(m.error) else Success(Map(m.value));
      } else if marker.value == STRICT_ARRAY {
        var n := Read(4);
        if n.Failure? {
          return Failure(n.error);
        }
        var vs := DecodeGoElements(FromBe32(n.value));
        r := if vs.Failure? then Failure(vs.error) else Success(Slice(vs.value));
      } else {
        r := DecodeGoLeaf(marker.value);
      }
    }

    method DecodeGoProperties(initial: map<Bytes, Go>) returns (r: Result<map<Bytes, Go>>)
      modifies this
      ensures Reflects(DecodeGoProps(old(rest), initial), r, rest)
      decreases |rest|, 1
    {
      hide DecodeGo, TakeUtf8;
      var obj := initial;
      while true
        invariant |rest| <= old(|rest|)
        invariant DecodeGoProps(rest, obj) == DecodeGoProps(old(rest), initial)
        decreases |rest|
      {
        var key := ReadUtf8(false);
        if key.Failure? {
          return Failure(key.error);
        }
        if key.value == [] {
          var marker := ReadByte();
          if marker.Failure? {
            return Failure(marker.error);
          }
          return if marker.value == OBJECT_END then Success(obj) else Failure(MissingObjectEnd(marker.value));
        }
        var value := DecodeValue();
        if value.Failure? {
          return Failure(value.error);
        }
        obj := obj[key.value := value.value];
      }
    }

    method DecodeGoElements(count: nat) returns (r: Result<seq<Go>>)
      modifies this
      ensures Reflects(DecodeGoAll(old(rest), count), r, rest)
      decreases |rest|, 1
    {
      hide DecodeGo;
      var arr: seq<Go> := [];
      PrependEnds(arr, rest, DecodeGoAll(rest, count));
      for i := 0 to count
        invariant |rest| <= old(|rest|)
        invariant DecodeGoAll(old(rest), count) == Prepend(arr, DecodeGoAll(rest, count - i))
      {
        var value := DecodeValue();
        if value.Failure? {
          return Failure(value.error);
        }
        PrependStep(arr, value.value, DecodeGoAll(rest, count - i - 1));
        arr := arr + [value.value];
      }
      PrependEnds(arr, rest, DecodeGoAll(rest, 0));
      r := Success(arr);
    }
  }
}
