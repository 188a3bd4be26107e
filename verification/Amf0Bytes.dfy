/** AMF0 in bytes: what each kind of value looks like on the wire, and what the decoders make of bytes that the encoder
    never writes. */
module Amf0Bytes {
  import opened Wire
  import opened Numbers
  import opened Amf0
  import opened Amf0Proofs
  import G = Amf0Go

  // ----- Values that hold no other value

  /** A marker, and for a number its eight bytes, for a date eight of milliseconds and two of time zone, and for a
      string its length in two bytes or, from 65536 bytes on, in four. */
  lemma LeafBytes(d: seq<byte>, z: seq<byte>)
    requires |d| == 8 && |z| == 2
    ensures Encode(Leaf(Number(High8(d)))) == [0x00] + d
    ensures Encode(Leaf(Boolean(false))) == [0x01, 0x00] && Encode(Leaf(Boolean(true))) == [0x01, 0x01]
    ensures Encode(Leaf(Null)) == [0x05] && Encode(Leaf(Undefined)) == [0x06]
    ensures Encode(Leaf(Date(High8(d), High2(z)))) == [0x0B] + d + z
  {
    hide Be64, Be16, High8, High2;
    NumbersWritten(z, [0, 0, 0, 0], d);
    Concat([0x0B], d, z);
  }

  lemma TextBytes(s: Bytes)
    requires |s| < 0x1_0000_0000
    ensures |s| <= 65535 ==> Encode(Leaf(String(s))) == [0x02, |s| / 256, |s| % 256] + s
    ensures |s| > 65535 ==> Encode(Leaf(String(s))) == Encode(Leaf(LongString(s)))
    ensures Encode(Leaf(LongString(s)))
            == [0x0C, |s| / 16777216, |s| / 65536 % 256, |s| / 256 % 256, |s| % 256] + s
  {
    if |s| <= 65535 {
      Concat([STRING], Be16(|s|), s);
    }
    Concat([LONG_STRING], Be32(|s|), s);
  }

  // ----- Containers

  lemma ClassBytes(c: Bytes)
    requires |c| <= 65535
    ensures EncodeHead(TypedObject(c)) == [0x10, |c| / 256, |c| % 256] + c
  {
    Concat([TYPED_OBJECT], Be16(|c|), c);
  }

  lemma CountBytes(n: u32, body: Bytes)
    ensures [STRICT_ARRAY] + (Be32(n) + body)
            == [0x0A, n / 16777216, n / 65536 % 256, n / 256 % 256, n % 256] + body
  {
    Concat([STRICT_ARRAY], Be32(n), body);
  }

  /** A head, the entries, and an empty name with the end marker; or a count and the elements. */
  lemma ContainerBytes(es: seq<Entry>, ts: seq<Listing>, n: seq<byte>, c: Bytes)
    requires WritableEntries(es) && (forall i | 0 <= i < |ts| :: Writable(ts[i])) && |ts| < 0x1_0000_0000
    requires |n| == 4 && |c| <= 65535
    ensures Encode(Entries(PlainObject, es)) == [0x03] + EncodeEntries(es) + [0x00, 0x00, 0x09]
    ensures Encode(Entries(EcmaArray(High4(n)), es)) == [0x08] + n + EncodeEntries(es) + [0x00, 0x00, 0x09]
    ensures Encode(Entries(TypedObject(c), es))
            == [0x10, |c| / 256, |c| % 256] + c + EncodeEntries(es) + [0x00, 0x00, 0x09]
    ensures Encode(Elements(ts))
            == [0x0A, |ts| / 16777216, |ts| / 65536 % 256, |ts| / 256 % 256, |ts| % 256] + EncodeAll(ts)
  {
    hide EncodeEntries, EncodeAll, High4, Be32;
    var body := EncodeEntries(es);
    FourBytes(n);
    Concat([0x03], body, END);
    Concat([0x08] + n, body, END);
    ClassBytes(c);
    Concat([0x10, |c| / 256, |c| % 256] + c, body, END);
    CountBytes(|ts|, EncodeAll(ts));
  }

  /** Entries and elements one after another, each name with its length in two bytes. */
  lemma SeriesBytes(e: Entry, es: seq<Entry>, ts: seq<Listing>)
    requires |e.key| <= 65535 && Writable(e.listing) && WritableEntries(es)
    requires forall i | 0 <= i < |ts| :: Writable(ts[i])
    ensures WritableEntries([e] + es)
    ensures EncodeEntries([e] + es)
            == [|e.key| / 256, |e.key| % 256] + e.key + Encode(e.listing) + EncodeEntries(es)
    ensures EncodeAll([e.listing] + ts) == Encode(e.listing) + EncodeAll(ts)
    ensures EncodeEntries([]) == EncodeAll([]) == []
  {
    hide Encode, Writable;
    assert ([e] + es)[1..] == es && ([e.listing] + ts)[1..] == ts;
  }

  // ----- Bytes that the encoder never writes

  /** Every byte but 0 is true, and a marker that no value has is an error. */
  lemma OtherBytes(b: byte, m: byte, k: Bytes)
    ensures Decode([0x01, b] + k) == Ok(Boolean(b != 0), k)
    ensures m !in {0x00, 0x01, 0x02, 0x03, 0x05, 0x06, 0x08, 0x0A, 0x0B, 0x0C, 0x10} ==>
              Decode([m] + k) == Fail(UnsupportedMarker(m)) && G.DecodeGo([m] + k) == Fail(UnsupportedMarker(m))
  {
    assert ([0x01, b] + k)[1..] == [b] + k && ([b] + k)[1..] == k;
    assert ([m] + k)[1..] == k;
  }

  /** Entries in which a name comes up more than once: every name has the last of its values. */
  lemma RepeatedNames(h: Head, es: seq<Entry>, k: Bytes)
    requires HeadFits(h) && forall i | 0 <= i < |es| :: Lists(es[i].listing)
    requires forall i | 0 <= i < |es| :: 1 <= |es[i].key| <= 65535 && Encodable(Erase(es[i].listing))
    ensures WritableEntries(es)
    ensures var p := Decode(EncodeHead(h) + (EncodeEntries(es) + [0x00, 0x00, 0x09] + k));
            && p.Ok? && p.value.Record? && p.value.head == h && p.rest == k
            && (forall i | 0 <= i < |es| && IsLast(es, i) ::
                  es[i].key in p.value.props && p.value.props[es[i].key] == Normalize(Erase(es[i].listing)))
            && (forall n | n in p.value.props :: exists i :: 0 <= i < |es| && es[i].key == n)
  {
    hide Decode, DecodeProps, EncodeEntries, EncodeHead, Lists, Encodable, NormalizedEntries, Writable, Erase;
    RoundTripEntries(es, map[], k);
    assert map[] + NormalizedEntries(es) == NormalizedEntries(es);
    DecodeHeaded(h, EncodeEntries(es) + END + k);
    NamesOf(es, []);
    forall i | 0 <= i < |es| && IsLast(es, i)
      ensures es[i].key in NormalizedEntries(es) && NormalizedEntries(es)[es[i].key] == Normalize(Erase(es[i].listing))
    {
      LastCounts(es, i);
    }
    forall n | n in NormalizedEntries(es) ensures exists i :: 0 <= i < |es| && es[i].key == n {
      NormalizedEntriesAre(es);
      NamesOf(es, n);
    }
  }

  /** No later entry has the name of entry `i`. */
  predicate IsLast(es: seq<Entry>, i: nat)
    requires i < |es|
  {
    forall j | i < j < |es| :: es[j].key != es[i].key
  }

  lemma {:induction false} LastCounts(es: seq<Entry>, i: nat)
    requires i < |es| && IsLast(es, i)
    ensures es[i].key in NormalizedEntries(es)
    ensures NormalizedEntries(es)[es[i].key] == Normalize(Erase(es[i].listing))
    decreases |es|
  {
    hide Normalize, Erase;
    if i > 0 {
      assert forall j | i - 1 < j < |es[1..]| :: es[1..][j] == es[j + 1];
      LastCounts(es[1..], i - 1);
    } else {
      NormalizedEntriesAre(es[1..]);
      NamesOf(es[1..], es[0].key);
    }
  }

  // ----- Go forms

  /** What the decoder to Go values makes of each value that holds no other. */
  lemma GoLeaves(d: seq<byte>, z: seq<byte>, b: byte, s: Bytes, k: Bytes)
    requires |d| == 8 && |z| == 2 && |s| < 0x1_0000_0000
    ensures G.DecodeGo([0x00] + d + k) == Ok(G.Float(High8(d)), k)
    ensures G.DecodeGo([0x01, b] + k) == Ok(G.Bool(b != 0), k)
    ensures G.DecodeGo([0x05] + k) == Ok(G.Nil, k) && G.DecodeGo([0x06] + k) == Ok(G.Nil, k)
    ensures G.DecodeGo([0x0B] + d + z + k) == Ok(G.Time(High8(d)), k)
    ensures |s| <= 65535 ==> G.DecodeGo([0x02, |s| / 256, |s| % 256] + s + k) == Ok(G.Str(s), k)
    ensures G.DecodeGo([0x0C, |s| / 16777216, |s| / 65536 % 256, |s| / 256 % 256, |s| % 256] + s + k)
            == Ok(G.Str(s), k)
  {
    hide G.DecodeGo, Decode, EncodeLeaf, High8, High2;
    LeafBytes(d, z);
    TextBytes(s);
    OtherBytes(b, b, k);
    G.DecodersAgree([0x01, b] + k);
    GoLeaf(Number(High8(d)), k);
    GoLeaf(Null, k);
    GoLeaf(Undefined, k);
    GoLeaf(Date(High8(d), High2(z)), k);
    GoLeaf(LongString(s), k);
    if |s| <= 65535 {
      GoLeaf(String(s), k);
    }
  }

  lemma GoLeaf(v: Value, k: Bytes)
    requires !v.Record? && !v.StrictArray? && Encodable(v)
    ensures G.DecodeGo(Encode(Leaf(v)) + k) == Ok(G.ToGo(Normalize(v)), k)
  {
    hide G.DecodeGo, Decode, EncodeLeaf;
    LeafRoundTrip(v, k);
    G.DecodersAgree(EncodeLeaf(v) + k);
  }

  /** The Go form of a container: the Go form of every property under its name, and of a typed object the class under
      the name `__className`, unless a property has that name; of an array the elements in order. */
  lemma GoContainers(h: Head, ps: map<Bytes, Value>, vs: seq<Value>)
    ensures |G.CLASS_NAME| == |"__className"|
    ensures forall i | 0 <= i < |"__className"| :: G.CLASS_NAME[i] == "__className"[i] as int
    ensures var m := G.ToGo(Record(h, ps));
            && m.Map?
            && (forall n | n in ps :: n in m.entries && m.entries[n] == G.ToGo(ps[n]))
            && (forall n | n in m.entries :: n in ps || (h.TypedObject? && n == G.CLASS_NAME))
            && (h.TypedObject? && G.CLASS_NAME !in ps ==>
                  G.CLASS_NAME in m.entries && m.entries[G.CLASS_NAME] == G.Str(h.className))
    ensures var a := G.ToGo(StrictArray(vs));
            a.Slice? && |a.elems| == |vs| && forall i | 0 <= i < |vs| :: a.elems[i] == G.ToGo(vs[i])
  {
    var m := G.ToGo(Record(h, ps));
    var own := map n | n in ps :: G.ToGo(ps[n]);
    assert m.entries == G.ClassEntry(h) + own;
  }
}
