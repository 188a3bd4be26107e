/** The AMF0 round trip and its exact condition. */
module Amf0Proofs {
  import opened Wire
  import opened Collections
  import opened Amf0

  // ----- What the decoder can return

  lemma {:induction false} DecodedIsCanonical(s: Bytes)
    ensures Decode(s).Ok? ==> Canonical(Decode(s).value)
    decreases |s|, 0
  {
    if s != [] {
      var marker, r := s[0], s[1..];
      if IsRecord(marker) {
        var h := TakeHead(marker, r);
        if h.Ok? {
          DecodedPropsAreCanonical(h.rest, map[]);
        }
      } else if marker == STRICT_ARRAY && TakeBe32(r).Ok? {
        DecodedElementsAreCanonical(TakeBe32(r).rest, TakeBe32(r).value);
      }
    }
  }

  ghost predicate CanonicalProps(ps: map<Bytes, Value>) {
    forall k | k in ps :: 1 <= |k| <= MAX_NAME && Canonical(ps[k])
  }

  lemma {:induction false} DecodedPropsAreCanonical(s: Bytes, acc: map<Bytes, Value>)
    requires CanonicalProps(acc)
    ensures DecodeProps(s, acc).Ok? ==> CanonicalProps(DecodeProps(s, acc).value)
    decreases |s|, 1
  {
    var k := TakeUtf8(s);
    if k.Ok? && k.value != [] {
      DecodedIsCanonical(k.rest);
      var v := Decode(k.rest);
      if v.Ok? {
        DecodedPropsAreCanonical(v.rest, acc[k.value := v.value]);
      }
    }
  }

  lemma {:induction false} DecodedElementsAreCanonical(s: Bytes, n: nat)
    ensures DecodeAll(s, n).Ok? ==> forall i | 0 <= i < n :: Canonical(DecodeAll(s, n).value[i])
    decreases |s|, 1
  {
    if n > 0 {
      DecodedIsCanonical(s);
      if Decode(s).Ok? {
        DecodedElementsAreCanonical(Decode(s).rest, n - 1);
      }
    }
  }

  lemma {:induction false} CanonicalIsNormal(v: Value)
    ensures Canonical(v) <==> Encodable(v) && Normalize(v) == v
  {
    match v {
      case Record(h, ps) =>
        forall k | k in ps ensures Canonical(ps[k]) <==> Encodable(ps[k]) && Normalize(ps[k]) == ps[k] {
          CanonicalIsNormal(ps[k]);
        }
        if Normalize(v) == v {
          var qs := map k | k in ps :: Normalize(ps[k]);
          assert Normalize(v).props == qs;
          assert forall k | k in ps :: qs[k] == ps[k];
        }
      case StrictArray(vs) =>
        forall i | 0 <= i < |vs| ensures Canonical(vs[i]) <==> Encodable(vs[i]) && Normalize(vs[i]) == vs[i] {
          CanonicalIsNormal(vs[i]);
        }
        if Normalize(v) == v {
          var ws := seq(|vs|, i requires 0 <= i < |vs| => Normalize(vs[i]));
          assert Normalize(v).elems == ws;
          assert forall i | 0 <= i < |vs| :: ws[i] == vs[i];
        }
      case _ =>
    }
  }

  // ----- Round trip

  lemma Utf8RoundTrip(s: Bytes, k: Bytes)
    requires |s| <= MAX_NAME
    ensures TakeUtf8(Utf8(s) + k) == Ok(s, k)
  {
    Concat(Be16(|s|), s, k);
    TakeWords(|s|, 0, 0, s + k);
    TakeAppend(s, k);
  }

  lemma LongUtf8RoundTrip(s: Bytes, k: Bytes)
    requires |s| < U32
    ensures TakeLongUtf8(LongUtf8(s) + k) == Ok(s, k)
  {
    assert Wrap32(|s|) == |s|;
    Concat(Be32(|s|), s, k);
    TakeWords(0, |s|, 0, s + k);
    TakeAppend(s, k);
  }

  lemma NumberRoundTrip(n: u64, k: Bytes)
    ensures Decode([NUMBER] + Be64(n) + k) == Ok(Number(n), k)
  {
    assert ([NUMBER] + Be64(n) + k)[1..] == Be64(n) + k;
    TakeWords(0, 0, n, k);
  }

  lemma DateRoundTrip(ms: u64, tz: u16, k: Bytes)
    ensures Decode([DATE] + (Be64(ms) + Be16(tz)) + k) == Ok(Date(ms, tz), k)
  {
    var s := [DATE] + (Be64(ms) + Be16(tz)) + k;
    Concat(Be64(ms), Be16(tz), k);
    assert s[1..] == Be64(ms) + Be16(tz) + k;
    TakeWords(0, 0, ms, Be16(tz) + k);
    TakeWords(tz, 0, 0, k);
  }

  lemma LongTextRoundTrip(s: Bytes, k: Bytes)
    requires |s| < U32
    ensures Decode([LONG_STRING] + LongUtf8(s) + k) == Ok(LongString(s), k)
  {
    assert ([LONG_STRING] + LongUtf8(s) + k)[1..] == LongUtf8(s) + k;
    LongUtf8RoundTrip(s, k);
  }

  lemma TextRoundTrip(s: Bytes, k: Bytes)
    requires |s| <= MAX_NAME
    ensures Decode([STRING] + Utf8(s) + k) == Ok(String(s), k)
  {
    assert ([STRING] + Utf8(s) + k)[1..] == Utf8(s) + k;
    Utf8RoundTrip(s, k);
  }

  lemma LeafRoundTrip(v: Value, k: Bytes)
    requires !v.Record? && !v.StrictArray? && Encodable(v)
    ensures Decode(EncodeLeaf(v) + k) == Ok(Normalize(v), k)
  {
    match v {
      case Number(bits) => NumberRoundTrip(bits, k);
      case Date(ms, tz) => DateRoundTrip(ms, tz, k);
      case String(t) => if |t| > MAX_NAME { LongTextRoundTrip(t, k); } else { TextRoundTrip(t, k); }
      case LongString(t) => LongTextRoundTrip(t, k);
      case Boolean(b) =>
        assert (EncodeLeaf(v) + k)[1..] == [if b then 1 else 0] + k;
        assert ([if b then 1 else 0] + k)[1..] == k;
      case Null =>
        assert (EncodeLeaf(v) + k)[1..] == k;
      case Undefined =>
        assert (EncodeLeaf(v) + k)[1..] == k;
      case Record(_, _) =>
      case StrictArray(_) =>
    }
  }

  /** Decoding any encoding of an encodable value, followed by anything, gives the normal form of the value
      and leaves what followed; the listing stands for any order in which the encoder walks the maps. */
  lemma {:induction false} RoundTrip(t: Listing, k: Bytes)
    requires Lists(t) && Encodable(Erase(t))
    ensures Writable(t)
    ensures Decode(Encode(t) + k) == Ok(Normalize(Erase(t)), k)
    decreases t
  {
    match t {
      case Leaf(v) => LeafRoundTrip(v, k);
      case Entries(h, es) =>
        forall i | 0 <= i < |es|
          ensures es[i].key in EraseEntries(es) && EraseEntries(es)[es[i].key] == Erase(es[i].listing)
        {
          EraseEntriesAt(es, i);
        }
        RoundTripEntries(es, map[], k);
        RecordRoundTrip(h, es, k);
      case Elements(ts) =>
        assert forall i | 0 <= i < |ts| :: Erase(ts[i]) == EraseAll(ts)[i];
        RoundTripAll(ts, k);
        ArrayRoundTrip(ts, k);
    }
  }

  lemma HeadRoundTrip(h: Head, body: Bytes)
    requires HeadFits(h)
    ensures var s := EncodeHead(h) + body;
            s != [] && IsRecord(s[0]) && TakeHead(s[0], s[1..]) == Ok(h, body)
  {
    hide TakeUtf8, TakeBe32, Utf8, Be32;
    var s := EncodeHead(h) + body;
    match h {
      case PlainObject =>
        assert s[1..] == body;
      case EcmaArray(n) =>
        assert s[1..] == Be32(n) + body;
        TakeWords(0, n, 0, body);
      case TypedObject(c) =>
        assert s[1..] == Utf8(c) + body;
        Utf8RoundTrip(c, body);
    }
  }

  lemma DecodeHeaded(h: Head, body: Bytes)
    requires HeadFits(h) && DecodeProps(body, map[]).Ok?
    ensures Decode(EncodeHead(h) + body)
            == Ok(Record(h, DecodeProps(body, map[]).value), DecodeProps(body, map[]).rest)
  {
    HeadRoundTrip(h, body);
  }

  lemma RecordRoundTrip(h: Head, es: seq<Entry>, k: Bytes)
    requires HeadFits(h) && WritableEntries(es)
    requires DecodeProps(EncodeEntries(es) + END + k, map[]) == Ok(map[] + NormalizedEntries(es), k)
    ensures Decode(Encode(Entries(h, es)) + k) == Ok(Normalize(Erase(Entries(h, es))), k)
  {
    Concat(EncodeHead(h), EncodeEntries(es) + END, k);
    NormalizedRecord(h, es);
    assert map[] + NormalizedEntries(es) == NormalizedEntries(es);
    DecodeHeaded(h, EncodeEntries(es) + END + k);
  }

  lemma DecodeCounted(n: u32, body: Bytes)
    requires DecodeAll(body, n).Ok?
    ensures Decode([STRICT_ARRAY] + (Be32(n) + body))
            == Ok(StrictArray(DecodeAll(body, n).value), DecodeAll(body, n).rest)
  {
    assert ([STRICT_ARRAY] + (Be32(n) + body))[1..] == Be32(n) + body;
    TakeWords(0, n, 0, body);
  }

  lemma ArrayRoundTrip(ts: seq<Listing>, k: Bytes)
    requires |ts| < U32 && forall i | 0 <= i < |ts| :: Writable(ts[i])
    requires DecodeAll(EncodeAll(ts) + k, |ts|) == Ok(NormalizedAll(ts), k)
    ensures Decode(Encode(Elements(ts)) + k) == Ok(Normalize(Erase(Elements(ts))), k)
  {
    assert Wrap32(|ts|) == |ts|;
    Concat([STRICT_ARRAY], Be32(|ts|) + EncodeAll(ts), k);
    Concat(Be32(|ts|), EncodeAll(ts), k);
    DecodeCounted(|ts|, EncodeAll(ts) + k);
    NormalizedArray(ts);
  }

  ghost function NormalizedEntries(es: seq<Entry>): map<Bytes, Value> {
    if es == [] then map[] else map[es[0].key := Normalize(Erase(es[0].listing))] + NormalizedEntries(es[1..])
  }

  lemma {:induction false} NormalizedEntriesAre(es: seq<Entry>)
    ensures NormalizedEntries(es).Keys == EraseEntries(es).Keys
    ensures forall n | n in EraseEntries(es) :: NormalizedEntries(es)[n] == Normalize(EraseEntries(es)[n])
  {
    if es != [] {
      NormalizedEntriesAre(es[1..]);
      assert EraseEntries(es) == map[es[0].key := Erase(es[0].listing)] + EraseEntries(es[1..]);
    }
  }

  lemma NormalizedRecord(h: Head, es: seq<Entry>)
    ensures Normalize(Erase(Entries(h, es))) == Record(h, NormalizedEntries(es))
  {
    NormalizedEntriesAre(es);
    assert Normalize(Record(h, EraseEntries(es))).props == NormalizedEntries(es);
  }

  lemma NormalizedArray(ts: seq<Listing>)
    ensures Normalize(Erase(Elements(ts))) == StrictArray(NormalizedAll(ts))
  {
    assert Normalize(StrictArray(EraseAll(ts))).elems == NormalizedAll(ts);
  }

  ghost function NormalizedAll(ts: seq<Listing>): seq<Value> {
    seq(|ts|, i requires 0 <= i < |ts| => Normalize(Erase(ts[i])))
  }

  lemma NameIsNew(es: seq<Entry>, k: Bytes)
    requires k !in EraseEntries(es)
    ensures forall i | 0 <= i < |es| :: es[i].key != k
  {
    NamesOf(es, k);
  }

  lemma {:induction false} NamesOf(es: seq<Entry>, k: Bytes)
    ensures k in EraseEntries(es) <==> exists i :: 0 <= i < |es| && es[i].key == k
  {
    if es != [] {
      NamesOf(es[1..], k);
      assert forall i | 1 <= i < |es| :: es[i] == es[1..][i - 1];
      if exists i :: 0 <= i < |es[1..]| && es[1..][i].key == k {
        var i :| 0 <= i < |es[1..]| && es[1..][i].key == k;
        assert es[i + 1].key == k;
      }
    }
  }

  lemma EraseEntriesAt(es: seq<Entry>, i: nat)
    requires i < |es| && ListsEntries(es)
    ensures es[i].key in EraseEntries(es) && EraseEntries(es)[es[i].key] == Erase(es[i].listing)
  {
    NamesOf(es[1..], es[0].key);
    if i > 0 {
      assert es[i] == es[1..][i - 1];
      EraseEntriesAt(es[1..], i - 1);
    }
    forall j | 0 <= j < |es[1..]| ensures es[1..][j].key != es[0].key {
      assert es[1..][j] == es[j + 1];
    }
  }

  lemma ConcatEntry(name: Bytes, value: Bytes, tail: Bytes, k: Bytes)
    ensures (name + value) + tail + END + k == name + (value + (tail + END + k))
  {
    Concat(name + value, tail, END);
    Concat(name + value, tail + END, k);
    Concat(name, value, tail + END + k);
  }

  lemma EndOfProps(acc: map<Bytes, Value>, k: Bytes)
    ensures DecodeProps(END + k, acc) == Ok(acc, k)
  {
    assert END + k == Utf8([]) + ([OBJECT_END] + k);
    Utf8RoundTrip([], [OBJECT_END] + k);
    assert ([OBJECT_END] + k)[1..] == k;
  }

  lemma NextProp(key: Bytes, body: Bytes, acc: map<Bytes, Value>, v: Value, rest: Bytes)
    requires 1 <= |key| <= MAX_NAME && Decode(body) == Ok(v, rest)
    ensures DecodeProps(Utf8(key) + body, acc) == DecodeProps(rest, acc[key := v])
  {
    Utf8RoundTrip(key, body);
  }

  /** A name may come up more than once: its last value counts. */
  lemma {:induction false} RoundTripEntries(es: seq<Entry>, acc: map<Bytes, Value>, k: Bytes)
    requires forall i | 0 <= i < |es| :: Lists(es[i].listing)
    requires forall i | 0 <= i < |es| :: 1 <= |es[i].key| <= MAX_NAME && Encodable(Erase(es[i].listing))
    ensures WritableEntries(es)
    ensures DecodeProps(EncodeEntries(es) + END + k, acc) == Ok(acc + NormalizedEntries(es), k)
    decreases es
  {
    hide Decode, DecodeProps, Encode, Lists, Encodable, Erase, Normalize, Writable, Utf8;
    if es == [] {
      assert EncodeEntries(es) + END + k == END + k;
      EndOfProps(acc, k);
      assert acc + NormalizedEntries(es) == acc;
    } else {
      var e, tail := es[0], es[1..];
      var v := Normalize(Erase(e.listing));
      RoundTripEntries(tail, acc[e.key := v], k);
      var rest := EncodeEntries(tail) + END + k;
      RoundTrip(e.listing, rest);
      assert forall i | 1 <= i < |es| :: es[i] == tail[i - 1];
      ConcatEntry(Utf8(e.key), Encode(e.listing), EncodeEntries(tail), k);
      NextProp(e.key, Encode(e.listing) + rest, acc, v, rest);
      MergeEntry(acc, e.key, v, NormalizedEntries(tail));
    }
  }

  lemma {:induction false} RoundTripAll(ts: seq<Listing>, k: Bytes)
    requires forall i | 0 <= i < |ts| :: Lists(ts[i]) && Encodable(Erase(ts[i]))
    ensures forall i | 0 <= i < |ts| :: Writable(ts[i])
    ensures DecodeAll(EncodeAll(ts) + k, |ts|) == Ok(NormalizedAll(ts), k)
    decreases ts
  {
    hide Decode, Encode, Lists, Encodable, Erase, Normalize, Writable;
    if ts == [] {
      assert EncodeAll(ts) + k == k;
    } else {
      var tail := ts[1..];
      RoundTripAll(tail, k);
      var rest := EncodeAll(tail) + k;
      RoundTrip(ts[0], rest);
      assert forall i | 1 <= i < |ts| :: ts[i] == tail[i - 1];
      Concat(Encode(ts[0]), EncodeAll(tail), k);
      NextElement(Encode(ts[0]) + rest, |tail|);
      assert NormalizedAll(ts) == [Normalize(Erase(ts[0]))] + NormalizedAll(tail);
    }
  }

  lemma NextElement(s: Bytes, n: nat)
    requires Decode(s).Ok? && DecodeAll(Decode(s).rest, n).Ok?
    ensures DecodeAll(s, n + 1)
            == Ok([Decode(s).value] + DecodeAll(Decode(s).rest, n).value, DecodeAll(Decode(s).rest, n).rest)
  {
  }

  /** The exact condition under which a value comes back unchanged, for every value the encoder accepts. */
  lemma RoundTripIff(t: Listing, k: Bytes)
    requires Lists(t) && Writable(t)
    ensures Decode(Encode(t) + k) == Ok(Erase(t), k) <==> Canonical(Erase(t))
  {
    CanonicalIsNormal(Erase(t));
    if Canonical(Erase(t)) {
      RoundTrip(t, k);
    } else {
      DecodedIsCanonical(Encode(t) + k);
    }
  }

  // ----- Empty property names

  /** Every length fits its field; names may be empty. */
  predicate Fits(v: Value) {
    match v
    case String(s) => |s| < U32
    case LongString(s) => |s| < U32
    case Record(h, ps) => HeadFits(h) && forall k | k in ps :: |k| <= MAX_NAME && Fits(ps[k])
    case StrictArray(vs) => |vs| < U32 && forall i | 0 <= i < |vs| :: Fits(vs[i])
    case _ => true
  }

  lemma FirstByte(t: Listing)
    requires Lists(t) && Writable(t)
    ensures Encode(t) != [] && Encode(t)[0] != OBJECT_END
  {
  }

  ghost predicate NoEnd<T>(p: Parsed<T, Bytes>) {
    p.Fail? && p.error.MissingObjectEnd?
  }

  /** Wherever an empty name is in a value, the decoder takes it for the end of the properties and misses the end
      marker after it. */
  lemma {:induction false} EmptyNameRejected(t: Listing, k: Bytes)
    requires Lists(t) && Writable(t) && Fits(Erase(t)) && !Encodable(Erase(t))
    ensures NoEnd(Decode(Encode(t) + k))
    decreases t, 1
  {
    match t {
      case Leaf(_) =>
      case Entries(h, es) =>
        EntriesRejected(t, h, es, k);
      case Elements(ts) =>
        hide Decode, DecodeAll, Encode, EncodeAll, Encodable, Fits, Lists, Writable, NoEnd;
        ElementsOf(ts);
        ElementsRejected(ts, k);
        RejectArray(ts, k);
    }
  }

  lemma ElementsOf(ts: seq<Listing>)
    requires Lists(Elements(ts)) && Writable(Elements(ts)) && Fits(Erase(Elements(ts)))
    ensures |ts| < U32 && forall i | 0 <= i < |ts| :: Lists(ts[i]) && Writable(ts[i]) && Fits(Erase(ts[i]))
    ensures (forall i | 0 <= i < |ts| :: Encodable(Erase(ts[i]))) ==> Encodable(Erase(Elements(ts)))
  {
    assert forall i | 0 <= i < |ts| :: Erase(ts[i]) == EraseAll(ts)[i];
  }

  lemma RejectArray(ts: seq<Listing>, k: Bytes)
    requires |ts| < U32 && (forall i | 0 <= i < |ts| :: Writable(ts[i])) && NoEnd(DecodeAll(EncodeAll(ts) + k, |ts|))
    ensures Writable(Elements(ts)) && NoEnd(Decode(Encode(Elements(ts)) + k))
  {
    hide DecodeAll, EncodeAll, Writable, Be32, TakeBe32;
    assert Writable(Elements(ts)) by { WritableElements(ts); }
    assert Wrap32(|ts|) == |ts|;
    var body := EncodeAll(ts) + k;
    Concat([STRICT_ARRAY], Be32(|ts|) + EncodeAll(ts), k);
    Concat(Be32(|ts|), EncodeAll(ts), k);
    assert ([STRICT_ARRAY] + (Be32(|ts|) + body))[1..] == Be32(|ts|) + body;
    TakeWords(0, |ts|, 0, body);
  }

  lemma WritableElements(ts: seq<Listing>)
    requires forall i | 0 <= i < |ts| :: Writable(ts[i])
    ensures Writable(Elements(ts))
  {
  }

  lemma {:induction false} ElementsRejected(ts: seq<Listing>, k: Bytes)
    requires forall i | 0 <= i < |ts| :: Lists(ts[i]) && Writable(ts[i]) && Fits(Erase(ts[i]))
    requires exists i :: 0 <= i < |ts| && !Encodable(Erase(ts[i]))
    ensures NoEnd(DecodeAll(EncodeAll(ts) + k, |ts|))
    decreases ts, 0
  {
    hide Decode, Encode, Encodable, Fits, Lists, Writable, Erase, Normalize;
    var tail := ts[1..];
    var rest := EncodeAll(tail) + k;
    Concat(Encode(ts[0]), EncodeAll(tail), k);
    if Encodable(Erase(ts[0])) {
      RoundTrip(ts[0], rest);
      assert forall i | 1 <= i < |ts| :: ts[i] == tail[i - 1];
      ElementsRejected(tail, k);
    } else {
      EmptyNameRejected(ts[0], rest);
    }
  }

  lemma {:induction false} EntriesRejected(t: Listing, h: Head, es: seq<Entry>, k: Bytes)
    requires t == Entries(h, es)
    requires Lists(t) && Writable(t) && Fits(Erase(t)) && !Encodable(Erase(t))
    ensures NoEnd(Decode(Encode(t) + k))
    decreases t, 0
  {
    hide Decode, DecodeProps, Encode, EncodeEntries, EncodeHead, Encodable, Fits, Lists, Writable, NoEnd;
    EntriesOf(h, es);
    PropsRejected(es, map[], k);
    RejectRecord(h, es, k);
  }

  lemma EntriesOf(h: Head, es: seq<Entry>)
    requires var t := Entries(h, es); Lists(t) && Writable(t) && Fits(Erase(t))
    ensures HeadFits(h) && ListsEntries(es) && WritableEntries(es)
    ensures forall i | 0 <= i < |es| :: Fits(Erase(es[i].listing))
    ensures (forall i | 0 <= i < |es| :: es[i].key != [] && Encodable(Erase(es[i].listing)))
            ==> Encodable(Erase(Entries(h, es)))
  {
    var ps := EraseEntries(es);
    forall i | 0 <= i < |es| ensures es[i].key in ps && ps[es[i].key] == Erase(es[i].listing) {
      EraseEntriesAt(es, i);
    }
    forall k | k in ps ensures exists i :: 0 <= i < |es| && es[i].key == k {
      NamesOf(es, k);
    }
  }

  lemma RejectRecord(h: Head, es: seq<Entry>, k: Bytes)
    requires HeadFits(h) && WritableEntries(es) && NoEnd(DecodeProps(EncodeEntries(es) + END + k, map[]))
    ensures Writable(Entries(h, es)) && NoEnd(Decode(Encode(Entries(h, es)) + k))
  {
    hide DecodeProps, EncodeEntries, EncodeHead, WritableEntries, TakeHead;
    Concat(EncodeHead(h), EncodeEntries(es) + END, k);
    HeadRoundTrip(h, EncodeEntries(es) + END + k);
  }

  lemma {:induction false} PropsRejected(es: seq<Entry>, acc: map<Bytes, Value>, k: Bytes)
    requires ListsEntries(es) && WritableEntries(es) && forall i | 0 <= i < |es| :: Fits(Erase(es[i].listing))
    requires exists i :: 0 <= i < |es| && (es[i].key == [] || !Encodable(Erase(es[i].listing)))
    ensures NoEnd(DecodeProps(EncodeEntries(es) + END + k, acc))
    decreases es, 0
  {
    hide Decode, DecodeProps, Encode, Lists, Encodable, Fits, Erase, Normalize, Writable, Utf8, NoEnd;
    var e, tail := es[0], es[1..];
    assert WritableEntries(tail);
    var rest := EncodeEntries(tail) + END + k;
    ConcatEntry(Utf8(e.key), Encode(e.listing), EncodeEntries(tail), k);
    if e.key == [] {
      FirstByte(e.listing);
      EndMissed(Encode(e.listing) + rest, acc);
    } else if Encodable(Erase(e.listing)) {
      RoundTrip(e.listing, rest);
      NextProp(e.key, Encode(e.listing) + rest, acc, Normalize(Erase(e.listing)), rest);
      assert forall i | 1 <= i < |es| :: es[i] == tail[i - 1];
      PropsRejected(tail, acc[e.key := Normalize(Erase(e.listing))], k);
    } else {
      EmptyNameRejected(e.listing, rest);
      PropFails(e.key, Encode(e.listing) + rest, acc);
    }
  }

  lemma EndMissed(body: Bytes, acc: map<Bytes, Value>)
    requires body != [] && body[0] != OBJECT_END
    ensures NoEnd(DecodeProps(Utf8([]) + body, acc))
  {
    Utf8RoundTrip([], body);
  }

  lemma PropFails(key: Bytes, body: Bytes, acc: map<Bytes, Value>)
    requires 1 <= |key| <= MAX_NAME && NoEnd(Decode(body))
    ensures NoEnd(DecodeProps(Utf8(key) + body, acc))
  {
    Utf8RoundTrip(key, body);
  }

  /** Of the values whose lengths fit, written without an error, the decoder accepts exactly those without an empty
      property name anywhere. */
  lemma AcceptedIff(t: Listing, k: Bytes)
    requires Lists(t) && Writable(t) && Fits(Erase(t))
    ensures Decode(Encode(t) + k).Ok? <==> Encodable(Erase(t))
  {
    hide Decode, Encode, Encodable, Fits;
    if Encodable(Erase(t)) {
      RoundTrip(t, k);
    } else {
      EmptyNameRejected(t, k);
    }
  }

  /** An object with an empty property name is written without an error, and not read back. */
  lemma EmptyNameLost()
    ensures var t := Entries(PlainObject, [Entry([], Leaf(Null))]);
            && Lists(t) && Writable(t) && !Canonical(Erase(t))
            && Decode(Encode(t)) == Fail(MissingObjectEnd(NULL))
  {
    var es := [Entry([], Leaf(Null))];
    var t := Entries(PlainObject, es);
    assert es[1..] == [];
    assert EraseEntries(es)[[]] == Null;
    var b := Encode(t);
    assert b == [OBJECT, 0, 0, NULL, 0, 0, OBJECT_END];
    assert b[1..][..2] == [0, 0] && b[1..][2..] == [NULL, 0, 0, OBJECT_END];
    assert TakeUtf8(b[1..]) == Ok([], [NULL, 0, 0, OBJECT_END]) by {
      assert b[1..][2..][..0] == [] && b[1..][2..][0..] == b[1..][2..];
    }
  }

  /** The encoder fails exactly when some name is too long. */
  lemma {:induction false} WritableIff(t: Listing)
    requires Lists(t)
    ensures Writable(t) <==> NamesFit(Erase(t))
    decreases t
  {
    match t {
      case Leaf(_) =>
      case Entries(_, es) =>
        WritableEntriesIff(es);
      case Elements(ts) =>
        forall i | 0 <= i < |ts| ensures Writable(ts[i]) <==> NamesFit(EraseAll(ts)[i]) {
          WritableIff(ts[i]);
        }
    }
  }

  lemma {:induction false} WritableEntriesIff(es: seq<Entry>)
    requires ListsEntries(es)
    ensures WritableEntries(es) <==>
            forall k | k in EraseEntries(es) :: |k| <= MAX_NAME && NamesFit(EraseEntries(es)[k])
    decreases es
  {
    var m := EraseEntries(es);
    forall i | 0 <= i < |es|
      ensures es[i].key in m
      ensures |es[i].key| <= MAX_NAME && Writable(es[i].listing) <==> |es[i].key| <= MAX_NAME && NamesFit(m[es[i].key])
    {
      WritableIff(es[i].listing);
      EraseEntriesAt(es, i);
    }
    forall k | k in m ensures exists i :: 0 <= i < |es| && es[i].key == k {
      NamesOf(es, k);
    }
  }
}
