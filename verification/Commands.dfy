/** Commands: a name, a transaction ID, a command object and any number of arguments, one after another in the
    encoding that the connect command settles. */
module Commands {
  import opened Wire
  import G = Amf0Go
  import A0 = Amf0
  import Amf0Truncation
  import A3 = Amf3
  import Amf3Proofs
  import Amf3Truncation
  import Amf3Go

  // ----- Negotiation

  const AMF0: byte := 0
  const AMF3: byte := 3

  /** The double 3.0. */
  const THREE: u64 := 0x4008_0000_0000_0000

  /** Of a connect command, the object encoding it asks for. */
  datatype Connect = Connect(objectEncoding: u64)

  function Negotiated(c: Option<Connect>): byte {
    match c
    case None => AMF0
    case Some(connect) => if connect.objectEncoding == THREE then AMF3 else AMF0
  }

  // ----- Decoding one value after another

  /** A decoded value, in the Go form of its codec. */
  datatype Received = FromAmf0(value: G.Go) | FromAmf3(shallow: Amf3Go.Shallow)

  /** The input of either decoder; the AMF3 decoder keeps its tables from one value to the next. */
  datatype Source = Amf0Source(bytes: Bytes) | Amf3Source(input: A3.Input)

  function Left(s: Source): nat {
    match s
    case Amf0Source(b) => |b|
    case Amf3Source(input) => |input.bytes|
  }

  function Start(encoding: byte, data: Bytes): Source {
    if encoding == AMF3 then Amf3Source(A3.Input(data, [], 0)) else Amf0Source(data)
  }

  function Next(s: Source): (p: Parsed<Received, Source>)
    ensures p.Ok? ==> Left(p.rest) < Left(s)
  {
    match s
    case Amf0Source(b) =>
      (match G.DecodeGo(b)
       case Ok(v, r) => Ok(FromAmf0(v), Amf0Source(r))
       case Fail(e) => Fail(e))
    case Amf3Source(input) =>
      (match Amf3Go.DecodeShallow(input)
       case Ok(v, r) => Ok(FromAmf3(v), Amf3Source(r))
       case Fail(e) => Fail(e))
  }

  /** Everything up to the first value that cannot be decoded. */
  function Rest(s: Source): seq<Received>
    decreases Left(s)
  {
    match Next(s)
    case Ok(v, r) => [v] + Rest(r)
    case Fail(_) => []
  }

  datatype Command = Command(name: Bytes, transactionId: u64, commandObject: Received, args: seq<Received>)

  datatype Reason = EmptyData | BadName | NameNotString | BadTransactionId | TransactionIdNotNumber | BadObject

  datatype Outcome = Accepted(command: Command) | Rejected(reason: Reason)

  function AsString(v: Received): Option<Bytes> {
    match v
    case FromAmf0(g) => if g.Str? then Some(g.text) else None
    case FromAmf3(g) => if g.Str? then Some(g.text) else None
  }

  function AsNumber(v: Received): Option<u64> {
    match v
    case FromAmf0(g) => if g.Float? then Some(g.bits) else None
    case FromAmf3(g) => if g.Float? then Some(g.bits) else None
  }

  function Parse(encoding: byte, data: Bytes): Outcome {
    if data == [] then Rejected(EmptyData) else
      var name := Next(Start(encoding, data));
      if name.Fail? then Rejected(BadName)
      else if AsString(name.value).None? then Rejected(NameNotString)
      else
        var id := Next(name.rest);
        if id.Fail? then Rejected(BadTransactionId)
        else if AsNumber(id.value).None? then Rejected(TransactionIdNotNumber)
        else
          var third := Next(id.rest);
          if third.Fail? then Rejected(BadObject)
          else Accepted(Command(AsString(name.value).value, AsNumber(id.value).value, third.value, Rest(third.rest)))
  }

  // ----- Encoding one value after another

  /** Values still to be written, as the encoder walks them; the AMF3 encoder keeps its table from one to the next. */
  datatype Walk = Amf0Walk(plain: seq<A0.Listing>) | Amf3Walk(listed: seq<A3.Listing>, table: A3.Table)

  /** The double that an integer is converted to. */
  type Conversion = int -> u64

  /** The values of the walk are `gs`. */
  ghost predicate Walks(w: Walk, gs: seq<G.Go>, float: Conversion) {
    match w
    case Amf0Walk(ts) =>
      |ts| == |gs| &&
      forall i | 0 <= i < |ts| :: A0.Lists(ts[i]) && A0.Writable(ts[i]) && A0.Erase(ts[i]) == G.FromGo(gs[i], float)
    case Amf3Walk(ts, _) =>
      |ts| == |gs| && forall i | 0 <= i < |ts| :: A3.Lists(ts[i]) && A3.Erase(ts[i]) == Amf3Go.FromGo(gs[i], float)
  }

  ghost predicate Proper(w: Walk) {
    match w
    case Amf0Walk(ts) => forall i | 0 <= i < |ts| :: A0.Writable(ts[i])
    case Amf3Walk(ts, _) => forall i | 0 <= i < |ts| :: A3.Lists(ts[i])
  }

  function Size(w: Walk): nat {
    match w
    case Amf0Walk(ts) => |ts|
    case Amf3Walk(ts, _) => |ts|
  }

  ghost function Output(w: Walk): Bytes
    requires Proper(w)
  {
    match w
    case Amf0Walk(ts) => A0.EncodeAll(ts)
    case Amf3Walk(ts, table) => A3.EncodeAll(ts, table).bytes
  }

  /** The bytes of the first value. */
  ghost function First(w: Walk): Bytes
    requires Proper(w) && Size(w) > 0
  {
    match w
    case Amf0Walk(ts) => A0.Encode(ts[0])
    case Amf3Walk(ts, table) => A3.Encode(ts[0], table).bytes
  }

  ghost function Others(w: Walk): (w': Walk)
    requires Proper(w) && Size(w) > 0
    ensures Proper(w') && Size(w') == Size(w) - 1
  {
    match w
    case Amf0Walk(ts) => Amf0Walk(ts[1..])
    case Amf3Walk(ts, table) => Amf3Walk(ts[1..], A3.Encode(ts[0], table).table)
  }

  lemma OutputIs(w: Walk)
    requires Proper(w)
    ensures Output(w) == if Size(w) == 0 then [] else First(w) + Output(Others(w))
  {
  }

  /** The table after all values, which a handle must be able to index. */
  ghost predicate TableFits(w: Walk)
    requires Proper(w)
  {
    w.Amf3Walk? ==> |A3.EncodeAll(w.listed, w.table).table| <= Amf3Proofs.MAX_TABLE
  }

  /** The values that survive an encoding: the encoder has a case for them and for all in them, names of properties
      are not empty, every length has room, and no `AMF3Array` is among them. */
  predicate Survives(encoding: byte, g: G.Go) {
    if encoding == AMF3 then Amf3Go.Timeless(g) && Amf3Go.Supported(g) && Amf3Go.Fits(g)
    else G.Supported(g) && G.Fits(g)
  }

  /** What comes back of a value. */
  function Back(encoding: byte, g: G.Go, float: Conversion): Received {
    if encoding == AMF3 then FromAmf3(Amf3Go.Image(g, float))
    else FromAmf0(G.Image(g, float))
  }

  function BackAll(encoding: byte, gs: seq<G.Go>, float: Conversion): seq<Received> {
    seq(|gs|, i requires 0 <= i < |gs| => Back(encoding, gs[i], float))
  }

  /** The decoder's side of a walk: the bytes `b` still to come, and the encoder's table. */
  function SourceOf(w: Walk, b: Bytes, containers: nat): Source {
    match w
    case Amf0Walk(_) => Amf0Source(b)
    case Amf3Walk(_, table) => Amf3Source(A3.Input(b, table, containers))
  }

  function EncodingOf(w: Walk): byte {
    if w.Amf3Walk? then AMF3 else AMF0
  }

  ghost predicate Sound(w: Walk, gs: seq<G.Go>, float: Conversion) {
    && (forall i | 0 <= i < |gs| :: Survives(EncodingOf(w), gs[i]))
    && Walks(w, gs, float) && TableFits(w)
  }

  /** The containers of the first value. */
  ghost function Opened(w: Walk): nat
    requires Size(w) > 0
  {
    match w
    case Amf0Walk(_) => 0
    case Amf3Walk(ts, _) => Amf3Proofs.Containers(ts[0])
  }

  /** The first value is decoded whatever follows it, and the decoder's table follows the encoder's. */
  lemma FirstDecoded(w: Walk, gs: seq<G.Go>, float: Conversion, k: Bytes, n: nat)
    requires gs != [] && Sound(w, gs, float)
    ensures Sound(Others(w), gs[1..], float)
    ensures Next(SourceOf(w, First(w) + k, n))
            == Ok(Back(EncodingOf(w), gs[0], float), SourceOf(Others(w), k, n + Opened(w)))
  {
    hide A0.Encode, A0.EncodeAll, A0.Lists, A0.Writable, A0.Erase, A0.Encodable, G.FromGo, G.Image, G.DecodeGo, G.Fits;
    hide A3.Encode, A3.Decode, A3.Lists, A3.Erase, A3.Encodable, A3.Normalize, Amf3Go.FromGo, Amf3Go.ToShallow,
      Amf3Go.DecodeShallow, Amf3Go.Supported, Amf3Go.Timeless, Amf3Go.Fits, Amf3Go.Image, G.Supported,
      Amf3Proofs.Containers;
    match w {
      case Amf0Walk(ts) =>
        G.GoRoundTrip(gs[0], float, ts[0], k);
      case Amf3Walk(ts, table) =>
        Amf3Go.ShallowAgrees(A3.Input(First(w) + k, table, n));
        Amf3Go.FitsIff(gs[0], float);
        Amf3Proofs.RoundTrip(ts[0], table, k, n);
        Amf3Go.ImageOfNormal(gs[0], float);
    }
  }

  /** Cut anywhere, the first value is not decoded. */
  lemma FirstCut(w: Walk, gs: seq<G.Go>, float: Conversion, n: nat, m: nat)
    requires gs != [] && Sound(w, gs, float)
    requires m < |First(w)|
    ensures Next(SourceOf(w, First(w)[..m], n)) == Fail(Truncated)
  {
    hide A0.Encode, A0.Lists, A0.Writable, A0.Erase, A0.Encodable, G.FromGo, G.DecodeGo, G.ToGo;
    hide A3.Encode, A3.Decode, A3.Lists, A3.Erase, Amf3Go.FromGo, Amf3Go.ToShallow,
      Amf3Go.DecodeShallow, Amf3Go.Supported, Amf3Go.Timeless, G.Supported;
    match w {
      case Amf0Walk(ts) =>
        G.FitsIff(gs[0], float);
        Amf0Truncation.EncodingCut(ts[0], m);
        G.DecodersAgree(First(w)[..m]);
      case Amf3Walk(ts, table) =>
        Amf3Go.FitsIff(gs[0], float);
        Amf3Proofs.RoundTrip(ts[0], table, [], n);
        assert First(w) + [] == First(w);
        Amf3Truncation.CutInside(A3.Input(First(w), table, n), m);
        Amf3Go.ShallowAgrees(A3.Input(First(w)[..m], table, n));
    }
  }

  /** How many of the values end within the first `n` bytes. */
  ghost function Whole(w: Walk, n: nat): (m: nat)
    requires Proper(w)
    ensures m <= Size(w)
    decreases Size(w)
  {
    if Size(w) == 0 || n < |First(w)| then 0 else 1 + Whole(Others(w), n - |First(w)|)
  }

  lemma {:induction false} AllWhole(w: Walk)
    requires Proper(w)
    ensures Whole(w, |Output(w)|) == Size(w)
    decreases Size(w)
  {
    OutputIs(w);
    if Size(w) > 0 {
      AllWhole(Others(w));
    }
  }

  /** One value, or none, from the first `n` bytes. */
  lemma NextIs(w: Walk, gs: seq<G.Go>, float: Conversion, c: nat, n: nat)
    requires Sound(w, gs, float) && n <= |Output(w)|
    ensures Size(w) == |gs|
    ensures Whole(w, n) == 0 ==> Next(SourceOf(w, Output(w)[..n], c)) == Fail(Truncated)
    ensures Whole(w, n) > 0 ==>
              && 0 <= n - |First(w)| <= |Output(Others(w))| && Sound(Others(w), gs[1..], float)
              && Whole(w, n) == 1 + Whole(Others(w), n - |First(w)|)
              && Next(SourceOf(w, Output(w)[..n], c))
                 == Ok(Back(EncodingOf(w), gs[0], float),
                       SourceOf(Others(w), Output(Others(w))[..n - |First(w)|], c + Opened(w)))
  {
    hide Next, Output, First, Others, Opened, TableFits, Back, Survives, A0.EncodeAll, A0.Encode, A3.EncodeAll;
    OutputIs(w);
    if Size(w) == 0 {
      NothingLeft(w, c);
      assert Output(w)[..n] == [];
    } else if n < |First(w)| {
      FirstCut(w, gs, float, c, n);
      assert Output(w)[..n] == First(w)[..n];
    } else {
      var k := Output(Others(w))[..n - |First(w)|];
      FirstDecoded(w, gs, float, k, c);
      assert Output(w)[..n] == First(w) + k;
    }
  }

  lemma NothingLeft(w: Walk, c: nat)
    ensures Next(SourceOf(w, [], c)) == Fail(Truncated)
  {
  }

  lemma {:induction false} RestIs(w: Walk, gs: seq<G.Go>, float: Conversion, c: nat, n: nat)
    requires Sound(w, gs, float) && n <= |Output(w)|
    ensures Whole(w, n) <= |gs|
    ensures Rest(SourceOf(w, Output(w)[..n], c)) == BackAll(EncodingOf(w), gs[..Whole(w, n)], float)
    decreases |gs|
  {
    hide Next, Output, First, Others, Opened, SourceOf, Sound, Back, Survives, Whole;
    SoundSize(w, gs, float);
    NextIs(w, gs, float, c, n);
    var m := Whole(w, n);
    var all := BackAll(EncodingOf(w), gs[..m], float);
    if m > 0 {
      RestIs(Others(w), gs[1..], float, c + Opened(w), n - |First(w)|);
      assert gs[1..][..m - 1] == gs[..m][1..];
      SoundSize(Others(w), gs[1..], float);
      assert EncodingOf(Others(w)) == EncodingOf(w) by { OthersEncoding(w); }
      var tail := BackAll(EncodingOf(w), gs[1..][..m - 1], float);
      assert all == [Back(EncodingOf(w), gs[0], float)] + tail;
    } else {
      assert all == [];
    }
  }

  lemma SoundSize(w: Walk, gs: seq<G.Go>, float: Conversion)
    requires Sound(w, gs, float)
    ensures Proper(w) && Size(w) == |gs|
  {
  }

  lemma OthersEncoding(w: Walk)
    requires Proper(w) && Size(w) > 0
    ensures EncodingOf(Others(w)) == EncodingOf(w)
  {
  }

  // ----- Values of the wrong type

  predicate IsText(g: G.Go) {
    match g
    case Str(_) => true
    case Amf0Value(v) => v.String? || v.LongString?
    case Amf3Value(v) => v.String?
    case _ => false
  }

  /** AMF3 keeps integers of up to 29 bits, which are no numbers to the parser. */
  predicate IsNumber(encoding: byte, g: G.Go) {
    match g
    case Float(_) => true
    case Int(i) => encoding != 3 || i < -0x1000_0000 || i >= 0x1000_0000
    case Amf0Value(v) => v.Number?
    case Amf3Value(v) => v.Double?
    case _ => false
  }

  lemma TypesBack(encoding: byte, g: G.Go, float: Conversion)
    requires Survives(encoding, g)
    ensures AsString(Back(encoding, g, float)).Some? <==> IsText(g)
    ensures AsNumber(Back(encoding, g, float)).Some? <==> IsNumber(encoding, g)
  {
  }

  /** A fresh encoder. */
  ghost predicate Fresh(w: Walk) {
    w.Amf3Walk? ==> w.table == []
  }

  /** The first `n` bytes of any values in either encoding, parsed as a command in the same encoding. The parser is
      right about all values that came in whole, and drops only what was cut. It rejects a name that is not a string
      and a transaction ID that is not a double: an integer of up to 29 bits is one in AMF0 and not in AMF3. */
  lemma ParseAny(w: Walk, gs: seq<G.Go>, float: Conversion, n: nat)
    requires Fresh(w) && Sound(w, gs, float) && n <= |Output(w)|
    ensures Whole(w, n) <= |gs|
    ensures var e, m := EncodingOf(w), Whole(w, n);
            Parse(e, Output(w)[..n])
            == if n == 0 then Rejected(EmptyData)
               else if m == 0 then Rejected(BadName)
               else if !IsText(gs[0]) then Rejected(NameNotString)
               else if m == 1 then Rejected(BadTransactionId)
               else if !IsNumber(e, gs[1]) then Rejected(TransactionIdNotNumber)
               else if m == 2 then Rejected(BadObject)
               else Accepted(Taken(e, gs[..m], float))
  {
    hide Next, Output, First, Others, Opened, SourceOf, Sound, Back, BackAll, Survives, Whole, Rest, IsText, IsNumber;
    var e := EncodingOf(w);
    SoundSize(w, gs, float);
    assert Start(e, Output(w)[..n]) == SourceOf(w, Output(w)[..n], 0) by { StartIs(w, Output(w)[..n]); }
    NextIs(w, gs, float, 0, n);
    if Whole(w, n) > 0 {
      var w1, n1, c1 := Others(w), n - |First(w)|, Opened(w);
      SoundTypes(w, gs, float);
      OthersEncoding(w);
      NextIs(w1, gs[1..], float, c1, n1);
      if Whole(w1, n1) > 0 {
        var w2, n2, c2 := Others(w1), n1 - |First(w1)|, c1 + Opened(w1);
        SoundTypes(w1, gs[1..], float);
        OthersEncoding(w1);
        NextIs(w2, gs[1..][1..], float, c2, n2);
        if Whole(w2, n2) > 0 {
          OthersEncoding(w2);
          assert gs[1..][1..][1..] == gs[3..];
          RestIs(Others(w2), gs[3..], float, c2 + Opened(w2), n2 - |First(w2)|);
          assert gs[3..][..Whole(w, n) - 3] == gs[..Whole(w, n)][3..];
        }
      }
    }
  }

  /** The command that the values make. */
  function Taken(encoding: byte, gs: seq<G.Go>, float: Conversion): Command
    requires |gs| >= 3 && forall i | 0 <= i < |gs| :: Survives(encoding, gs[i])
    requires IsText(gs[0]) && IsNumber(encoding, gs[1])
  {
    TypesBack(encoding, gs[0], float);
    TypesBack(encoding, gs[1], float);
    Command(AsString(Back(encoding, gs[0], float)).value, AsNumber(Back(encoding, gs[1], float)).value,
            Back(encoding, gs[2], float), BackAll(encoding, gs[3..], float))
  }

  lemma SoundTypes(w: Walk, gs: seq<G.Go>, float: Conversion)
    requires Sound(w, gs, float) && gs != []
    ensures var b := Back(EncodingOf(w), gs[0], float);
            && (AsString(b).Some? <==> IsText(gs[0]))
            && (AsNumber(b).Some? <==> IsNumber(EncodingOf(w), gs[0]))
  {
    TypesBack(EncodingOf(w), gs[0], float);
  }

  // ----- Whole commands

  /** The values of a command in the order in which they are written. */
  function Values(name: Bytes, id: u64, obj: G.Go, args: seq<G.Go>): seq<G.Go> {
    [G.Str(name), G.Float(id), obj] + args
  }

  /** The first `n` bytes of a command built in either encoding, parsed in the same encoding. The parser is right
      about the command and the arguments that came in whole, and drops only what was cut; and it rejects exactly
      the commands cut before the end of their command object. */
  lemma ParseCut(w: Walk, name: Bytes, id: u64, obj: G.Go, args: seq<G.Go>, float: Conversion, n: nat)
    requires Fresh(w) && Sound(w, Values(name, id, obj, args), float) && n <= |Output(w)|
    ensures Whole(w, n) <= 3 + |args|
    ensures var e, m := EncodingOf(w), Whole(w, n);
            Parse(e, Output(w)[..n])
            == if n == 0 then Rejected(EmptyData)
               else if m == 0 then Rejected(BadName)
               else if m == 1 then Rejected(BadTransactionId)
               else if m == 2 then Rejected(BadObject)
               else Accepted(Command(name, id, Back(e, obj, float), BackAll(e, args[..m - 3], float)))
  {
    hide Output, Sound, Survives, Whole, Parse, Back, BackAll;
    var gs := Values(name, id, obj, args);
    ValuesSize(w, name, id, obj, args, float);
    var m := Whole(w, n);
    ParseAny(w, gs, float, n);
    NamesBack(EncodingOf(w), name, id, float);
    if m >= 3 {
      assert gs[..m][3..] == args[..m - 3];
    }
  }

  lemma StartIs(w: Walk, b: Bytes)
    requires Fresh(w)
    ensures Start(EncodingOf(w), b) == SourceOf(w, b, 0)
  {
  }

  lemma NamesBack(encoding: byte, name: Bytes, id: u64, float: Conversion)
    ensures AsString(Back(encoding, G.Str(name), float)) == Some(name)
    ensures AsNumber(Back(encoding, G.Float(id), float)) == Some(id)
  {
  }

  lemma ValuesSize(w: Walk, name: Bytes, id: u64, obj: G.Go, args: seq<G.Go>, float: Conversion)
    requires Sound(w, Values(name, id, obj, args), float)
    ensures Proper(w) && Size(w) == 3 + |args|
  {
  }

  /** Builder and parser that settle on an encoding with the same connect command understand each other: the name,
      the transaction ID, the command object and all arguments come back, however many there are. */
  lemma CommandRoundTrip(c: Option<Connect>, w: Walk, name: Bytes, id: u64, obj: G.Go, args: seq<G.Go>,
                         float: Conversion)
    requires EncodingOf(w) == Negotiated(c)
    requires Fresh(w) && Sound(w, Values(name, id, obj, args), float)
    ensures Parse(Negotiated(c), Output(w))
            == Accepted(Command(name, id, Back(Negotiated(c), obj, float), BackAll(Negotiated(c), args, float)))
  {
    hide Output, Parse, Back, BackAll, Sound, Whole;
    ValuesSize(w, name, id, obj, args, float);
    AllWhole(w);
    ParseCut(w, name, id, obj, args, float, |Output(w)|);
    assert Output(w)[..|Output(w)|] == Output(w);
    assert args[..|args|] == args;
    OutputIs(w);
    FirstNotEmpty(w);
  }

  lemma FirstNotEmpty(w: Walk)
    requires Proper(w) && Size(w) > 0
    ensures First(w) != []
  {
  }

  /** Whatever encoding the parser was told: it accepts a built command if and only if that is the builder's. In
      the other encoding the name does not even begin like a string. */
  lemma UnderstoodIff(encoding: byte, w: Walk, name: Bytes, id: u64, obj: G.Go, args: seq<G.Go>, float: Conversion)
    requires Fresh(w) && Sound(w, Values(name, id, obj, args), float)
    ensures Parse(encoding, Output(w)).Accepted? <==> (encoding == AMF3 <==> EncodingOf(w) == AMF3)
  {
    hide Parse, Sound, Survives, Back, BackAll;
    ValuesSize(w, name, id, obj, args, float);
    if encoding == AMF3 <==> EncodingOf(w) == AMF3 {
      var c := if encoding == AMF3 then Some(Connect(THREE)) else None;
      CommandRoundTrip(c, w, name, id, obj, args, float);
      SameStart(encoding, Negotiated(c), Output(w));
    } else {
      Misunderstood(encoding, w, name, Values(name, id, obj, args), float);
    }
  }

  /** A parser that follows a connect command accepts what a builder in AMF3 built if and only if the command asks for
      the object encoding 3.0, and what one in AMF0 built if and only if it does not. */
  lemma AcceptedIfAsked(c: Option<Connect>, w: Walk, name: Bytes, id: u64, obj: G.Go, args: seq<G.Go>,
                        float: Conversion)
    requires Fresh(w) && Sound(w, Values(name, id, obj, args), float)
    ensures Proper(w)
    ensures var asked := c.Some? && c.value.objectEncoding == 0x4008_0000_0000_0000;
            Parse(Negotiated(c), Output(w)).Accepted? <==> (w.Amf3Walk? <==> asked)
  {
    hide Parse, Sound, Output;
    ValuesSize(w, name, id, obj, args, float);
    UnderstoodIff(Negotiated(c), w, name, id, obj, args, float);
  }

  lemma SameStart(e: byte, e': byte, data: Bytes)
    requires e == AMF3 <==> e' == AMF3
    ensures Parse(e, data) == Parse(e', data)
  {
    hide Next, Rest;
  }

  lemma Misunderstood(encoding: byte, w: Walk, name: Bytes, gs: seq<G.Go>, float: Conversion)
    requires Sound(w, gs, float) && gs != [] && gs[0] == G.Str(name)
    requires !(encoding == AMF3 <==> EncodingOf(w) == AMF3)
    ensures Proper(w)
    ensures Parse(encoding, Output(w)).Rejected?
  {
    hide Next, Rest;
    SoundSize(w, gs, float);
    OutputIs(w);
    StringMarker(w, name, gs, float);
    NotAString(encoding, Output(w));
  }

  lemma StringMarker(w: Walk, name: Bytes, gs: seq<G.Go>, float: Conversion)
    requires Sound(w, gs, float) && gs != [] && gs[0] == G.Str(name)
    ensures Proper(w) && Size(w) > 0 && First(w) != []
    ensures First(w)[0] == if w.Amf3Walk? then A3.STRING else if |name| > A0.MAX_NAME then A0.LONG_STRING else A0.STRING
  {
    SoundSize(w, gs, float);
    match w {
      case Amf0Walk(ts) => assert A0.Erase(ts[0]) == A0.String(name);
      case Amf3Walk(ts, _) => assert A3.Erase(ts[0]) == A3.String(name);
    }
  }

  lemma NotAString(encoding: byte, data: Bytes)
    requires data != []
    requires if encoding == AMF3 then data[0] == A0.STRING || data[0] == A0.LONG_STRING else data[0] == A3.STRING
    ensures var p := Next(Start(encoding, data)); p.Fail? || AsString(p.value).None?
  {
  }
}
