/** The command parser and the command builder as objects, each with the encoding it was told. */
module CommandCodec {
  import opened Wire
  import G = Amf0Go
  import A0 = Amf0
  import Amf0Codec
  import A3 = Amf3
  import Amf3Codec
  import Amf3Go
  import opened Commands

  // ----- The parser

  /** The decoder that a parser makes for one command. */
  datatype ValueDecoder = Amf0Decoder(amf0: Amf0Codec.Decoder) | Amf3Decoder(amf3: Amf3Codec.Decoder) {
    ghost function Footprint(): object {
      match this
      case Amf0Decoder(d) => d
      case Amf3Decoder(d) => d
    }

    ghost function State(): Source
      reads Footprint()
    {
      match this
      case Amf0Decoder(d) => Amf0Source(d.rest)
      case Amf3Decoder(d) => Amf3Source(d.State())
    }

    method Decode() returns (r: Result<Received>)
      modifies Footprint()
      ensures Reflects(Next(old(State())), r, State())
    {
      hide G.DecodeGo, Amf3Go.DecodeShallow;
      match this
      case Amf0Decoder(d) =>
        var v := d.DecodeValue();
        r := if v.Failure? then Failure(v.error) else Success(FromAmf0(v.value));
      case Amf3Decoder(d) =>
        var v := d.DecodeValue();
        r := if v.Failure? then Failure(v.error) else Success(FromAmf3(v.value));
    }
  }

  class CommandParser {
    var encoding: byte

    constructor ()
      ensures encoding == 0
    {
      encoding := AMF0;
    }

    method SetEncodingFromConnect(c: Option<Connect>)
      modifies this
      ensures encoding == Negotiated(c)
      ensures encoding == 3 <==> c.Some? && c.value.objectEncoding == 0x4008_0000_0000_0000
      ensures encoding == 0 || encoding == 3
    {
      if c.Some? && c.value.objectEncoding == THREE {
        encoding := AMF3;
      } else {
        encoding := AMF0;
      }
    }

    method ParseCommand(data: Bytes) returns (r: Outcome)
      ensures r == Parse(encoding, data)
    {
      hide Next, AsString, AsNumber, Rest;
      if |data| == 0 {
        return Rejected(EmptyData);
      }
      var decoder: ValueDecoder;
      if encoding == AMF3 {
        var d := new Amf3Codec.Decoder(data);
        decoder := Amf3Decoder(d);
      } else {
        var d := new Amf0Codec.Decoder(data);
        decoder := Amf0Decoder(d);
      }
      assert decoder.State() == Start(encoding, data);
      var name := decoder.Decode();
      if name.Failure? {
        return Rejected(BadName);
      }
      if AsString(name.value).None? {
        return Rejected(NameNotString);
      }
      var id := decoder.Decode();
      if id.Failure? {
        return Rejected(BadTransactionId);
      }
      if AsNumber(id.value).None? {
        return Rejected(TransactionIdNotNumber);
      }
      var obj := decoder.Decode();
      if obj.Failure? {
        return Rejected(BadObject);
      }
      ghost var all := Rest(decoder.State());
      assert [] + all == all;
      var args := [];
      while true
        invariant fresh(decoder.Footprint())
        invariant args + Rest(decoder.State()) == all
        decreases Left(decoder.State())
      {
        RestStep(args, decoder.State());
        var arg := decoder.Decode();
        if arg.Failure? {
          break;
        }
        args := args + [arg.value];
      }
      r := Accepted(Command(AsString(name.value).value, AsNumber(id.value).value, obj.value, args));
    }
  }

  lemma RestStep(args: seq<Received>, s: Source)
    ensures args + Rest(s)
            == match Next(s) case Ok(v, r) => (args + [v]) + Rest(r) case Fail(_) => args
  {
    hide Next;
  }

  // ----- The builder

  function Encoding(encoding: byte): byte {
    if encoding == AMF3 then AMF3 else AMF0
  }

  /** Times in AMF3 commands are not part of the model. */
  predicate Modelled(encoding: byte, g: G.Go) {
    encoding == AMF3 ==> Amf3Go.Timeless(g)
  }

  /** The encoder reports no error for the value: neither in it nor inside it is a value that the encoder has no case
      for, and no AMF0 name in it is too long. */
  predicate CanEncode(encoding: byte, g: G.Go, float: Conversion) {
    if encoding == AMF3 then Amf3Go.Supported(g) else G.Supported(g) && A0.NamesFit(G.FromGo(g, float))
  }

  /** The encoder that a builder makes for one command. */
  datatype ValueEncoder = Amf0Encoder(amf0: Amf0Codec.Encoder) | Amf3Encoder(amf3: Amf3Codec.Encoder) {
    ghost function Footprint(): object {
      match this
      case Amf0Encoder(e) => e
      case Amf3Encoder(e) => e
    }

    /** The encoder has written the values of the walk. */
    ghost predicate Wrote(w: Walk)
      reads Footprint()
    {
      && Proper(w) && Fresh(w)
      && match this
         case Amf0Encoder(e) => w.Amf0Walk? && e.out == Output(w)
         case Amf3Encoder(e) => w.Amf3Walk? && e.out == Output(w) && e.strings == A3.EncodeAll(w.listed, []).table
    }

    method Encode(g: G.Go, float: Conversion, ghost done: Walk, ghost gs: seq<G.Go>) returns (ok: bool, ghost w: Walk)
      requires Wrote(done) && Walks(done, gs, float) && Modelled(EncodingOf(done), g)
      modifies Footprint()
      ensures EncodingOf(w) == EncodingOf(done)
      ensures ok <==> CanEncode(EncodingOf(done), g, float)
      ensures ok ==> Wrote(w) && Walks(w, gs + [g], float)
    {
      hide A0.Encode, A0.EncodeAll, A0.Erase, A0.Lists, A0.Writable, G.FromGo, G.Supported, A0.NamesFit;
      hide A3.Encode, A3.EncodeAll, A3.Erase, A3.Lists, Amf3Go.FromGo, Amf3Go.Supported, Amf3Go.Timeless;
      ok, w := true, done;
      match this
      case Amf0Encoder(e) =>
        ghost var t;
        ok, t := e.EncodeGo(g, float);
        if ok {
          w := Amf0Walk(done.plain + [t]);
          Amf0Codec.AppendElement(done.plain, t);
        }
      case Amf3Encoder(e) =>
        ghost var t;
        ok, t := e.EncodeGo(g, float);
        if ok {
          w := Amf3Walk(done.listed + [t], []);
          Amf3Codec.AppendElement(done.listed, t, []);
        }
    }
  }

  lemma NothingWritten(w: Walk, float: Conversion)
    requires w == Amf0Walk([]) || w == Amf3Walk([], [])
    ensures Proper(w) && Walks(w, [], float) && Output(w) == []
  {
  }

  lemma LeavesEncode(encoding: byte, name: Bytes, id: u64, float: Conversion)
    ensures Modelled(encoding, G.Str(name)) && Modelled(encoding, G.Float(id))
    ensures CanEncode(encoding, G.Str(name), float) && CanEncode(encoding, G.Float(id), float)
  {
  }

  class CommandBuilder {
    var encoding: byte

    constructor ()
      ensures encoding == 0
    {
      encoding := AMF0;
    }

    method SetEncodingFromConnect(c: Option<Connect>)
      modifies this
      ensures encoding == Negotiated(c)
      ensures encoding == 3 <==> c.Some? && c.value.objectEncoding == 0x4008_0000_0000_0000
      ensures encoding == 0 || encoding == 3
    {
      if c.Some? && c.value.objectEncoding == THREE {
        encoding := AMF3;
      } else {
        encoding := AMF0;
      }
    }

    /** The bytes of a command, those of the walk `w`; or an error, exactly when the encoder meets a value of the other
        codec, AMF0 also a time or a name that is too long. */
    method BuildCommand(name: Bytes, id: u64, obj: G.Go, args: seq<G.Go>, float: Conversion)
      returns (r: Option<Bytes>, ghost w: Walk)
      requires Modelled(encoding, obj) && forall i | 0 <= i < |args| :: Modelled(encoding, args[i])
      ensures r.Some? <==> CanEncode(encoding, obj, float)
                           && forall i | 0 <= i < |args| :: CanEncode(encoding, args[i], float)
      ensures r.Some? ==> Fresh(w) && EncodingOf(w) == Encoding(encoding) && (w.Amf3Walk? <==> encoding == 3)
                          && Walks(w, Values(name, id, obj, args), float)
                          && Proper(w) && r.value == Output(w)
    {
      hide G.Supported, Amf3Go.Supported, Amf3Go.Timeless, A0.NamesFit, G.FromGo, Walks, Proper, Output;
      var encoder: ValueEncoder;
      if encoding == AMF3 {
        var e := new Amf3Codec.Encoder();
        encoder, w := Amf3Encoder(e), Amf3Walk([], []);
      } else {
        var e := new Amf0Codec.Encoder();
        encoder, w := Amf0Encoder(e), Amf0Walk([]);
      }
      NothingWritten(w, float);
      LeavesEncode(encoding, name, id, float);
      var ok;
      ok, w := encoder.Encode(G.Str(name), float, w, []);
      if !ok {
        return None, w;
      }
      ok, w := encoder.Encode(G.Float(id), float, w, [] + [G.Str(name)]);
      if !ok {
        return None, w;
      }
      ok, w := encoder.Encode(obj, float, w, [] + [G.Str(name)] + [G.Float(id)]);
      if !ok {
        return None, w;
      }
      assert Values(name, id, obj, args[..0]) == [] + [G.Str(name)] + [G.Float(id)] + [obj];
      for i := 0 to |args|
        invariant fresh(encoder.Footprint())
        invariant encoder.Wrote(w) && EncodingOf(w) == Encoding(encoding)
        invariant Walks(w, Values(name, id, obj, args[..i]), float)
        invariant CanEncode(encoding, obj, float) && forall j | 0 <= j < i :: CanEncode(encoding, args[j], float)
      {
        assert args[..i + 1] == args[..i] + [args[i]];
        assert Values(name, id, obj, args[..i + 1]) == Values(name, id, obj, args[..i]) + [args[i]];
        ok, w := encoder.Encode(args[i], float, w, Values(name, id, obj, args[..i]));
        if !ok {
          return None, w;
        }
      }
      assert args[..|args|] == args;
      r := Some(if encoder.Amf3Encoder? then encoder.amf3.out else encoder.amf0.out);
    }
  }

  /** A builder and a parser that settle on an encoding with the same connect command, and one command from the one to
      the other. What is built is parsed as it was, whatever the values, if they survive and AMF3 has room for their
      strings. */
  method Exchange(c: Option<Connect>, name: Bytes, id: u64, obj: G.Go, args: seq<G.Go>, float: Conversion)
    returns (r: Option<Outcome>, ghost w: Walk)
    requires Modelled(Negotiated(c), obj) && forall i | 0 <= i < |args| :: Modelled(Negotiated(c), args[i])
    ensures r.Some? <==> CanEncode(Negotiated(c), obj, float)
                         && forall i | 0 <= i < |args| :: CanEncode(Negotiated(c), args[i], float)
    ensures r.Some? ==> Proper(w) && EncodingOf(w) == Negotiated(c)
    ensures r.Some? && TableFits(w) && AllSurvive(Negotiated(c), Values(name, id, obj, args)) ==>
              r.value == Accepted(Command(name, id, Back(Negotiated(c), obj, float),
                                          BackAll(Negotiated(c), args, float)))
  {
    hide Parse, Back, BackAll, CanEncode, Walks, Proper, Output, Survives, TableFits;
    var builder := new CommandBuilder();
    var parser := new CommandParser();
    builder.SetEncodingFromConnect(c);
    parser.SetEncodingFromConnect(c);
    var built;
    built, w := builder.BuildCommand(name, id, obj, args, float);
    if built.None? {
      return None, w;
    }
    var outcome := parser.ParseCommand(built.value);
    r := Some(outcome);
    if TableFits(w) && AllSurvive(Negotiated(c), Values(name, id, obj, args)) {
      CommandRoundTrip(c, w, name, id, obj, args, float);
    }
  }

  ghost predicate AllSurvive(encoding: byte, gs: seq<G.Go>) {
    forall i | 0 <= i < |gs| :: Survives(encoding, gs[i])
  }
}
