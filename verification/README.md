# A verified model of the RTMP wire core

This project models the part of the RTMP library that two endpoints must agree on byte for byte, and proves what
they can rely on: the chunk streams of a connection, the AMF0 and AMF3 codecs, the command layer that negotiates
between them, the handshake, and the registry of published streams. `dafny verify dfyconfig.toml` checks all of it.

| files | what they model |
|---|---|
| `Wire.dfy`, `Numbers.dfy`, `Collections.dfy` | bytes, fixed-width words, and parsing a prefix of the input; numbers told from their bytes; facts about maps |
| `Chunks.dfy` | messages, chunks, and the writer and the reader of a connection as functions on their states |
| `ChunkReader.dfy`, `ChunkShape.dfy`, `ChunkTransport.dfy`, `ChunkSession.dfy`, `ChunkInterleaving.dfy`, `ChunkHeaders.dfy` | safety of the reader on any bytes, how a message is cut, one message across, whole runs, chunk streams side by side, and headers byte by byte, from any sender |
| `ChunkStreamer.dfy` | the chunk streamer as an object with its maps, and the server's message loop |
| `U29.dfy` | the variable-length integers of AMF3 |
| `Amf0.dfy`, `Amf0Proofs.dfy`, `Amf0Truncation.dfy`, `Amf0Go.dfy`, `Amf0Bytes.dfy`, `Amf0Codec.dfy` | AMF0: values and encodings, round trips, cut input, the second decoder, the bytes of each kind of value, and encoder and decoder as objects |
| `Amf3.dfy`, `Amf3Proofs.dfy`, `Amf3Sync.dfy`, `Amf3Arrays.dfy`, `Amf3Truncation.dfy`, `Amf3Go.dfy`, `Amf3Bytes.dfy`, `Amf3Codec.dfy` | the same for AMF3, with the string tables of both sides, and the arrays that do not come back |
| `Commands.dfy`, `CommandCodec.dfy` | commands under a negotiated encoding; parser and builder as objects |
| `Handshake.dfy`, `Handshaker.dfy` | the handshake as a protocol of two parties; one party as an object |
| `Registry.dfy`, `StreamManager.dfy` | the stream registry over runs of events; the manager as an object |

Each part has the same shape. Code that works step by step is a class whose methods are proved to compute a
function of the old state; about those functions the properties of the design are then proved, for all inputs and
all runs.

## Main results

- **Transport** (`ChunkSession.Transport`). Whatever messages a writer sends, on whatever chunk streams, with chunk
  sizes renegotiated in mid-run, a reader that starts in step receives exactly those that have a payload, in order,
  consumes exactly the bytes written, and is in step again, with the same chunk size. Legal messages are those whose
  length is 0 or that of the payload, with a payload below 2^24 bytes and a chunk stream id of 0 or 2 to 65599, and
  that need no Type 1 header with a difference of 0xFFFFFF or more. `ChunkStreaming.ClientToServer` is the same over
  the two objects.
- **Timestamps** (`ChunkSession.ExactIff`). What arrives is the timestamp of the last full header on the chunk
  stream; a run delivers all timestamps as sent if and only if it contains no Type 1 header. Message by message
  (`ChunkSession.ExactWhereClean`) a Type 1 header spoils nothing on other chunk streams or after the next full header.
- **Any sender's clock** (`ChunkHeaders.RunClock`). Over any run of chunks, whoever sent them and however chunk streams are
  interleaved, the timestamp of a chunk stream is its last full timestamp plus all differences since, modulo 2^32.
- **Acknowledgements** (`ChunkSession.AlwaysAccounts`, `ChunkSession.MarkOfRun`). The counter is the sum of all charges, and
  the acknowledged mark is the count after the last chunk that filled the window.
- **Reader safety** (`ChunkReader.StepIsSafe`, `ChunkReader.RunIsSafe`). On arbitrary bytes no buffer is overrun, no chunk exceeds the chunk
  size, and the reader's own limit never fires, although a header may change a message's length half-way.
- **Interleaving** (`ChunkInterleaving.Interleaving`, `ChunkInterleaving.InterleavedStream`). Any merge of chunk streams
  is read if and only if each is read alone, with the same messages; also as one byte stream.
- **AMF0** (`Amf0Proofs.RoundTripIff`, `Amf0Proofs.AcceptedIff`, `Amf0Truncation.NormalForm`, `Amf0Go.DecodersAgree`).
  The exact values that come back, for every order in which maps are walked, and those that are rejected; whatever is
  accepted has a normal form; both decoders agree on every input.
- **AMF3** (`Amf3Sync.Series`, `Amf3Sync.RoundTripIff`, `Amf3Arrays.ThoroughlyIff`). The string tables of encoder and
  decoder are the same after every value of every series, hold each string once, and all values whose names are not
  empty and whose lengths fit come back, but for those with an `AMF3Array` in them, whose marker is written twice. The
  exact conditions are stated.
- **Commands** (`Commands.ParseAny`, `Commands.AcceptedIfAsked`). Any values sent as a command and cut after any byte yield
  exactly those that arrived whole, or the right reason for a rejection; and a parser that follows a connect command
  accepts an AMF3 command if and only if that asks for the object encoding 3.0.
- **Handshake** (`Handshake.HandshakeAgrees`, `Handshaking.Handshaker.DoHandshake`). Every interleaving of the two
  parties ends after twelve steps with both done and in agreement, and never blocks; on arbitrary input a party
  finishes if and only if its peer echoes its time and random data, and has then sent exactly the bytes of the protocol.
- **Registry** (`Registry.RegistryIsHistory`, `Registry.DisconnectCleans`). The registry is what the history of events
  says, and a connection that disconnects is in no stream.

## How to read it

- Shifts, masks and truncations of unsigned words are written as division, remainder and sum; a 32-bit wrap-around is
  `Wrap32`.
- The order in which Go walks a map is not fixed. A *listing* is a value with every map replaced by a sequence of its
  entries in some order; encodings are functions of listings, and a theorem about all listings of a value is one about
  all orders. The encoder objects pick names arbitrarily and report the listing they followed.
- Doubles are opaque 64-bit words. The conversion of integers to doubles is a parameter (`float`), as are the clock and
  the random data of the handshake.
- A connection is the bytes not yet read and the bytes written. Running out of input stands for every I/O error.

## Where the code differs from its documentation or from the protocol

- The README of the library promises all of the RTMP specification and full AMF3. The difference of a Type 1 header is
  always written as 0, because `createChunks` puts it into another field than `createMessageHeader` reads
  (`pkg/rtmp/chunk_streamer.go:272`, `461-463`); `ChunkSession.TimestampLost` shows it.
- An extended timestamp is written after a Type 1 header but read only after a Type 0 one
  (`pkg/rtmp/chunk_streamer.go:219-228`, `373-381`): `ChunkSession.ExtendedDeltaMisread` shows it, and
  `ChunkSession.FirstChunkConsumed` says exactly when it matters.
- A message without payload emits no chunk, but the writer remembers it as if it had.
- Both encoders write an empty property name without an error, and it ends the properties for the decoder
  (`Amf0Proofs.EmptyNameLost`, `Amf3Sync.EmptyNameLost`).
- Strings are the only thing an AMF3 encoder deduplicates; class names of objects are dropped.
- The marker of an `AMF3Array` is written by `encodeArrayValue` and again by `encodeArray`
  (`internal/amf3/amf3.go:385-401`, `346-349`), so an array that the decoder returned is misread when it is
  sent on: `Amf3Arrays.NamedEntryMisread` shows one, and `Amf3Arrays.ArrayLost` says which cannot come back. A `[]interface{}` has one
  marker and comes back.

## Model

Paths are relative to the root of the repository.

| member | source | states |
|---|---|---|
| `U29.ReadWrite` | internal/amf3/amf3.go:474-509 | reading what `writeU29` wrote for any 32-bit word, followed by anything, consumes exactly those bytes and gives the sign extension of the low 29 bits |
| `U29.WriteIsShortest` | internal/amf3/amf3.go:474-509 | no other bytes that the reader takes for the same value are fewer |
| `U29.ReadUnrolled` | internal/amf3/amf3.go:669-701 | what `readU29` returns and leaves for one, two, three and four bytes, and that it fails exactly when the input ends inside an integer |
| `U29.WriteBits` | internal/amf3/amf3.go:474-509 | the bytes written are those of the number in base 128, high bits first, with the high bit set in all but the last, and eight bits in a fourth |
| `U29.ReadBits` | internal/amf3/amf3.go:669-701 | any bytes are read as the number they stand for in that way, with bit 28 as the sign |
| `U29.IntegerSurvives` | internal/amf3/amf3.go:280-285 | a 32-bit integer comes back if and only if it is in -2^28..2^28-1 |
| `U29.HandleSurvives` | internal/amf3/amf3.go:346-356 | a length or index with its flag bit comes back if and only if it is below 2^27 or in the last 2^27 words below 2^31; the flag always does |
| `U29.ReadFits` | internal/amf3/amf3.go:669-701 | half of any integer read is a length that survives, and the integer has 29 significant bits |
| `Amf0Proofs.RoundTrip` | internal/amf0/amf0.go:198-421 | for every order of the maps, decoding an encoding followed by anything gives the value, with strings over 65535 bytes as long strings, and leaves exactly what followed |
| `Amf0Proofs.RoundTripIff` | internal/amf0/amf0.go:198-421 | of all values the encoder accepts, those come back unchanged, with exactly their bytes consumed, whose names are not empty and whose plain strings have at most 65535 bytes and whose other lengths fit 32 bits |
| `Amf0Proofs.AcceptedIff` | internal/amf0/amf0.go:275-296 | of the values whose lengths fit, all of them written without an error, the decoder accepts exactly those without an empty property name anywhere |
| `Amf0Proofs.EmptyNameRejected` | internal/amf0/amf0.go:607-637 | an empty name anywhere in a value whose lengths fit is taken for the end of the properties, and the error is always the missing end marker |
| `Amf0Proofs.EmptyNameLost` | internal/amf0/amf0.go:275-296 | a concrete object that shows it |
| `Amf0Proofs.WritableIff` | internal/amf0/amf0.go:401-421 | the encoder fails exactly on property or class names over 65535 bytes, whatever the order of the walk |
| `Amf0Proofs.DecodedIsCanonical` | internal/amf0/amf0.go:491-543 | whatever the decoder accepts, its value is one of those that come back unchanged |
| `Amf0Proofs.CanonicalIsNormal` | internal/amf0/amf0.go:255-264 | the values that come back unchanged are the encodable ones that are their own normal form |
| `Amf0Truncation.CutInside` | internal/amf0/amf0.go:855-887 | input cut anywhere inside a value is rejected as too short |
| `Amf0Truncation.EncodingCut` | internal/amf0/amf0.go:491-543 | every strict prefix of every encoding of a value is rejected |
| `Amf0Truncation.DecodeExtends` | internal/amf0/amf0.go:491-543 | bytes after a value change neither the value nor where it ends; errors other than the end of input stay |
| `Amf0Truncation.NormalForm` | internal/amf0/amf0.go:607-637 | any accepted input, duplicate names and odd booleans included: its value can be encoded, in any order, and decodes to itself |
| `Amf0Truncation.ListingOf` | internal/amf0/amf0.go:275-296 | every value has an order in which the encoder can walk it, so statements about all listings are not empty |
| `Amf0Go.DecodersAgree` | internal/amf0/amf0.go:452-488 | on every input `decodeValue` succeeds, fails and consumes as `decodeAMF0Value` does, and returns the Go form of its value |
| `Amf0Go.PropsAgree` | internal/amf0/amf0.go:775-811 | the property loops agree from every accumulated map; a property named `__className` overrides the class entry stored first |
| `Amf0Go.SupportedIff` | internal/amf0/amf0.go:154-195 | the encoder has a case for a Go value if and only if neither it nor anything in it is a time or an AMF3 value |
| `Amf0Go.ImageOfNormal` | internal/amf0/amf0.go:154-195 | what the encoder makes of a Go value, in normal form and as a Go value again, is the value told without codec: itself, integers as doubles |
| `Amf0Go.GoRoundTrip` | internal/amf0/amf0.go:154-195 | a Go value of nil, booleans, numbers, strings, AMF0 values, slices and maps comes back from `Decode` as itself with integers as doubles and AMF0 values in their Go form, for every order of its maps |
| `Amf0Bytes.LeafBytes` | internal/amf0/amf0.go:236-253 | the bytes of numbers, booleans, null, undefined and dates: marker, and the words with their high byte first |
| `Amf0Bytes.TextBytes` | internal/amf0/amf0.go:255-272 | the bytes of strings: two of length up to 65535, otherwise four, as for long strings |
| `Amf0Bytes.ContainerBytes` | internal/amf0/amf0.go:275-373 | the bytes of objects, ECMA arrays, typed objects and strict arrays around their entries or elements |
| `Amf0Bytes.SeriesBytes` | internal/amf0/amf0.go:275-296 | entries and elements one after another, each name after its length |
| `Amf0Bytes.OtherBytes` | internal/amf0/amf0.go:491-543 | any byte but 0 is true; a marker without a value is reported by both decoders |
| `Amf0Bytes.RepeatedNames` | internal/amf0/amf0.go:607-637 | of a name that comes up more than once the last value counts; no other names appear |
| `Amf0Bytes.GoLeaves` | internal/amf0/amf0.go:452-488 | what the decoder to Go values makes of the bytes of each kind of value that holds no other |
| `Amf0Bytes.GoContainers` | internal/amf0/amf0.go:775-811 | the map of a typed object has its class under `__className` unless a property has that name; no other container has it; every property and element is there in its Go form |
| `Amf0Codec.Encoder.WriteUtf8` | internal/amf0/amf0.go:401-421 | fails exactly on a short string over 65535 bytes, otherwise appends the length and the string |
| `Amf0Codec.Encoder.EncodeString` | internal/amf0/amf0.go:255-272 | appends a string, or a long string where the length needs it |
| `Amf0Codec.Encoder.EncodeDate` | internal/amf0/amf0.go:376-388 | appends milliseconds and time zone |
| `Amf0Codec.Encoder.EncodeValue` | internal/amf0/amf0.go:198-233 | fails exactly when some name in the value is too long; otherwise appends the encoding of a listing of the value |
| `Amf0Codec.Encoder.EncodeRecord` | internal/amf0/amf0.go:299-352 | the same for objects, typed objects and ECMA arrays |
| `Amf0Codec.Encoder.EncodeProperties` | internal/amf0/amf0.go:275-296 | the loop over a map in arbitrary order writes every entry once and the end marker |
| `Amf0Codec.Encoder.EncodeStrictArray` | internal/amf0/amf0.go:355-373 | appends the count and the elements in order |
| `Amf0Codec.Encoder.EncodeGo` | internal/amf0/amf0.go:154-195 | the switch over Go types fails exactly on times, AMF3 values and long names, wherever they are in the value; otherwise it appends an encoding of an AMF0 value whose Go form is the value itself, integers as doubles |
| `Amf0Codec.Encoder.EncodeGoObject` | internal/amf0/amf0.go:275-296 | the same for a map of Go values, walked in arbitrary order |
| `Amf0Codec.Encoder.EncodeGoSlice` | internal/amf0/amf0.go:355-373 | the same for a slice of Go values |
| `Amf0Codec.Decoder.ReadUtf8` | internal/amf0/amf0.go:855-878 | reads a length of 16 or 32 bits and that many bytes |
| `Amf0Codec.Decoder.DecodeAmf0Value` | internal/amf0/amf0.go:491-543 | one value from the front of the input: the decoder object is the decoder that the theorems are about |
| `Amf0Codec.Decoder.DecodeProperties` | internal/amf0/amf0.go:607-637 | the loop that fills a map until an empty name and the end marker |
| `Amf0Codec.Decoder.DecodeElements` | internal/amf0/amf0.go:738-754 | the loop over a counted number of elements |
| `Amf0Codec.Decoder.DecodeValue` | internal/amf0/amf0.go:452-488 | the decoder to Go values, likewise |
| `Amf0Codec.Decoder.DecodeGoProperties` | internal/amf0/amf0.go:574-604 | its property loop, from a map that may hold the class name already |
| `Amf0Codec.Decoder.DecodeGoElements` | internal/amf0/amf0.go:719-735 | its element loop |
| `Amf3Proofs.StringRoundTrip` | internal/amf3/amf3.go:515-540 | a string, new or known to the table, is read back whatever follows, and both tables change alike |
| `Amf3Proofs.RoundTrip` | internal/amf3/amf3.go:602-656 | decoding with the encoder's table any encoding of a value without an `AMF3Array` gives its normal form, leaves what followed, and ends with the encoder's table |
| `Amf3Proofs.RoundTripAll` | internal/amf3/amf3.go:165-167 | the same for any series of such values, one table running through all of them |
| `Amf3Sync.Series` | internal/amf3/amf3.go:515-540 | for any series of values without an `AMF3Array`, on a fresh encoder and a fresh decoder, after every number of values the tables are equal, without repetitions, and hold exactly the non-empty strings written so far; all values come back in normal form |
| `Amf3Sync.RoundTripIff` | internal/amf3/amf3.go:816-957 | a value without an `AMF3Array` comes back, its slices as arrays, with equal tables, if and only if its integers have 29 bits, its objects no class name, its names are not empty and its lengths survive |
| `Amf3Arrays.ThoroughlyIff` | internal/amf3/amf3.go:236-259 | for every value, arrays included: it and every value in it come back, from every table and whatever follows, if and only if moreover there is no `AMF3Array` in it |
| `Amf3Arrays.ArrayLost` | internal/amf3/amf3.go:384-402 | an `AMF3Array` does not come back, from any table, unless it has exactly four elements and named entries, none of them with an empty name, of which the first is known to the table or is 09 09 09 09; and not at all from a table that knows its strings |
| `Amf3Arrays.DoubledMarker` | internal/amf3/amf3.go:816-873 | after a doubled marker the decoder, if it succeeds, returns an array of four elements, whatever was written; and if m elements were, m above 0 and surviving, the array has a named entry and the table has gained the first m bytes after the count as a string |
| `Amf3Arrays.AlwaysIff` | internal/amf3/amf3.go:236-259 | for the whole of a value, without asking anything of its parts: where it has no `AMF3Array`, or the first one is met below slices only or has elements, with names and lengths on the way to it that fit and what precedes it encodable, the value comes back from every table and whatever follows if and only if it is canonical |
| `Amf3Arrays.Spoiled` | internal/amf3/amf3.go:384-402 | read with a table that knows its strings, such a value with an array in it, however deep, is rejected, makes the table grow, or is another value |
| `Amf3Arrays.NamedEntryMisread` | internal/amf3/amf3.go:384-402 | the bytes of `AMF3Array{Associative: {"a": AMF3Null{}}}`, and the error they are decoded to |
| `Amf3Sync.EmptyNameLost` | internal/amf3/amf3.go:405-433 | a concrete object with an empty property name comes back without properties and leaves bytes behind |
| `Amf3Sync.EncodeCollects` | internal/amf3/amf3.go:346-381 | the table after a value depends only on the sequence of strings its walk writes |
| `Amf3Sync.CollectGrows` | internal/amf3/amf3.go:515-540 | the table never holds a string twice, never changes an index given out, and gains exactly the new non-empty strings |
| `Amf3Sync.DecodedIsReadable` | internal/amf3/amf3.go:816-957 | in every value the decoder returns, integers have 29 bits, names are not empty and lengths fit a handle; so do the strings it has stored |
| `Amf3Sync.ReadableIsEncodable` | internal/amf3/amf3.go:816-957 | a value without arrays whose decoded form is of that kind is one that round-trips to its normal form |
| `Amf3Sync.CanonicalIsNormal` | internal/amf3/amf3.go:280-285 | the values that come back are the encodable ones whose normal form is the value itself, slices apart |
| `Amf3Truncation.DecodeExtends` | internal/amf3/amf3.go:602-656 | bytes after a value change neither the value nor the tables |
| `Amf3Truncation.CutInside` | internal/amf3/amf3.go:960-994 | input cut anywhere inside a value is rejected as too short, whatever the table |
| `Amf3Go.FromGoIsCanonical` | internal/amf3/amf3.go:170-233 | Go values with non-empty names and lengths that fit, and with none but canonical AMF3 values among them, are encoded as AMF3 values that come back |
| `Amf3Go.ShallowAgrees` | internal/amf3/amf3.go:569-599 | on every input `decodeValue` succeeds, fails and consumes as `decodeAMF3Value` does, leaves the same tables, and returns the Go form of its value |
| `Amf3Go.SupportedIff` | internal/amf3/amf3.go:170-233 | the encoder has a case for a Go value if and only if neither it nor anything in it is an AMF0 value |
| `Amf3Go.InnerOfNormal` | internal/amf3/amf3.go:170-233 | what a Go value comes back as inside a container, told without codec: nil, booleans, doubles and strings as themselves, integers as integers if they have 29 bits and otherwise as doubles, slices as many elements in order, maps the same names |
| `Amf3Go.ImageOfNormal` | internal/amf3/amf3.go:569-599 | the same for a value on its own, which comes back as a Go value |
| `Amf3Bytes.StringBytes` | internal/amf3/amf3.go:515-540 | the bytes of a string: its first index doubled if it is known, otherwise its length doubled plus one and itself |
| `Amf3Bytes.LeafBytes` | internal/amf3/amf3.go:262-310 | the bytes of undefined, null, booleans, integers, doubles and strings |
| `Amf3Bytes.ContainerBytes` | internal/amf3/amf3.go:346-463 | the bytes of objects, of slices, and of an `AMF3Array` with its marker twice, around their entries and elements |
| `Amf3Bytes.SeriesBytes` | internal/amf3/amf3.go:346-381 | entries and elements one after another, with one table through names and values |
| `Amf3Bytes.OtherBytes` | internal/amf3/amf3.go:960-994 | string references are looked up or reported with their index; so are object references out of range, and markers without a value |
| `Amf3Bytes.PropRead` | internal/amf3/amf3.go:843-857 | one more named entry is read into the map, in place of an earlier one of that name; an empty name ends the loop |
| `Amf3Bytes.ArrayRead` | internal/amf3/amf3.go:816-873 | an array with one marker, as other senders write it: its named entries and its elements are read |
| `Amf3Bytes.ObjectRead` | internal/amf3/amf3.go:892-957 | an object with a class name, whatever its traits: its class and its entries are read |
| `Amf3Bytes.GoLeaves` | internal/amf3/amf3.go:569-599 | what the decoder to Go values makes of the bytes of each kind of value that holds no other |
| `Amf3Bytes.GoContainers` | internal/amf3/amf3.go:783-890 | an array without named entries becomes a slice, an object a map, whatever its class |
| `Amf3Go.MixedArray` | internal/amf3/amf3.go:783-813 | in the map made of an array with named entries every element is found under its decimal number, even where an entry had that name, every other entry under its own, and there is nothing else |
| `Amf3Codec.Encoder.WriteU29` | internal/amf3/amf3.go:474-509 | appends the one to four bytes of an integer |
| `Amf3Codec.Encoder.WriteStringWithReference` | internal/amf3/amf3.go:515-540 | the search of the table finds the first index of a known string; a new one is written and added |
| `Amf3Codec.Encoder.EncodeValue` | internal/amf3/amf3.go:236-259 | appends the encoding of a listing of the value, which for an `AMF3Array` has two markers, and grows the table by it |
| `Amf3Codec.Encoder.EncodeArray` | internal/amf3/amf3.go:346-381 | one marker, the count, the named entries and their end, then the dense part, with the table running through both |
| `Amf3Codec.Encoder.EncodeArrayValue` | internal/amf3/amf3.go:384-402 | an `AMF3Array`: a marker, and what `encodeArray` writes |
| `Amf3Codec.Encoder.EncodeGo` | internal/amf3/amf3.go:170-233 | the switch over Go types fails exactly on AMF0 values, wherever they are; otherwise it appends an encoding of an AMF3 value whose decoded form is the Go value told without codec |
| `Amf3Codec.Encoder.EncodeGoObject` | internal/amf3/amf3.go:405-433 | the same for a map of Go values, walked in arbitrary order |
| `Amf3Codec.Encoder.EncodeGoSlice` | internal/amf3/amf3.go:346-381 | the same for a slice of Go values |
| `Amf3Codec.Encoder.EncodeObject` | internal/amf3/amf3.go:405-463 | the same for objects, all of them as anonymous dynamic ones |
| `Amf3Codec.Encoder.EncodeProperties` | internal/amf3/amf3.go:418-433 | the loop over a map in arbitrary order, threading the table through names and values |
| `Amf3Codec.Encoder.EncodeElements` | internal/amf3/amf3.go:374-379 | the loop over the dense part |
| `Amf3Codec.Decoder.ReadU29` | internal/amf3/amf3.go:669-701 | the loop over up to four bytes computes the integer of the recursive reader |
| `Amf3Codec.Decoder.ReadStringWithReference` | internal/amf3/amf3.go:960-994 | a reference is looked up, a new string read and added; an index out of range is an error |
| `Amf3Codec.Decoder.DecodeAmf3Value` | internal/amf3/amf3.go:602-656 | one value, with the table after it: the decoder object is the decoder that the theorems are about |
| `Amf3Codec.Decoder.DecodeArrayValue` | internal/amf3/amf3.go:816-873 | an array that is not a reference: named entries, then as many elements as its handle says |
| `Amf3Codec.Decoder.DecodeObjectValue` | internal/amf3/amf3.go:892-957 | an object that is not a reference: class name, then properties |
| `Amf3Codec.Decoder.DecodeArray` | internal/amf3/amf3.go:783-813 | a slice, or the loop that numbers the elements in a map |
| `Amf3Codec.Decoder.DecodeProperties` | internal/amf3/amf3.go:843-857 | the loop that fills a map until an empty name |
| `Amf3Codec.Decoder.DecodeElements` | internal/amf3/amf3.go:859-867 | the loop over the dense part |
| `Amf3Codec.Decoder.DecodeValue` | internal/amf3/amf3.go:569-599 | the Go form: only the outermost container becomes a Go container |
| `ChunkShape.Shape` | pkg/rtmp/chunk_streamer.go:241-317 | the chunks of a message carry exactly its payload; there are as many as its length divided by the chunk size, rounded up; all but the last are full; all are on its chunk stream, and only the first has a header format other than 3 |
| `ChunkShape.Progresses` | pkg/rtmp/chunk_streamer.go:503-552 | each continuation brings the message nearer to its end by a full chunk, one fewer chunk remains, and the message completes with the last of them |
| `ChunkTransport.BasicRoundTrip` | pkg/rtmp/chunk_streamer.go:425-434 | a format and a chunk stream id in 2..65599 are read back from one, two or three bytes |
| `ChunkTransport.BasicSurvivesIff` | pkg/rtmp/chunk_streamer.go:320-357 | these are all the ids that survive: 0 and 1 are taken for longer forms, larger ones are truncated |
| `ChunkTransport.FirstHeaderRead` | pkg/rtmp/chunk_streamer.go:359-423 | a reader in step reads the first header of a message, extended timestamp included, and remembers length, type and message stream of the message |
| `ChunkTransport.MessageArrives` | pkg/rtmp/chunk_streamer.go:241-317 | a message's chunks, read by a reader in step, deliver it with the last of them and nothing before, touch no other chunk stream, and leave both ends in step |
| `ChunkTransport.EmptyMessage` | pkg/rtmp/chunk_streamer.go:254-314 | a message without payload sends nothing, and the ends stay in step although the writer remembers it |
| `ChunkSession.OneArrives` | pkg/rtmp/chunk_streamer.go:95-145 | reading one message from a byte stream that starts with its chunks returns it, consumes exactly them, and settles the new chunk size on both sides |
| `ChunkSession.Transport` | pkg/rtmp/chunk_streamer.go:95-145 | every legal run, negotiating or not: exactly the non-empty messages, in order, exactly the bytes written, each with the timestamp of the last full header; and the ends in step again |
| `ChunkSession.StampedIsWritten` | pkg/rtmp/chunk_streamer.go:117-145 | what is delivered differs from what was written at most in timestamps |
| `ChunkSession.FreshTransport` | pkg/rtmp/server.go:549-578 | a fresh writer and a fresh reader: the messages with a payload arrive in order with their lengths and with the chunk stream ids 2, 3, ..., 65535, 2, ... where the caller gave none, and both ends finish with the last chunk size of 1..65536 among the SetChunkSize messages, or 128 |
| `ChunkSession.WrittenIsCompleted` | pkg/rtmp/chunk_streamer.go:117-145 | what a run writes is told from the messages alone: payload, length, and the next chunk stream id where none was given |
| `ChunkSession.SizeTold` | pkg/rtmp/server.go:570-578 | the chunk size after any run is the last number of 1..65536 that a message of type 1 carried, high byte first, or the old size |
| `ChunkSession.ExactIff` | pkg/rtmp/chunk_streamer.go:263-296 | a run delivers every timestamp as sent if and only if no message needs a Type 1 header |
| `ChunkSession.ExactWhereClean` | pkg/rtmp/chunk_streamer.go:263-296 | message by message, a timestamp is delivered as sent wherever no Type 1 header went out on that chunk stream since its last Type 0 header: on Type 0 messages, and on Type 2 messages after them |
| `ChunkSession.Type1IsStale` | pkg/rtmp/chunk_streamer.go:436-469 | the first message sent with a Type 1 header in a run that was exact so far arrives with another timestamp |
| `ChunkSession.TimestampLost` | pkg/rtmp/chunk_streamer.go:263-296 | a concrete run that shows it |
| `ChunkSession.FirstChunkConsumed` | pkg/rtmp/chunk_streamer.go:219-228 | the first chunk of a message is consumed exactly if its Type 1 difference, if any, is below 0xFFFFFF; otherwise four bytes are left behind |
| `ChunkSession.ExtendedDeltaMisread` | pkg/rtmp/chunk_streamer.go:373-393 | a concrete message that shows it: a byte of the extended timestamp is delivered as payload |
| `ChunkSession.StepAccounts` | pkg/rtmp/chunk_streamer.go:555-568 | after each chunk the counter has grown by payload and header charge, wrapping around, and the wrapped gap to the last acknowledgement is below the window |
| `ChunkSession.RunAccounts` | pkg/rtmp/chunk_streamer.go:579-588 | over any run the counter is the sum of all charges modulo 2^32, and less than a window is unacknowledged |
| `ChunkSession.AlwaysAccounts` | pkg/rtmp/chunk_streamer.go:579-588 | the same at every point of a run: after every number of chunks the counter is the sum of the charges so far, less than a window is unacknowledged, and the reader is safe |
| `ChunkSession.StepMark` | pkg/rtmp/chunk_streamer.go:579-588 | a chunk moves the acknowledged mark, to the new count, if and only if the window is above 0 and the count is at least a window past the mark, modulo 2^32 |
| `ChunkSession.MarkOfRun` | pkg/rtmp/chunk_streamer.go:579-588 | after any run the mark is the count after the last chunk with which that was so, or what it was before |
| `ChunkHeaders.BasicRead` | pkg/rtmp/chunk_streamer.go:320-357 | what the bytes of a basic header say: format and chunk stream id in one, two or three bytes, low byte first |
| `ChunkHeaders.FullRead` | pkg/rtmp/chunk_streamer.go:359-381 | the eleven bytes of a full header: timestamp, length, type and message stream id, and a difference of 0 |
| `ChunkHeaders.ExtendedRead` | pkg/rtmp/chunk_streamer.go:373-381 | after the timestamp 0xFFFFFF the next four bytes are the timestamp |
| `ChunkHeaders.DifferenceRead` | pkg/rtmp/chunk_streamer.go:382-415 | for every state and every difference of 24 bits: Type 1 and 2 headers add it to the last timestamp modulo 2^32 and keep it, Type 3 adds it again; length, type and message stream as given or as before |
| `ChunkHeaders.StepTold` | pkg/rtmp/chunk_streamer.go:359-423 | the timestamp of a chunk stream after a chunk of any sender, told from the bytes of the chunk |
| `ChunkHeaders.StepRemembers` | pkg/rtmp/chunk_streamer.go:359-423 | length, type and message stream likewise |
| `ChunkHeaders.RunClock` | pkg/rtmp/chunk_streamer.go:382-415 | over any run of any sender, chunk streams interleaved: the timestamp of each is its last full timestamp plus the sum of all differences since, modulo 2^32 |
| `ChunkHeaders.SizeRead` | pkg/rtmp/chunk_streamer.go:487-508 | the payload read after a header is what is missing of the message or the chunk size, and a full chunk where a header has made the message shorter than what has come |
| `ChunkHeaders.AssembledFrom` | pkg/rtmp/chunk_streamer.go:510-553 | a message has all but its payload from its first header, later headers change nothing of it, each chunk goes after the last, and it is complete once as many bytes as its length are in |
| `ChunkHeaders.ChargeIsConsumed` | pkg/rtmp/chunk_streamer.go:555-568 | the bytes charged for a chunk are those consumed, but for the second and third byte of its basic header and an extended timestamp |
| `ChunkHeaders.FirstHeaderBytes` | pkg/rtmp/chunk_streamer.go:263-296 | the format and the bytes of the first header of every message, told from the message and the last one on its chunk stream, extended timestamp included |
| `ChunkHeaders.BasicIsShortest` | pkg/rtmp/chunk_streamer.go:425-434 | a basic header is written in as few bytes as the reader takes for its format and chunk stream id |
| `ChunkHeaders.ContinuationBytes` | pkg/rtmp/chunk_streamer.go:436-485 | a continuation is a basic header and its payload |
| `ChunkHeaders.AudioBytes` | pkg/rtmp/chunk_streamer.go:203-238 | the bytes of a concrete audio message |
| `ChunkHeaders.IdsCycle` | pkg/rtmp/chunk_streamer.go:570-577 | the ids handed out are 2, 3, ..., 65535, and again from 2 |
| `ChunkReader.ChunkFits` | pkg/rtmp/chunk_streamer.go:175-182 | no chunk is larger than the chunk size, even when the subtraction of a changed length wraps around; so the limit at line 180 never fires |
| `ChunkReader.AssembleIsSafe` | pkg/rtmp/chunk_streamer.go:510-553 | a message in progress has at least one byte and fewer than its length, in a buffer of that length; a complete one has as many bytes as its length says |
| `ChunkReader.StepIsSafe` | pkg/rtmp/chunk_streamer.go:148-200 | these hold in every state reached on arbitrary bytes, and the only error is the end of the input |
| `ChunkReader.RunIsSafe` | pkg/rtmp/chunk_streamer.go:148-200 | over any run on arbitrary bytes the reader is safe at the end, and every message delivered on the way has as many bytes as its length |
| `ChunkReader.RunPrefix` | pkg/rtmp/chunk_streamer.go:148-200 | the chunks so far of a run are a run, which delivered what the whole run had delivered by then |
| `ChunkReader.ReadMessageIsSafe` | pkg/rtmp/chunk_streamer.go:95-114 | reading a message keeps them, and delivers only messages with as many bytes as their length |
| `ChunkReader.StepExtends` | pkg/rtmp/chunk_streamer.go:148-200 | bytes after a chunk change neither the chunk nor the reader |
| `ChunkReader.ReadRun` | pkg/rtmp/chunk_streamer.go:95-114 | reading a message from a byte stream is running over its chunks, if the last and no other completes one |
| `ChunkInterleaving.Interleaving` | pkg/rtmp/chunk_streamer.go:148-200 | an interleaving is read if and only if the chunks of each chunk stream are read alone; then each delivers the same messages and is left in the same state |
| `ChunkSession.StreamRead` | pkg/rtmp/chunk_streamer.go:95-114 | reading messages from a byte stream gives exactly those that running over its chunks completes, in order, and consumes exactly the chunks if the last completes one |
| `ChunkInterleaving.InterleavedStream` | pkg/rtmp/chunk_streamer.go:95-114 | an interleaving as one byte stream delivers all messages, and on each chunk stream those that its chunks deliver as a byte stream of their own |
| `ChunkInterleaving.StepsCommute` | pkg/rtmp/chunk_streamer.go:487-553 | chunks of two chunk streams can be exchanged without changing what either delivers or any chunk stream's state |
| `ChunkInterleaving.InterleavedMessages` | pkg/rtmp/chunk_streamer.go:241-317 | messages on different chunk streams, their chunks interleaved in any way, all arrive |
| `ChunkStreaming.ChunkStreamer.constructor` | pkg/rtmp/chunk_streamer.go:57-68 | a new streamer is a fresh writer and a fresh reader: chunk sizes 128, first id 2, window 2500000, nothing received, remembered or acknowledged |
| `ChunkStreaming.ChunkStreamer.SetReadChunkSize` | pkg/rtmp/chunk_streamer.go:71-80 | accepts exactly 1..65536; the size is then the new one, and otherwise stays |
| `ChunkStreaming.ChunkStreamer.SetWriteChunkSize` | pkg/rtmp/chunk_streamer.go:83-92 | accepts exactly 1..65536; the size is then the new one, and otherwise stays |
| `ChunkStreaming.ChunkStreamer.GetNextChunkStreamId` | pkg/rtmp/chunk_streamer.go:570-577 | hands out the next id and skips the reserved ones when it starts over |
| `ChunkStreaming.ChunkStreamer.CutMessage` | pkg/rtmp/chunk_streamer.go:241-317 | the loop over the payload cuts the chunks that the theorems are about, and remembers the message |
| `ChunkStreaming.ChunkStreamer.WriteChunk` | pkg/rtmp/chunk_streamer.go:203-238 | sends basic header, message header, extended timestamp and payload, in that order and nothing else |
| `ChunkStreaming.ChunkStreamer.WriteMessage` | pkg/rtmp/chunk_streamer.go:117-145 | sends the chunks of the message with its length and chunk stream id filled in, and moves the writer on |
| `ChunkStreaming.ChunkStreamer.ReadBasicHeader` | pkg/rtmp/chunk_streamer.go:320-357 | one to three bytes: a format and a chunk stream id |
| `ChunkStreaming.ChunkStreamer.ReadMessageHeader` | pkg/rtmp/chunk_streamer.go:359-423 | reads a header in the light of the chunk stream's state, and makes it the new state |
| `ChunkStreaming.ChunkStreamer.CalculateChunkDataSize` | pkg/rtmp/chunk_streamer.go:487-508 | what is missing of the message, wrapped to 32 bits, but at most the chunk size |
| `ChunkStreaming.ChunkStreamer.ReadChunk` | pkg/rtmp/chunk_streamer.go:148-200 | one chunk from the front of the input |
| `ChunkStreaming.ChunkStreamer.AssembleMessage` | pkg/rtmp/chunk_streamer.go:510-553 | adds a chunk to the message in progress, and hands it over and forgets it once complete |
| `ChunkStreaming.ChunkStreamer.UpdateBytesReceived` | pkg/rtmp/chunk_streamer.go:579-588 | counts bytes in modulo 2^32; the acknowledged mark becomes the new count if and only if the window is above 0 and the count at least a window past the mark |
| `ChunkStreaming.ChunkStreamer.ReadMessage` | pkg/rtmp/chunk_streamer.go:95-114 | terminates on every input, keeps the reader safe, and returns the message and leaves the reader that the theorems are about |
| `ChunkStreaming.ServerConnection.ProcessMessage` | pkg/rtmp/server.go:570-578 | a message of type 1 with four bytes or more, whose first four are a number of 1..65536, high byte first, makes it the read chunk size; no other message changes it |
| `ChunkStreaming.ServerConnection.ReadAndProcess` | pkg/rtmp/server.go:549-566 | a message is processed before the next is read |
| `ChunkStreaming.ServerConnection.Start` | pkg/rtmp/server.go:540-567 | the message loop terminates on every input and receives all messages there are, each processed before the next is read, up to the first failing read |
| `ChunkStreaming.ClientToServer` | pkg/rtmp/server.go:549-578 | a client object and a server object, with chunk sizes set after each SetChunkSize message: for every legal run the server receives exactly the messages with a payload, in order, completed as above, with the timestamps of the last full headers |
| `Commands.FirstDecoded` | internal/protocol/commands.go:417-453 | each value of a command is decoded whatever follows it, with the decoder's table following the encoder's from value to value |
| `Commands.ParseAny` | internal/protocol/commands.go:164-225 | the first n bytes of any values in either encoding, parsed as a command: the right reason for each rejection, values of the wrong type included, or exactly the values that arrived whole; an integer transaction ID is a number in AMF0 and in AMF3 only if it has more than 29 bits |
| `Commands.ParseCut` | internal/protocol/commands.go:164-225 | the first n bytes of a built command, for every n: rejected, for the right reason, if the command object did not arrive whole; otherwise name, transaction ID, command object and exactly the arguments that did |
| `Commands.CommandRoundTrip` | internal/protocol/commands.go:408-453 | builder and parser set up by the same connect command: everything comes back, with any number of arguments and one string table across them; what comes back is told without codec |
| `Commands.UnderstoodIff` | internal/protocol/commands.go:155-190 | a parser in any encoding accepts a built command if and only if it has the builder's encoding |
| `Commands.AcceptedIfAsked` | internal/protocol/commands.go:155-161 | a parser set up by a connect command accepts a command built in AMF3 if and only if that asks for the object encoding 3.0, and one built in AMF0 if and only if not |
| `CommandCodec.CommandParser.SetEncodingFromConnect` | internal/protocol/commands.go:155-161 | 3 if and only if there is a connect command and it asks for the object encoding 3.0, otherwise 0 |
| `CommandCodec.CommandParser.ParseCommand` | internal/protocol/commands.go:164-225 | the sequence of checks and the loop over arguments until the first that cannot be decoded |
| `CommandCodec.CommandBuilder.SetEncodingFromConnect` | internal/protocol/commands.go:408-414 | the same choice as the parser's |
| `CommandCodec.Exchange` | internal/protocol/commands.go:155-225 | a builder object and a parser object set up by the same connect command: what the one builds the other parses, with the same name, transaction ID, command object and arguments, integers and containers as told without codec |
| `CommandCodec.CommandBuilder.BuildCommand` | internal/protocol/commands.go:417-453 | fails exactly when a value, or one inside it, is of the other codec, or for AMF0 a time, or an AMF0 name is too long; otherwise returns an encoding of all values in order, on one encoder |
| `Handshake.ClientSteps` | pkg/rtmp/handshaker.go:67-108 | from each state that can be reached, when the client can move and what its step does to both channels |
| `Handshake.ServerSteps` | pkg/rtmp/handshaker.go:111-152 | the same for the server |
| `Handshake.Reached` | pkg/rtmp/handshaker.go:67-152 | after any interleaving the state, both channels included, is determined by how many steps each party has taken, and no party is ahead of what was sent to it |
| `Handshake.HandshakeAgrees` | pkg/rtmp/handshaker.go:67-152 | no interleaving fails or blocks; each ends after exactly twelve steps, both parties done, channels empty, and the same client time, server time, client random, server random and second client time on both sides |
| `Handshake.PacketBytes` | pkg/rtmp/handshaker.go:167-188 | a packet is four bytes of time, four of second time and 1528 random bytes, and is read as such |
| `Handshake.StatesAt` | pkg/rtmp/handshaker.go:67-152 | the state of each party after each number of its steps |
| `Handshake.ServerAccepts` | pkg/rtmp/handshaker.go:322-343 | on arbitrary input a server finishes if and only if version and echo are right, and has then read exactly the handshake |
| `Handshake.ClientAccepts` | pkg/rtmp/handshaker.go:245-263 | the same for a client |
| `Handshake.EchoBytes` | pkg/rtmp/handshaker.go:322-343 | the input accepted, byte by byte: 3, any packet, the own time, any four bytes, the own random data |
| `Handshake.ServerConversation` | pkg/rtmp/handshaker.go:111-152 | a server that accepts has sent 3, its time, four zero bytes, its random data, and then the time of the client, its second time and the random data of the client; and holds all of both sides |
| `Handshake.ClientConversation` | pkg/rtmp/handshaker.go:67-108 | the same for a client |
| `Handshaking.CompareBytes` | pkg/rtmp/handshaker.go:369-379 | true exactly for equal bytes |
| `Handshaking.Handshaker.WritePacket` | pkg/rtmp/handshaker.go:167-188 | fills a packet byte by byte with two times and the random data, and sends it |
| `Handshaking.Handshaker.SendC0` | pkg/rtmp/handshaker.go:155-165 | sends the byte 3 |
| `Handshaking.Handshaker.SendS0` | pkg/rtmp/handshaker.go:294-297 | sends the byte 3 |
| `Handshaking.Handshaker.SendC1` | pkg/rtmp/handshaker.go:167-188 | sends the client's time, zero and its random data, and keeps them |
| `Handshaking.Handshaker.SendC2` | pkg/rtmp/handshaker.go:191-212 | echoes the server's time and random data |
| `Handshaking.Handshaker.ReceiveS0` | pkg/rtmp/handshaker.go:215-226 | accepts exactly version 3 |
| `Handshaking.Handshaker.ReceiveS1` | pkg/rtmp/handshaker.go:229-242 | takes the server's time and random data |
| `Handshaking.Handshaker.ReceiveS2` | pkg/rtmp/handshaker.go:245-263 | accepts exactly an echo of the client's time and random data |
| `Handshaking.Handshaker.ReceiveC0` | pkg/rtmp/handshaker.go:266-277 | accepts exactly version 3 |
| `Handshaking.Handshaker.ReceiveC1` | pkg/rtmp/handshaker.go:279-292 | takes the client's time and random data |
| `Handshaking.Handshaker.SendS1` | pkg/rtmp/handshaker.go:299-320 | sends the server's time, zero and its random data, and keeps them |
| `Handshaking.Handshaker.ReceiveC2` | pkg/rtmp/handshaker.go:322-343 | accepts exactly an echo of the server's time and random data, and takes the client's second time |
| `Handshaking.Handshaker.SendS2` | pkg/rtmp/handshaker.go:345-366 | echoes the client's time and random data |
| `Handshaking.Handshaker.DoClientHandshake` | pkg/rtmp/handshaker.go:67-108 | does what the client of the protocol does on that input, ends done or failed accordingly, and has sent exactly its packets |
| `Handshaking.Handshaker.DoServerHandshake` | pkg/rtmp/handshaker.go:111-152 | the same for the server |
| `Handshaking.Handshaker.DoHandshake` | pkg/rtmp/handshaker.go:54-64 | succeeds if and only if the peer echoes what it was sent; then it has sent exactly the bytes of the protocol and leaves the input right after the handshake |
| `Registry.RemovedIff` | cmd/rtmp-server/main.go:139-148 | swap-remove gets rid of a subscriber if and only if it was there at most once |
| `Registry.OneGoes` | cmd/rtmp-server/main.go:139-148 | it removes exactly one occurrence and nothing else, whatever it swaps |
| `Registry.DuplicateStays` | cmd/rtmp-server/main.go:139-148 | a subscriber added twice would survive its removal |
| `Registry.SubscriberAdded` | cmd/rtmp-server/main.go:119-126 | subscribing keeps subscribers distinct and adds exactly one, or none if it is there |
| `Registry.SubscriberRemoved` | cmd/rtmp-server/main.go:139-148 | where subscribers are distinct, a removal keeps them so and removes exactly that one |
| `Registry.RunsAreGood` | cmd/rtmp-server/main.go:310-348 | after every run of publish, play and disconnect events each stream stored is active, under its own name, without repeated subscribers |
| `Registry.DisconnectCleans` | cmd/rtmp-server/main.go:296-308 | after a connection disconnects, whatever came before, it is in no stream, and stays out until it publishes or plays again |
| `Registry.RegistryIsHistory` | cmd/rtmp-server/main.go:296-348 | who publishes and who plays each stream, told from the history of events alone: the first publisher until it leaves, and everyone who joined meanwhile until either leaves |
| `StreamManagement.StreamManager.AddStream` | cmd/rtmp-server/main.go:62-82 | stores a fresh active stream without subscribers and touches no other |
| `StreamManagement.StreamManager.RemoveStream` | cmd/rtmp-server/main.go:85-98 | removes that stream and touches no other |
| `StreamManagement.StreamManager.GetStream` | cmd/rtmp-server/main.go:101-107 | there is a result exactly for names in the registry, and it shows what the registry holds under that name |
| `StreamManagement.StreamManager.AddSubscriber` | cmd/rtmp-server/main.go:110-128 | succeeds exactly on active streams; the search keeps a subscriber from being added twice |
| `StreamManagement.StreamManager.RemoveSubscriber` | cmd/rtmp-server/main.go:131-150 | the loop swaps out the first match, in place, in that stream only |
| `StreamManagement.StreamManager.ListStreams` | cmd/rtmp-server/main.go:153-179 | exactly the active streams, with their publishers |
| `StreamManagement.OnPublish` | cmd/rtmp-server/main.go:310-328 | refused exactly if the name is taken by an active stream |
| `StreamManagement.OnPlay` | cmd/rtmp-server/main.go:330-348 | refused exactly if there is no such active stream |
| `StreamManagement.OnDisconnect` | cmd/rtmp-server/main.go:296-308 | the loop over the snapshot, in any order, removes what the connection publishes and its subscriptions, and nothing else |

## Left out

- ChunkSession.Transport: says nothing of runs with a Type 1 difference of 0xFFFFFF or more, which get the ends out of
  step; what happens then is stated for the first chunk only (`ChunkSession.FirstChunkConsumed`).
- ChunkStreaming.ChunkStreamer.ReadMessage: after an error the fields of the streamer are only known to be safe. The
  same holds of the input of every decoder object: after an error it is unspecified.
- ChunkStreaming.ChunkStreamer.AssembleMessage: message buffers are values, so that two messages never share one is
  built in, not proved.
- Handshake.HandshakeAgrees: `conn.Read` may return fewer bytes than asked for; the steps assume full reads. Failures of
  the random source and of writes are left out.
- Amf3Sync.Series: tables of more than 2^27 strings are left out, because their indices do not survive.
- Amf3Arrays.ArrayLost: says nothing of an `AMF3Array` with exactly four elements and no empty name whose first name is
  known to the table, or is 09 09 09 09, while others of its strings are not known.
- Amf3Arrays.AlwaysIff: says nothing of the whole of a value whose first `AMF3Array` lies in an object and has no elements,
  or in which something before the array, or a name or length on the way to it, does not survive; `Amf3Arrays.ThoroughlyIff` covers those by their parts.
- Amf3Codec.Decoder.DecodeAmf3Value: dates, and references to arrays and objects met before, are reported as not
  modelled; the encoder never emits such references.
- Amf3Codec.Decoder.DecodeValue: likewise.
- Amf3Codec.Decoder.DecodeArrayValue: references to arrays are reported as not modelled.
- Amf3Codec.Decoder.DecodeObjectValue: references to objects likewise.
- Amf3Sync.DecodedIsReadable: input that holds dates or such references is an error in the model.
- Amf3Go.ShallowAgrees: on such input both decoders report an error in the model.
- Amf3Truncation.DecodeExtends: likewise; input that holds dates or such references is an error in the model.
- Amf3Truncation.CutInside: likewise.
- Amf3Codec.Encoder.EncodeValue: has no dates, see AMF3 dates below.
- Amf3Codec.Encoder.EncodeGo: times are left out for the same reason.
- Amf3Codec.Encoder.EncodeGoObject: likewise.
- Amf3Codec.Encoder.EncodeGoSlice: likewise.
- CommandCodec.CommandBuilder.BuildCommand: times as arguments of AMF3 commands are left out for the same reason.
- StreamManagement.OnPublish: handlers run one at a time. Publishing checks and adds under separate locks, and races
  between handlers are not modelled. Connections are known by their ids only; start times and metadata are left out.
- AMF3 dates: the encoder puts only dates into its object table, the decoder arrays and objects too, and the marker of an
  `AMF3Date` is written twice as that of an array is.
- AMF3 traits and externalizable objects, which the encoder never emits; objects are compared by class name and
  properties.
- The meaning of doubles, the conversion of integers to doubles, and `AMF0Date.Time`.
- Sockets, deadlines, contexts, goroutines, logging and buffer pools.
- Type 3 extended timestamps and Abort messages, which the code does not implement, and sending acknowledgements, of
  which it only keeps count.
- `forwardToSubscribers` and `handleMetadata`, which work on a snapshot without subscribers.
- Connection limits, `Server.Start` and `Stop`, the stubs of `pkg/rtmp/client.go`, flags and `String` methods.
- Copying fields out of connect, play and publish commands, and the `Build...` wrappers around `BuildCommand`.
