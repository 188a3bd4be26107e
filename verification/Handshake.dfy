/** The handshake as a protocol of two parties over two byte channels (section 5.2 of the RTMP 1.0 specification).

    A receiving step waits for its packet to be there in full. Clock readings and random data are parameters of
    a run. */
module Handshake {
  import opened Wire
  import opened Numbers

  const VERSION: byte := 3
  const PACKET_SIZE := 1536
  const RANDOM_SIZE := 1528

  datatype State = Uninitialized | VersionSent | AckSent | HandshakeDone | Failed

  /** What a party holds. */
  datatype Party = Party(state: State, clientTime: u32, serverTime: u32, clientRandom: Bytes, serverRandom: Bytes,
                         clientTime2: u32, serverTime2: u32)

  function Blank(): Bytes {
    seq(RANDOM_SIZE, _ => 0)
  }

  function NewParty(): Party {
    Party(Uninitialized, 0, 0, Blank(), Blank(), 0, 0)
  }

  /** The clock readings and random data of both parties. */
  datatype Env = Env(clientTime: u32, clientRandom: Bytes, clientTime2: u32,
                     serverTime: u32, serverRandom: Bytes, serverTime2: u32)

  predicate Proper(env: Env) {
    |env.clientRandom| == RANDOM_SIZE == |env.serverRandom|
  }

  function Packet(time: u32, time2: u32, random: Bytes): Bytes {
    Be32(time) + Be32(time2) + random
  }

  function TimeOf(packet: Bytes): u32
    requires |packet| == PACKET_SIZE
  {
    FromBe32(packet[..4])
  }

  function Time2Of(packet: Bytes): u32
    requires |packet| == PACKET_SIZE
  {
    FromBe32(packet[4..8])
  }

  lemma PacketParts(time: u32, time2: u32, random: Bytes)
    requires |random| == RANDOM_SIZE
    ensures var p := Packet(time, time2, random);
            |p| == PACKET_SIZE && TimeOf(p) == time && Time2Of(p) == time2 && p[8..] == random
  {
    var p := Packet(time, time2, random);
    Be32RoundTrip(time);
    Be32RoundTrip(time2);
    assert p[..4] == Be32(time) && p[4..8] == Be32(time2);
  }

  // ----- One party

  /** A party that has taken `pc` of its six steps. */
  datatype Process = Process(pc: nat, party: Party)

  /** A step: the bytes it takes from the incoming channel, and the bytes it sends. */
  datatype Move = Move(process: Process, taken: nat, sent: Bytes)

  function Accept(p: Process, taken: nat, party: Party): Option<Move> {
    Some(Move(Process(p.pc + 1, party), taken, []))
  }

  function Reject(p: Process, taken: nat): Option<Move> {
    Some(Move(Process(p.pc + 1, p.party.(state := Failed)), taken, []))
  }

  function Send(p: Process, party: Party, sent: Bytes): Option<Move> {
    Some(Move(Process(p.pc + 1, party), 0, sent))
  }

  /** The client's next step; none if it waits, is done or has failed. */
  function ClientMove(env: Env, p: Process, incoming: Bytes): (m: Option<Move>)
    ensures m.Some? ==> m.value.taken <= |incoming| && m.value.process.pc == p.pc + 1 <= 6
  {
    var h := p.party;
    if h.state.Failed? then None
    else if p.pc == 0 then Send(p, h.(state := VersionSent), [VERSION])
    else if p.pc == 1 then
      Send(p, h.(clientTime := env.clientTime, clientRandom := env.clientRandom),
           Packet(env.clientTime, 0, env.clientRandom))
    else if p.pc == 2 then
      if |incoming| < 1 then None
      else if incoming[0] != VERSION then Reject(p, 1)
      else Accept(p, 1, h)
    else if p.pc == 3 then
      if |incoming| < PACKET_SIZE then None else
        var s1 := incoming[..PACKET_SIZE];
        Accept(p, PACKET_SIZE, h.(serverTime := TimeOf(s1), serverRandom := s1[8..]))
    else if p.pc == 4 then
      Send(p, h.(clientTime2 := env.clientTime2, state := AckSent),
           Packet(h.serverTime, env.clientTime2, h.serverRandom))
    else if p.pc == 5 then
      if |incoming| < PACKET_SIZE then None else
        var s2 := incoming[..PACKET_SIZE];
        if TimeOf(s2) != h.clientTime || s2[8..] != h.clientRandom then Reject(p, PACKET_SIZE)
        else Accept(p, PACKET_SIZE, h.(state := HandshakeDone))
    else None
  }

  /** The server's next step. A party that rejects the random data of C2 has already taken its second time. */
  function ServerMove(env: Env, p: Process, incoming: Bytes): (m: Option<Move>)
    ensures m.Some? ==> m.value.taken <= |incoming| && m.value.process.pc == p.pc + 1 <= 6
  {
    var h := p.party;
    if h.state.Failed? then None
    else if p.pc == 0 then
      if |incoming| < 1 then None
      else if incoming[0] != VERSION then Reject(p, 1)
      else Accept(p, 1, h)
    else if p.pc == 1 then
      if |incoming| < PACKET_SIZE then None else
        var c1 := incoming[..PACKET_SIZE];
        Accept(p, PACKET_SIZE, h.(clientTime := TimeOf(c1), clientRandom := c1[8..], state := VersionSent))
    else if p.pc == 2 then Send(p, h, [VERSION])
    else if p.pc == 3 then
      Send(p, h.(serverTime := env.serverTime, serverRandom := env.serverRandom),
           Packet(env.serverTime, 0, env.serverRandom))
    else if p.pc == 4 then
      if |incoming| < PACKET_SIZE then None else
        var c2 := incoming[..PACKET_SIZE];
        if TimeOf(c2) != h.serverTime then Reject(p, PACKET_SIZE)
        else if c2[8..] != h.serverRandom then
          Reject(p.(party := h.(clientTime2 := Time2Of(c2))), PACKET_SIZE)
        else Accept(p, PACKET_SIZE, h.(clientTime2 := Time2Of(c2)))
    else if p.pc == 5 then
      Send(p, h.(serverTime2 := env.serverTime2, state := HandshakeDone),
           Packet(h.clientTime, env.serverTime2, h.clientRandom))
    else None
  }

  datatype Role = Client | Server

  function MoveOf(role: Role, env: Env, p: Process, incoming: Bytes): (m: Option<Move>)
    ensures m.Some? ==> m.value.taken <= |incoming| && m.value.process.pc == p.pc + 1 <= 6
  {
    match role
    case Client => ClientMove(env, p, incoming)
    case Server => ServerMove(env, p, incoming)
  }

  // ----- Both parties

  datatype System = System(client: Process, server: Process, toServer: Bytes, toClient: Bytes)

  function Initial(): System {
    System(Process(0, NewParty()), Process(0, NewParty()), [], [])
  }

  /** One step of one party; none if it cannot move. */
  function Next(env: Env, s: System, role: Role): Option<System> {
    match role
    case Client =>
      (match ClientMove(env, s.client, s.toClient)
       case Some(m) => Some(System(m.process, s.server, s.toServer + m.sent, s.toClient[m.taken..]))
       case None => None)
    case Server =>
      (match ServerMove(env, s.server, s.toServer)
       case Some(m) => Some(System(s.client, m.process, s.toServer[m.taken..], s.toClient + m.sent))
       case None => None)
  }

  /** The system after the steps of `schedule`, if each can be taken in its turn. */
  function Run(env: Env, schedule: seq<Role>): Option<System> {
    if schedule == [] then Some(Initial()) else
      match Run(env, schedule[..|schedule| - 1])
      case Some(s) => Next(env, s, schedule[|schedule| - 1])
      case None => None
  }

  // ----- Packets, byte by byte

  /** A packet: four bytes of time and four of second time, high byte first, and 1528 random bytes. */
  lemma PacketBytes(time: seq<byte>, time2: seq<byte>, random: Bytes)
    requires |time| == |time2| == 4 && |random| == 1528
    ensures var p := Packet(High4(time), High4(time2), random);
            && p == time + time2 + random && |p| == 1536
            && TimeOf(p) == High4(time) && Time2Of(p) == High4(time2)
  {
    hide High4;
    FourBytes(time);
    FourBytes(time2);
    PacketParts(High4(time), High4(time2), random);
  }

  // ----- The reachable systems

  function ClientAt(env: Env, c: nat): Party {
    var h := if c >= 1 then NewParty().(state := VersionSent) else NewParty();
    var h := if c >= 2 then h.(clientTime := env.clientTime, clientRandom := env.clientRandom) else h;
    var h := if c >= 4 then h.(serverTime := env.serverTime, serverRandom := env.serverRandom) else h;
    var h := if c >= 5 then h.(clientTime2 := env.clientTime2, state := AckSent) else h;
    if c >= 6 then h.(state := HandshakeDone) else h
  }

  function ServerAt(env: Env, s: nat): Party {
    var h := if s >= 2
             then NewParty().(clientTime := env.clientTime, clientRandom := env.clientRandom, state := VersionSent)
             else NewParty();
    var h := if s >= 4 then h.(serverTime := env.serverTime, serverRandom := env.serverRandom) else h;
    var h := if s >= 5 then h.(clientTime2 := env.clientTime2) else h;
    if s >= 6 then h.(serverTime2 := env.serverTime2, state := HandshakeDone) else h
  }

  /** The packets on a channel: those that one side has sent and the other has not yet taken. */
  function ToServerAt(env: Env, c: nat, s: nat): Bytes {
    (if c >= 1 && s < 1 then [VERSION] else [])
    + (if c >= 2 && s < 2 then Packet(env.clientTime, 0, env.clientRandom) else [])
    + (if c >= 5 && s < 5 then Packet(env.serverTime, env.clientTime2, env.serverRandom) else [])
  }

  function ToClientAt(env: Env, c: nat, s: nat): Bytes {
    (if s >= 3 && c < 3 then [VERSION] else [])
    + (if s >= 4 && c < 4 then Packet(env.serverTime, 0, env.serverRandom) else [])
    + (if s >= 6 && c < 6 then Packet(env.clientTime, env.serverTime2, env.clientRandom) else [])
  }

  function At(env: Env, c: nat, s: nat): System {
    System(Process(c, ClientAt(env, c)), Process(s, ServerAt(env, s)), ToServerAt(env, c, s), ToClientAt(env, c, s))
  }

  /** No party takes a packet before the other has sent it. */
  predicate Causal(c: nat, s: nat) {
    && c <= 6 && s <= 6
    && (s >= 1 ==> c >= 1) && (s >= 2 ==> c >= 2) && (s >= 5 ==> c >= 5)
    && (c >= 3 ==> s >= 3) && (c >= 4 ==> s >= 4) && (c >= 6 ==> s >= 6)
  }

  /** Whether a party at one of its steps can take it. */
  predicate ClientEnabled(c: nat, s: nat) {
    c < 2 || c == 4 || (c == 2 && s >= 3) || (c == 3 && s >= 4) || (c == 5 && s >= 6)
  }

  predicate ServerEnabled(c: nat, s: nat) {
    s == 2 || s == 3 || s == 5 || (s == 0 && c >= 1) || (s == 1 && c >= 2) || (s == 4 && c >= 5)
  }

  /** How far each party has come, from the number of its steps. */
  lemma StatesAt(env: Env, c: nat, s: nat)
    requires c <= 6 && s <= 6
    ensures At(env, c, s).client.party.state
            == [Uninitialized, VersionSent, VersionSent, VersionSent, VersionSent, AckSent, HandshakeDone][c]
    ensures At(env, c, s).server.party.state
            == [Uninitialized, Uninitialized, VersionSent, VersionSent, VersionSent, VersionSent, HandshakeDone][s]
  {
  }

  lemma TakeFirst(a: Bytes, b: Bytes)
    ensures (a + b)[..|a|] == a && (a + b)[|a|..] == b
  {
  }

  lemma ClientSteps(env: Env, c: nat, s: nat)
    requires Proper(env) && Causal(c, s)
    ensures Next(env, At(env, c, s), Client) == if ClientEnabled(c, s) then Some(At(env, c + 1, s)) else None
  {
    hide Packet, TimeOf, Time2Of;
    var s1 := Packet(env.serverTime, 0, env.serverRandom);
    var s2 := Packet(env.clientTime, env.serverTime2, env.clientRandom);
    PacketParts(env.serverTime, 0, env.serverRandom);
    PacketParts(env.clientTime, env.serverTime2, env.clientRandom);
    PacketParts(env.clientTime, 0, env.clientRandom);
    PacketParts(env.serverTime, env.clientTime2, env.serverRandom);
    var before, after := ToClientAt(env, c, s), ToClientAt(env, c + 1, s);
    if c == 2 && s >= 3 {
      assert before == [VERSION] + after;
    } else if c == 3 && s >= 4 {
      assert before == s1 + after;
      TakeFirst(s1, after);
    } else if c == 5 && s >= 6 {
      assert before == s2 + after;
      TakeFirst(s2, after);
    } else if c < 2 || c == 4 {
      assert after == before == before[0..];
    }
    var sent := if c == 0 then [VERSION]
                else if c == 1 then Packet(env.clientTime, 0, env.clientRandom)
                else if c == 4 then Packet(env.serverTime, env.clientTime2, env.serverRandom)
                else [];
    assert ToServerAt(env, c + 1, s) == ToServerAt(env, c, s) + sent;
  }

  lemma ServerSteps(env: Env, c: nat, s: nat)
    requires Proper(env) && Causal(c, s)
    ensures Next(env, At(env, c, s), Server) == if ServerEnabled(c, s) then Some(At(env, c, s + 1)) else None
  {
    hide Packet, TimeOf, Time2Of;
    var c1 := Packet(env.clientTime, 0, env.clientRandom);
    var c2 := Packet(env.serverTime, env.clientTime2, env.serverRandom);
    PacketParts(env.serverTime, 0, env.serverRandom);
    PacketParts(env.clientTime, env.serverTime2, env.clientRandom);
    PacketParts(env.clientTime, 0, env.clientRandom);
    PacketParts(env.serverTime, env.clientTime2, env.serverRandom);
    var before, after := ToServerAt(env, c, s), ToServerAt(env, c, s + 1);
    if s == 0 && c >= 1 {
      assert before == [VERSION] + after;
    } else if s == 1 && c >= 2 {
      assert before == c1 + after;
      TakeFirst(c1, after);
    } else if s == 4 && c >= 5 {
      assert before == c2 + after;
      TakeFirst(c2, after);
    } else if s == 2 || s == 3 || s == 5 {
      assert after == before == before[0..];
    }
    var sent := if s == 2 then [VERSION]
                else if s == 3 then Packet(env.serverTime, 0, env.serverRandom)
                else if s == 5 then Packet(env.clientTime, env.serverTime2, env.clientRandom)
                else [];
    assert ToClientAt(env, c, s + 1) == ToClientAt(env, c, s) + sent;
  }

  /** Every interleaving of the steps of both parties: the system reached is the one determined by how many steps
      each has taken. */
  lemma {:induction false} Reached(env: Env, schedule: seq<Role>)
    requires Proper(env) && Run(env, schedule).Some?
    ensures var s := Run(env, schedule).value;
            && Causal(s.client.pc, s.server.pc) && s == At(env, s.client.pc, s.server.pc)
            && s.client.pc + s.server.pc == |schedule|
    decreases |schedule|
  {
    hide Next, At;
    if schedule == [] {
      InitialAt(env);
    } else {
      var head, role := schedule[..|schedule| - 1], schedule[|schedule| - 1];
      Reached(env, head);
      var s := Run(env, head).value;
      ClientSteps(env, s.client.pc, s.server.pc);
      ServerSteps(env, s.client.pc, s.server.pc);
      CountsAt(env, s.client.pc + 1, s.server.pc);
      CountsAt(env, s.client.pc, s.server.pc + 1);
      match role {
        case Client => assert Run(env, schedule) == Next(env, s, Client);
        case Server => assert Run(env, schedule) == Next(env, s, Server);
      }
    }
  }

  lemma InitialAt(env: Env)
    ensures At(env, 0, 0) == Initial()
  {
  }

  lemma CountsAt(env: Env, c: nat, s: nat)
    ensures At(env, c, s).client.pc == c && At(env, c, s).server.pc == s
  {
  }

  ghost predicate CanMove(env: Env, s: System) {
    Next(env, s, Client).Some? || Next(env, s, Server).Some?
  }

  /** Both parties are done and hold the same times and random data. */
  predicate Agreed(env: Env, s: System) {
    var c, v := s.client.party, s.server.party;
    && c.state == v.state == HandshakeDone
    && c.clientTime == v.clientTime == env.clientTime && c.serverTime == v.serverTime == env.serverTime
    && c.clientRandom == v.clientRandom == env.clientRandom && c.serverRandom == v.serverRandom == env.serverRandom
    && c.clientTime2 == v.clientTime2 == env.clientTime2
  }

  /** Every run, however the parties take turns: neither party ever fails; some party can move until twelve steps
      have been taken; and after exactly twelve, none can, both channels are empty, and the parties agree. */
  lemma HandshakeAgrees(env: Env, schedule: seq<Role>)
    requires Proper(env) && Run(env, schedule).Some?
    ensures var s := Run(env, schedule).value;
            && |schedule| <= 12
            && s.client.party.state != Failed && s.server.party.state != Failed
            && (CanMove(env, s) <==> |schedule| < 12)
            && (|schedule| == 12 ==> Agreed(env, s) && s.toServer == [] && s.toClient == [])
  {
    hide Next, Packet;
    Reached(env, schedule);
    var s := Run(env, schedule).value;
    ClientSteps(env, s.client.pc, s.server.pc);
    ServerSteps(env, s.client.pc, s.server.pc);
  }

  // ----- One party against arbitrary input

  /** A party once it can move no more on the given input: what it left unread, and what it sent. */
  datatype Ended = Ended(process: Process, rest: Bytes, sent: Bytes)

  function RunAlone(role: Role, env: Env, p: Process, incoming: Bytes): Ended
    decreases 6 - p.pc
  {
    match MoveOf(role, env, p, incoming)
    case None => Ended(p, incoming, [])
    case Some(m) =>
      var e := RunAlone(role, env, m.process, incoming[m.taken..]);
      Ended(e.process, e.rest, m.sent + e.sent)
  }

  /** The input that a party accepts: a version, a packet, and one that echoes the time and the random data that
      the party sent. The second time of the echo is not looked at, nor are the zero bytes of the first packet. */
  predicate Echoes(input: Bytes, time: u32, random: Bytes) {
    && |input| >= 1 + 2 * PACKET_SIZE
    && input[0] == VERSION
    && (var echo := input[1 + PACKET_SIZE..][..PACKET_SIZE];
        TimeOf(echo) == time && echo[8..] == random)
  }

  lemma Taken(role: Role, env: Env, p: Process, incoming: Bytes, m: Move, rest: Bytes)
    requires MoveOf(role, env, p, incoming) == Some(m) && rest == incoming[m.taken..]
    ensures var e, e' := RunAlone(role, env, p, incoming), RunAlone(role, env, m.process, rest);
            e.process == e'.process && e.rest == e'.rest && e.sent == m.sent + e'.sent
  {
  }

  lemma Stuck(role: Role, env: Env, p: Process, incoming: Bytes)
    requires MoveOf(role, env, p, incoming).None?
    ensures RunAlone(role, env, p, incoming) == Ended(p, incoming, [])
  {
  }

  /** The run `goal` lies ahead; what it will have sent follows `base`. */
  ghost predicate Toward(goal: Ended, base: Bytes, role: Role, env: Env, p: Process, incoming: Bytes, out: Bytes) {
    var e := RunAlone(role, env, p, incoming);
    e.process == goal.process && e.rest == goal.rest && out + e.sent == base + goal.sent
  }

  lemma Outset(role: Role, env: Env, h: Party, incoming: Bytes, out: Bytes)
    ensures Toward(RunAlone(role, env, Process(0, h), incoming), out, role, env, Process(0, h), incoming, out)
  {
  }

  lemma Sends(goal: Ended, base: Bytes, role: Role, env: Env, p: Process, incoming: Bytes, out: Bytes,
              party: Party, sent: Bytes, out': Bytes)
    requires Toward(goal, base, role, env, p, incoming, out)
    requires MoveOf(role, env, p, incoming) == Send(p, party, sent) && out' == out + sent
    ensures Toward(goal, base, role, env, Process(p.pc + 1, party), incoming, out')
  {
    hide MoveOf;
    assert incoming[0..] == incoming;
    Concat(out, sent, RunAlone(role, env, Process(p.pc + 1, party), incoming).sent);
  }

  lemma Takes(goal: Ended, base: Bytes, role: Role, env: Env, p: Process, incoming: Bytes, out: Bytes,
              party: Party, taken: nat, rest: Bytes)
    requires Toward(goal, base, role, env, p, incoming, out)
    requires MoveOf(role, env, p, incoming) == Accept(p, taken, party) && rest == incoming[taken..]
    ensures Toward(goal, base, role, env, Process(p.pc + 1, party), rest, out)
  {
    hide MoveOf;
    var e := RunAlone(role, env, Process(p.pc + 1, party), rest);
    assert [] + e.sent == e.sent;
  }

  /** A party that waits for ever or rejects what it reads. */
  lemma Stops(goal: Ended, base: Bytes, role: Role, env: Env, p: Process, incoming: Bytes, out: Bytes)
    requires Toward(goal, base, role, env, p, incoming, out) && p.party.state != HandshakeDone
    requires var m := MoveOf(role, env, p, incoming);
             m.Some? ==> m.value.process.party.state == Failed && m.value.sent == []
    ensures out == base + goal.sent && goal.process.party.state != HandshakeDone
  {
    var m := MoveOf(role, env, p, incoming);
    if m.Some? {
      Stuck(role, env, m.value.process, incoming[m.value.taken..]);
    }
  }

  /** A party that has taken its last step. */
  lemma Ends(goal: Ended, base: Bytes, role: Role, env: Env, p: Process, incoming: Bytes, out: Bytes)
    requires Toward(goal, base, role, env, p, incoming, out) && p.pc == 6
    ensures goal.process == p && goal.rest == incoming && out == base + goal.sent
  {
  }

  /** From its last receiving step on, a server finishes exactly on an echo. */
  lemma ServerFinishes(env: Env, h: Party, input: Bytes)
    requires h.state == VersionSent
    ensures var e := RunAlone(Server, env, Process(4, h), input);
            var done := |input| >= PACKET_SIZE && TimeOf(input[..PACKET_SIZE]) == h.serverTime
                        && input[..PACKET_SIZE][8..] == h.serverRandom;
            (e.process.party.state == HandshakeDone <==> done) && (done ==> e.rest == input[PACKET_SIZE..])
  {
    hide TimeOf, Time2Of, Packet, RunAlone;
    var p := Process(4, h);
    var m := MoveOf(Server, env, p, input);
    if m.None? {
      Stuck(Server, env, p, input);
    } else {
      var rest := input[PACKET_SIZE..];
      Taken(Server, env, p, input, m.value, rest);
      if m.value.process.party.state == Failed {
        Stuck(Server, env, m.value.process, rest);
      } else {
        var last := MoveOf(Server, env, m.value.process, rest).value;
        assert rest == rest[0..];
        Taken(Server, env, m.value.process, rest, last, rest);
        Stuck(Server, env, last.process, rest);
      }
    }
  }

  /** On arbitrary input a server completes the handshake if and only if the input echoes its time and its random
      data, and then has read exactly the handshake. */
  lemma ServerAccepts(env: Env, h: Party, input: Bytes)
    requires Proper(env) && h.state == Uninitialized
    ensures var e := RunAlone(Server, env, Process(0, h), input);
            && (e.process.party.state == HandshakeDone <==> Echoes(input, env.serverTime, env.serverRandom))
            && (e.process.party.state == HandshakeDone ==> e.rest == input[1 + 2 * PACKET_SIZE..])
  {
    hide TimeOf, Time2Of, Packet, RunAlone;
    var p0 := Process(0, h);
    var m0 := MoveOf(Server, env, p0, input);
    if m0.None? {
      Stuck(Server, env, p0, input);
    } else {
      var r1, p1 := input[1..], m0.value.process;
      Taken(Server, env, p0, input, m0.value, r1);
      var m1 := MoveOf(Server, env, p1, r1);
      if m1.None? {
        Stuck(Server, env, p1, r1);
      } else {
        var r2 := input[1 + PACKET_SIZE..];
        assert r2 == r1[PACKET_SIZE..] && r2[0..] == r2;
        Taken(Server, env, p1, r1, m1.value, r2);
        var m2 := MoveOf(Server, env, m1.value.process, r2).value;
        Taken(Server, env, m1.value.process, r2, m2, r2);
        var m3 := MoveOf(Server, env, m2.process, r2).value;
        Taken(Server, env, m2.process, r2, m3, r2);
        ServerFinishes(env, m3.process.party, r2);
        if |r2| >= PACKET_SIZE {
          assert r2[PACKET_SIZE..] == input[1 + 2 * PACKET_SIZE..];
        }
      }
    }
  }

  lemma ClientFinishes(env: Env, h: Party, input: Bytes)
    requires h.state == VersionSent
    ensures var e := RunAlone(Client, env, Process(4, h), input);
            var done := |input| >= PACKET_SIZE && TimeOf(input[..PACKET_SIZE]) == h.clientTime
                        && input[..PACKET_SIZE][8..] == h.clientRandom;
            (e.process.party.state == HandshakeDone <==> done) && (done ==> e.rest == input[PACKET_SIZE..])
  {
    hide TimeOf, Time2Of, Packet, RunAlone;
    var p := Process(4, h);
    var m := MoveOf(Client, env, p, input).value;
    assert input == input[0..];
    Taken(Client, env, p, input, m, input);
    var last := MoveOf(Client, env, m.process, input);
    if last.None? {
      Stuck(Client, env, m.process, input);
    } else {
      Taken(Client, env, m.process, input, last.value, input[PACKET_SIZE..]);
      Stuck(Client, env, last.value.process, input[PACKET_SIZE..]);
    }
  }

  /** And so does a client. */
  lemma ClientAccepts(env: Env, h: Party, input: Bytes)
    requires Proper(env) && h.state == Uninitialized
    ensures var e := RunAlone(Client, env, Process(0, h), input);
            && (e.process.party.state == HandshakeDone <==> Echoes(input, env.clientTime, env.clientRandom))
            && (e.process.party.state == HandshakeDone ==> e.rest == input[1 + 2 * PACKET_SIZE..])
  {
    hide TimeOf, Time2Of, Packet, RunAlone;
    var p0 := Process(0, h);
    assert input[0..] == input;
    var m0 := MoveOf(Client, env, p0, input).value;
    Taken(Client, env, p0, input, m0, input);
    var m1 := MoveOf(Client, env, m0.process, input).value;
    Taken(Client, env, m0.process, input, m1, input);
    var m2 := MoveOf(Client, env, m1.process, input);
    if m2.None? {
      Stuck(Client, env, m1.process, input);
    } else {
      var r3, p3 := input[1..], m2.value.process;
      Taken(Client, env, m1.process, input, m2.value, r3);
      var m3 := MoveOf(Client, env, p3, r3);
      if m3.None? {
        Stuck(Client, env, p3, r3);
      } else {
        var r4 := input[1 + PACKET_SIZE..];
        assert r4 == r3[PACKET_SIZE..];
        Taken(Client, env, p3, r3, m3.value, r4);
        ClientFinishes(env, m3.value.process.party, r4);
        if |r4| >= PACKET_SIZE {
          assert r4[PACKET_SIZE..] == input[1 + 2 * PACKET_SIZE..];
        }
      }
    }
  }

  // ----- What an accepted handshake sends and leaves

  /** The bytes of a whole handshake to a peer that sent `input`: a version, the own time, four zero bytes and the own
      random data, and then the peer's time, the own second time and the peer's random data. */
  function Conversation(time: u32, random: Bytes, time2: u32, input: Bytes): Bytes
    requires |input| >= 1537
  {
    [3] + (Be32(time) + [0, 0, 0, 0] + random) + (input[1..5] + Be32(time2) + input[9..1537])
  }

  /** The input accepted, byte by byte: a version, any packet, and the own time, any second time and the own random
      data. */
  lemma EchoBytes(input: Bytes, time: seq<byte>, random: Bytes)
    requires |time| == 4
    ensures Echoes(input, High4(time), random) <==>
            |input| >= 3073 && input[0] == 3 && input[1537..1541] == time && input[1545..3073] == random
  {
    hide High4, FromBe32;
    if |input| >= 3073 {
      var echo := input[1537..][..1536];
      assert echo[..4] == input[1537..1541] && echo[8..] == input[1545..3073];
      NumbersRead(echo[..4]);
      FourBytes(time);
      FourBytes(echo[..4]);
    }
  }

  lemma PacketOf(p: Bytes, time2: u32)
    requires |p| == 1536
    ensures Packet(TimeOf(p), time2, p[8..]) == p[..4] + Be32(time2) + p[8..]
  {
    hide High4, FromBe32, Be32;
    NumbersRead(p[..4]);
    FourBytes(p[..4]);
  }

  /** The two packets in an accepted input, and the times and random data in them. */
  lemma InputParts(input: Bytes)
    requires |input| >= 3073
    ensures input[1..][..1536] == input[1..1537] && input[1..][1536..] == input[1537..]
    ensures input[1537..][..1536] == input[1537..3073]
    ensures TimeOf(input[1..1537]) == High4(input[1..5]) && input[1..1537][8..] == input[9..1537]
    ensures Time2Of(input[1537..3073]) == High4(input[1541..1545])
    ensures input[1..1537][..4] == input[1..5]
  {
    hide High4, FromBe32;
    assert input[1..1537][..4] == input[1..5] && input[1537..3073][4..8] == input[1541..1545];
    NumbersRead(input[1..5]);
    NumbersRead(input[1541..1545]);
  }

  lemma Parts(a: Bytes, b: Bytes)
    ensures [] + ([] + ([VERSION] + (a + ([] + (b + []))))) == [3] + a + b
    ensures [VERSION] + (a + ([] + ([] + (b + ([] + []))))) == [3] + a + b
  {
  }

  /** A server that accepts has sent the whole handshake, and holds the times and random data of both sides. */
  lemma ServerConversation(env: Env, h: Party, input: Bytes)
    requires Proper(env) && h.state == Uninitialized && Echoes(input, env.serverTime, env.serverRandom)
    ensures var e := RunAlone(Server, env, Process(0, h), input);
            && e.sent == Conversation(env.serverTime, env.serverRandom, env.serverTime2, input)
            && e.process.party == Party(HandshakeDone, High4(input[1..5]), env.serverTime, input[9..1537],
                                        env.serverRandom, High4(input[1541..1545]), env.serverTime2)
  {
    hide TimeOf, Time2Of, Packet, RunAlone, High4;
    InputParts(input);
    var c1, c2, r1, r2 := input[1..1537], input[1537..3073], input[1..], input[1537..];
    var h2 := h.(clientTime := TimeOf(c1), clientRandom := c1[8..], state := VersionSent);
    var h4 := h2.(serverTime := env.serverTime, serverRandom := env.serverRandom);
    var h5 := h4.(clientTime2 := Time2Of(c2));
    var h6 := h5.(serverTime2 := env.serverTime2, state := HandshakeDone);
    var s1, s2 := Packet(env.serverTime, 0, env.serverRandom), Packet(TimeOf(c1), env.serverTime2, c1[8..]);
    var end := r2[PACKET_SIZE..];
    Taken(Server, env, Process(0, h), input, Move(Process(1, h), 1, []), r1);
    Taken(Server, env, Process(1, h), r1, Move(Process(2, h2), PACKET_SIZE, []), r2);
    Taken(Server, env, Process(2, h2), r2, Move(Process(3, h2), 0, [VERSION]), r2);
    Taken(Server, env, Process(3, h2), r2, Move(Process(4, h4), 0, s1), r2);
    Taken(Server, env, Process(4, h4), r2, Move(Process(5, h5), PACKET_SIZE, []), end);
    Taken(Server, env, Process(5, h5), end, Move(Process(6, h6), 0, s2), end);
    Stuck(Server, env, Process(6, h6), end);
    Parts(s1, s2);
    ZeroPacket(env.serverTime, env.serverRandom);
    PacketOf(c1, env.serverTime2);
  }

  lemma ZeroPacket(time: u32, random: Bytes)
    ensures Packet(time, 0, random) == Be32(time) + [0, 0, 0, 0] + random
  {
    assert Be32(0) == [0, 0, 0, 0];
  }

  /** And so has a client, which leaves the server's second time alone. */
  lemma ClientConversation(env: Env, h: Party, input: Bytes)
    requires Proper(env) && h.state == Uninitialized && Echoes(input, env.clientTime, env.clientRandom)
    ensures var e := RunAlone(Client, env, Process(0, h), input);
            && e.sent == Conversation(env.clientTime, env.clientRandom, env.clientTime2, input)
            && e.process.party == Party(HandshakeDone, env.clientTime, High4(input[1..5]), env.clientRandom,
                                        input[9..1537], env.clientTime2, h.serverTime2)
  {
    hide TimeOf, Time2Of, Packet, RunAlone, High4;
    InputParts(input);
    var s1, r1, r2 := input[1..1537], input[1..], input[1537..];
    var h1 := h.(state := VersionSent);
    var h2 := h1.(clientTime := env.clientTime, clientRandom := env.clientRandom);
    var h4 := h2.(serverTime := TimeOf(s1), serverRandom := s1[8..]);
    var h5 := h4.(clientTime2 := env.clientTime2, state := AckSent);
    var h6 := h5.(state := HandshakeDone);
    var c1, c2 := Packet(env.clientTime, 0, env.clientRandom), Packet(TimeOf(s1), env.clientTime2, s1[8..]);
    var end := r2[PACKET_SIZE..];
    assert input[0..] == input;
    Taken(Client, env, Process(0, h), input, Move(Process(1, h1), 0, [VERSION]), input);
    Taken(Client, env, Process(1, h1), input, Move(Process(2, h2), 0, c1), input);
    Taken(Client, env, Process(2, h2), input, Move(Process(3, h2), 1, []), r1);
    Taken(Client, env, Process(3, h2), r1, Move(Process(4, h4), PACKET_SIZE, []), r2);
    Taken(Client, env, Process(4, h4), r2, Move(Process(5, h5), 0, c2), r2);
    Taken(Client, env, Process(5, h5), r2, Move(Process(6, h6), PACKET_SIZE, []), end);
    Stuck(Client, env, Process(6, h6), end);
    Parts(c1, c2);
    ZeroPacket(env.clientTime, env.clientRandom);
    PacketOf(s1, env.clientTime2);
  }
}
