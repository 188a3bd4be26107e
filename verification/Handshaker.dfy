/** The handshaker as an object. */
module Handshaking {
  import opened Wire
  import opened Handshake

  /** Byte by byte. */
  method CompareBytes(a: Bytes, b: Bytes) returns (same: bool)
    ensures same <==> a == b
  {
    if |a| != |b| {
      return false;
    }
    for i := 0 to |a|
      invariant a[..i] == b[..i]
    {
      if a[i] != b[i] {
        return false;
      }
    }
    same := true;
  }

  class Handshaker {
    const isClient: bool
    /** What the clock and the source of random data will give. */
    const env: Env

    /** The connection: bytes not yet read, and bytes written. */
    var input: Bytes
    var output: Bytes

    var state: State
    var clientTime: u32
    var serverTime: u32
    var clientRandom: Bytes
    var serverRandom: Bytes
    var clientTime2: u32
    var serverTime2: u32

    ghost function View(): Party
      reads this
    {
      Party(state, clientTime, serverTime, clientRandom, serverRandom, clientTime2, serverTime2)
    }

    ghost predicate Valid()
      reads this
    {
      Proper(env) && |clientRandom| == RANDOM_SIZE == |serverRandom|
    }

    ghost function RoleOf(): Role {
      if isClient then Client else Server
    }

    constructor (received: Bytes, client: bool, env: Env)
      requires Proper(env)
      ensures Valid() && View() == NewParty() && isClient == client && this.env == env
      ensures input == received && output == []
    {
      isClient, this.env, input, output := client, env, received, [];
      state := Uninitialized;
      clientTime, serverTime, clientTime2, serverTime2 := 0, 0, 0, 0;
      clientRandom, serverRandom := Blank(), Blank();
    }

    method Write(b: Bytes)
      modifies this`output
      ensures output == old(output) + b
    {
      output := output + b;
    }

    /** A read of `n` bytes, in full or not at all. */
    method Read(n: nat) returns (r: Result<Bytes>)
      modifies this`input
      ensures Reflects(Take(old(input), n), r, input)
    {
      if |input| < n {
        return Failure(Truncated);
      }
      r := Success(input[..n]);
      input := input[n..];
    }

    method WritePacket(time: u32, time2: u32, random: Bytes)
      requires |random| == RANDOM_SIZE
      modifies this`output
      ensures output == old(output) + Packet(time, time2, random)
    {
      var packet := new byte[PACKET_SIZE];
      packet[0], packet[1] := time / 0x100_0000, time / 0x1_0000 % 0x100;
      packet[2], packet[3] := time / 0x100 % 0x100, time % 0x100;
      packet[4], packet[5] := time2 / 0x100_0000, time2 / 0x1_0000 % 0x100;
      packet[6], packet[7] := time2 / 0x100 % 0x100, time2 % 0x100;
      for i := 0 to RANDOM_SIZE
        modifies packet
        invariant packet[..8] == Be32(time) + Be32(time2)
        invariant packet[8..8 + i] == random[..i]
      {
        packet[8 + i] := random[i];
      }
      assert random[..RANDOM_SIZE] == random;
      assert packet[..] == packet[..8] + packet[8..8 + RANDOM_SIZE];
      Write(packet[..]);
    }

    method Enter(next: State)
      requires Valid()
      modifies this`state
      ensures View() == old(View()).(state := next) && Valid()
    {
      state := next;
    }

    // ----- The client's steps

    method SendC0()
      requires Valid()
      modifies this`output
      ensures Valid()
      ensures View() == old(View()) && output == old(output) + [3]
    {
      Write([VERSION]);
    }

    method SendC1()
      requires Valid()
      modifies this`output, this`clientTime, this`clientRandom
      ensures Valid()
      ensures View() == old(View()).(clientTime := env.clientTime, clientRandom := env.clientRandom)
      ensures output == old(output) + Packet(env.clientTime, 0, env.clientRandom)
    {
      clientTime, clientRandom := env.clientTime, env.clientRandom;
      WritePacket(clientTime, 0, clientRandom);
    }

    method ReceiveS0() returns (ok: bool)
      requires Valid()
      modifies this`input
      ensures Valid()
      ensures ok <==> old(input) != [] && old(input)[0] == 3
      ensures ok ==> View() == old(View()) && input == old(input)[1..]
    {
      var version := Read(1);
      if version.Failure? {
        return false;
      }
      ok := version.value[0] == VERSION;
    }

    method ReceiveS1() returns (ok: bool)
      requires Valid()
      modifies this`input, this`serverTime, this`serverRandom
      ensures Valid()
      ensures ok <==> |old(input)| >= PACKET_SIZE
      ensures ok ==> input == old(input)[PACKET_SIZE..]
      ensures ok ==> var s1 := old(input)[..PACKET_SIZE];
                     View() == old(View()).(serverTime := TimeOf(s1), serverRandom := s1[8..])
    {
      var s1 := Read(PACKET_SIZE);
      if s1.Failure? {
        return false;
      }
      serverTime, serverRandom := TimeOf(s1.value), s1.value[8..];
      ok := true;
    }

    method SendC2()
      requires Valid()
      modifies this`output, this`clientTime2
      ensures Valid()
      ensures View() == old(View()).(clientTime2 := env.clientTime2)
      ensures output == old(output) + Packet(old(View()).serverTime, env.clientTime2, old(View()).serverRandom)
    {
      clientTime2 := env.clientTime2;
      WritePacket(serverTime, clientTime2, serverRandom);
    }

    method ReceiveS2() returns (ok: bool)
      requires Valid()
      modifies this`input
      ensures Valid()
      ensures ok <==> |old(input)| >= PACKET_SIZE && TimeOf(old(input)[..PACKET_SIZE]) == old(View()).clientTime
                      && old(input)[..PACKET_SIZE][8..] == old(View()).clientRandom
      ensures ok ==> View() == old(View())
      ensures ok ==> input == old(input)[PACKET_SIZE..]
    {
      var s2 := Read(PACKET_SIZE);
      if s2.Failure? {
        return false;
      }
      if TimeOf(s2.value) != clientTime {
        return false;
      }
      ok := CompareBytes(s2.value[8..], clientRandom);
    }

    // ----- The server's steps

    method ReceiveC0() returns (ok: bool)
      requires Valid()
      modifies this`input
      ensures Valid()
      ensures ok <==> old(input) != [] && old(input)[0] == 3
      ensures ok ==> View() == old(View()) && input == old(input)[1..]
    {
      var version := Read(1);
      if version.Failure? {
        return false;
      }
      ok := version.value[0] == VERSION;
    }

    method ReceiveC1() returns (ok: bool)
      requires Valid()
      modifies this`input, this`clientTime, this`clientRandom
      ensures Valid()
      ensures ok <==> |old(input)| >= PACKET_SIZE
      ensures ok ==> input == old(input)[PACKET_SIZE..]
      ensures ok ==> var c1 := old(input)[..PACKET_SIZE];
                     View() == old(View()).(clientTime := TimeOf(c1), clientRandom := c1[8..])
    {
      var c1 := Read(PACKET_SIZE);
      if c1.Failure? {
        return false;
      }
      clientTime, clientRandom := TimeOf(c1.value), c1.value[8..];
      ok := true;
    }

    method SendS0()
      requires Valid()
      modifies this`output
      ensures Valid()
      ensures View() == old(View()) && output == old(output) + [3]
    {
      Write([VERSION]);
    }

    method SendS1()
      requires Valid()
      modifies this`output, this`serverTime, this`serverRandom
      ensures Valid()
      ensures View() == old(View()).(serverTime := env.serverTime, serverRandom := env.serverRandom)
      ensures output == old(output) + Packet(env.serverTime, 0, env.serverRandom)
    {
      serverTime, serverRandom := env.serverTime, env.serverRandom;
      WritePacket(serverTime, 0, serverRandom);
    }

    method ReceiveC2() returns (ok: bool)
      requires Valid()
      modifies this`input, this`clientTime2
      ensures Valid()
      ensures ok <==> |old(input)| >= PACKET_SIZE && TimeOf(old(input)[..PACKET_SIZE]) == old(View()).serverTime
                      && old(input)[..PACKET_SIZE][8..] == old(View()).serverRandom
      ensures ok ==> input == old(input)[PACKET_SIZE..]
      ensures ok ==> View() == old(View()).(clientTime2 := Time2Of(old(input)[..PACKET_SIZE]))
    {
      var c2 := Read(PACKET_SIZE);
      if c2.Failure? {
        return false;
      }
      if TimeOf(c2.value) != serverTime {
        return false;
      }
      clientTime2 := Time2Of(c2.value);
      ok := CompareBytes(c2.value[8..], serverRandom);
    }

    method SendS2()
      requires Valid()
      modifies this`output, this`serverTime2
      ensures Valid()
      ensures View() == old(View()).(serverTime2 := env.serverTime2)
      ensures output == old(output) + Packet(old(View()).clientTime, env.serverTime2, old(View()).clientRandom)
    {
      serverTime2 := env.serverTime2;
      WritePacket(clientTime, serverTime2, clientRandom);
    }

    // ----- The whole handshake

    method DoClientHandshake() returns (ok: bool)
      requires Valid() && isClient && View().state == Uninitialized
      modifies this
      ensures Finished(ok, old(View()), old(input), old(output))
    {
      hide Packet, TimeOf, Time2Of, RunAlone, Toward, View, Valid;
      ghost var base, i0, v0 := output, input, View();
      ghost var goal := RunAlone(Client, env, Process(0, v0), i0);
      Outset(Client, env, v0, i0, base);
      SendC0();
      Enter(VersionSent);
      ghost var v1, o1 := View(), output;
      Sends(goal, base, Client, env, Process(0, v0), i0, base, v1, [VERSION], o1);
      SendC1();
      ghost var v2, o2 := View(), output;
      Sends(goal, base, Client, env, Process(1, v1), i0, o1, v2, Packet(env.clientTime, 0, env.clientRandom), o2);
      ok := ReceiveS0();
      if !ok {
        Stops(goal, base, Client, env, Process(2, v2), i0, o2);
        Enter(Failed);
        return;
      }
      ghost var i3 := input;
      Takes(goal, base, Client, env, Process(2, v2), i0, o2, v2, 1, i3);
      ok := ReceiveS1();
      if !ok {
        Stops(goal, base, Client, env, Process(3, v2), i3, o2);
        Enter(Failed);
        return;
      }
      ghost var v4, i4 := View(), input;
      Takes(goal, base, Client, env, Process(3, v2), i3, o2, v4, PACKET_SIZE, i4);
      SendC2();
      Enter(AckSent);
      ghost var v5, o5 := View(), output;
      Sends(goal, base, Client, env, Process(4, v4), i4, o2, v5,
            Packet(v4.serverTime, env.clientTime2, v4.serverRandom), o5);
      ok := ReceiveS2();
      if !ok {
        Stops(goal, base, Client, env, Process(5, v5), i4, o5);
        Enter(Failed);
        return;
      }
      Enter(HandshakeDone);
      Takes(goal, base, Client, env, Process(5, v5), i4, o5, View(), PACKET_SIZE, input);
      Ends(goal, base, Client, env, Process(6, View()), input, o5);
    }

    method DoServerHandshake() returns (ok: bool)
      requires Valid() && !isClient && View().state == Uninitialized
      modifies this
      ensures Finished(ok, old(View()), old(input), old(output))
    {
      hide Packet, TimeOf, Time2Of, RunAlone, Toward, View, Valid;
      ghost var base, i0, v0 := output, input, View();
      ghost var goal := RunAlone(Server, env, Process(0, v0), i0);
      Outset(Server, env, v0, i0, base);
      ok := ReceiveC0();
      if !ok {
        Stops(goal, base, Server, env, Process(0, v0), i0, base);
        Enter(Failed);
        return;
      }
      ghost var i1 := input;
      Takes(goal, base, Server, env, Process(0, v0), i0, base, v0, 1, i1);
      ok := ReceiveC1();
      if !ok {
        Stops(goal, base, Server, env, Process(1, v0), i1, base);
        Enter(Failed);
        return;
      }
      Enter(VersionSent);
      ghost var v2, i2 := View(), input;
      Takes(goal, base, Server, env, Process(1, v0), i1, base, v2, PACKET_SIZE, i2);
      SendS0();
      ghost var o3 := output;
      Sends(goal, base, Server, env, Process(2, v2), i2, base, v2, [VERSION], o3);
      SendS1();
      ghost var v4, o4 := View(), output;
      Sends(goal, base, Server, env, Process(3, v2), i2, o3, v4, Packet(env.serverTime, 0, env.serverRandom), o4);
      ok := ReceiveC2();
      if !ok {
        Stops(goal, base, Server, env, Process(4, v4), i2, o4);
        Enter(Failed);
        return;
      }
      ghost var v5, i5 := View(), input;
      Takes(goal, base, Server, env, Process(4, v4), i2, o4, v5, PACKET_SIZE, i5);
      SendS2();
      Enter(AckSent);
      Enter(HandshakeDone);
      Sends(goal, base, Server, env, Process(5, v5), i5, o4, View(),
            Packet(v5.clientTime, env.serverTime2, v5.clientRandom), output);
      Ends(goal, base, Server, env, Process(6, View()), i5, output);
    }

    /** A new handshaker succeeds if and only if its peer echoes the time and the random data it was sent, and then
        has read exactly the handshake. */
    method DoHandshake() returns (ok: bool)
      requires Valid() && state == Uninitialized
      modifies this
      ensures Finished(ok, old(View()), old(input), old(output))
      ensures ok <==> if isClient then Echoes(old(input), env.clientTime, env.clientRandom)
                      else Echoes(old(input), env.serverTime, env.serverRandom)
      ensures ok ==> state == HandshakeDone && input == old(input)[1 + 2 * PACKET_SIZE..]
      ensures ok ==> |old(input)| >= 3073
                     && output == old(output) + if isClient
                                                then Conversation(env.clientTime, env.clientRandom, env.clientTime2,
                                                                  old(input))
                                                else Conversation(env.serverTime, env.serverRandom, env.serverTime2,
                                                                  old(input))
    {
      hide Packet, TimeOf, Time2Of, RunAlone, Conversation;
      if isClient {
        ClientAccepts(env, View(), input);
        if Echoes(input, env.clientTime, env.clientRandom) {
          ClientConversation(env, View(), input);
        }
        ok := DoClientHandshake();
      } else {
        ServerAccepts(env, View(), input);
        if Echoes(input, env.serverTime, env.serverRandom) {
          ServerConversation(env, View(), input);
        }
        ok := DoServerHandshake();
      }
    }

    /** The object has done what its party does on that input; running out of input is an error. */
    ghost predicate Finished(ok: bool, start: Party, from: Bytes, base: Bytes)
      reads this
    {
      var e := RunAlone(RoleOf(), env, Process(0, start), from);
      && (ok <==> e.process.party.state == HandshakeDone)
      && (ok ==> View() == e.process.party && input == e.rest)
      && (!ok ==> View().state == Failed)
      && output == base + e.sent
    }
  }
}
