/** The stream manager as an object, and the handlers of connection events, run one at a time. */
module StreamManagement {
  import opened Wire
  import opened Registry

  class StreamInfo {
    const name: Name
    const publisher: Id
    var subscribers: seq<Id>
    var active: bool

    constructor (name: Name, publisher: Id)
      ensures View() == Stream(name, publisher, [], true)
    {
      this.name, this.publisher, subscribers, active := name, publisher, [], true;
    }

    ghost function View(): Stream
      reads this
    {
      Stream(name, publisher, subscribers, active)
    }
  }

  /** What a snapshot says of a stream; subscribers are left out. */
  datatype Summary = Summary(name: Name, publisher: Id)

  class StreamManager {
    var streams: map<Name, StreamInfo>

    /** No two names share a stream. */
    ghost predicate Valid()
      reads this
    {
      forall m, n | m in streams && n in streams && m != n :: streams[m] != streams[n]
    }

    ghost function View(): Streams
      reads this, streams.Values
    {
      map n | n in streams :: streams[n].View()
    }

    constructor ()
      ensures Valid() && View() == map[] && streams == map[]
    {
      streams := map[];
    }

    method AddStream(name: Name, publisher: Id)
      requires Valid()
      modifies this
      ensures Valid()
      ensures View() == old(View())[name := Stream(name, publisher, [], true)]
      ensures fresh(streams.Values - old(streams.Values))
    {
      var info := new StreamInfo(name, publisher);
      streams := streams[name := info];
    }

    method RemoveStream(name: Name)
      requires Valid()
      modifies this, streams.Values
      ensures Valid() && streams == old(streams) - {name}
      ensures View() == old(View()) - {name}
    {
      if name in streams {
        streams[name].active := false;
        streams := streams - {name};
      }
    }

    method GetStream(name: Name) returns (info: Option<StreamInfo>)
      ensures info.Some? <==> name in View()
      ensures info.Some? ==> info.value.View() == View()[name]
    {
      info := if name in streams then Some(streams[name]) else None;
    }

    /** Subscribing twice is the same as subscribing once. */
    method AddSubscriber(name: Name, c: Id) returns (ok: bool)
      requires Valid()
      modifies streams.Values
      ensures ok <==> Available(old(View()), name)
      ensures View() == Apply(old(View()), Play(c, name))
    {
      if name !in streams || !streams[name].active {
        return false;
      }
      var info := streams[name];
      var subs := info.subscribers;
      for i := 0 to |subs|
        invariant c !in subs[..i]
        invariant View() == old(View()) && info.subscribers == subs
      {
        if subs[i] == c {
          assert c in subs;
          assert View() == Apply(old(View()), Play(c, name));
          return true;
        }
      }
      assert c !in subs;
      info.subscribers := info.subscribers + [c];
      ok := true;
    }

    method RemoveSubscriber(name: Name, c: Id)
      requires Valid()
      modifies streams.Values
      ensures View() == if name in old(View())
                        then old(View())[name := old(View())[name].(subscribers :=
                               WithoutSubscriber(old(View())[name].subscribers, c))]
                        else old(View())
    {
      if name !in streams {
        return;
      }
      var info := streams[name];
      var subs := info.subscribers;
      for i := 0 to |subs|
        invariant c !in subs[..i]
        invariant View() == old(View()) && info.subscribers == subs
      {
        if subs[i] == c {
          FirstMatch(subs, c, i);
          var last := |subs| - 1;
          subs := subs[i := subs[last]];
          info.subscribers := subs[..last];
          return;
        }
      }
      assert c !in subs;
    }

    /** The active streams. */
    method ListStreams() returns (result: map<Name, Summary>)
      ensures forall n :: n in result <==> Available(View(), n)
      ensures forall n | n in result :: n in View() && result[n] == Summary(View()[n].name, View()[n].publisher)
    {
      result := map[];
      var left := streams.Keys;
      while left != {}
        invariant left <= streams.Keys
        invariant forall n :: n in result <==> Available(View(), n) && n !in left
        invariant forall n | n in result :: n in View() && result[n] == Summary(View()[n].name, View()[n].publisher)
        decreases |left|
      {
        var name :| name in left;
        left := left - {name};
        if streams[name].active {
          result := result[name := Summary(streams[name].name, streams[name].publisher)];
        }
      }
    }
  }

  lemma {:induction false} FirstMatch(subs: seq<Id>, c: Id, i: nat)
    requires i < |subs| && subs[i] == c && c !in subs[..i]
    ensures c in subs && IndexOf(subs, c) == i
  {
    if i > 0 {
      assert subs[..i] == [subs[0]] + subs[1..][..i - 1];
      FirstMatch(subs[1..], c, i - 1);
    }
  }

  // ----- Handlers

  method OnPublish(manager: StreamManager, c: Id, name: Name) returns (ok: bool)
    requires manager.Valid()
    modifies manager
    ensures manager.Valid() && ok == !Available(old(manager.View()), name)
    ensures manager.View() == Apply(old(manager.View()), Publish(c, name))
    ensures fresh(manager.streams.Values - old(manager.streams.Values))
  {
    var info := manager.GetStream(name);
    if info.Some? {
      if info.value.active {
        return false;
      }
    }
    manager.AddStream(name, c);
    ok := true;
  }

  method OnPlay(manager: StreamManager, c: Id, name: Name) returns (ok: bool)
    requires manager.Valid()
    modifies manager.streams.Values
    ensures ok == Available(old(manager.View()), name)
    ensures manager.View() == Apply(old(manager.View()), Play(c, name))
  {
    var info := manager.GetStream(name);
    if info.None? || !info.value.active {
      return false;
    }
    ok := manager.AddSubscriber(name, c);
  }

  /** A disconnect with the streams `left` still to be gone through. */
  function Leaving(v: Streams, c: Id, left: set<Name>): Streams {
    map n | n in v && (n in left || !v[n].active || v[n].publisher != c) ::
      if n in left || !v[n].active then v[n] else v[n].(subscribers := WithoutSubscriber(v[n].subscribers, c))
  }

  lemma LeaveOne(v: Streams, c: Id, left: set<Name>, n: Name)
    requires n in left && Available(v, n)
    ensures n in Leaving(v, c, left)
    ensures Leaving(v, c, left - {n})
            == if v[n].publisher == c then Leaving(v, c, left) - {n}
               else Leaving(v, c, left)[n := v[n].(subscribers := WithoutSubscriber(v[n].subscribers, c))]
    ensures Leaving(v, c, left)[n] == v[n]
  {
    hide WithoutSubscriber;
  }

  method OnDisconnect(manager: StreamManager, c: Id)
    requires manager.Valid()
    modifies manager, manager.streams.Values
    ensures manager.Valid() && manager.streams.Values <= old(manager.streams.Values)
    ensures manager.View() == Apply(old(manager.View()), Disconnect(c))
  {
    hide WithoutSubscriber, Leaving;
    ghost var v := manager.View();
    var snapshot := manager.ListStreams();
    var left := snapshot.Keys;
    LeavingEnds(v, c, left);
    while left != {}
      invariant left <= snapshot.Keys && manager.Valid()
      invariant manager.streams.Values <= old(manager.streams.Values)
      invariant manager.View() == Leaving(v, c, left)
      decreases |left|
    {
      var name :| name in left;
      LeaveOne(v, c, left, name);
      if snapshot[name].publisher == c {
        manager.RemoveStream(name);
      } else {
        manager.RemoveSubscriber(name, c);
      }
      left := left - {name};
    }
  }

  lemma LeavingEnds(v: Streams, c: Id, all: set<Name>)
    requires forall n :: n in all <==> Available(v, n)
    ensures Leaving(v, c, all) == v && Leaving(v, c, {}) == Left(v, c)
  {
  }
}
