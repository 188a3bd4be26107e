/** The registry of active streams as a value: what each event of a connection does to it, and over whole runs. */
module Registry {
  type Name = string

  /** Connections are told apart by their ids. */
  type Id = string

  datatype Stream = Stream(name: Name, publisher: Id, subscribers: seq<Id>, active: bool)

  type Streams = map<Name, Stream>

  predicate NoDuplicates(subs: seq<Id>) {
    forall i, j | 0 <= i < j < |subs| :: subs[i] != subs[j]
  }

  ghost predicate Good(v: Streams) {
    forall n | n in v :: v[n].active && v[n].name == n && NoDuplicates(v[n].subscribers)
  }

  // ----- Subscribers of one stream

  function WithSubscriber(subs: seq<Id>, c: Id): seq<Id> {
    if c in subs then subs else subs + [c]
  }

  function IndexOf(subs: seq<Id>, c: Id): (i: nat)
    requires c in subs
    ensures i < |subs| && subs[i] == c && c !in subs[..i]
  {
    if subs[0] == c then 0 else
      var i := 1 + IndexOf(subs[1..], c);
      assert subs[..i] == [subs[0]] + subs[1..][..i - 1];
      i
  }

  /** The last subscriber takes the place of the first match, and the slice is cut by one. */
  function WithoutSubscriber(subs: seq<Id>, c: Id): seq<Id> {
    if c in subs then subs[IndexOf(subs, c) := subs[|subs| - 1]][..|subs| - 1] else subs
  }

  lemma SwapRemoved(subs: seq<Id>, i: nat)
    requires i < |subs|
    ensures multiset(subs[i := subs[|subs| - 1]][..|subs| - 1]) == multiset(subs) - multiset{subs[i]}
  {
    var last := subs[|subs| - 1];
    var moved := subs[i := last];
    assert multiset(moved) == multiset(subs) - multiset{subs[i]} + multiset{last};
    var kept := moved[..|subs| - 1];
    assert moved == kept + [last];
    forall d ensures multiset(kept)[d] == (multiset(subs) - multiset{subs[i]})[d] {
      assert multiset(moved)[d] == multiset(kept)[d] + multiset{last}[d];
    }
  }

  /** Exactly one occurrence goes, and nothing else. */
  lemma OneGoes(subs: seq<Id>, c: Id)
    ensures multiset(WithoutSubscriber(subs, c)) == multiset(subs) - multiset{c}
  {
    if c in subs {
      SwapRemoved(subs, IndexOf(subs, c));
    }
  }

  lemma DuplicatesInTail(subs: seq<Id>)
    requires subs != []
    ensures NoDuplicates(subs) <==> subs[0] !in subs[1..] && NoDuplicates(subs[1..])
  {
    var head, tail := subs[0], subs[1..];
    assert forall i | 0 <= i < |tail| :: tail[i] == subs[i + 1];
    if head !in tail && NoDuplicates(tail) {
      forall i, j | 0 <= i < j < |subs| ensures subs[i] != subs[j] {
        assert subs[j] == tail[j - 1];
        assert i > 0 ==> subs[i] == tail[i - 1];
      }
    }
  }

  lemma {:induction false} DuplicatesCount(subs: seq<Id>)
    ensures NoDuplicates(subs) <==> forall c :: multiset(subs)[c] <= 1
    decreases |subs|
  {
    hide NoDuplicates;
    if subs == [] {
      Empty();
    } else {
      var head, tail := subs[0], subs[1..];
      DuplicatesInTail(subs);
      DuplicatesCount(tail);
      assert subs == [head] + tail;
      forall c ensures multiset(subs)[c] == multiset{head}[c] + multiset(tail)[c] {
      }
      assert head in tail <==> multiset(tail)[head] > 0;
      assert multiset(subs)[head] == 1 + multiset(tail)[head];
    }
  }

  lemma Empty()
    ensures NoDuplicates([])
  {
  }

  /** A subscriber is gone after its removal if and only if it was there at most once. */
  lemma RemovedIff(subs: seq<Id>, c: Id)
    ensures c !in WithoutSubscriber(subs, c) <==> multiset(subs)[c] <= 1
  {
    OneGoes(subs, c);
    assert c in WithoutSubscriber(subs, c) <==> multiset(WithoutSubscriber(subs, c))[c] > 0;
  }

  /** Without the uniqueness that subscribing keeps, a removal leaves a subscriber behind. */
  lemma DuplicateStays(c: Id)
    ensures c in WithoutSubscriber([c, c], c)
  {
    RemovedIff([c, c], c);
  }

  lemma SubscriberAdded(subs: seq<Id>, c: Id)
    requires NoDuplicates(subs)
    ensures NoDuplicates(WithSubscriber(subs, c))
    ensures forall d :: d in WithSubscriber(subs, c) <==> d in subs || d == c
  {
  }

  lemma SubscriberRemoved(subs: seq<Id>, c: Id)
    requires NoDuplicates(subs)
    ensures NoDuplicates(WithoutSubscriber(subs, c))
    ensures forall d :: d in WithoutSubscriber(subs, c) <==> d in subs && d != c
  {
    hide WithoutSubscriber, NoDuplicates;
    OneGoes(subs, c);
    DuplicatesCount(subs);
    var less := WithoutSubscriber(subs, c);
    DuplicatesCount(less);
    forall d ensures d in less <==> d in subs && d != c {
      assert d in less <==> multiset(less)[d] > 0;
      assert d in subs <==> multiset(subs)[d] > 0;
    }
  }

  // ----- Events

  datatype Event =
    | Publish(who: Id, name: Name)
    | Play(who: Id, name: Name)
    | Disconnect(who: Id)

  predicate Available(v: Streams, n: Name) {
    n in v && v[n].active
  }

  /** A disconnect goes through the active streams: those that the connection publishes are removed, from the
      others it is removed as a subscriber. */
  function Left(v: Streams, c: Id): Streams {
    map n | n in v && !(v[n].active && v[n].publisher == c) ::
      if v[n].active then v[n].(subscribers := WithoutSubscriber(v[n].subscribers, c)) else v[n]
  }

  function Apply(v: Streams, e: Event): Streams {
    match e
    case Publish(c, n) => if Available(v, n) then v else v[n := Stream(n, c, [], true)]
    case Play(c, n) =>
      if Available(v, n) then v[n := v[n].(subscribers := WithSubscriber(v[n].subscribers, c))] else v
    case Disconnect(c) => Left(v, c)
  }

  /** The registry after a run that starts with an empty one. */
  function After(es: seq<Event>): Streams {
    if es == [] then map[] else Apply(After(es[..|es| - 1]), es[|es| - 1])
  }

  /** In no stream is the connection publisher or subscriber. */
  ghost predicate Gone(v: Streams, c: Id) {
    forall n | n in v :: v[n].publisher != c && c !in v[n].subscribers
  }

  lemma ApplyKeeps(v: Streams, e: Event)
    requires Good(v)
    ensures Good(Apply(v, e))
    ensures e.Disconnect? ==> Gone(Apply(v, e), e.who)
    ensures forall c | Gone(v, c) && e.who != c :: Gone(Apply(v, e), c)
  {
    hide WithSubscriber, WithoutSubscriber, NoDuplicates;
    assert NoDuplicates([]) by { Empty(); }
    forall n | n in v ensures NoDuplicates(WithSubscriber(v[n].subscribers, e.who))
                              && NoDuplicates(WithoutSubscriber(v[n].subscribers, e.who))
                              && e.who !in WithoutSubscriber(v[n].subscribers, e.who)
                              && forall d | d !in v[n].subscribers && d != e.who ::
                                   d !in WithSubscriber(v[n].subscribers, e.who)
                                   && d !in WithoutSubscriber(v[n].subscribers, e.who)
    {
      SubscriberAdded(v[n].subscribers, e.who);
      SubscriberRemoved(v[n].subscribers, e.who);
    }
  }

  /** After every run, each stream stored is active, stored under its name, and has no subscriber twice. */
  lemma {:induction false} RunsAreGood(es: seq<Event>)
    ensures Good(After(es))
    decreases |es|
  {
    hide Good, Apply;
    if es == [] {
      NoStreams();
    } else {
      RunsAreGood(es[..|es| - 1]);
      ApplyKeeps(After(es[..|es| - 1]), es[|es| - 1]);
    }
  }

  lemma NoStreams()
    ensures Good(map[])
  {
  }

  /** A connection that disconnects is out of every stream, whatever came before, and stays out as long as it does
      not publish or play again. */
  lemma {:induction false} DisconnectCleans(es: seq<Event>, c: Id, later: seq<Event>)
    requires forall i | 0 <= i < |later| :: later[i].who != c
    ensures Gone(After(es + [Disconnect(c)] + later), c)
    decreases |later|
  {
    hide Good, Apply, Gone;
    var all := es + [Disconnect(c)] + later;
    if later == [] {
      assert all[..|all| - 1] == es;
      RunsAreGood(es);
      ApplyKeeps(After(es), Disconnect(c));
    } else {
      var head := later[..|later| - 1];
      assert all[..|all| - 1] == es + [Disconnect(c)] + head;
      DisconnectCleans(es, c, head);
      RunsAreGood(all[..|all| - 1]);
      ApplyKeeps(After(all[..|all| - 1]), later[|later| - 1]);
    }
  }

  // ----- The registry in terms of its history

  /** Who publishes a stream after a run: the first to ask while nobody did, until it disconnects. */
  function PublisherIn(es: seq<Event>, n: Name): set<Id> {
    if es == [] then {} else
      var before := PublisherIn(es[..|es| - 1], n);
      match es[|es| - 1]
      case Publish(c, n') => if n' == n && before == {} then {c} else before
      case Play(_, _) => before
      case Disconnect(c) => before - {c}
  }

  /** Who plays a stream after a run: everyone who asked while it was published, until either side disconnects. */
  function PlayersIn(es: seq<Event>, n: Name): set<Id> {
    if es == [] then {} else
      var before := PlayersIn(es[..|es| - 1], n);
      var publisher := PublisherIn(es[..|es| - 1], n);
      match es[|es| - 1]
      case Publish(_, _) => before
      case Play(c, n') => if n' == n && publisher != {} then before + {c} else before
      case Disconnect(c) => if c in publisher then {} else before - {c}
  }

  ghost predicate Recorded(v: Streams, n: Name, publisher: set<Id>, players: set<Id>) {
    if n in v
    then v[n].active && publisher == {v[n].publisher} && forall c :: c in players <==> c in v[n].subscribers
    else publisher == {} && players == {}
  }

  /** The registry is what the history says, stream by stream. */
  lemma {:induction false} RegistryIsHistory(es: seq<Event>, n: Name)
    ensures Recorded(After(es), n, PublisherIn(es, n), PlayersIn(es, n))
    decreases |es|
  {
    hide WithSubscriber, WithoutSubscriber, NoDuplicates;
    if es != [] {
      var head, e := es[..|es| - 1], es[|es| - 1];
      RegistryIsHistory(head, n);
      RunsAreGood(head);
      var v := After(head);
      if n in v {
        SubscriberAdded(v[n].subscribers, e.who);
        SubscriberRemoved(v[n].subscribers, e.who);
      }
    }
  }
}
