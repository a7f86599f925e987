/** The event notifier of behavioral/observer/main.go. The source keeps its
    observers as the keys of a map with empty-struct values, which makes the
    registry a set: this module keeps that representation and proves the set
    behaviour of each operation through the map's key set. Equality on `O`
    stands for Go's equality of interface values (same dynamic type and
    value); the program registers pointers, so in practice this is identity. */
module Observer {

  /** An event; its payload is not interpreted by the notifier. */
  datatype Event = Event(data: int)

  /** The registry: observers are the keys, the values carry nothing. */
  datatype Notifier<O> = Notifier(observers: map<O, ()>)

  /** One call of an observer's `OnNotify` with an event. */
  datatype Delivery<O> = Delivery(observer: O, event: Event)

  /** `Register`: afterwards `o` is registered and every other observer is
      registered exactly when it was before. */
  function Register<O>(n: Notifier<O>, o: O): (r: Notifier<O>)
    ensures o in r.observers
    ensures r.observers.Keys == n.observers.Keys + {o}
  {
    Notifier(n.observers[o := ()])
  }

  /** `Deregister`: afterwards `o` is not registered and every other observer
      is registered exactly when it was before. */
  function Deregister<O>(n: Notifier<O>, o: O): (r: Notifier<O>)
    ensures o !in r.observers
    ensures r.observers.Keys == n.observers.Keys - {o}
  {
    Notifier(n.observers - {o})
  }

  /** Registering an observer twice keeps a single entry. */
  lemma RegisterTwice<O>(n: Notifier<O>, o: O)
    ensures Register(Register(n, o), o) == Register(n, o)
    ensures |Register(Register(n, o), o).observers| == |Register(n, o).observers|
  {
  }

  /** Registering an already registered observer changes nothing. */
  lemma RegisterPresent<O>(n: Notifier<O>, o: O)
    requires o in n.observers
    ensures Register(n, o) == n
  {
    assert n.observers[o := ()].Keys == n.observers.Keys;
    forall x | x in n.observers
      ensures n.observers[o := ()][x] == n.observers[x]
    {
      var u: () := n.observers[x];
      assert u == ();
    }
  }

  /** Deregistering an observer that is not registered changes nothing. */
  lemma DeregisterAbsent<O>(n: Notifier<O>, o: O)
    requires o !in n.observers
    ensures Deregister(n, o) == n
  {
    assert n.observers - {o} == n.observers;
  }

  /** Registering a new observer and deregistering it again restores the
      original registry. */
  lemma RegisterThenDeregister<O>(n: Notifier<O>, o: O)
    requires o !in n.observers
    ensures Deregister(Register(n, o), o) == n
  {
    assert n.observers[o := ()] - {o} == n.observers;
  }

  /** `Notify`: one delivery of `e` to every registered observer, in the
      map's (unspecified) iteration order; nobody else receives it. The
      registry is a value here, so it is left as it was. */
  method Notify<O>(n: Notifier<O>, e: Event) returns (delivered: seq<Delivery<O>>)
    ensures |delivered| == |n.observers|
    ensures forall i :: 0 <= i < |delivered| ==>
              delivered[i].event == e && delivered[i].observer in n.observers
    ensures forall i, j :: 0 <= i < j < |delivered| ==>
              delivered[i].observer != delivered[j].observer
    ensures forall o :: o in n.observers ==>
              exists i :: 0 <= i < |delivered| && delivered[i].observer == o
  {
    var pending := n.observers.Keys;
    delivered := [];
    while pending != {}
      invariant pending <= n.observers.Keys
      invariant |delivered| + |pending| == |n.observers.Keys|
      invariant forall i :: 0 <= i < |delivered| ==>
                  delivered[i].event == e && delivered[i].observer in n.observers
                  && delivered[i].observer !in pending
      invariant forall i, j :: 0 <= i < j < |delivered| ==>
                  delivered[i].observer != delivered[j].observer
      invariant forall o :: o in n.observers && o !in pending ==>
                  exists i :: 0 <= i < |delivered| && delivered[i].observer == o
      decreases pending
    {
      var o :| o in pending;
      var before := delivered;
      delivered := delivered + [Delivery(o, e)];
      pending := pending - {o};
      assert delivered[|before|].observer == o;
      forall x | x in n.observers && x !in pending
        ensures exists i :: 0 <= i < |delivered| && delivered[i].observer == x
      {
        if x != o {
          var i :| 0 <= i < |before| && before[i].observer == x;
          assert delivered[i] == before[i];
        }
      }
    }
    assert |n.observers.Keys| == |n.observers|;
  }
}
