/** Admission of incoming peers. The listener takes a permit for every incoming connection, the
    peer manager starts its handshake if there is room, and the permit is given back when the
    handshake's task ends: after the peer was added to the connected peers, or when it failed.
    Outgoing connections and removals happen at any time. */
module PeerAdmission {
  import opened Blocks

  type ActorUri = nat
  type Address = nat

  /** `P2pPeers::new`: the number of permits. */
  function MaxTickets(high: nat): nat {
    if high == 1 then 1 else high / 2
  }

  class P2pPeers {
    const high: nat
    var connectedPeers: map<ActorUri, Address>
    var incomingConnectionTickets: nat
    var potentialPeers: set<Address>

    constructor (high: nat)
      ensures this.high == high && connectedPeers == map[] && potentialPeers == {}
      ensures incomingConnectionTickets == (if high == 1 then 1 else high / 2)
    {
      this.high := high;
      connectedPeers, potentialPeers := map[], {};
      incomingConnectionTickets := MaxTickets(high);
    }

    predicate IsMaxConnectionsExceeded()
      reads this
    {
      |connectedPeers| >= high
    }

    /** A permit is taken exactly when one is free and there is room for a peer. */
    method TryAcquireIncomingConnectionPermit() returns (permit: bool)
      modifies this`incomingConnectionTickets
      ensures permit <==> old(incomingConnectionTickets) > 0 && |connectedPeers| < high
      ensures incomingConnectionTickets == old(incomingConnectionTickets) - (if permit then 1 else 0)
    {
      if incomingConnectionTickets == 0 {
        return false;
      }
      incomingConnectionTickets := incomingConnectionTickets - 1;
      if IsMaxConnectionsExceeded() {
        incomingConnectionTickets := incomingConnectionTickets + 1;
        return false;
      }
      permit := true;
    }

    method AddPeer(peer: ActorUri, address: Address)
      modifies this`connectedPeers
      ensures connectedPeers == old(connectedPeers)[peer := address]
    {
      connectedPeers := connectedPeers[peer := address];
    }

    /** The address of a removed peer is not tried again. */
    method TryRemovePeerActor(peer: ActorUri) returns (removed: bool)
      modifies this`connectedPeers, this`potentialPeers
      ensures removed <==> peer in old(connectedPeers)
      ensures connectedPeers == old(connectedPeers) - {peer}
      ensures potentialPeers == if removed then old(potentialPeers) - {old(connectedPeers)[peer]} else old(potentialPeers)
    {
      removed := peer in connectedPeers;
      if removed {
        potentialPeers := potentialPeers - {connectedPeers[peer]};
        connectedPeers := connectedPeers - {peer};
      } else {
        assert connectedPeers - {peer} == connectedPeers;
      }
    }
  }

  // ------------------------------------------------------------------ the system

  /** Where permits are: with the listener, in a message to the peer manager, in a handshake, or
      in a task that has added its peer and is about to end. */
  datatype State = State(
    high: nat,
    tickets: nat,
    checking: nat,
    messages: nat,
    handshakes: nat,
    ending: nat,
    incoming: set<ActorUri>,
    outgoing: set<ActorUri>,
    nextUri: ActorUri)

  datatype Step =
    | ListenAcquire
    | ListenPass
    | ListenDrop
    | AcceptStart
    | AcceptDrop
    | HandshakeFail
    | HandshakeConnect
    | TaskEnd
    | ConnectOutgoing
    | Remove(peer: ActorUri)

  function Initial(high: nat): State {
    State(high, MaxTickets(high), 0, 0, 0, 0, {}, {}, 0)
  }

  predicate Exceeded(s: State) {
    |s.incoming| + |s.outgoing| >= s.high
  }

  /** A message may also be dropped because its sender is on the blacklist. */
  predicate Enabled(s: State, step: Step) {
    match step
    case ListenAcquire => s.tickets > 0
    case ListenPass => s.checking > 0 && !Exceeded(s)
    case ListenDrop => s.checking > 0 && Exceeded(s)
    case AcceptStart => s.messages > 0 && !Exceeded(s)
    case AcceptDrop => s.messages > 0
    case HandshakeFail => s.handshakes > 0
    case HandshakeConnect => s.handshakes > 0
    case TaskEnd => s.ending > 0
    case ConnectOutgoing => true
    case Remove(_) => true
  }

  function Next(s: State, step: Step): State
    requires Enabled(s, step)
  {
    match step
    case ListenAcquire => s.(tickets := s.tickets - 1, checking := s.checking + 1)
    case ListenPass => s.(checking := s.checking - 1, messages := s.messages + 1)
    case ListenDrop => s.(checking := s.checking - 1, tickets := s.tickets + 1)
    case AcceptStart => s.(messages := s.messages - 1, handshakes := s.handshakes + 1)
    case AcceptDrop => s.(messages := s.messages - 1, tickets := s.tickets + 1)
    case HandshakeFail => s.(handshakes := s.handshakes - 1, tickets := s.tickets + 1)
    case HandshakeConnect =>
      s.(handshakes := s.handshakes - 1, ending := s.ending + 1,
         incoming := s.incoming + {s.nextUri}, nextUri := s.nextUri + 1)
    case TaskEnd => s.(ending := s.ending - 1, tickets := s.tickets + 1)
    case ConnectOutgoing => s.(outgoing := s.outgoing + {s.nextUri}, nextUri := s.nextUri + 1)
    case Remove(peer) => s.(incoming := s.incoming - {peer}, outgoing := s.outgoing - {peer})
  }

  function Admitted(s: State): nat {
    |s.incoming| + s.handshakes
  }

  /** The most that can be admitted. */
  function Limit(high: nat): nat {
    if high == 0 then 0 else high - 1 + MaxTickets(high)
  }

  ghost predicate Inv(s: State, high: nat) {
    && s.high == high
    && s.tickets + s.checking + s.messages + s.handshakes + s.ending == MaxTickets(high)
    && (forall u :: u in s.incoming ==> u < s.nextUri)
    && Admitted(s) <= Limit(high)
  }

  lemma StepKeepsInv(s: State, step: Step, high: nat)
    requires Inv(s, high) && Enabled(s, step)
    ensures Inv(Next(s, step), high)
  {
    match step
    case HandshakeConnect =>
      assert s.nextUri !in s.incoming;
    case Remove(peer) =>
      SubsetSize(s.incoming - {peer}, s.incoming);
    case ListenAcquire =>
    case ListenPass =>
    case ListenDrop =>
    case AcceptStart =>
    case AcceptDrop =>
    case HandshakeFail =>
    case TaskEnd =>
    case ConnectOutgoing =>
  }

  lemma {:induction false} SubsetSize(a: set<ActorUri>, b: set<ActorUri>)
    requires a <= b
    ensures |a| <= |b|
    decreases a
  {
    if a != {} {
      var x :| x in a;
      SubsetSize(a - {x}, b - {x});
    }
  }

  /** The state after a list of steps, if each was enabled when it was taken. */
  function StateAfter(high: nat, steps: seq<Step>): Option<State>
    decreases |steps|
  {
    if steps == [] then Some(Initial(high))
    else
      match StateAfter(high, steps[..|steps| - 1])
      case None => None
      case Some(s) =>
        var last := steps[|steps| - 1];
        if Enabled(s, last) then Some(Next(s, last)) else None
  }

  predicate Reachable(s: State, high: nat, steps: seq<Step>) {
    StateAfter(high, steps) == Some(s)
  }

  /** In every run, whatever connections, failures and removals are interleaved: connected
      incoming peers and admitted handshakes together stay within the limit, and permits are
      conserved. */
  lemma {:induction false} AdmittedBounded(s: State, high: nat, steps: seq<Step>)
    requires Reachable(s, high, steps)
    ensures Inv(s, high)
    ensures s.tickets + s.checking + s.messages + s.handshakes + s.ending == if high == 1 then 1 else high / 2
    ensures Admitted(s) <= if high <= 1 then high else high - 1 + high / 2
    decreases |steps|
  {
    if steps != [] {
      var before := StateAfter(high, steps[..|steps| - 1]).value;
      AdmittedBounded(before, high, steps[..|steps| - 1]);
      StepKeepsInv(before, steps[|steps| - 1], high);
    }
  }

  // ------------------------------------------------------------------ the limit is reached

  lemma ReachNext(s: State, high: nat, steps: seq<Step>, step: Step)
    requires Reachable(s, high, steps) && Enabled(s, step)
    ensures Reachable(Next(s, step), high, steps + [step])
  {
    assert (steps + [step])[..|steps|] == steps;
  }

  /** `n` incoming peers connect one after the other. */
  lemma {:induction false} FillPeers(high: nat, n: nat) returns (s: State, steps: seq<Step>)
    requires n < high
    ensures Reachable(s, high, steps)
    ensures s.high == high && s.tickets == MaxTickets(high) && s.checking == s.messages == s.handshakes == s.ending == 0
    ensures |s.incoming| == n && s.outgoing == {} && (forall u :: u in s.incoming ==> u < s.nextUri)
    decreases n
  {
    hide Reachable;
    if n == 0 {
      s, steps := Initial(high), [];
      assert Reachable(s, high, steps) by { StartReachable(high); }
    } else {
      s, steps := FillPeers(high, n - 1);
      s, steps := StartOne(s, high, steps);
      ReachNext(s, high, steps, HandshakeConnect);
      s, steps := Next(s, HandshakeConnect), steps + [HandshakeConnect];
      ReachNext(s, high, steps, TaskEnd);
      s, steps := Next(s, TaskEnd), steps + [TaskEnd];
    }
  }

  lemma StartReachable(high: nat)
    ensures Reachable(Initial(high), high, [])
  {
  }

  /** One more handshake is admitted. */
  lemma StartOne(s: State, high: nat, steps: seq<Step>) returns (t: State, longer: seq<Step>)
    requires Reachable(s, high, steps) && s.tickets > 0 && !Exceeded(s)
    ensures Reachable(t, high, longer)
    ensures t == s.(tickets := s.tickets - 1, handshakes := s.handshakes + 1)
  {
    hide Reachable;
    ReachNext(s, high, steps, ListenAcquire);
    var s1, steps1 := Next(s, ListenAcquire), steps + [ListenAcquire];
    ReachNext(s1, high, steps1, ListenPass);
    var s2, steps2 := Next(s1, ListenPass), steps1 + [ListenPass];
    ReachNext(s2, high, steps2, AcceptStart);
    t, longer := Next(s2, AcceptStart), steps2 + [AcceptStart];
  }

  /** Then all permits are used for handshakes at once. */
  lemma {:induction false} FillHandshakes(s: State, high: nat, steps: seq<Step>) returns (t: State, longer: seq<Step>)
    requires Reachable(s, high, steps) && !Exceeded(s)
    ensures Reachable(t, high, longer)
    ensures t == s.(tickets := 0, handshakes := s.handshakes + s.tickets)
    decreases s.tickets
  {
    hide Reachable;
    if s.tickets == 0 {
      t, longer := s, steps;
    } else {
      t, longer := StartOne(s, high, steps);
      t, longer := FillHandshakes(t, high, longer);
    }
  }

  /** The limit is exact: for every threshold some run admits that many. */
  lemma LimitIsReached(high: nat) returns (s: State, steps: seq<Step>)
    requires high >= 1
    ensures Reachable(s, high, steps)
    ensures Admitted(s) == if high == 1 then 1 else high - 1 + high / 2
  {
    s, steps := FillPeers(high, high - 1);
    assert |s.outgoing| == 0;
    s, steps := FillHandshakes(s, high, steps);
  }

  /** All admitted handshakes succeed. */
  lemma {:induction false} ConnectAll(s: State, high: nat, steps: seq<Step>) returns (t: State, longer: seq<Step>)
    requires Reachable(s, high, steps) && (forall u :: u in s.incoming ==> u < s.nextUri)
    ensures Reachable(t, high, longer)
    ensures |t.incoming| == Admitted(s)
    decreases s.handshakes
  {
    hide Reachable;
    if s.handshakes == 0 {
      t, longer := s, steps;
    } else {
      ReachNext(s, high, steps, HandshakeConnect);
      t, longer := ConnectAll(Next(s, HandshakeConnect), high, steps + [HandshakeConnect]);
    }
  }

  /** The high threshold bounds the connected incoming peers of every run exactly when it is at
      most three: room is checked when a handshake starts, not when its peer is added. */
  lemma ThresholdKeptIff(high: nat)
    ensures (forall s: State, steps: seq<Step> :: Reachable(s, high, steps) ==> |s.incoming| <= high) <==> high <= 3
  {
    if high <= 3 {
      forall s: State, steps: seq<Step> | Reachable(s, high, steps)
        ensures |s.incoming| <= high
      {
        AdmittedBounded(s, high, steps);
      }
    } else {
      var s, steps := LimitIsReached(high);
      AdmittedBounded(s, high, steps);
      s, steps := ConnectAll(s, high, steps);
      assert Reachable(s, high, steps) && |s.incoming| > high;
    }
  }
}
