/** Outbound peer slots (peerCandidate and connectToCandidates of spv/sync.go): one connector
    loop that takes a semaphore slot and picks an address, and one goroutine per attempt.
    Map updates are atomic because they happen under one mutex; a run is any sequence of
    atomic steps. */
module PeerSlots {
  type Address = string
  type WorkerId = nat

  const MAX_SLOTS := 8

  datatype Connector =
    | Idle                       // about to take a slot
    | HasSlot                    // slot taken, looking for a candidate
    | Backoff                    // no candidate: waiting before giving the slot back
    | Marked(addr: Address)      // candidate marked as connecting, goroutine not yet started
    | Stopped(slots: nat)        // returned, possibly with its slot still taken

  datatype Worker =
    | Connecting(addr: Address)
    | Connected(addr: Address)
    | Finishing                  // both maps left, slot still taken

  datatype State = State(
    slots: nat, connecting: set<Address>, remotes: set<Address>,
    connector: Connector, workers: map<WorkerId, Worker>)

  datatype Action =
    | TakeSlot | Candidate(addr: Address) | NoCandidate | ReturnSlot | Cancel | Spawn(id: WorkerId)
    | ConnectFails(id: WorkerId) | ConnectSucceeds(id: WorkerId) | Disconnected(id: WorkerId) | Exit(id: WorkerId)

  const INIT := State(0, {}, {}, Idle, map[])

  /** The effect of an action; one that is not enabled changes nothing. */
  function Step(s: State, a: Action): State {
    match a
    case TakeSlot =>
      if s.connector.Idle? && s.slots < MAX_SLOTS then s.(slots := s.slots + 1, connector := HasSlot) else s
    case Candidate(addr) =>
      if s.connector.HasSlot? && addr !in s.connecting && addr !in s.remotes
      then s.(connecting := s.connecting + {addr}, connector := Marked(addr)) else s
    case NoCandidate =>
      if s.connector.HasSlot? then s.(connector := Backoff) else s
    case ReturnSlot =>
      if s.connector.Backoff? && s.slots > 0 then s.(slots := s.slots - 1, connector := Idle) else s
    case Cancel =>
      if s.connector.Idle? then s.(connector := Stopped(0))
      else if s.connector.Backoff? then s.(connector := Stopped(1))
      else s
    case Spawn(id) =>
      if s.connector.Marked? && id !in s.workers
      then s.(workers := s.workers[id := Connecting(s.connector.addr)], connector := Idle) else s
    case ConnectFails(id) =>
      if id in s.workers && s.workers[id].Connecting?
      then s.(connecting := s.connecting - {s.workers[id].addr}, workers := s.workers[id := Finishing]) else s
    case ConnectSucceeds(id) =>
      if id in s.workers && s.workers[id].Connecting?
      then
        var addr := s.workers[id].addr;
        s.(connecting := s.connecting - {addr}, remotes := s.remotes + {addr},
           workers := s.workers[id := Connected(addr)])
      else s
    case Disconnected(id) =>
      if id in s.workers && s.workers[id].Connected?
      then s.(remotes := s.remotes - {s.workers[id].addr}, workers := s.workers[id := Finishing]) else s
    case Exit(id) =>
      if id in s.workers && s.workers[id].Finishing? && s.slots > 0
      then s.(slots := s.slots - 1, workers := s.workers - {id}) else s
  }

  function Run(trace: seq<Action>): State {
    if trace == [] then INIT else Step(Run(trace[..|trace| - 1]), trace[|trace| - 1])
  }

  // ----- who owns an address -----

  predicate Active(workers: map<WorkerId, Worker>, id: WorkerId) { id in workers && !workers[id].Finishing? }

  ghost function ConnectingTo(workers: map<WorkerId, Worker>): set<Address> {
    set id | id in workers && workers[id].Connecting? :: workers[id].addr
  }

  ghost function ConnectedTo(workers: map<WorkerId, Worker>): set<Address> {
    set id | id in workers && workers[id].Connected? :: workers[id].addr
  }

  function MarkedBy(c: Connector): set<Address> { if c.Marked? then {c.addr} else {} }

  function ConnectorSlots(c: Connector): nat {
    match c
    case Idle => 0
    case HasSlot => 1
    case Backoff => 1
    case Marked(_) => 1
    case Stopped(n) => n
  }

  /** No two goroutines work on the same address, nor on the one the connector has marked. */
  ghost predicate OneOwner(s: State) {
    && (forall i, j :: Active(s.workers, i) && Active(s.workers, j) && s.workers[i].addr == s.workers[j].addr ==>
         i == j)
    && (s.connector.Marked? ==> forall i :: Active(s.workers, i) ==> s.workers[i].addr != s.connector.addr)
  }

  /** The maps hold exactly the addresses being worked on, and every slot taken belongs to a
      goroutine or the connector. */
  ghost predicate Inv(s: State) {
    && s.connecting == ConnectingTo(s.workers) + MarkedBy(s.connector)
    && s.remotes == ConnectedTo(s.workers)
    && OneOwner(s)
    && s.slots == |s.workers| + ConnectorSlots(s.connector)
    && s.slots <= MAX_SLOTS
  }

  /** Changing what one goroutine does affects only its own address. */
  lemma UpdateWorker(workers: map<WorkerId, Worker>, id: WorkerId, w: Worker)
    requires forall i, j :: Active(workers, i) && Active(workers, j) && workers[i].addr == workers[j].addr ==> i == j
    requires Active(workers, id) && (w.Finishing? || w.addr == workers[id].addr)
    ensures workers[id].Connecting? ==>
              ConnectingTo(workers[id := w]) ==
              ConnectingTo(workers) - {workers[id].addr} + (if w.Connecting? then {w.addr} else {})
    ensures workers[id].Connecting? ==>
              ConnectedTo(workers[id := w]) == ConnectedTo(workers) + (if w.Connected? then {w.addr} else {})
    ensures workers[id].Connected? && w.Finishing? ==>
              && ConnectingTo(workers[id := w]) == ConnectingTo(workers)
              && ConnectedTo(workers[id := w]) == ConnectedTo(workers) - {workers[id].addr}
    ensures |workers[id := w]| == |workers|
  {
    var u := workers[id := w];
    assert u.Keys == workers.Keys;
    forall i | i in workers && i != id ensures u[i] == workers[i] { }
    assert id in u && u[id] == w;
    forall a | a in ConnectingTo(workers) && a != workers[id].addr ensures a in ConnectingTo(u) {
      var i :| i in workers && workers[i].Connecting? && workers[i].addr == a;
      assert i in u && u[i] == workers[i];
    }
    forall a | a in ConnectedTo(workers) && a != workers[id].addr ensures a in ConnectedTo(u) {
      var i :| i in workers && workers[i].Connected? && workers[i].addr == a;
      assert i in u && u[i] == workers[i];
    }
    if workers[id].Connecting? {
      assert workers[id].addr !in ConnectedTo(workers) by {
        if workers[id].addr in ConnectedTo(workers) {
          var i :| i in workers && workers[i].Connected? && workers[i].addr == workers[id].addr;
          assert Active(workers, i);
        }
      }
    } else {
      assert workers[id].addr !in ConnectingTo(workers) by {
        if workers[id].addr in ConnectingTo(workers) {
          var i :| i in workers && workers[i].Connecting? && workers[i].addr == workers[id].addr;
          assert Active(workers, i);
        }
      }
    }
  }

  lemma AddWorker(workers: map<WorkerId, Worker>, id: WorkerId, addr: Address)
    requires id !in workers
    ensures ConnectingTo(workers[id := Connecting(addr)]) == ConnectingTo(workers) + {addr}
    ensures ConnectedTo(workers[id := Connecting(addr)]) == ConnectedTo(workers)
    ensures |workers[id := Connecting(addr)]| == |workers| + 1
  {
    var u := workers[id := Connecting(addr)];
    assert id in u && u[id] == Connecting(addr);
    forall i | i in workers ensures i in u && u[i] == workers[i] { }
    assert u.Keys == workers.Keys + {id};
  }

  lemma RemoveWorker(workers: map<WorkerId, Worker>, id: WorkerId)
    requires id in workers && workers[id].Finishing?
    ensures ConnectingTo(workers - {id}) == ConnectingTo(workers)
    ensures ConnectedTo(workers - {id}) == ConnectedTo(workers)
    ensures |workers - {id}| == |workers| - 1
  {
    var u := workers - {id};
    forall i | i in workers && i != id ensures i in u && u[i] == workers[i] { }
    assert u.Keys == workers.Keys - {id};
  }

  lemma SpawnKeepsInv(s: State, id: WorkerId)
    requires Inv(s) && s.connector.Marked? && id !in s.workers
    ensures Inv(s.(workers := s.workers[id := Connecting(s.connector.addr)], connector := Idle))
  {
    var addr := s.connector.addr;
    var t := s.(workers := s.workers[id := Connecting(addr)], connector := Idle);
    AddWorker(s.workers, id, addr);
    assert OneOwner(t) by {
      forall i, j | Active(t.workers, i) && Active(t.workers, j) && t.workers[i].addr == t.workers[j].addr
        ensures i == j
      {
        assert i != id ==> Active(s.workers, i) && t.workers[i] == s.workers[i];
        assert j != id ==> Active(s.workers, j) && t.workers[j] == s.workers[j];
      }
    }
    assert t.connecting == ConnectingTo(t.workers) + MarkedBy(t.connector);
  }

  lemma ExitKeepsInv(s: State, id: WorkerId)
    requires Inv(s) && id in s.workers && s.workers[id].Finishing? && s.slots > 0
    ensures Inv(s.(slots := s.slots - 1, workers := s.workers - {id}))
  {
    var u := s.workers - {id};
    RemoveWorker(s.workers, id);
    assert forall i :: Active(u, i) ==> Active(s.workers, i) && u[i] == s.workers[i];
  }

  lemma ConnectorMoves(s: State, c: Connector, slots: nat)
    requires Inv(s) && !s.connector.Marked? && !c.Marked?
    requires slots == |s.workers| + ConnectorSlots(c) <= MAX_SLOTS
    ensures Inv(s.(connector := c, slots := slots))
  {
  }

  lemma ConnectorStepKeepsInv(s: State, a: Action)
    requires Inv(s) && Step(s, a) != s
    requires a.TakeSlot? || a.Candidate? || a.NoCandidate? || a.ReturnSlot? || a.Cancel?
    ensures Inv(Step(s, a))
  {
    match a
    case Candidate(addr) => CandidateKeepsInv(s, addr);
    case TakeSlot => ConnectorMoves(s, HasSlot, s.slots + 1);
    case NoCandidate => ConnectorMoves(s, Backoff, s.slots);
    case ReturnSlot => ConnectorMoves(s, Idle, s.slots - 1);
    case Cancel => ConnectorMoves(s, Stopped(ConnectorSlots(s.connector)), s.slots);
  }

  lemma ConnectFailsKeepsInv(s: State, id: WorkerId)
    requires Inv(s) && id in s.workers && s.workers[id].Connecting?
    ensures Inv(Step(s, ConnectFails(id)))
  {
    WorkerLeaves(s, id, Finishing);
    assert s.remotes + {} == s.remotes;
  }

  lemma ConnectSucceedsKeepsInv(s: State, id: WorkerId)
    requires Inv(s) && id in s.workers && s.workers[id].Connecting?
    ensures Inv(Step(s, ConnectSucceeds(id)))
  {
    WorkerLeaves(s, id, Connected(s.workers[id].addr));
  }

  lemma DisconnectedKeepsInv(s: State, id: WorkerId)
    requires Inv(s) && id in s.workers && s.workers[id].Connected?
    ensures Inv(Step(s, Disconnected(id)))
  {
    WorkerLeaves(s, id, Finishing);
  }

  lemma StepKeepsInv(s: State, a: Action)
    requires Inv(s)
    ensures Inv(Step(s, a))
  {
    if Step(s, a) != s {
      match a
      case Spawn(id) => SpawnKeepsInv(s, id);
      case ConnectFails(id) => ConnectFailsKeepsInv(s, id);
      case ConnectSucceeds(id) => ConnectSucceedsKeepsInv(s, id);
      case Disconnected(id) => DisconnectedKeepsInv(s, id);
      case Exit(id) => ExitKeepsInv(s, id);
      case _ => ConnectorStepKeepsInv(s, a);
    }
  }

  lemma WorkerLeaves(s: State, id: WorkerId, w: Worker)
    requires Inv(s) && Active(s.workers, id)
    requires w.Finishing? || (s.workers[id].Connecting? && w == Connected(s.workers[id].addr))
    ensures s.workers[id].Connecting? ==>
              Inv(s.(connecting := s.connecting - {s.workers[id].addr},
                     remotes := s.remotes + (if w.Connected? then {w.addr} else {}), workers := s.workers[id := w]))
    ensures s.workers[id].Connected? ==>
              Inv(s.(remotes := s.remotes - {s.workers[id].addr}, workers := s.workers[id := w]))
  {
    UpdateWorker(s.workers, id, w);
    var u := s.workers[id := w];
    assert forall i :: Active(u, i) ==> Active(s.workers, i) && u[i].addr == s.workers[i].addr;
    assert s.workers[id].addr !in MarkedBy(s.connector);
  }

  lemma CandidateKeepsInv(s: State, addr: Address)
    requires Inv(s) && s.connector.HasSlot? && addr !in s.connecting && addr !in s.remotes
    ensures Inv(s.(connecting := s.connecting + {addr}, connector := Marked(addr)))
  {
    forall i | Active(s.workers, i) ensures s.workers[i].addr != addr {
      if s.workers[i].Connecting? {
        assert s.workers[i].addr in ConnectingTo(s.workers);
      } else {
        assert s.workers[i].addr in ConnectedTo(s.workers);
      }
    }
  }

  ghost function InUse(workers: map<WorkerId, Worker>): set<Address> {
    set id | id in workers && !workers[id].Finishing? :: workers[id].addr
  }

  lemma {:induction false} AddressesFewerThanWorkers(workers: map<WorkerId, Worker>)
    ensures |InUse(workers)| <= |workers|
  {
    if workers == map[] {
      assert InUse(workers) == {};
    } else {
      var id :| id in workers;
      var rest := workers - {id};
      AddressesFewerThanWorkers(rest);
      assert rest.Keys == workers.Keys - {id};
      var own := if workers[id].Finishing? then {} else {workers[id].addr};
      forall addr | addr in InUse(workers) ensures addr in InUse(rest) + own {
        var i :| i in workers && !workers[i].Finishing? && workers[i].addr == addr;
        if i != id {
          assert i in rest && rest[i] == workers[i];
        }
      }
      SubsetSize(InUse(workers), InUse(rest) + own);
    }
  }

  lemma {:induction false} SubsetSize<T>(a: set<T>, b: set<T>)
    requires a <= b
    ensures |a| <= |b|
  {
    assert |b| == |a| + |b - a| by { assert b == a + (b - a); }
  }

  /** In every interleaving of the connector and its goroutines: no address is in both maps;
      every address in a map is being worked on by exactly one goroutine, or was just marked by
      the connector, so finished goroutines leave none behind; and both maps together never
      exceed the eight slots. */
  lemma {:induction false} EveryRunIsSafe(trace: seq<Action>)
    ensures var s := Run(trace);
            && Inv(s)
            && s.connecting !! s.remotes
            && |s.connecting| + |s.remotes| <= s.slots <= MAX_SLOTS
            && (forall addr :: addr in s.connecting + s.remotes ==>
                 s.connector == Marked(addr) || exists i :: Active(s.workers, i) && s.workers[i].addr == addr)
            && (forall i, j :: Active(s.workers, i) && Active(s.workers, j) ==>
                  s.workers[i].addr == s.workers[j].addr ==> i == j)
  {
    if trace == [] {
      assert ConnectingTo(INIT.workers) == {} && ConnectedTo(INIT.workers) == {};
    } else {
      EveryRunIsSafe(trace[..|trace| - 1]);
      StepKeepsInv(Run(trace[..|trace| - 1]), trace[|trace| - 1]);
    }
    SafeWhenInv(Run(trace));
  }

  lemma EntryHasOwner(s: State, addr: Address)
    requires Inv(s) && addr in s.connecting + s.remotes
    ensures s.connector == Marked(addr) || exists i :: Active(s.workers, i) && s.workers[i].addr == addr
    ensures !(addr in s.connecting && addr in s.remotes)
  {
    if addr in s.remotes {
      var i :| i in s.workers && s.workers[i].Connected? && s.workers[i].addr == addr;
      assert Active(s.workers, i);
      if addr in ConnectingTo(s.workers) {
        var j :| j in s.workers && s.workers[j].Connecting? && s.workers[j].addr == addr;
        assert Active(s.workers, j);
      }
    } else if addr in ConnectingTo(s.workers) {
      var j :| j in s.workers && s.workers[j].Connecting? && s.workers[j].addr == addr;
      assert Active(s.workers, j);
    }
  }

  lemma FewerEntriesThanSlots(s: State)
    requires Inv(s) && s.connecting !! s.remotes
    ensures |s.connecting| + |s.remotes| <= s.slots
  {
    forall addr | addr in s.connecting + s.remotes ensures addr in InUse(s.workers) + MarkedBy(s.connector) {
      EntryHasOwner(s, addr);
    }
    AddressesFewerThanWorkers(s.workers);
    SubsetSize(s.connecting + s.remotes, InUse(s.workers) + MarkedBy(s.connector));
    assert |s.connecting + s.remotes| == |s.connecting| + |s.remotes|;
  }

  lemma SafeWhenInv(s: State)
    requires Inv(s)
    ensures s.connecting !! s.remotes
    ensures |s.connecting| + |s.remotes| <= s.slots
    ensures forall addr :: addr in s.connecting + s.remotes ==>
              s.connector == Marked(addr) || exists i :: Active(s.workers, i) && s.workers[i].addr == addr
  {
    forall addr | addr in s.connecting + s.remotes
      ensures s.connector == Marked(addr) || exists i :: Active(s.workers, i) && s.workers[i].addr == addr
      ensures !(addr in s.connecting && addr in s.remotes)
    {
      EntryHasOwner(s, addr);
    }
    FewerEntriesThanSlots(s);
  }
}
