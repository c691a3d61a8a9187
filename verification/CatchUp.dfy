/** The catch-up section of startupSync (spv/sync.go), run by one goroutine per peer.  A step
    below is one atomic action of one peer; a run is any sequence of steps, so it covers every
    interleaving over any number of peers. */
module CatchUp {
  type PeerId = nat
  type WalletId = nat

  datatype Note = Note(wallet: WalletId, synced: bool)

  /** Where a peer is inside the section, for the wallet it is working on. */
  datatype Work =
    | Pick                            // take the next wallet, or leave the section
    | AskRescanPoint(w: WalletId)
    | CheckLoaded(w: WalletId)        // synced already: filters may still have to be loaded
    | SwapSynced(w: WalletId)         // compare-and-swap of the synced flag to 1
    | NotifySynced(w: WalletId)
    | SwapUnsynced(w: WalletId)       // compare-and-swap of the synced flag to 0
    | NotifyUnsynced(w: WalletId)
    | Discover(w: WalletId)
    | LoadFilters(w: WalletId)
    | Rescan(w: WalletId)

  datatype Peer =
    | Fetching                                                       // before the try-lock
    | Section(remaining: set<WalletId>, work: Work, failed: bool)    // holds the try-lock
    | Leaving(failed: bool)                                          // past the section
    | Returned(failed: bool)

  /** The syncer's shared fields: the try-lock, the flags, and the notifications sent. */
  datatype Shared = Shared(lock: bool, synced: set<WalletId>, loaded: set<WalletId>, notes: seq<Note>)

  datatype State = State(wallets: set<WalletId>, listening: bool, shared: Shared, peers: map<PeerId, Peer>)

  /** How the environment answers the step taken: the wallet the map iteration yields next,
      whether a call succeeds, and whether a rescan point is reported. */
  datatype Answer = Answer(wallet: WalletId, ok: bool, rescan: bool)

  function Init(wallets: set<WalletId>, listening: bool): State {
    State(wallets, listening, Shared(false, {}, {}, []), map[])
  }

  /** The peer is done with the wallet at hand; a later wallet's result replaces this one. */
  function WalletDone(remaining: set<WalletId>, w: WalletId, failed: bool): Peer {
    Section(remaining - {w}, Pick, failed)
  }

  function Notified(g: Shared, listening: bool, n: Note): Shared {
    if listening then g.(notes := g.notes + [n]) else g
  }

  function WorkStep(g: Shared, listening: bool, remaining: set<WalletId>, work: Work, failed: bool,
                    a: Answer): (Shared, Peer) {
    match work
    case Pick =>
      if remaining == {} then (g.(lock := false), Leaving(failed))
      else if a.wallet in remaining then (g, Section(remaining, AskRescanPoint(a.wallet), failed))
      else (g, Section(remaining, work, failed))
    case AskRescanPoint(w) =>
      if !a.ok then (g, WalletDone(remaining, w, true))
      else (g, Section(remaining, if a.rescan then SwapUnsynced(w) else CheckLoaded(w), failed))
    case CheckLoaded(w) =>
      if w in g.loaded then (g, Section(remaining, SwapSynced(w), failed))
      else if !a.ok then (g, WalletDone(remaining, w, true))
      else (g.(loaded := g.loaded + {w}), Section(remaining, SwapSynced(w), failed))
    case SwapSynced(w) =>
      if w in g.synced then (g, WalletDone(remaining, w, false))
      else (g.(synced := g.synced + {w}), Section(remaining, NotifySynced(w), failed))
    case NotifySynced(w) => (Notified(g, listening, Note(w, true)), WalletDone(remaining, w, false))
    case SwapUnsynced(w) =>
      if w !in g.synced then (g, Section(remaining, Discover(w), failed))
      else (g.(synced := g.synced - {w}), Section(remaining, NotifyUnsynced(w), failed))
    case NotifyUnsynced(w) => (Notified(g, listening, Note(w, false)), Section(remaining, Discover(w), failed))
    case Discover(w) =>
      if !a.ok then (g, WalletDone(remaining, w, true)) else (g, Section(remaining, LoadFilters(w), failed))
    case LoadFilters(w) =>
      if !a.ok then (g, WalletDone(remaining, w, true))
      else (g.(loaded := g.loaded + {w}), Section(remaining, Rescan(w), failed))
    case Rescan(w) =>
      if !a.ok then (g, WalletDone(remaining, w, true)) else (g, Section(remaining, SwapSynced(w), failed))
  }

  function Act(g: Shared, wallets: set<WalletId>, listening: bool, peer: Peer, a: Answer): (Shared, Peer) {
    match peer
    case Fetching =>
      if !a.ok then (g, Returned(true))
      else if g.lock then (g, Leaving(false))
      else (g.(lock := true), Section(wallets, Pick, false))
    case Section(remaining, work, failed) => WorkStep(g, listening, remaining, work, failed, a)
    case Leaving(failed) => (g, Returned(failed))
    case Returned(_) => (g, peer)
  }

  function Step(s: State, p: PeerId, a: Answer): State {
    if p !in s.peers then s.(peers := s.peers[p := Fetching])
    else
      var (g, peer) := Act(s.shared, s.wallets, s.listening, s.peers[p], a);
      s.(shared := g, peers := s.peers[p := peer])
  }

  function Run(s: State, trace: seq<(PeerId, Answer)>): State {
    if trace == [] then s
    else
      var (p, a) := trace[|trace| - 1];
      Step(Run(s, trace[..|trace| - 1]), p, a)
  }

  // ----- what every run keeps -----

  predicate Inside(s: State, p: PeerId) { p in s.peers && s.peers[p].Section? }

  /** The lock is held exactly while a peer is in the section, and by one peer only. */
  ghost predicate Exclusive(s: State) {
    && (s.shared.lock <==> exists p :: Inside(s, p))
    && (forall p, q :: Inside(s, p) && Inside(s, q) ==> p == q)
  }

  /** The notifications for one wallet, in order. */
  function NotesFor(notes: seq<Note>, w: WalletId): seq<bool> {
    if notes == [] then []
    else
      var n := notes[|notes| - 1];
      NotesFor(notes[..|notes| - 1], w) + (if n.wallet == w then [n.synced] else [])
  }

  /** true, false, true, ... */
  predicate Alternating(b: seq<bool>) {
    forall i :: 0 <= i < |b| ==> b[i] == (i % 2 == 0)
  }

  /** The work of the one peer inside, if any. */
  ghost function Holding(s: State): Work {
    if exists p :: Inside(s, p) then (var p :| Inside(s, p); s.peers[p].work) else Pick
  }

  /** A wallet's notifications alternate, and the last one tells its synced flag, except
      between a swap of the flag and its notification. */
  predicate ToldTruth(g: Shared, work: Work, w: WalletId) {
    var told := NotesFor(g.notes, w);
    && Alternating(told)
    && (|told| % 2 == 1 <==> ((w in g.synced && work != NotifySynced(w)) || work == NotifyUnsynced(w)))
  }

  /** What the peer inside knows about the wallet at hand. */
  predicate WorkOk(g: Shared, wallets: set<WalletId>, remaining: set<WalletId>, work: Work) {
    && remaining <= wallets
    && (!work.Pick? ==> work.w in remaining)
    && (work.SwapSynced? || work.NotifySynced? || work.Rescan? ==> work.w in g.loaded)
    && (work.NotifySynced? ==> work.w in g.synced)
    && (work.Discover? || work.LoadFilters? || work.Rescan? || work.NotifyUnsynced? ==> work.w !in g.synced)
  }

  ghost predicate Inv(s: State) {
    && Exclusive(s)
    && s.shared.synced <= s.shared.loaded
    && (forall p :: Inside(s, p) ==> WorkOk(s.shared, s.wallets, s.peers[p].remaining, s.peers[p].work))
    && (s.listening ==> forall w :: ToldTruth(s.shared, Holding(s), w))
    && (!s.listening ==> s.shared.notes == [])
  }

  lemma HoldingIs(s: State, p: PeerId)
    requires Exclusive(s) && Inside(s, p)
    ensures Holding(s) == s.peers[p].work
  {
  }

  lemma WorkKeepsLock(g: Shared, listening: bool, remaining: set<WalletId>, work: Work, failed: bool, a: Answer)
    ensures var (h, peer) := WorkStep(g, listening, remaining, work, failed, a);
            h.lock == (g.lock && peer.Section?)
  {
  }

  lemma OthersUnchanged(s: State, p: PeerId, a: Answer, q: PeerId)
    requires q != p
    ensures Inside(Step(s, p, a), q) <==> Inside(s, q)
    ensures Inside(s, q) ==> Step(s, p, a).peers[q] == s.peers[q]
  {
  }

  lemma StepKeepsExclusive(s: State, p: PeerId, a: Answer)
    requires Exclusive(s)
    ensures Exclusive(Step(s, p, a))
    ensures Inside(s, p) || Inside(Step(s, p, a), p) ==> forall q :: Inside(Step(s, p, a), q) ==> q == p
    ensures !Inside(s, p) && !Inside(Step(s, p, a), p) ==>
              Step(s, p, a).shared == s.shared && Holding(Step(s, p, a)) == Holding(s)
  {
    var t := Step(s, p, a);
    forall q | q != p ensures (Inside(t, q) <==> Inside(s, q)) && (Inside(s, q) ==> t.peers[q] == s.peers[q]) {
      OthersUnchanged(s, p, a, q);
    }
    if Inside(s, p) {
      var Section(remaining, work, failed) := s.peers[p];
      WorkKeepsLock(s.shared, s.listening, remaining, work, failed, a);
      assert forall q :: Inside(t, q) ==> q == p;
      assert t.shared.lock == Inside(t, p);
    } else if Inside(t, p) {
      assert !s.shared.lock && t.shared.lock;
    } else {
      assert t.shared == s.shared;
      forall q ensures Inside(t, q) <==> Inside(s, q) { }
      if q :| Inside(s, q) {
        assert Inside(t, q);
        assert Exclusive(t);
        HoldingIs(s, q);
        HoldingIs(t, q);
      }
    }
  }

  lemma NotesAfter(notes: seq<Note>, n: Note, w: WalletId)
    ensures NotesFor(notes + [n], w) == NotesFor(notes, w) + (if n.wallet == w then [n.synced] else [])
  {
    assert (notes + [n])[..|notes|] == notes;
  }

  lemma NoteKeepsTold(g: Shared, w: WalletId, synced: bool, v: WalletId)
    requires ToldTruth(g, if synced then NotifySynced(w) else NotifyUnsynced(w), v)
    requires w in g.synced <==> synced
    ensures ToldTruth(Notified(g, true, Note(w, synced)), Pick, v)
  {
    NotesAfter(g.notes, Note(w, synced), v);
  }

  /** One step of the peer inside, for one wallet's notifications. */
  lemma WorkKeepsTold(g: Shared, wallets: set<WalletId>, remaining: set<WalletId>, work: Work, failed: bool, a: Answer,
                      w: WalletId)
    requires WorkOk(g, wallets, remaining, work) && ToldTruth(g, work, w)
    ensures var (h, peer) := WorkStep(g, true, remaining, work, failed, a);
            ToldTruth(h, if peer.Section? then peer.work else Pick, w)
  {
    match work
    case NotifySynced(v) => NoteKeepsTold(g, v, true, w);
    case NotifyUnsynced(v) => NoteKeepsTold(g, v, false, w);
    case _ =>
  }

  lemma WorkKeepsOk(g: Shared, wallets: set<WalletId>, listening: bool, remaining: set<WalletId>, work: Work,
                    failed: bool, a: Answer)
    requires WorkOk(g, wallets, remaining, work) && g.synced <= g.loaded
    ensures var (h, peer) := WorkStep(g, listening, remaining, work, failed, a);
            && h.synced <= h.loaded && (!listening ==> h.notes == g.notes)
            && (peer.Section? ==> WorkOk(h, wallets, peer.remaining, peer.work))
  {
  }

  lemma StepKeepsInv(s: State, p: PeerId, a: Answer)
    requires Inv(s)
    ensures Inv(Step(s, p, a))
  {
    var t := Step(s, p, a);
    StepKeepsExclusive(s, p, a);
    if Inside(s, p) {
      var Section(remaining, work, failed) := s.peers[p];
      HoldingIs(s, p);
      WorkKeepsOk(s.shared, s.wallets, s.listening, remaining, work, failed, a);
      if Inside(t, p) {
        HoldingIs(t, p);
      }
      forall w | s.listening ensures ToldTruth(t.shared, Holding(t), w) {
        WorkKeepsTold(s.shared, s.wallets, remaining, work, failed, a, w);
      }
    } else if Inside(t, p) {
      HoldingIs(t, p);
      assert !s.shared.lock && Holding(s) == Pick == Holding(t);
      assert t.shared == s.shared.(lock := true);
      forall w | s.listening ensures ToldTruth(t.shared, Holding(t), w) {
        assert ToldTruth(s.shared, Holding(s), w);
      }
    } else {
      forall q | Inside(t, q) ensures WorkOk(t.shared, t.wallets, t.peers[q].remaining, t.peers[q].work) {
        OthersUnchanged(s, p, a, q);
      }
    }
  }

  /** In every interleaving over any number of peers: at most one peer is in the catch-up
      section and the lock is held exactly then, so every way out of the section releases it;
      a wallet flagged synced has its filters loaded; and each wallet's notifications
      alternate, starting with true. */
  lemma {:induction false} EveryRunIsSafe(wallets: set<WalletId>, listening: bool, trace: seq<(PeerId, Answer)>)
    ensures var s := Run(Init(wallets, listening), trace);
            && Inv(s)
            && (forall p, q :: Inside(s, p) && Inside(s, q) ==> p == q)
            && (s.shared.lock <==> exists p :: Inside(s, p))
            && s.shared.synced <= s.shared.loaded
            && (forall w :: Alternating(NotesFor(s.shared.notes, w)))
  {
    var init := Init(wallets, listening);
    if trace == [] {
      assert forall w :: NotesFor(init.shared.notes, w) == [];
    } else {
      EveryRunIsSafe(wallets, listening, trace[..|trace| - 1]);
      var (p, a) := trace[|trace| - 1];
      StepKeepsInv(Run(init, trace[..|trace| - 1]), p, a);
    }
    var s := Run(init, trace);
    forall w ensures Alternating(NotesFor(s.shared.notes, w)) {
      if s.listening {
        assert ToldTruth(s.shared, Holding(s), w);
      }
    }
  }

  // ----- which wallet's error is returned -----

  datatype Option<+T> = None | Some(value: T)

  datatype Result = Result(wallet: WalletId, failed: bool)

  /** What the work on a wallet returns, if this step ends it: an error when a call fails, and
      none when the wallet is told to be synced or was already. */
  function WorkResult(g: Shared, work: Work, a: Answer): Option<Result> {
    match work
    case Pick => None
    case AskRescanPoint(w) => if a.ok then None else Some(Result(w, true))
    case CheckLoaded(w) => if a.ok || w in g.loaded then None else Some(Result(w, true))
    case SwapSynced(w) => if w in g.synced then Some(Result(w, false)) else None
    case NotifySynced(w) => Some(Result(w, false))
    case SwapUnsynced(_) => None
    case NotifyUnsynced(_) => None
    case Discover(w) => if a.ok then None else Some(Result(w, true))
    case LoadFilters(w) => if a.ok then None else Some(Result(w, true))
    case Rescan(w) => if a.ok then None else Some(Result(w, true))
  }

  /** The results of the wallets peer p has finished, in order. */
  function Results(init: State, trace: seq<(PeerId, Answer)>, p: PeerId): seq<Result> {
    if trace == [] then []
    else
      var before := trace[..|trace| - 1];
      var (q, a) := trace[|trace| - 1];
      Results(init, before, p) + ResultsOfStep(Run(init, before), q, a, p)
  }

  function ResultsOfStep(s: State, q: PeerId, a: Answer, p: PeerId): seq<Result> {
    if q != p || !Inside(s, p) then []
    else
      match WorkResult(s.shared, s.peers[p].work, a)
      case Some(r) => [r]
      case None => []
  }

  /** The wallet finished last failed. */
  predicate LastFailed(results: seq<Result>) { results != [] && results[|results| - 1].failed }

  ghost predicate ReportsLast(s: State, p: PeerId, results: seq<Result>) {
    && (p !in s.peers || s.peers[p].Fetching? ==> results == [])
    && (p in s.peers && (s.peers[p].Section? || s.peers[p].Leaving?) ==> s.peers[p].failed == LastFailed(results))
    && (p in s.peers && s.peers[p].Returned? && results != [] ==> s.peers[p].failed == LastFailed(results))
  }

  lemma StepReportsLast(s: State, q: PeerId, a: Answer, p: PeerId, results: seq<Result>)
    requires ReportsLast(s, p, results)
    ensures ReportsLast(Step(s, q, a), p, results + ResultsOfStep(s, q, a, p))
  {
    assert q != p ==> results + [] == results;
  }

  /** In every interleaving, what a peer that held the lock returns from the section is the
      error of the wallet it finished last: a failure is reported if and only if that wallet
      failed, whatever the others did. */
  lemma {:induction false} LastWalletDecides(wallets: set<WalletId>, listening: bool, trace: seq<(PeerId, Answer)>,
                                             p: PeerId)
    ensures var init := Init(wallets, listening);
            var s, results := Run(init, trace), Results(init, trace, p);
            ReportsLast(s, p, results)
  {
    if trace != [] {
      var before := trace[..|trace| - 1];
      var (q, a) := trace[|trace| - 1];
      var init := Init(wallets, listening);
      LastWalletDecides(wallets, listening, before, p);
      StepReportsLast(Run(init, before), q, a, p, Results(init, before, p));
    }
  }

  /** Only peer p is there. */
  function Alone(init: State, g: Shared, p: PeerId, peer: Peer): State { init.(shared := g, peers := map[p := peer]) }

  lemma AloneStep(init: State, trace: seq<(PeerId, Answer)>, g: Shared, p: PeerId, peer: Peer, a: Answer)
    returns (longer: seq<(PeerId, Answer)>)
    requires Run(init, trace) == Alone(init, g, p, peer)
    ensures var (h, next) := Act(g, init.wallets, init.listening, peer, a);
            Run(init, longer) == Alone(init, h, p, next)
  {
    longer := trace + [(p, a)];
    assert longer[..|trace|] == trace;
    var next := Act(g, init.wallets, init.listening, peer, a).1;
    assert map[p := peer][p := next] == map[p := next];
  }

  /** A peer enters the section and the first wallet it picks fails. */
  lemma FirstWalletFails(init: State, p: PeerId, v: WalletId) returns (trace: seq<(PeerId, Answer)>)
    requires v in init.wallets && !init.shared.lock && init.peers == map[]
    ensures Run(init, trace) == Alone(init, init.shared.(lock := true), p, Section(init.wallets - {v}, Pick, true))
  {
    var g := init.shared.(lock := true);
    trace := [(p, Answer(v, true, false))];
    assert trace[..0] == [];
    assert Run(init, trace) == Alone(init, init.shared, p, Fetching);
    trace := AloneStep(init, trace, init.shared, p, Fetching, Answer(v, true, false));
    trace := AloneStep(init, trace, g, p, Section(init.wallets, Pick, false), Answer(v, true, false));
    trace := AloneStep(init, trace, g, p, Section(init.wallets, AskRescanPoint(v), false), Answer(v, false, false));
  }

  /** A wallet that needs no rescan has its filters loaded. */
  lemma WalletLoads(init: State, before: seq<(PeerId, Answer)>, g: Shared, p: PeerId, w: WalletId, failed: bool)
    returns (trace: seq<(PeerId, Answer)>)
    requires Run(init, before) == Alone(init, g, p, Section({w}, Pick, failed))
    ensures Run(init, trace) == Alone(init, g.(loaded := g.loaded + {w}), p, Section({w}, SwapSynced(w), failed))
  {
    var ok := Answer(w, true, false);
    assert w in g.loaded ==> g.loaded + {w} == g.loaded;
    trace := AloneStep(init, before, g, p, Section({w}, Pick, failed), ok);
    trace := AloneStep(init, trace, g, p, Section({w}, AskRescanPoint(w), failed), ok);
    trace := AloneStep(init, trace, g, p, Section({w}, CheckLoaded(w), failed), ok);
  }

  /** The last wallet succeeds. */
  lemma LastWalletSucceeds(init: State, before: seq<(PeerId, Answer)>, h: Shared, p: PeerId, w: WalletId, failed: bool)
    returns (trace: seq<(PeerId, Answer)>)
    requires w !in h.synced && Run(init, before) == Alone(init, h, p, Section({w}, SwapSynced(w), failed))
    ensures var s := Run(init, trace); p in s.peers && s.peers[p] == Leaving(false) && s.shared.synced == h.synced + {w}
  {
    var ok := Answer(w, true, false);
    var k := h.(synced := h.synced + {w});
    trace := AloneStep(init, before, h, p, Section({w}, SwapSynced(w), failed), ok);
    trace := AloneStep(init, trace, k, p, Section({w}, NotifySynced(w), failed), ok);
    assert {w} - {w} == {};
    trace := AloneStep(init, trace, Notified(k, init.listening, Note(w, true)), p, Section({}, Pick, false), ok);
  }

  /** A later wallet's success hides an earlier wallet's failure: a run in which wallet v fails,
      wallet w then succeeds, and the peer leaves the section without error. */
  lemma LaterSuccessHidesFailure(p: PeerId, v: WalletId, w: WalletId, listening: bool)
    returns (trace: seq<(PeerId, Answer)>)
    requires v != w
    ensures var s := Run(Init({v, w}, listening), trace);
            p in s.peers && s.peers[p] == Leaving(false) && v !in s.shared.synced && w in s.shared.synced
  {
    var init := Init({v, w}, listening);
    var before := FirstWalletFails(init, p, v);
    assert {v, w} - {v} == {w};
    var g := init.shared.(lock := true);
    before := WalletLoads(init, before, g, p, w, true);
    trace := LastWalletSucceeds(init, before, g.(loaded := g.loaded + {w}), p, w, true);
  }

  // ----- every wallet is worked on -----

  function ResultsFor(results: seq<Result>, w: WalletId): nat {
    if results == [] then 0
    else ResultsFor(results[..|results| - 1], w) + (if results[|results| - 1].wallet == w then 1 else 0)
  }

  /** Each of these wallets has one result, and no other wallet has any. */
  ghost predicate OneEach(results: seq<Result>, finished: set<WalletId>) {
    forall w :: ResultsFor(results, w) == if w in finished then 1 else 0
  }

  /** The wallets finished so far, once each: those no longer remaining while the peer is in the
      section, and all of them once it has left. */
  ghost predicate Tried(wallets: set<WalletId>, peer: Option<Peer>, results: seq<Result>) {
    match peer
    case None => results == []
    case Some(Fetching) => results == []
    case Some(Section(remaining, _, _)) => remaining <= wallets && OneEach(results, wallets - remaining)
    case Some(_) => results != [] ==> OneEach(results, wallets)
  }

  function PeerAt(s: State, p: PeerId): Option<Peer> { if p in s.peers then Some(s.peers[p]) else None }

  lemma ResultsOne(results: seq<Result>, r: Result, w: WalletId)
    ensures ResultsFor(results + [r], w) == ResultsFor(results, w) + (if r.wallet == w then 1 else 0)
  {
    assert (results + [r])[..|results|] == results;
  }

  lemma OneMore(results: seq<Result>, r: Result, finished: set<WalletId>)
    requires OneEach(results, finished) && r.wallet !in finished
    ensures OneEach(results + [r], finished + {r.wallet})
  {
    forall w ensures ResultsFor(results + [r], w) == if w in finished + {r.wallet} then 1 else 0 {
      ResultsOne(results, r, w);
    }
  }

  lemma NoneYet()
    ensures OneEach([], {})
  {
  }

  /** A result ends the work on one remaining wallet; the section is left when none remains. */
  lemma ResultTakesWallet(g: Shared, listening: bool, remaining: set<WalletId>, work: Work, failed: bool, a: Answer)
    requires !work.Pick? ==> work.w in remaining
    ensures var peer := WorkStep(g, listening, remaining, work, failed, a).1;
            match WorkResult(g, work, a)
            case Some(r) => r.wallet in remaining && peer.Section? && peer.remaining == remaining - {r.wallet}
            case None => if peer.Section? then peer.remaining == remaining else remaining == {} && peer.Leaving?
  {
  }

  lemma StepKeepsTried(s: State, q: PeerId, a: Answer, p: PeerId, results: seq<Result>)
    requires Inv(s) && Tried(s.wallets, PeerAt(s, p), results)
    ensures Tried(s.wallets, PeerAt(Step(s, q, a), p), results + ResultsOfStep(s, q, a, p))
  {
    if q == p && Inside(s, p) {
      var Section(remaining, work, failed) := s.peers[p];
      assert WorkOk(s.shared, s.wallets, remaining, work);
      ResultTakesWallet(s.shared, s.listening, remaining, work, failed, a);
      WorkKeepsTried(s, a, p, results);
    } else {
      assert results + [] == results;
      NoneYet();
      assert s.wallets - s.wallets == {};
    }
  }

  lemma WorkKeepsTried(s: State, a: Answer, p: PeerId, results: seq<Result>)
    requires Inside(s, p) && Tried(s.wallets, Some(s.peers[p]), results)
    requires WorkOk(s.shared, s.wallets, s.peers[p].remaining, s.peers[p].work)
    ensures Tried(s.wallets, PeerAt(Step(s, p, a), p), results + ResultsOfStep(s, p, a, p))
  {
    var Section(remaining, work, failed) := s.peers[p];
    ResultTakesWallet(s.shared, s.listening, remaining, work, failed, a);
    match WorkResult(s.shared, work, a) {
      case Some(r) =>
        OneMore(results, r, s.wallets - remaining);
        assert s.wallets - (remaining - {r.wallet}) == s.wallets - remaining + {r.wallet};
      case None =>
        assert results + [] == results;
        assert s.wallets - {} == s.wallets;
    }
  }

  /** In every interleaving, a peer that has finished some wallet and left the section has
      finished every wallet, exactly once. */
  lemma {:induction false} EveryWalletIsTried(wallets: set<WalletId>, listening: bool, trace: seq<(PeerId, Answer)>,
                                              p: PeerId)
    ensures var init := Init(wallets, listening);
            var s := Run(init, trace);
            s.wallets == wallets && Tried(wallets, PeerAt(s, p), Results(init, trace, p))
  {
    if trace != [] {
      var init, before := Init(wallets, listening), trace[..|trace| - 1];
      var (q, a) := trace[|trace| - 1];
      EveryWalletIsTried(wallets, listening, before, p);
      EveryRunIsSafe(wallets, listening, before);
      StepKeepsTried(Run(init, before), q, a, p, Results(init, before, p));
    }
  }

  // ----- what precedes a wallet being flagged synced -----

  /** The calls a peer makes for a wallet, with their answers. */
  datatype Event =
    | Asked(wallet: WalletId, ok: bool, rescan: bool)
    | Discovered(wallet: WalletId, ok: bool)
    | Loaded(wallet: WalletId, ok: bool)
    | Rescanned(wallet: WalletId, ok: bool)

  function EventsOfStep(s: State, q: PeerId, a: Answer, p: PeerId): seq<Event> {
    if q != p || !Inside(s, p) then []
    else
      match s.peers[p].work
      case AskRescanPoint(w) => [Asked(w, a.ok, a.rescan)]
      case Discover(w) => [Discovered(w, a.ok)]
      case LoadFilters(w) => [Loaded(w, a.ok)]
      case Rescan(w) => [Rescanned(w, a.ok)]
      case _ => []
  }

  function Events(init: State, trace: seq<(PeerId, Answer)>, p: PeerId): seq<Event> {
    if trace == [] then []
    else
      var before := trace[..|trace| - 1];
      var (q, a) := trace[|trace| - 1];
      Events(init, before, p) + EventsOfStep(Run(init, before), q, a, p)
  }

  /** The calls for wallet w from the last question for its rescan point on. */
  function Since(events: seq<Event>, w: WalletId): seq<Event> {
    if events == [] then []
    else
      var e, before := events[|events| - 1], events[..|events| - 1];
      if e.wallet != w then Since(before, w)
      else if e.Asked? then [e]
      else Since(before, w) + [e]
  }

  /** The wallet needed no rescan, or its addresses were discovered, its filters loaded and its
      blocks rescanned, in this order and with success. */
  predicate CaughtUp(since: seq<Event>, w: WalletId) {
    || since == [Asked(w, true, false)]
    || since == [Asked(w, true, true), Discovered(w, true), Loaded(w, true), Rescanned(w, true)]
  }

  /** Which calls lie behind the work at hand. */
  predicate Behind(work: Work, events: seq<Event>) {
    match work
    case CheckLoaded(w) => Since(events, w) == [Asked(w, true, false)]
    case SwapUnsynced(w) => Since(events, w) == [Asked(w, true, true)]
    case NotifyUnsynced(w) => Since(events, w) == [Asked(w, true, true)]
    case Discover(w) => Since(events, w) == [Asked(w, true, true)]
    case LoadFilters(w) => Since(events, w) == [Asked(w, true, true), Discovered(w, true)]
    case Rescan(w) => Since(events, w) == [Asked(w, true, true), Discovered(w, true), Loaded(w, true)]
    case SwapSynced(w) => CaughtUp(Since(events, w), w)
    case _ => true
  }

  lemma SinceOne(events: seq<Event>, e: Event, w: WalletId)
    ensures Since(events + [e], w) ==
            if e.wallet != w then Since(events, w) else if e.Asked? then [e] else Since(events, w) + [e]
  {
    assert (events + [e])[..|events|] == events;
  }

  lemma StepKeepsBehind(s: State, q: PeerId, a: Answer, p: PeerId, events: seq<Event>)
    requires Inside(s, p) ==> Behind(s.peers[p].work, events)
    ensures var t, more := Step(s, q, a), events + EventsOfStep(s, q, a, p);
            Inside(t, p) ==> Behind(t.peers[p].work, more)
  {
    var step := EventsOfStep(s, q, a, p);
    if step == [] {
      assert events + step == events;
    } else {
      assert step == [step[0]];
      SinceOne(events, step[0], step[0].wallet);
    }
  }

  lemma {:induction false} EveryRunIsBehind(wallets: set<WalletId>, listening: bool, trace: seq<(PeerId, Answer)>,
                                            p: PeerId)
    ensures var init := Init(wallets, listening);
            var s := Run(init, trace);
            Inside(s, p) ==> Behind(s.peers[p].work, Events(init, trace, p))
  {
    if trace != [] {
      var init, before := Init(wallets, listening), trace[..|trace| - 1];
      var (q, a) := trace[|trace| - 1];
      EveryRunIsBehind(wallets, listening, before, p);
      StepKeepsBehind(Run(init, before), q, a, p, Events(init, before, p));
    }
  }

  /** In every interleaving, a step that flags a wallet synced is taken by a peer that was told
      the wallet needs no rescan, or that has since discovered its addresses, loaded its filters
      and rescanned it. */
  lemma SyncedIsCaughtUp(wallets: set<WalletId>, listening: bool, trace: seq<(PeerId, Answer)>, p: PeerId, a: Answer,
                         w: WalletId)
    requires var s := Run(Init(wallets, listening), trace);
             w !in s.shared.synced && w in Step(s, p, a).shared.synced
    ensures CaughtUp(Since(Events(Init(wallets, listening), trace, p), w), w)
  {
    EveryRunIsBehind(wallets, listening, trace, p);
  }

  /** Without an error a wallet that needs a rescan is flagged unsynced before anything is done
      about it. */
  lemma UnsyncedWhileCatchingUp(wallets: set<WalletId>, listening: bool, trace: seq<(PeerId, Answer)>, p: PeerId)
    ensures var s := Run(Init(wallets, listening), trace);
            Inside(s, p) && (s.peers[p].work.Discover? || s.peers[p].work.LoadFilters? || s.peers[p].work.Rescan?) ==>
              s.peers[p].work.w !in s.shared.synced
  {
    EveryRunIsSafe(wallets, listening, trace);
  }

  // ----- the section always ends -----

  function Rank(work: Work): nat {
    match work
    case Pick => 9
    case AskRescanPoint(_) => 8
    case SwapUnsynced(_) => 7
    case NotifyUnsynced(_) => 6
    case Discover(_) => 5
    case LoadFilters(_) => 4
    case CheckLoaded(_) => 3
    case Rescan(_) => 3
    case SwapSynced(_) => 2
    case NotifySynced(_) => 1
  }

  /** A bound on the steps the peer still takes inside the section. */
  function StepsLeft(peer: Peer): nat {
    if peer.Section? then 10 * |peer.remaining| + Rank(peer.work) else 0
  }

  lemma WorkMakesProgress(g: Shared, listening: bool, remaining: set<WalletId>, work: Work, failed: bool, a: Answer)
    requires !work.Pick? ==> work.w in remaining
    requires work.Pick? && remaining != {} ==> a.wallet in remaining
    ensures StepsLeft(WorkStep(g, listening, remaining, work, failed, a).1) < 10 * |remaining| + Rank(work)
  {
    if !work.Pick? {
      assert |remaining - {work.w}| == |remaining| - 1;
    }
  }

  /** Each step of the peer inside brings it closer to releasing the lock, whatever the calls
      it makes return: no error path stays in the section. */
  lemma SectionProgress(s: State, p: PeerId, a: Answer)
    requires Inv(s) && Inside(s, p)
    requires s.peers[p].work.Pick? && s.peers[p].remaining != {} ==> a.wallet in s.peers[p].remaining
    ensures StepsLeft(Step(s, p, a).peers[p]) < StepsLeft(s.peers[p])
    ensures !Inside(Step(s, p, a), p) ==> !Step(s, p, a).shared.lock
  {
    var Section(remaining, work, failed) := s.peers[p];
    assert WorkOk(s.shared, s.wallets, remaining, work);
    WorkMakesProgress(s.shared, s.listening, remaining, work, failed, a);
    WorkKeepsLock(s.shared, s.listening, remaining, work, failed, a);
  }
}
