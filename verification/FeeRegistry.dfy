/** The registry of fee payments (feePayment, remove and schedule of
    internal/vsp/feepayment.go): concurrent calls that look up, create and insert a job for a
    ticket, removals, and each job's timer.  A step is one atomic action, with the client's
    mutex or the job's timer mutex held where the source holds it; a run is any sequence of
    steps. */
module FeeRegistry {
  type Ticket = nat
  type CallId = nat
  type JobId = nat

  datatype Option<+T> = None | Some(value: T)

  /** `firsts` counts the initial reconcile schedules, `pending` the timers that may still
      fire, and `timer` is the one the job's field holds. */
  datatype Job = Job(ticket: Ticket, inserted: bool, firsts: nat, timer: Option<nat>, pending: set<nat>)

  datatype Call =
    | Looking(ticket: Ticket)                    // about to look the ticket up
    | Building(ticket: Ticket)                   // not found: reading the wallet
    | Built(ticket: Ticket, job: JobId)          // new job, not yet inserted
    | Inserted(ticket: Ticket, job: JobId)       // inserted, initial schedule still to come
    | Returned(ticket: Ticket, result: Option<JobId>, own: bool)

  datatype State = State(registry: map<Ticket, JobId>, jobs: seq<Job>, calls: map<CallId, Call>)

  datatype Action =
    | Begin(c: CallId, ticket: Ticket) | LookUp(c: CallId) | Build(c: CallId, ok: bool) | Insert(c: CallId)
    | ScheduleFirst(c: CallId, timer: nat)
    | Schedule(job: JobId, timer: nat) | Stop(job: JobId) | Fire(job: JobId, timer: nat) | Remove(job: JobId)

  const INIT := State(map[], [], map[])

  /** schedule with a method: the old timer is stopped and a new one started. */
  function Scheduled(j: Job, timer: nat): Job {
    j.(timer := Some(timer), pending := Stopped(j).pending + {timer})
  }

  function Stopped(j: Job): Job {
    j.(timer := None, pending := if j.timer.Some? then j.pending - {j.timer.value} else j.pending)
  }

  function SetCall(s: State, c: CallId, call: Call): State { s.(calls := s.calls[c := call]) }

  function CallStep(s: State, a: Action): State
    requires (a.LookUp? || a.Build? || a.Insert? || a.ScheduleFirst?) && a.c in s.calls
  {
    match (a, s.calls[a.c])
    case (LookUp(c), Looking(t)) =>
      SetCall(s, c, if t in s.registry then Returned(t, Some(s.registry[t]), false) else Building(t))
    case (Build(c, ok), Building(t)) =>
      if !ok then SetCall(s, c, Returned(t, None, false))
      else SetCall(s, c, Built(t, |s.jobs|)).(jobs := s.jobs + [Job(t, false, 0, None, {})])
    case (Insert(c), Built(t, j)) =>
      if j >= |s.jobs| then s
      else if t in s.registry then
        SetCall(s, c, Returned(t, Some(s.registry[t]), false)).(jobs := s.jobs[j := Stopped(s.jobs[j])])
      else
        SetCall(s, c, Inserted(t, j)).(
          registry := s.registry[t := j], jobs := s.jobs[j := s.jobs[j].(inserted := true)])
    case (ScheduleFirst(c, timer), Inserted(t, j)) =>
      if j >= |s.jobs| then s
      else
        SetCall(s, c, Returned(t, Some(j), true)).(
          jobs := s.jobs[j := Scheduled(s.jobs[j], timer).(firsts := s.jobs[j].firsts + 1)])
    case _ => s
  }

  function Step(s: State, a: Action): State {
    match a
    case Begin(c, t) => if c in s.calls then s else SetCall(s, c, Looking(t))
    case Schedule(j, timer) => if j < |s.jobs| then s.(jobs := s.jobs[j := Scheduled(s.jobs[j], timer)]) else s
    case Stop(j) => if j < |s.jobs| then s.(jobs := s.jobs[j := Stopped(s.jobs[j])]) else s
    case Fire(j, timer) =>
      if j < |s.jobs| then s.(jobs := s.jobs[j := s.jobs[j].(pending := s.jobs[j].pending - {timer})]) else s
    case Remove(j) => if j < |s.jobs| then s.(registry := s.registry - {s.jobs[j].ticket}) else s
    case _ => if a.c in s.calls then CallStep(s, a) else s
  }

  function Run(trace: seq<Action>): State {
    if trace == [] then INIT else Step(Run(trace[..|trace| - 1]), trace[|trace| - 1])
  }

  // ----- what every run keeps -----

  /** The job a call has built itself. */
  function OwnJob(call: Call): Option<JobId> {
    match call
    case Built(_, j) => Some(j)
    case Inserted(_, j) => Some(j)
    case Returned(_, j, own) => if own then j else None
    case _ => None
  }

  ghost predicate JobOk(j: Job) {
    && j.firsts <= 1
    && (j.firsts > 0 ==> j.inserted)
    && j.pending <= (if j.timer.Some? then {j.timer.value} else {})
  }

  ghost predicate CallOk(s: State, call: Call) {
    match call
    case Built(t, j) => j < |s.jobs| && s.jobs[j].ticket == t && !s.jobs[j].inserted && s.jobs[j].firsts == 0
    case Inserted(t, j) => j < |s.jobs| && s.jobs[j].ticket == t && s.jobs[j].inserted && s.jobs[j].firsts == 0
    case Returned(t, Some(j), own) =>
      j < |s.jobs| && s.jobs[j].ticket == t && s.jobs[j].inserted && (own ==> s.jobs[j].firsts == 1)
    case _ => true
  }

  ghost predicate Inv(s: State) {
    && (forall t :: t in s.registry ==>
         s.registry[t] < |s.jobs| && s.jobs[s.registry[t]].ticket == t && s.jobs[s.registry[t]].inserted)
    && (forall j :: 0 <= j < |s.jobs| ==> JobOk(s.jobs[j]))
    && (forall c :: c in s.calls ==> CallOk(s, s.calls[c]))
    && (forall c, d :: c in s.calls && d in s.calls && OwnJob(s.calls[c]).Some? ==>
          OwnJob(s.calls[c]) == OwnJob(s.calls[d]) ==> c == d)
  }

  /** Changing one job's timer keeps the invariant. */
  lemma TimerStepKeepsInv(s: State, j: JobId, job: Job)
    requires Inv(s) && j < |s.jobs|
    requires job.ticket == s.jobs[j].ticket && job.inserted == s.jobs[j].inserted && job.firsts == s.jobs[j].firsts
             && JobOk(job)
    ensures Inv(s.(jobs := s.jobs[j := job]))
  {
    var u := s.(jobs := s.jobs[j := job]);
    forall c | c in u.calls ensures CallOk(u, u.calls[c]) {
      assert CallOk(s, s.calls[c]);
    }
  }

  lemma LookUpKeepsInv(s: State, c: CallId)
    requires Inv(s) && c in s.calls && s.calls[c].Looking?
    ensures Inv(CallStep(s, LookUp(c)))
  {
    var u := CallStep(s, LookUp(c));
    assert OwnJob(u.calls[c]).None?;
    forall d | d in u.calls ensures CallOk(u, u.calls[d]) {
      if d != c { assert CallOk(s, s.calls[d]); }
    }
  }

  lemma BuildKeepsInv(s: State, c: CallId, ok: bool)
    requires Inv(s) && c in s.calls && s.calls[c].Building?
    ensures Inv(CallStep(s, Build(c, ok)))
  {
    var u := CallStep(s, Build(c, ok));
    forall d | d in u.calls
      ensures CallOk(u, u.calls[d])
      ensures d != c && OwnJob(u.calls[d]).Some? ==> OwnJob(u.calls[d]).value < |s.jobs|
    {
      if d != c { assert CallOk(s, s.calls[d]); }
    }
  }

  lemma InsertKeepsInv(s: State, c: CallId)
    requires Inv(s) && c in s.calls && s.calls[c].Built?
    ensures Inv(CallStep(s, Insert(c)))
  {
    var Built(t, j) := s.calls[c];
    var u := CallStep(s, Insert(c));
    assert CallOk(s, s.calls[c]);
    forall d | d in u.calls ensures CallOk(u, u.calls[d]) {
      if d != c {
        assert CallOk(s, s.calls[d]);
        assert u.calls[d] == s.calls[d];
      }
    }
  }

  lemma ScheduleFirstKeepsInv(s: State, c: CallId, timer: nat)
    requires Inv(s) && c in s.calls && s.calls[c].Inserted?
    ensures Inv(CallStep(s, ScheduleFirst(c, timer)))
  {
    var Inserted(t, j) := s.calls[c];
    var u := CallStep(s, ScheduleFirst(c, timer));
    assert CallOk(s, s.calls[c]);
    forall d | d in u.calls ensures CallOk(u, u.calls[d]) {
      if d != c {
        assert CallOk(s, s.calls[d]);
        assert u.calls[d] == s.calls[d];
      }
    }
  }

  lemma StepKeepsInv(s: State, a: Action)
    requires Inv(s)
    ensures Inv(Step(s, a))
  {
    if Step(s, a) != s {
      match a
      case Begin(c, t) =>
        var u := Step(s, a);
        forall d | d in u.calls ensures CallOk(u, u.calls[d]) {
          if d != c { assert CallOk(s, s.calls[d]); }
        }
      case LookUp(c) => LookUpKeepsInv(s, c);
      case Build(c, ok) => BuildKeepsInv(s, c, ok);
      case Insert(c) => InsertKeepsInv(s, c);
      case ScheduleFirst(c, timer) => ScheduleFirstKeepsInv(s, c, timer);
      case Schedule(j, timer) => TimerStepKeepsInv(s, j, Scheduled(s.jobs[j], timer));
      case Stop(j) => TimerStepKeepsInv(s, j, Stopped(s.jobs[j]));
      case Fire(j, timer) => TimerStepKeepsInv(s, j, s.jobs[j].(pending := s.jobs[j].pending - {timer}));
      case Remove(j) =>
        var u := Step(s, a);
        forall d | d in u.calls ensures CallOk(u, u.calls[d]) {
          assert CallOk(s, s.calls[d]);
        }
    }
  }

  /** In every interleaving of calls and removals: the job registered for a ticket is one that
      was inserted for it; a call returns either the job it inserted itself, which was given
      its initial schedule exactly once, or one that was inserted for the ticket by another
      call; a job that lost the insertion race is never given an initial schedule; and each
      job has at most one pending timer. */
  lemma {:induction false} EveryRunIsSafe(trace: seq<Action>)
    ensures var s := Run(trace);
            && Inv(s)
            && (forall j :: 0 <= j < |s.jobs| ==>
                 |s.jobs[j].pending| <= 1 && s.jobs[j].firsts <= 1 && (!s.jobs[j].inserted ==> s.jobs[j].firsts == 0))
  {
    if trace != [] {
      EveryRunIsSafe(trace[..|trace| - 1]);
      StepKeepsInv(Run(trace[..|trace| - 1]), trace[|trace| - 1]);
    }
    var s := Run(trace);
    forall j | 0 <= j < |s.jobs| ensures |s.jobs[j].pending| <= 1 {
      assert JobOk(s.jobs[j]);
      var p := s.jobs[j].pending;
      if p != {} {
        assert p == {s.jobs[j].timer.value};
      }
    }
  }

  /** A call that finds a job registered when it comes to insert its own returns that one, and
      leaves its own without timer. */
  lemma LoserReturnsRegisteredJob(trace: seq<Action>, c: CallId)
    requires var s := Run(trace); c in s.calls && s.calls[c].Built? && s.calls[c].ticket in s.registry
    ensures var s, u := Run(trace), Step(Run(trace), Insert(c));
            var Built(t, j) := s.calls[c];
            && u.calls[c] == Returned(t, Some(s.registry[t]), false) && u.registry == s.registry && s.registry[t] != j
            && u.jobs[j].pending == {} && !u.jobs[j].inserted
  {
    EveryRunIsSafe(trace);
    var s := Run(trace);
    assert CallOk(s, s.calls[c]);
    assert JobOk(s.jobs[s.calls[c].job]);
  }

  /** A call that is not interleaved with anything. */
  function WholeCall(s: State, c: CallId, t: Ticket, timer: nat): State {
    Step(Step(Step(Step(Step(s, Begin(c, t)), LookUp(c)), Build(c, true)), Insert(c)), ScheduleFirst(c, timer))
  }

  lemma WholeCallRegisters(s: State, c: CallId, t: Ticket, timer: nat)
    requires c !in s.calls && t !in s.registry
    ensures var u := WholeCall(s, c, t, timer);
            && u.registry == s.registry[t := |s.jobs|] && |u.jobs| == |s.jobs| + 1 && u.jobs[|s.jobs|].ticket == t
            && u.jobs[..|s.jobs|] == s.jobs && u.calls.Keys == s.calls.Keys + {c}
  {
    var s1 := Step(s, Begin(c, t));
    var s2 := Step(s1, LookUp(c));
    assert s2.calls[c] == Building(t) && s2.jobs == s.jobs && s2.registry == s.registry;
    var s3 := Step(s2, Build(c, true));
    assert s3.calls[c] == Built(t, |s.jobs|) && s3.jobs == s.jobs + [Job(t, false, 0, None, {})]
           && s3.registry == s.registry;
    var s4 := Step(s3, Insert(c));
    assert s4.calls[c] == Inserted(t, |s.jobs|) && s4.registry == s.registry[t := |s.jobs|];
  }

  lemma RemoveDropsTicket(s: State, j: JobId)
    requires j < |s.jobs|
    ensures s.jobs[j].ticket !in Step(s, Remove(j)).registry
  {
  }

  /** In every run, scheduling leaves exactly the new timer pending, and stopping leaves none. */
  lemma ScheduledIsPending(trace: seq<Action>, j: JobId, timer: nat)
    requires j < |Run(trace).jobs|
    ensures var s := Run(trace);
            && Step(s, Schedule(j, timer)).jobs[j].pending == {timer}
            && Step(s, Stop(j)).jobs[j].pending == {}
            && Step(s, Fire(j, timer)).jobs[j].pending == s.jobs[j].pending - {timer}
  {
    EveryRunIsSafe(trace);
    var s := Run(trace);
    assert JobOk(s.jobs[j]);
    ScheduledPending(s.jobs[j], timer);
  }

  lemma ScheduledPending(j: Job, timer: nat)
    requires JobOk(j)
    ensures Scheduled(j, timer).pending == {timer} && Stopped(j).pending == {}
  {
  }

  /** A call that inserted its job leaves it with exactly its first timer pending. */
  lemma FirstTimerIsPending(trace: seq<Action>, c: CallId, timer: nat)
    requires var s := Run(trace); c in s.calls && s.calls[c].Inserted?
    ensures var s, u := Run(trace), Step(Run(trace), ScheduleFirst(c, timer));
            var Inserted(t, j) := s.calls[c];
            && j < |u.jobs| && u.jobs[j].pending == {timer} && u.jobs[j].firsts == 1
            && u.calls[c] == Returned(t, Some(j), true)
  {
    EveryRunIsSafe(trace);
    var s := Run(trace);
    assert CallOk(s, s.calls[c]) && JobOk(s.jobs[s.calls[c].job]);
  }

  ghost predicate OthersStay(s: State, u: State, j: JobId) {
    forall t :: t in s.registry && s.registry[t] != j ==> t in u.registry && u.registry[t] == s.registry[t]
  }

  /** Removing a job leaves every other job registered if and only if its ticket has no job or
      has this one. */
  lemma RemovalSparesOthersIff(s: State, j: JobId)
    requires j < |s.jobs|
    ensures OthersStay(s, Step(s, Remove(j)), j)
            <==> s.jobs[j].ticket !in s.registry || s.registry[s.jobs[j].ticket] == j
  {
    var t := s.jobs[j].ticket;
    RemoveDropsTicket(s, j);
    if t in s.registry && s.registry[t] != j {
      assert !OthersStay(s, Step(s, Remove(j)), j);
    }
  }

  /** A removal unregisters whatever job the ticket has by then: when a job that was removed
      before is removed again, its successor is taken out of the registry. */
  lemma RemovalHitsSuccessor(s: State, j: JobId, c: CallId, timer: nat)
    requires j < |s.jobs| && s.jobs[j].ticket !in s.registry && c !in s.calls
    ensures var t, u := s.jobs[j].ticket, WholeCall(s, c, s.jobs[j].ticket, timer);
            t in u.registry && u.registry[t] != j && j < |u.jobs| && t !in Step(u, Remove(j)).registry
  {
    var u := WholeCall(s, c, s.jobs[j].ticket, timer);
    WholeCallRegisters(s, c, s.jobs[j].ticket, timer);
    assert u.jobs[j] == u.jobs[..|s.jobs|][j] == s.jobs[j];
    RemoveDropsTicket(u, j);
  }
}
