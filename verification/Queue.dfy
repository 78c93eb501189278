/**
 The decider prover's job queue. Submitters run one atomic script; workers pop a request and update its record by
 reading and writing it back in separate commands. Records do not expire here.
 */
module Queue {
  import opened Base

  type Id = nat

  datatype Status = Queued | Processing | Completed | Failed

  datatype Job = Job(circuit: nat, status: Status, result: Option<nat>, error: Option<nat>)

  datatype Request = Request(id: Id, circuit: nat, payload: nat)

  datatype EnqueueResult = Enqueued(job: Job) | AlreadyExists(job: Job)

  /** Where a worker is in `process_once`; `Loaded` and `Finishing` lie between the read and the write of an update. */
  datatype Phase =
    | Idle
    | Popped(request: Request)
    | Loaded(request: Request, job: Job)
    | Working(request: Request)
    | Proved(request: Request, outcome: Outcome)
    | Finishing(request: Request, outcome: Outcome, job: Job)

  datatype Outcome = Proof(bytes: nat) | ProverError(message: nat)

  /** Redis, the workers, and how often each id entered and left the queue. */
  datatype State = State(
    records: map<Id, Job>, queue: seq<Request>, workers: map<nat, Phase>, pushed: multiset<Id>, taken: multiset<Id>)

  datatype Action =
    | Submit(request: Request)
    | Pop(worker: nat)
    | Load(worker: nat)
    | Save(worker: nat)
    | BadPayload(worker: nat)
    | Prove(worker: nat, outcome: Outcome)
    | Die(worker: nat)

  function PhaseOf(s: State, w: nat): Phase { if w in s.workers then s.workers[w] else Idle }

  function NewJob(r: Request): Job { Job(r.circuit, Queued, None, None) }

  /** The record written at the end of a job. */
  function Finished(job: Job, o: Outcome): Job {
    match o
    case Proof(b) => job.(status := Completed, result := Some(b), error := None)
    case ProverError(m) => job.(status := Failed, result := None, error := Some(m))
  }

  function Step(s: State, a: Action): State {
    match a
    case Submit(r) =>
      if r.id in s.records then s
      else s.(records := s.records[r.id := NewJob(r)], queue := s.queue + [r], pushed := s.pushed + multiset{r.id})
    case Pop(w) =>
      if PhaseOf(s, w) != Idle || s.queue == [] then s
      else s.(queue := s.queue[1..], workers := s.workers[w := Popped(s.queue[0])],
              taken := s.taken + multiset{s.queue[0].id})
    case Load(w) =>
      (match PhaseOf(s, w)
       case Popped(r) => s.(workers := s.workers[w := if r.id in s.records then Loaded(r, s.records[r.id]) else Idle])
       case Proved(r, o) =>
         s.(workers := s.workers[w := if r.id in s.records then Finishing(r, o, s.records[r.id]) else Idle])
       case _ => s)
    case Save(w) =>
      (match PhaseOf(s, w)
       case Loaded(r, job) =>
         s.(records := s.records[r.id := job.(status := Processing, result := None, error := None)],
            workers := s.workers[w := Working(r)])
       case Finishing(r, o, job) => s.(records := s.records[r.id := Finished(job, o)], workers := s.workers[w := Idle])
       case _ => s)
    case BadPayload(w) => if PhaseOf(s, w).Working? then s.(workers := s.workers[w := Idle]) else s
    case Prove(w, o) =>
      if PhaseOf(s, w).Working? then s.(workers := s.workers[w := Proved(PhaseOf(s, w).request, o)]) else s
    case Die(w) => s.(workers := s.workers[w := Idle])
  }

  const Start: State := State(map[], [], map[], multiset{}, multiset{})

  // ---------------------------------------------------------------------- invariant

  predicate Has(s: State, w: nat, id: Id) { !PhaseOf(s, w).Idle? && PhaseOf(s, w).request.id == id }

  /** What a worker's place in the loop says about its record: nobody else has written it. */
  predicate PhaseOk(s: State, p: Phase) {
    p.Idle? ||
    (&& p.request.id in s.records && s.records[p.request.id].circuit == p.request.circuit
     && (match p
         case Popped(r) => s.records[r.id] == NewJob(r)
         case Loaded(r, job) => job == NewJob(r) == s.records[r.id]
         case Working(r) => s.records[r.id].status == Processing
         case Proved(r, _) => s.records[r.id].status == Processing
         case Finishing(r, _, job) => job == s.records[r.id] && job.status == Processing
         case Idle => true))
  }

  predicate QueuedOk(s: State, r: Request) {
    r.id in s.records && s.records[r.id] == NewJob(r) && s.taken[r.id] == 0
  }

  ghost predicate Inv(s: State) {
    forall k {:trigger LooksInside(QueuePart, k)} :: LooksInside(QueuePart, k) ==> Parts(s)
  }

  ghost predicate Parts(s: State) {
    && (forall i :: 0 <= i < |s.queue| ==> QueuedOk(s, s.queue[i]))
    && (forall i, j :: 0 <= i < j < |s.queue| ==> s.queue[i].id != s.queue[j].id)
    && (forall w :: w in s.workers ==> PhaseOk(s, s.workers[w]))
    && (forall v, w, id :: Has(s, v, id) && Has(s, w, id) ==> v == w)
    && (forall w, id :: Has(s, w, id) ==> s.taken[id] == 1)
    && (forall id :: s.taken[id] <= s.pushed[id] <= 1)
    && (forall id :: id in s.records <==> s.pushed[id] == 1)
  }

  lemma StartInv()
    ensures Inv(Start)
  {
    assert LooksInside(QueuePart, 0);
  }

  lemma SubmitKeeps(s: State, r: Request)
    requires Inv(s)
    ensures Inv(Step(s, Submit(r)))
  {
    if r.id !in s.records {
      assert Parts(s) by { assert LooksInside(QueuePart, 0); }
      PushKeepsWorkers(s, r);
      assert Parts(Step(s, Submit(r)));
    }
  }

  lemma PushKeepsWorkers(s: State, r: Request)
    requires Parts(s) && r.id !in s.records
    ensures var s' := Step(s, Submit(r));
            && (forall w :: w in s'.workers ==> PhaseOk(s', s'.workers[w]))
            && (forall v, w, id :: Has(s', v, id) && Has(s', w, id) ==> v == w)
            && (forall w, id :: Has(s', w, id) ==> s'.taken[id] == 1)
  {
    var s' := Step(s, Submit(r));
    forall w | w in s'.workers ensures PhaseOk(s', s'.workers[w]) { assert PhaseOk(s, s.workers[w]); }
    assert forall w, id :: Has(s', w, id) ==> Has(s, w, id);
  }

  lemma PopKeeps(s: State, w: nat)
    requires Inv(s)
    ensures Inv(Step(s, Pop(w)))
  {
    assert LooksInside(QueuePart, 0);
    var s' := Step(s, Pop(w));
    if PhaseOf(s, w).Idle? && s.queue != [] {
      var r := s.queue[0];
      assert QueuedOk(s, r);
      forall i | 0 <= i < |s'.queue| ensures QueuedOk(s', s'.queue[i]) {
        assert s'.queue[i] == s.queue[i + 1] && QueuedOk(s, s.queue[i + 1]);
      }
      forall v | v in s'.workers ensures PhaseOk(s', s'.workers[v]) {
        if v != w { assert PhaseOk(s, s.workers[v]); }
      }
      forall v, id | Has(s', v, id) ensures s'.taken[id] == 1 && (v == w <==> id == r.id) {
        if v != w { assert Has(s, v, id); }
      }
      forall u, v, id | Has(s', u, id) && Has(s', v, id) ensures u == v {
        if u != w && v != w { assert Has(s, u, id) && Has(s, v, id); }
      }
    }
  }

  /** A step of worker `w` that keeps or ends its job and writes at most that job's record. */
  lemma WorkerKeeps(s: State, w: nat, records: map<Id, Job>, p: Phase)
    requires Inv(s) && !PhaseOf(s, w).Idle?
    requires p.Idle? || p.request == PhaseOf(s, w).request
    requires var id := PhaseOf(s, w).request.id;
             && id in s.records && records.Keys == s.records.Keys
             && forall k :: k in records && k != id ==> records[k] == s.records[k]
    requires PhaseOk(s.(records := records), p)
    ensures Inv(s.(records := records, workers := s.workers[w := p]))
  {
    assert LooksInside(QueuePart, 0);
    var s', id0 := s.(records := records, workers := s.workers[w := p]), PhaseOf(s, w).request.id;
    assert Has(s, w, id0);
    assert forall id :: id != id0 && id in s.records ==> id in records && records[id] == s.records[id];
    forall i | 0 <= i < |s'.queue| ensures QueuedOk(s', s'.queue[i]) { assert QueuedOk(s, s.queue[i]); }
    forall v | v in s'.workers ensures PhaseOk(s', s'.workers[v]) {
      if v != w {
        assert PhaseOk(s, s.workers[v]);
        if !PhaseOf(s, v).Idle? { assert Has(s, v, PhaseOf(s, v).request.id); }
      }
    }
    forall v, id | Has(s', v, id) ensures Has(s, v, id) { }
  }

  /** Every step keeps the invariant. */
  lemma StepKeeps(s: State, a: Action)
    requires Inv(s)
    ensures Inv(Step(s, a))
  {
    match a
    case Submit(r) => SubmitKeeps(s, r);
    case Pop(w) => PopKeeps(s, w);
    case _ => WorkerStepKeeps(s, a);
  }

  lemma WorkerStepKeeps(s: State, a: Action)
    requires Inv(s) && !a.Submit? && !a.Pop?
    ensures Inv(Step(s, a))
  {
    assert LooksInside(QueuePart, 0);
    var w, s' := a.worker, Step(s, a);
    if s' != s {
      if PhaseOf(s, w).Idle? {
        DeadKeeps(s, w);
      } else {
        assert PhaseOk(s, s.workers[w]);
        WorkerKeeps(s, w, s'.records, PhaseOf(s', w));
      }
    }
  }

  lemma DeadKeeps(s: State, w: nat)
    requires Inv(s) && PhaseOf(s, w).Idle?
    ensures Inv(s.(workers := s.workers[w := Idle]))
  {
    assert LooksInside(QueuePart, 0);
    var s' := s.(workers := s.workers[w := Idle]);
    assert forall v, id :: Has(s', v, id) ==> Has(s, v, id);
    forall i | 0 <= i < |s'.queue| ensures QueuedOk(s', s'.queue[i]) { assert QueuedOk(s, s.queue[i]); }
    forall v | v in s'.workers ensures PhaseOk(s', s'.workers[v]) { if v != w { assert PhaseOk(s, s.workers[v]); } }
  }

  // ----------------------------------------------------------------------- all runs

  function Exec(s: State, actions: seq<Action>): State
    decreases |actions|
  {
    if actions == [] then s else Exec(Step(s, actions[0]), actions[1..])
  }

  lemma {:induction false} RunKeeps(s: State, actions: seq<Action>)
    requires Inv(s)
    ensures Inv(Exec(s, actions))
    decreases |actions|
  {
    if actions == [] {
    } else {
      StepKeeps(s, actions[0]);
      RunKeeps(Step(s, actions[0]), actions[1..]);
    }
  }

  /** The moves a record may make in one step. */
  ghost predicate Moves(before: Job, after: Job) {
    || after == before
    || (before.status == Queued && after == before.(status := Processing))
    || (before.status == Processing && exists o :: after == Finished(before, o))
  }

  /** A record never disappears and only moves forward, and nothing is lost between a worker's read and its
      write: the write applies to the record as it stands. */
  lemma RecordMoves(s: State, a: Action, id: Id)
    requires Inv(s) && id in s.records
    ensures id in Step(s, a).records && Moves(s.records[id], Step(s, a).records[id])
  {
    assert LooksInside(QueuePart, 0);
    if a.Save? && a.worker in s.workers {
      assert PhaseOk(s, s.workers[a.worker]);
      match s.workers[a.worker]
      case Finishing(r, o, job) => if r.id == id { assert Step(s, a).records[id] == Finished(s.records[id], o); }
      case _ =>
    }
  }

  function Rank(status: Status): nat {
    match status
    case Queued => 0
    case Processing => 1
    case Completed => 2
    case Failed => 2
  }

  /** Nothing can touch the job any more: it is not in the queue and no worker has it. */
  ghost predicate Unheld(s: State, id: Id) {
    && (forall i :: 0 <= i < |s.queue| ==> s.queue[i].id != id)
    && (forall w :: !Has(s, w, id))
  }

  lemma UnheldStays(s: State, a: Action, id: Id)
    requires id in s.records && Unheld(s, id)
    ensures id in Step(s, a).records && Step(s, a).records[id] == s.records[id] && Unheld(Step(s, a), id)
  {
    var s' := Step(s, a);
    forall w ensures !Has(s', w, id) {
      assert !Has(s, w, id);
      if a.Pop? && s.queue != [] { assert s.queue[0].id != id; }
    }
    if a.Save? { assert !Has(s, a.worker, id); }
  }

  /** An unheld record keeps its value in every continuation. */
  lemma {:induction false} UnheldForever(s: State, actions: seq<Action>, id: Id)
    requires id in s.records && Unheld(s, id)
    ensures id in Exec(s, actions).records && Exec(s, actions).records[id] == s.records[id]
    decreases |actions|
  {
    if actions == [] {
    } else {
      UnheldStays(s, actions[0], id);
      UnheldForever(Step(s, actions[0]), actions[1..], id);
    }
  }

  lemma TerminalIsUnheld(s: State, id: Id)
    requires Inv(s) && id in s.records && Rank(s.records[id].status) == 2
    ensures Unheld(s, id)
  {
    assert LooksInside(QueuePart, 0);
    forall i | 0 <= i < |s.queue| ensures s.queue[i].id != id { assert QueuedOk(s, s.queue[i]); }
    forall w ensures !Has(s, w, id) { if w in s.workers { assert PhaseOk(s, s.workers[w]); } }
  }

  lemma {:induction false} RankGrows(s: State, actions: seq<Action>, id: Id)
    requires Inv(s) && id in s.records
    ensures id in Exec(s, actions).records
    ensures Rank(s.records[id].status) <= Rank(Exec(s, actions).records[id].status)
    ensures s.records[id].circuit == Exec(s, actions).records[id].circuit
    decreases |actions|
  {
    if actions == [] {
    } else {
      RecordMoves(s, actions[0], id);
      StepKeeps(s, actions[0]);
      RankGrows(Step(s, actions[0]), actions[1..], id);
    }
  }

  lemma {:induction false} ExecConcat(s: State, a: seq<Action>, b: seq<Action>)
    ensures Exec(s, a + b) == Exec(Exec(s, a), b)
    decreases |a|
  {
    if a == [] {
      assert a + b == b;
    } else {
      assert (a + b)[1..] == a[1..] + b;
      ExecConcat(Step(s, a[0]), a[1..], b);
    }
  }

  /**
   Queue safety. In every run of any number of submitters and workers, with workers dying anywhere: each id enters
   the queue at most once and is taken at most once; between any two moments a record's status only moves forward
   and its circuit stays; and a Completed or Failed record is final.
   */
  lemma QueueSafety(before: seq<Action>, after: seq<Action>, id: Id)
    ensures var s, s' := Exec(Start, before), Exec(Start, before + after);
            && s'.taken[id] <= s'.pushed[id] <= 1
            && (id in s.records ==>
                  && id in s'.records && s.records[id].circuit == s'.records[id].circuit
                  && Rank(s.records[id].status) <= Rank(s'.records[id].status)
                  && (Rank(s.records[id].status) == 2 ==> s'.records[id] == s.records[id]))
  {
    var s := Exec(Start, before);
    StartInv();
    RunKeeps(Start, before);
    RunKeeps(Start, before + after);
    assert Parts(Exec(Start, before + after)) by { assert LooksInside(QueuePart, 0); }
    ExecConcat(Start, before, after);
    if id in s.records {
      RankGrows(s, after, id);
      if Rank(s.records[id].status) == 2 {
        TerminalIsUnheld(s, id);
        UnheldForever(s, after, id);
      }
    }
  }

  // ------------------------------------------------------------- what the records say

  /** The outcomes the prover has returned so far, by job. */
  function Saw(s: State, a: Action, seen: map<Id, Outcome>): map<Id, Outcome> {
    if a.Prove? && PhaseOf(s, a.worker).Working? then seen[PhaseOf(s, a.worker).request.id := a.outcome] else seen
  }

  function SeenIn(s: State, actions: seq<Action>, seen: map<Id, Outcome>): map<Id, Outcome>
    decreases |actions|
  {
    if actions == [] then seen else SeenIn(Step(s, actions[0]), actions[1..], Saw(s, actions[0], seen))
  }

  /** A record of a job says what its prover returned: a finished one in full, any other one nothing yet. */
  predicate RecordTells(job: Job, outcome: Option<Outcome>) {
    match job.status
    case Completed =>
      outcome.Some? && outcome.value.Proof? && job.result == Some(outcome.value.bytes) && job.error == None
    case Failed =>
      outcome.Some? && outcome.value.ProverError? && job.result == None && job.error == Some(outcome.value.message)
    case _ => job.result == None && job.error == None
  }

  function OutcomeOf(seen: map<Id, Outcome>, id: Id): Option<Outcome> { if id in seen then Some(seen[id]) else None }

  /** Workers carry the outcome they saw, and a job not yet proved has none. */
  predicate WorkerTells(p: Phase, seen: map<Id, Outcome>) {
    match p
    case Idle => true
    case Proved(r, o) => OutcomeOf(seen, r.id) == Some(o)
    case Finishing(r, o, _) => OutcomeOf(seen, r.id) == Some(o)
    case _ => p.request.id !in seen
  }

  ghost predicate Told(s: State, seen: map<Id, Outcome>) {
    && (forall id :: id in s.records ==> RecordTells(s.records[id], OutcomeOf(seen, id)))
    && (forall w :: w in s.workers ==> WorkerTells(s.workers[w], seen))
    && (forall id :: id in seen ==> id in s.records && s.taken[id] == 1)
  }

  lemma HeadIsUntaken(s: State)
    requires Inv(s) && s.queue != []
    ensures s.taken[s.queue[0].id] == 0
  {
    assert LooksInside(QueuePart, 0);
    assert QueuedOk(s, s.queue[0]);
  }

  lemma WorkerTold(s: State, a: Action, seen: map<Id, Outcome>, w: nat)
    requires Inv(s) && Told(s, seen) && w in Step(s, a).workers
    ensures WorkerTells(Step(s, a).workers[w], Saw(s, a, seen))
  {
    if !a.Submit? && a.worker == w {
      if a.Pop? && s.queue != [] { HeadIsUntaken(s); }
    } else {
      assert Step(s, a).workers[w] == s.workers[w];
      if a.Prove? && !PhaseOf(s, w).Idle? && Has(s, a.worker, PhaseOf(s, w).request.id) {
        SoleHolder(s, a.worker, w, PhaseOf(s, w).request.id);
      }
    }
  }

  lemma SeenIsTaken(s: State, a: Action, seen: map<Id, Outcome>, id: Id)
    requires Inv(s) && Told(s, seen) && id in Saw(s, a, seen)
    ensures id in Step(s, a).records && Step(s, a).taken[id] == 1
  {
    if id !in seen {
      OwnRecord(s, a.worker);
      HeldIsTaken(s, a.worker, id);
    } else if a.Pop? && s.queue != [] {
      HeadIsUntaken(s);
    }
  }

  lemma HeldIsTaken(s: State, w: nat, id: Id)
    requires Inv(s) && Has(s, w, id)
    ensures s.taken[id] == 1
  {
    assert LooksInside(QueuePart, 0);
  }

  lemma ToldKept(s: State, a: Action, seen: map<Id, Outcome>)
    requires Inv(s) && Told(s, seen)
    ensures Told(Step(s, a), Saw(s, a, seen))
  {
    forall id | id in Step(s, a).records ensures RecordTells(Step(s, a).records[id], OutcomeOf(Saw(s, a, seen), id)) {
    }
    forall w | w in Step(s, a).workers ensures WorkerTells(Step(s, a).workers[w], Saw(s, a, seen)) {
      WorkerTold(s, a, seen, w);
    }
    forall id | id in Saw(s, a, seen) ensures id in Step(s, a).records && Step(s, a).taken[id] == 1 {
      SeenIsTaken(s, a, seen, id);
    }
  }

  lemma {:induction false} ToldRun(s: State, actions: seq<Action>, seen: map<Id, Outcome>)
    requires Inv(s) && Told(s, seen)
    ensures Told(Exec(s, actions), SeenIn(s, actions, seen))
    decreases |actions|
  {
    if actions == [] {
    } else {
      StepKeeps(s, actions[0]);
      ToldKept(s, actions[0], seen);
      ToldRun(Step(s, actions[0]), actions[1..], Saw(s, actions[0], seen));
    }
  }

  /** Over every run a record is Completed only with the bytes of the proof its prover returned and Failed only with
      its error; a finished job is the one or the other exactly as the prover decided. */
  lemma RecordsTellTheOutcome(actions: seq<Action>, id: Id)
    ensures var s := Exec(Start, actions);
            var outcome := OutcomeOf(SeenIn(Start, actions, map[]), id);
            id in s.records ==>
              && RecordTells(s.records[id], outcome)
              && (outcome.Some? && outcome.value.Proof? ==> s.records[id].status != Failed)
              && (outcome.Some? && outcome.value.ProverError? ==> s.records[id].status != Completed)
  {
    StartInv();
    ToldRun(Start, actions, map[]);
  }

  /** Jobs wait in the order they came: the queue loses only its head and grows only at its end. */
  lemma QueueIsFifo(s: State, a: Action)
    ensures var q := Step(s, a).queue;
            || q == s.queue
            || (a.Submit? && a.request.id !in s.records && q == s.queue + [a.request])
            || (a.Pop? && s.queue != [] && q == s.queue[1..] && Step(s, a).workers[a.worker] == Popped(s.queue[0]))
  {
  }

  /** A job that was not taken is still waiting. */
  ghost predicate Waiting(s: State, id: Id) { exists i :: 0 <= i < |s.queue| && s.queue[i].id == id }

  lemma StillWaiting(s: State, a: Action, id: Id)
    requires Inv(s) && (id in s.records && s.taken[id] == 0 ==> Waiting(s, id))
    ensures id in Step(s, a).records && Step(s, a).taken[id] == 0 ==> Waiting(Step(s, a), id)
  {
    var s' := Step(s, a);
    QueueIsFifo(s, a);
    if a.Save? && a.worker in s.workers { OwnRecord(s, a.worker); }
    if id in s'.records && s'.taken[id] == 0 {
      if id in s.records && s.taken[id] == 0 {
        var i :| 0 <= i < |s.queue| && s.queue[i].id == id;
        if s'.queue == s.queue || a.Submit? { assert s'.queue[i].id == id; } else { assert s'.queue[i - 1].id == id; }
      } else {
        assert s'.queue[|s.queue|].id == id;
      }
    }
  }

  /** In every run a recorded job that no worker has taken waits in the queue: nothing is lost on the way. */
  lemma {:induction false} NothingIsLost(s: State, actions: seq<Action>, id: Id)
    requires Inv(s) && (id in s.records && s.taken[id] == 0 ==> Waiting(s, id))
    ensures var s' := Exec(s, actions); id in s'.records && s'.taken[id] == 0 ==> Waiting(s', id)
    decreases |actions|
  {
    if actions == [] {
    } else {
      StillWaiting(s, actions[0], id);
      StepKeeps(s, actions[0]);
      NothingIsLost(Step(s, actions[0]), actions[1..], id);
    }
  }

  /** The price of taking at most once: a job whose payload does not decode, or whose worker dies, keeps the
      status it had in every continuation, and resubmitting it changes nothing. */
  lemma DroppedJobStays(s: State, a: Action, actions: seq<Action>)
    requires Inv(s) && (a.BadPayload? || a.Die?) && !PhaseOf(s, a.worker).Idle?
    requires a.BadPayload? ==> PhaseOf(s, a.worker).Working?
    ensures var id := PhaseOf(s, a.worker).request.id;
            && id in s.records && Rank(s.records[id].status) < 2
            && id in Exec(Step(s, a), actions).records
            && Exec(Step(s, a), actions).records[id] == s.records[id]
  {
    assert LooksInside(QueuePart, 0);
    var w, s' := a.worker, Step(s, a);
    var id := PhaseOf(s, w).request.id;
    assert Has(s, w, id) && PhaseOk(s, s.workers[w]);
    StepKeeps(s, a);
    forall i | 0 <= i < |s'.queue| ensures s'.queue[i].id != id { assert QueuedOk(s, s.queue[i]); }
    forall v ensures !Has(s', v, id) { if Has(s', v, id) && v != w { assert Has(s, v, id); } }
    UnheldForever(s', actions, id);
  }

  // --------------------------------------------------------------- the running service

  predicate ByOther(a: Action, w: nat) { a.Submit? || a.worker != w }

  lemma OwnRecord(s: State, w: nat)
    requires Inv(s) && w in s.workers
    ensures PhaseOk(s, s.workers[w])
  {
    assert LooksInside(QueuePart, 0);
  }

  lemma SoleHolder(s: State, v: nat, w: nat, id: Id)
    requires Inv(s) && Has(s, v, id) && Has(s, w, id)
    ensures v == w
  {
    assert LooksInside(QueuePart, 0);
  }

  /** What the others do never touches a worker's place or its record. */
  lemma OtherStep(s: State, a: Action, w: nat)
    requires Inv(s) && ByOther(a, w)
    ensures PhaseOf(Step(s, a), w) == PhaseOf(s, w)
    ensures !PhaseOf(s, w).Idle? ==>
              var id := PhaseOf(s, w).request.id;
              id in s.records && id in Step(s, a).records && Step(s, a).records[id] == s.records[id]
  {
    if !PhaseOf(s, w).Idle? {
      var id := PhaseOf(s, w).request.id;
      OwnRecord(s, w);
      if a.Save? && Has(s, a.worker, id) { SoleHolder(s, a.worker, w, id); }
    }
  }

  /** The record of a job as its prover decided it. */
  predicate Decided(job: Job, r: Request, o: Outcome) {
    match o
    case Proof(bytes) => job == Job(r.circuit, Completed, Some(bytes), None)
    case ProverError(message) => job == Job(r.circuit, Failed, None, Some(message))
  }

  class Service {
    var s: State

    constructor ()
      ensures Inv(s)
    {
      s := Start;
    }

    /** The enqueue script: one atomic command, which leaves a known job alone and reports it as it stands. */
    method Enqueue(r: Request) returns (result: EnqueueResult)
      requires Inv(s)
      modifies this
      ensures Inv(s) && s == Step(old(s), Submit(r))
      ensures r.id in old(s).records ==> result == AlreadyExists(old(s).records[r.id]) && s == old(s)
      ensures r.id !in old(s).records ==>
                && result == Enqueued(Job(r.circuit, Queued, None, None))
                && s.queue == old(s).queue + [r] && s.workers == old(s).workers
                && s.records == old(s).records[r.id := result.job]
      ensures r.id in s.records && s.records[r.id] == result.job
    {
      SubmitKeeps(s, r);
      if r.id in s.records { return AlreadyExists(s.records[r.id]); }
      var job := Job(r.circuit, Queued, None, None);
      s := s.(records := s.records[r.id := job], queue := s.queue + [r], pushed := s.pushed + multiset{r.id});
      return Enqueued(job);
    }

    /** Any number of steps of submitters and other workers. */
    method Others(w: nat)
      requires Inv(s)
      modifies this
      ensures Inv(s) && PhaseOf(s, w) == PhaseOf(old(s), w)
      ensures !PhaseOf(s, w).Idle? ==>
                var id := PhaseOf(s, w).request.id;
                id in old(s).records && id in s.records && s.records[id] == old(s).records[id]
    {
      var n: nat := *;
      ghost var p := PhaseOf(s, w);
      if w in s.workers { OwnRecord(s, w); }
      while n > 0
        invariant Inv(s) && PhaseOf(s, w) == p == PhaseOf(old(s), w)
        invariant !p.Idle? ==> p.request.id in old(s).records && p.request.id in s.records
                               && s.records[p.request.id] == old(s).records[p.request.id]
      {
        var a: Action := *;
        if ByOther(a, w) {
          OtherStep(s, a, w);
          StepKeeps(s, a);
          s := Step(s, a);
        }
        n := n - 1;
      }
    }

    /** `update_status` on the worker's own job, with anything happening between its read and its write. */
    method UpdateStatus(w: nat)
      requires Inv(s) && (PhaseOf(s, w).Popped? || PhaseOf(s, w).Proved?)
      modifies this
      ensures Inv(s)
      ensures var p := PhaseOf(old(s), w);
              && p.request.id in old(s).records && p.request.id in s.records
              && match p
                 case Popped(r) =>
                   PhaseOf(s, w) == Working(r) && s.records[r.id] == old(s).records[r.id].(status := Processing)
                 case Proved(r, o) => PhaseOf(s, w) == Idle && Decided(s.records[r.id], r, o)
                 case _ => true
    {
      OwnRecord(s, w);
      StepKeeps(s, Load(w));
      s := Step(s, Load(w));
      Others(w);
      OwnRecord(s, w);
      StepKeeps(s, Save(w));
      s := Step(s, Save(w));
    }

    /** `process_once` by worker `w` with everyone else at work in between: the job taken ends as the prover
        decided, or stays Processing when its payload does not decode. */
    method ProcessOnce(w: nat, decodes: Request -> bool, prover: Request -> Outcome) returns (job: Option<Request>)
      requires Inv(s) && PhaseOf(s, w).Idle?
      modifies this
      ensures Inv(s) && PhaseOf(s, w).Idle?
      ensures job.None? <==> old(s).queue == []
      ensures job.Some? ==>
                var r := job.value;
                && r == old(s).queue[0] && r.id in s.records
                && (if decodes(r) then Decided(s.records[r.id], r, prover(r))
                    else s.records[r.id] == Job(r.circuit, Processing, None, None))
    {
      if s.queue == [] { return None; }
      var r := s.queue[0];
      assert QueuedOk(s, r) by { assert LooksInside(QueuePart, 0); }
      StepKeeps(s, Pop(w));
      s := Step(s, Pop(w));
      Others(w);
      UpdateStatus(w);
      Others(w);
      if !decodes(r) {
        StepKeeps(s, BadPayload(w));
        s := Step(s, BadPayload(w));
        return Some(r);
      }
      StepKeeps(s, Prove(w, prover(r)));
      s := Step(s, Prove(w, prover(r)));
      Others(w);
      UpdateStatus(w);
      return Some(r);
    }
  }
}
