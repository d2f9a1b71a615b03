/** src/reputation.c: the timed lookup as a state machine. Every critical section, and every access
    to a shared Job outside one, is one atomic step; a run is any interleaving of the steps of any
    number of callers and helper threads with init and shutdown. */
module Reputation {
  import opened Text
  import opened ReputationCache

  const MAX_INFLIGHT := 16
  const NEGATIVE_TTL := 5

  datatype Reason = Ok | Cache | Timeout | Error | Saturated | BadInput

  datatype Result = Result(verdict: Verdict, reason: Reason)

  datatype Stats = Stats(lookups: nat, providerCalls: nat, cacheHits: nat, timeouts: nat, errors: nat,
                         saturated: nat, rejectedInput: nat, safe: nat, suspicious: nat, malicious: nat,
                         unavailable: nat)

  const ZERO := Stats(0, 0, 0, 0, 0, 0, 0, 0, 0, 0, 0)

  /** The globals under g_mutex. `provider` is None after shutdown. */
  datatype Shared = Shared(enabled: bool, provider: Option<nat>, ttl: nat, cache: seq<Slot>, tick: nat,
                           inflight: int, stats: Stats)

  datatype Job = NoJob | Live(refs: int, done: bool, verdict: int) | Freed

  /** Where the calling thread is after it took an in-flight place. */
  datatype Caller =
    | Reserved                                   // before calloc
    | Creating                                   // job exists, pthread_create not yet called
    | NotStarted                                 // no helper: must drop the job, if any
    | FreeingUnstarted                           // dropped the last reference, must free
    | NotingFailure                              // must give the place back and count the error
    | Waiting                                    // in the timed wait
    | Decided(finished: bool, answer: int)       // left the wait, must release the job
    | CallerFreeing(finished: bool, answer: int) // dropped the last reference, must free
    | Noting(finished: bool, answer: int)        // must cache and count the outcome
    | Returned(result: Result)

  datatype Helper =
    | NoHelper
    | Asking                // inside provider.lookup
    | Answered(code: int)   // must store the answer and signal
    | Signalled             // must give the in-flight place back
    | PlaceReturned         // must release the job
    | HelperFreeing         // dropped the last reference, must free
    | Gone

  /** One reputation_check call with its job and its helper thread. `epoch` counts init calls. */
  datatype Call = Call(asked: Option<string>, host: string, provider: Option<nat>, ttl: nat, epoch: nat,
                       caller: Caller, job: Job, helper: Helper)

  // ---------- steps that touch only one call ----------

  datatype LocalStep =
    | Alloc(granted: bool)
    | StartThread(started: bool)
    | DropUnstarted
    | FreeUnstarted
    | Reply(code: int)
    | Signal
    | HelperRelease
    | HelperFree
    | Wake(timedOut: bool)
    | CallerRelease
    | CallerFree

  predicate Enabled(c: Call, step: LocalStep) {
    match step
    case Alloc(_) => c.caller.Reserved?
    case StartThread(_) => c.caller.Creating?
    case DropUnstarted => c.caller.NotStarted?
    case FreeUnstarted => c.caller.FreeingUnstarted?
    case Reply(_) => c.helper.Asking?
    case Signal => c.helper.Answered?
    case HelperRelease => c.helper.PlaceReturned?
    case HelperFree => c.helper.HelperFreeing?
    case Wake(timedOut) => c.caller.Waiting? && (timedOut || (c.job.Live? && c.job.done))
    case CallerRelease => c.caller.Decided?
    case CallerFree => c.caller.CallerFreeing?
  }

  /** True if the step reads or writes the Job. */
  predicate TouchesJob(c: Call, step: LocalStep) {
    match step
    case Alloc(_) => false
    case DropUnstarted => !c.job.NoJob?
    case Reply(_) => true // the helper reads j->provider and j->host
    case _ => true
  }

  /** The job after one reference was dropped. */
  function Drop(j: Job): Job { if j.Live? then j.(refs := j.refs - 1) else j }

  function Move(c: Call, step: LocalStep): Call
    requires Enabled(c, step)
  {
    match step
    case Alloc(granted) =>
      if granted then c.(caller := Creating, job := Live(2, false, 0)) else c.(caller := NotStarted)
    case StartThread(started) =>
      if started then c.(caller := Waiting, helper := Asking) else c.(caller := NotStarted)
    case DropUnstarted =>
      if c.job.NoJob? then c.(caller := NotingFailure)
      else c.(caller := FreeingUnstarted, job := Live(0, false, 0)) // refs := 1, then job_release
    case FreeUnstarted => c.(caller := NotingFailure, job := Freed)
    case Reply(code) => c.(helper := Answered(code))
    case Signal =>
      c.(helper := Signalled, job := if c.job.Live? then c.job.(done := true, verdict := c.helper.code) else c.job)
    case HelperRelease =>
      var j := Drop(c.job);
      c.(job := j, helper := if j.Live? && j.refs == 0 then HelperFreeing else Gone)
    case HelperFree => c.(job := Freed, helper := Gone)
    case Wake(_) =>
      if c.job.Live? then c.(caller := Decided(c.job.done, c.job.verdict)) else c.(caller := Decided(false, 0))
    case CallerRelease =>
      var j := Drop(c.job);
      c.(job := j, caller := if j.Live? && j.refs == 0 then CallerFreeing(c.caller.finished, c.caller.answer)
                             else Noting(c.caller.finished, c.caller.answer))
    case CallerFree => c.(job := Freed, caller := Noting(c.caller.finished, c.caller.answer))
  }

  /** Undefined behaviour: using or freeing a job that is not live, freeing it while it is still
      referenced, or asking a provider that is not there. */
  predicate Faulty(c: Call, step: LocalStep) {
    || (TouchesJob(c, step) && !c.job.Live?)
    || ((step.FreeUnstarted? || step.HelperFree? || step.CallerFree?) && c.job.Live? && c.job.refs != 0)
    || (step.Reply? && c.provider.None?)
  }

  // ---------- what each call keeps ----------

  predicate CallerHolds(c: Caller) { c.Waiting? || c.Decided? }

  predicate HelperHolds(h: Helper) { h.Asking? || h.Answered? || h.Signalled? || h.PlaceReturned? }

  function Count(b: bool): int { if b then 1 else 0 }

  predicate HasSignalled(h: Helper) { h.Signalled? || h.PlaceReturned? || h.HelperFreeing? || h.Gone? }

  /** Somebody still has to do something with the job. */
  predicate JobNeeded(c: Call) {
    CallerHolds(c.caller) || HelperHolds(c.helper) || c.caller.CallerFreeing? || c.helper.HelperFreeing?
  }

  ghost predicate CallOk(c: Call) {
    && Normalise(c.asked) == Some(c.host) && c.provider.Some?
    && if c.helper.NoHelper? then
         match c.caller
         case Reserved => c.job.NoJob?
         case Creating => c.job == Live(2, false, 0)
         case NotStarted => c.job.NoJob? || c.job == Live(2, false, 0)
         case FreeingUnstarted => c.job == Live(0, false, 0)
         case NotingFailure => !c.job.Live?
         case Returned(r) => !c.job.Live? && r == Result(Unavailable, Error)
         case _ => false
       else
         && (CallerHolds(c.caller) || c.caller.CallerFreeing? || c.caller.Noting? || c.caller.Returned?)
         && (JobNeeded(c) ==> c.job.Live? && c.job.refs == Count(CallerHolds(c.caller)) + Count(HelperHolds(c.helper))
                              && (c.job.done <==> HasSignalled(c.helper)))
         && (!JobNeeded(c) ==> c.job.Freed?)
         && (c.caller.CallerFreeing? ==> c.helper.Gone?)
         && (c.helper.HelperFreeing? ==> c.caller.Noting? || c.caller.Returned?)
  }

  /** The call occupies one of the in-flight places. */
  predicate HoldsPlace(c: Call) {
    if c.helper.NoHelper? then !c.caller.Returned? else c.helper.Asking? || c.helper.Answered? || c.helper.Signalled?
  }

  /** No step of one call misuses its job, and none loses or gains an in-flight place. */
  lemma MoveIsSafe(c: Call, step: LocalStep)
    requires CallOk(c) && Enabled(c, step)
    ensures !Faulty(c, step)
    ensures CallOk(Move(c, step))
    ensures HoldsPlace(Move(c, step)) == HoldsPlace(c)
    ensures Move(c, step).epoch == c.epoch && Move(c, step).caller.Returned? == c.caller.Returned?
  {
    hide Normalise;
  }

  // ---------- the whole system ----------

  datatype Answer = Answer(provider: nat, host: string, code: int)

  datatype Put = Put(host: string, verdict: Verdict, at: int, ttl: nat)

  /** A result handed back; `id` names the call that asked the provider, if one did. */
  datatype Return = Return(id: Option<nat>, host: Option<string>, result: Result, at: int)

  /** Events that the code does not count separately, since the last init. */
  datatype Aux = Aux(disabled: nat, cachedUnavailable: nat, stragglers: nat)

  /** How a caller's timed wait ended: whether the deadline had passed, and whether the job was done. */
  datatype Wait = Wait(timedOut: bool, done: bool)

  /** `since` is where the history stood at the last init. */
  datatype State = State(g: Shared, calls: map<nat, Call>, next: nat, epoch: nat, fault: bool, answers: map<nat, Answer>,
                         waits: map<nat, Wait>, puts: set<Put>, history: seq<Return>, since: nat, aux: Aux)

  datatype Action =
    | Init(provider: nat, ttl: nat)
    | Shutdown
    | Check(host: Option<string>, now: int)
    | Local(id: nat, step: LocalStep)
    | GiveBack(id: nat)
    | NoteFailure(id: nat)
    | NoteOutcome(id: nat, now: int)

  function EmptyCache(): (c: seq<Slot>)
    ensures |c| == CACHE_ENTRIES && forall i :: 0 <= i < |c| ==> c[i] == Unused
  {
    seq(CACHE_ENTRIES, _ => Unused)
  }

  const START := State(Shared(false, None, 300, EmptyCache(), 0, 0, ZERO), map[], 0, 0, false,
                       map[], map[], {}, [], 0, Aux(0, 0, 0))

  /** The state after a fresh cache entry answered. */
  ghost function AfterHit(s: State, host: Option<string>, k: nat, now: int): State
    requires k < |s.g.cache| && s.g.cache[k].Used?
  {
    var hit, st := s.g.cache[k], s.g.stats;
    var miss := if hit.verdict == Unavailable then 1 else 0;
    s.(g := s.g.(cache := s.g.cache[k := hit.(lastUsed := s.g.tick + 1)], tick := s.g.tick + 1,
                 stats := st.(lookups := st.lookups + 1, cacheHits := st.cacheHits + 1, unavailable := st.unavailable + miss)),
       aux := s.aux.(cachedUnavailable := s.aux.cachedUnavailable + miss),
       history := s.history + [Return(None, host, Result(hit.verdict, Cache), now)])
  }

  /** The state after a call took an in-flight place to ask the provider. */
  ghost function AfterReserve(s: State, host: Option<string>, norm: string): State {
    var st := s.g.stats;
    s.(g := s.g.(inflight := s.g.inflight + 1,
                 stats := st.(lookups := st.lookups + 1, providerCalls := st.providerCalls + 1)),
       calls := s.calls[s.next := Call(host, norm, s.g.provider, s.g.ttl, s.epoch, Reserved, NoJob, NoHelper)],
       next := s.next + 1)
  }

  /** The state after a call was refused with `reason`. */
  function AfterRefusal(s: State, host: Option<string>, reason: Reason, now: int): State {
    var st := s.g.stats.(lookups := s.g.stats.lookups + 1, unavailable := s.g.stats.unavailable + 1);
    s.(g := s.g.(stats := match reason
                          case BadInput => st.(rejectedInput := st.rejectedInput + 1)
                          case Saturated => st.(saturated := st.saturated + 1)
                          case _ => st.(errors := st.errors + 1)),
       aux := if reason == Error then s.aux.(disabled := s.aux.disabled + 1) else s.aux,
       history := s.history + [Return(None, host, Result(Unavailable, reason), now)])
  }

  /** The first critical section of reputation_check. */
  ghost function CheckHost(s: State, host: Option<string>, now: int): State {
    if !s.g.enabled then AfterRefusal(s, host, Error, now)
    else match Normalise(host)
      case None => AfterRefusal(s, host, BadInput, now)
      case Some(norm) =>
        var k := FindHost(s.g.cache, norm);
        if k < |s.g.cache| && s.g.cache[k].expires > now then AfterHit(s, host, k, now)
        else if s.g.inflight >= MAX_INFLIGHT then AfterRefusal(s, host, Saturated, now)
        else AfterReserve(s, host, norm)
  }

  /** What the caller makes of the answer: the result, and how long to remember it. */
  datatype Judgement = Judgement(result: Result, ttl: nat)

  function Outcome(finished: bool, code: int, ttl: nat): Judgement {
    if !finished then Judgement(Result(Unavailable, Timeout), NEGATIVE_TTL)
    else if code == 0 then Judgement(Result(Safe, Ok), ttl)
    else if code == 1 then Judgement(Result(Suspicious, Ok), ttl)
    else if code == 2 then Judgement(Result(Malicious, Ok), ttl)
    else Judgement(Result(Unavailable, Error), NEGATIVE_TTL)
  }

  function CodeOf(v: Verdict): int { match v case Safe => 0 case Suspicious => 1 case Malicious => 2 case Unavailable => 3 }

  function Tally(st: Stats, r: Result): Stats {
    var t := match r.verdict
      case Safe => st.(safe := st.safe + 1)
      case Suspicious => st.(suspicious := st.suspicious + 1)
      case Malicious => st.(malicious := st.malicious + 1)
      case Unavailable => st.(unavailable := st.unavailable + 1);
    if r.reason == Timeout then t.(timeouts := t.timeouts + 1)
    else if r.reason == Error then t.(errors := t.errors + 1) else t
  }

  function Late(s: State, c: Call): nat { if c.epoch != s.epoch then 1 else 0 }

  /** The last critical section of reputation_check. */
  ghost function Finish(s: State, id: nat, now: int): State
    requires id in s.calls && s.calls[id].caller.Noting? && s.g.cache != []
  {
    var c := s.calls[id];
    var o := Outcome(c.caller.finished, c.caller.answer, c.ttl);
    var remembered := s.g.enabled && o.ttl != 0;
    s.(g := (if remembered then Remember(s.g, c.host, o.result.verdict, now + o.ttl) else s.g)
              .(stats := Tally(s.g.stats, o.result)),
       calls := s.calls[id := c.(caller := Returned(o.result))],
       puts := if remembered then s.puts + {Put(c.host, o.result.verdict, now, o.ttl)} else s.puts,
       history := s.history + [Return(Some(id), c.asked, o.result, now)],
       aux := s.aux.(stragglers := s.aux.stragglers + Late(s, c)))
  }

  ghost function Remember(g: Shared, host: string, v: Verdict, expires: int): Shared
    requires g.cache != []
  {
    g.(cache := PutVerdict(g.cache, g.tick + 1, host, v, expires), tick := g.tick + 1)
  }

  /** The critical section taken when no helper could be started. */
  function Fail(s: State, id: nat): State
    requires id in s.calls && s.calls[id].caller.NotingFailure?
  {
    var c, g := s.calls[id], s.g;
    var r := Result(Unavailable, Error);
    s.(g := g.(inflight := g.inflight - 1, stats := Tally(g.stats, r)),
       fault := s.fault || g.inflight <= 0,
       calls := s.calls[id := c.(caller := Returned(r))],
       history := s.history + [Return(Some(id), c.asked, r, 0)],
       aux := s.aux.(stragglers := s.aux.stragglers + Late(s, c)))
  }

  ghost predicate Possible(s: State, a: Action) {
    match a
    case Init(_, _) => true
    case Shutdown => true
    case Check(_, _) => true
    case Local(id, step) => id in s.calls && Enabled(s.calls[id], step)
    case GiveBack(id) => id in s.calls && s.calls[id].helper.Signalled?
    case NoteFailure(id) => id in s.calls && s.calls[id].caller.NotingFailure?
    case NoteOutcome(id, _) => id in s.calls && s.calls[id].caller.Noting? && s.g.cache != []
  }

  ghost function Apply(s: State, a: Action): State
    requires Possible(s, a)
  {
    match a
    case Init(provider, ttl) =>
      s.(g := Shared(true, Some(provider), ttl, EmptyCache(), 0, s.g.inflight, ZERO), epoch := s.epoch + 1,
         since := |s.history|, aux := Aux(0, 0, 0))
    case Shutdown => s.(g := s.g.(enabled := false, provider := None))
    case Check(host, now) => CheckHost(s, host, now)
    case Local(id, step) =>
      var c := s.calls[id];
      s.(calls := s.calls[id := Move(c, step)], fault := s.fault || Faulty(c, step),
         answers := Heard(c, id, step, s.answers), waits := Waited(c, id, step, s.waits))
    case GiveBack(id) =>
      s.(g := s.g.(inflight := s.g.inflight - 1), fault := s.fault || s.g.inflight <= 0,
         calls := s.calls[id := s.calls[id].(helper := PlaceReturned)])
    case NoteFailure(id) => Fail(s, id)
    case NoteOutcome(id, now) => Finish(s, id, now)
  }

  /** Any interleaving: an action that is not possible in its state is skipped. */
  ghost function Run(actions: seq<Action>): State {
    if actions == [] then START
    else
      var s := Run(actions[..|actions| - 1]);
      var a := actions[|actions| - 1];
      if Possible(s, a) then Apply(s, a) else s
  }

  // ---------- the invariant ----------

  ghost function Holders(calls: map<nat, Call>): set<nat> { set id | id in calls && HoldsPlace(calls[id]) }

  /** Calls of the current epoch that asked for a provider call and have not returned. */
  ghost function Pending(calls: map<nat, Call>, epoch: nat): set<nat> {
    set id | id in calls && calls[id].epoch == epoch && !calls[id].caller.Returned?
  }

  ghost predicate CallsOk(s: State) {
    forall id :: id in s.calls ==> id < s.next && CallOk(s.calls[id]) && s.calls[id].epoch <= s.epoch
  }

  ghost predicate PlacesOk(s: State) {
    s.g.inflight == |Holders(s.calls)| && s.g.inflight <= MAX_INFLIGHT
  }

  ghost predicate SharedOk(g: Shared) {
    |g.cache| == CACHE_ENTRIES && UniqueHosts(g.cache) && (g.enabled ==> g.provider.Some?)
  }

  ghost predicate StatsOk(s: State) {
    var st, x := s.g.stats, s.aux;
    && st.unavailable == st.rejectedInput + st.saturated + st.timeouts + st.errors + x.cachedUnavailable
    && st.lookups == st.rejectedInput + st.cacheHits + st.saturated + st.providerCalls + x.disabled
    && st.providerCalls + x.stragglers + x.disabled ==
       |Pending(s.calls, s.epoch)| + st.safe + st.suspicious + st.malicious + st.timeouts + st.errors
  }

  predicate HasAnswered(h: Helper) { h.Answered? || HasSignalled(h) }

  /** What the caller took from the job is what the provider said. */
  ghost predicate AnswerOk(c: Call, id: nat, answers: map<nat, Answer>) {
    && (id in answers <==> HasAnswered(c.helper))
    && (id in answers ==> c.provider.Some? && answers[id].host == c.host && answers[id].provider == c.provider.value)
    && (c.helper.Answered? ==> c.helper.code == answers[id].code)
    && (c.job.Live? && c.job.done ==> id in answers && c.job.verdict == answers[id].code)
    && (c.caller.Decided? && c.caller.finished ==> id in answers && c.caller.answer == answers[id].code)
    && (c.caller.CallerFreeing? && c.caller.finished ==> id in answers && c.caller.answer == answers[id].code)
    && (c.caller.Noting? && c.caller.finished ==> id in answers && c.caller.answer == answers[id].code)
  }

  ghost predicate Said(answers: map<nat, Answer>, id: nat, host: string, v: Verdict) {
    id in answers && answers[id].host == host && answers[id].code == CodeOf(v) && v != Unavailable
  }

  /** A remembered verdict is a provider's answer for that host; a failure is remembered for 5 seconds. */
  ghost predicate PutOk(p: Put, answers: map<nat, Answer>) {
    if p.verdict == Unavailable then p.ttl == NEGATIVE_TTL
    else exists id :: Said(answers, id, p.host, p.verdict)
  }

  ghost predicate Backed(slot: Slot, puts: set<Put>) {
    slot.Used? ==> exists p :: p in puts && p.host == slot.host && p.verdict == slot.verdict && slot.expires == p.at + p.ttl
  }

  /** Where a returned result comes from. */
  ghost predicate ReturnOk(r: Return, answers: map<nat, Answer>, puts: set<Put>) {
    match r.result.reason
    case Ok => r.id.Some? && Normalise(r.host).Some? && Said(answers, r.id.value, Normalise(r.host).value, r.result.verdict)
    case Cache => exists p :: p in puts && Normalise(r.host) == Some(p.host) && p.verdict == r.result.verdict
                              && r.at < p.at + p.ttl
    case _ => r.result.verdict == Unavailable
  }

  ghost predicate ProvenanceOk(s: State) {
    && (forall id :: id in s.calls ==> AnswerOk(s.calls[id], id, s.answers))
    && (forall id :: id in s.answers ==> id in s.calls)
    && (forall p :: p in s.puts ==> PutOk(p, s.answers))
    && (forall i :: 0 <= i < |s.g.cache| ==> Backed(s.g.cache[i], s.puts))
    && (forall i :: 0 <= i < |s.history| ==> ReturnOk(s.history[i], s.answers, s.puts))
  }

  ghost predicate Inv(s: State) {
    !s.fault && CallsOk(s) && PlacesOk(s) && SharedOk(s.g) && StatsOk(s) && ProvenanceOk(s)
  }

  // ---------- one call changes: what happens to the counts ----------

  lemma SizeWith(a: set<nat>, id: nat)
    ensures |a + {id}| == |a| + if id in a then 0 else 1
    ensures |a - {id}| == |a| - if id in a then 1 else 0
  {
    if id in a {
      assert a + {id} == a && a == (a - {id}) + {id};
    } else {
      assert a - {id} == a;
    }
  }

  lemma HoldersAfter(calls: map<nat, Call>, id: nat, c: Call)
    ensures |Holders(calls[id := c])| == |Holders(calls)| + Count(HoldsPlace(c)) - Count(id in Holders(calls))
  {
    hide HoldsPlace;
    var h, h' := Holders(calls), Holders(calls[id := c]);
    SizeWith(h, id);
    assert h' == if HoldsPlace(c) then h + {id} else h - {id};
  }

  lemma PendingAfter(calls: map<nat, Call>, id: nat, c: Call, epoch: nat)
    ensures |Pending(calls[id := c], epoch)| ==
            |Pending(calls, epoch)| + Count(c.epoch == epoch && !c.caller.Returned?) - Count(id in Pending(calls, epoch))
  {
    var p, p' := Pending(calls, epoch), Pending(calls[id := c], epoch);
    SizeWith(p, id);
    assert p' == if c.epoch == epoch && !c.caller.Returned? then p + {id} else p - {id};
  }

  lemma CallsOkAfter(s: State, s': State, id: nat, c: Call)
    requires CallsOk(s) && CallOk(c) && c.epoch <= s.epoch == s'.epoch && id < s'.next && s.next <= s'.next
    requires s'.calls == s.calls[id := c]
    ensures CallsOk(s')
  {
    hide CallOk;
  }

  /** Answers and puts only grow, so old provenance stays valid. */
  lemma ProvenanceGrows(s: State, s': State)
    requires ProvenanceOk(s) && s.puts <= s'.puts
    requires forall id :: id in s.answers ==> id in s'.answers && s'.answers[id] == s.answers[id]
    ensures forall p :: p in s.puts ==> PutOk(p, s'.answers)
    ensures forall i :: 0 <= i < |s.g.cache| ==> Backed(s.g.cache[i], s'.puts)
    ensures forall i :: 0 <= i < |s.history| ==> ReturnOk(s.history[i], s'.answers, s'.puts)
  {
    hide AnswerOk, Normalise;
    forall p | p in s.puts ensures PutOk(p, s'.answers) {
      assert PutOk(p, s.answers);
      if p.verdict != Unavailable {
        var id :| Said(s.answers, id, p.host, p.verdict);
        assert Said(s'.answers, id, p.host, p.verdict);
      }
    }
    forall i | 0 <= i < |s.history| ensures ReturnOk(s.history[i], s'.answers, s'.puts) {
      assert ReturnOk(s.history[i], s.answers, s.puts);
    }
    forall i | 0 <= i < |s.g.cache| ensures Backed(s.g.cache[i], s'.puts) {
      assert Backed(s.g.cache[i], s.puts);
    }
  }

  lemma AnswersOkAfter(s: State, s': State, id: nat, c: Call)
    requires ProvenanceOk(s) && s'.calls == s.calls[id := c] && AnswerOk(c, id, s'.answers)
    requires forall k :: k in s.answers && k != id ==> k in s'.answers && s'.answers[k] == s.answers[k]
    requires forall k :: k in s'.answers && k != id ==> k in s.answers
    ensures forall k :: k in s'.calls ==> AnswerOk(s'.calls[k], k, s'.answers)
    ensures forall k :: k in s'.answers ==> k in s'.calls
  {
    hide PutOk, ReturnOk, Backed;
    forall k | k in s'.calls ensures AnswerOk(s'.calls[k], k, s'.answers) {
      if k != id { assert AnswerOk(s.calls[k], k, s.answers); }
    }
  }

  // ---------- the parts of the invariant, one call changed ----------

  lemma PlacesAfter(s: State, s': State, id: nat, c: Call)
    requires PlacesOk(s) && s'.calls == s.calls[id := c]
    requires s'.g.inflight == s.g.inflight + Count(HoldsPlace(c)) - Count(id in s.calls && HoldsPlace(s.calls[id]))
    requires s'.g.inflight <= MAX_INFLIGHT
    ensures PlacesOk(s')
  {
    HoldersAfter(s.calls, id, c);
  }

  /** Recording one outcome: the pending call becomes counted, as a straggler if its epoch is over. */
  lemma StatsAfterReturn(s: State, s': State, id: nat, c: Call, r: Result)
    requires StatsOk(s) && id in s.calls && !s.calls[id].caller.Returned? && c == s.calls[id].(caller := Returned(r))
    requires s'.calls == s.calls[id := c] && s'.epoch == s.epoch && s'.g.stats == Tally(s.g.stats, r)
    requires s'.aux == s.aux.(stragglers := s.aux.stragglers + Late(s, c))
    requires if r.verdict == Unavailable then r.reason == Timeout || r.reason == Error else r.reason == Ok
    ensures StatsOk(s')
  {
    PendingAfter(s.calls, id, c, s.epoch);
  }

  lemma StatsAfterMove(s: State, s': State, id: nat, c: Call)
    requires StatsOk(s) && id in s.calls && s'.calls == s.calls[id := c] && s'.epoch == s.epoch
    requires c.epoch == s.calls[id].epoch && c.caller.Returned? == s.calls[id].caller.Returned?
    requires s'.g.stats == s.g.stats && s'.aux == s.aux
    ensures StatsOk(s')
  {
    PendingAfter(s.calls, id, c, s.epoch);
  }

  lemma ProvenanceAfter(s: State, s': State, id: nat, c: Call, more: seq<Return>)
    requires ProvenanceOk(s) && s'.calls == s.calls[id := c] && AnswerOk(c, id, s'.answers)
    requires s'.answers == s.answers || (id !in s.answers && id in s'.answers && s'.answers == s.answers[id := s'.answers[id]])
    requires s.puts <= s'.puts && forall p :: p in s'.puts ==> p in s.puts || PutOk(p, s'.answers)
    requires forall i :: 0 <= i < |s'.g.cache| ==> s'.g.cache[i] in s.g.cache || Backed(s'.g.cache[i], s'.puts)
    requires s'.history == s.history + more && forall i :: 0 <= i < |more| ==> ReturnOk(more[i], s'.answers, s'.puts)
    ensures ProvenanceOk(s')
  {
    ProvenanceGrows(s, s');
    AnswersOkAfter(s, s', id, c);
    hide AnswerOk, PutOk, ReturnOk, Backed;
  }

  lemma Assemble(s: State)
    requires !s.fault && CallsOk(s) && PlacesOk(s) && SharedOk(s.g) && StatsOk(s) && ProvenanceOk(s)
    ensures Inv(s)
  {
  }

  lemma TakeApart(s: State, id: nat)
    requires Inv(s) && id in s.calls
    ensures CallOk(s.calls[id]) && AnswerOk(s.calls[id], id, s.answers) && id < s.next && s.calls[id].epoch <= s.epoch
    ensures (HoldsPlace(s.calls[id]) ==> s.g.inflight > 0) && s.g.inflight <= MAX_INFLIGHT
  {
    hide CallOk, AnswerOk, HoldsPlace;
    if HoldsPlace(s.calls[id]) { SizeWith(Holders(s.calls), id); }
  }

  // ---------- every action keeps the invariant ----------

  lemma InitKeeps(s: State, provider: nat, ttl: nat)
    requires Inv(s)
    ensures Inv(Apply(s, Init(provider, ttl)))
  {
    hide CallOk, PutOk, ReturnOk, AnswerOk;
    assert Pending(s.calls, s.epoch + 1) == {};
  }

  lemma ShutdownKeeps(s: State)
    requires Inv(s)
    ensures Inv(Apply(s, Shutdown))
  {
    hide CallOk, PutOk, ReturnOk, AnswerOk;
  }

  lemma PlaceReturnedOk(c: Call, id: nat, answers: map<nat, Answer>)
    requires CallOk(c) && AnswerOk(c, id, answers) && c.helper.Signalled?
    ensures var c' := c.(helper := PlaceReturned);
            CallOk(c') && AnswerOk(c', id, answers) && HoldsPlace(c) && !HoldsPlace(c')
  {
    hide Normalise;
  }

  lemma GiveBackKeeps(s: State, id: nat)
    requires Inv(s) && Possible(s, GiveBack(id))
    ensures Inv(Apply(s, GiveBack(id)))
  {
    hide CallOk, AnswerOk, PutOk, ReturnOk, Backed, CallsOk, PlacesOk, SharedOk, StatsOk, ProvenanceOk, HoldsPlace;
    var s' := Apply(s, GiveBack(id));
    var c := s.calls[id].(helper := PlaceReturned);
    TakeApart(s, id);
    PlaceReturnedOk(s.calls[id], id, s.answers);
    CallsOkAfter(s, s', id, c);
    PlacesAfter(s, s', id, c);
    StatsAfterMove(s, s', id, c);
    ProvenanceAfter(s, s', id, c, []);
    SharedAfter(s.g, s'.g);
    Assemble(s');
  }

  lemma SharedAfter(g: Shared, g': Shared)
    requires SharedOk(g) && g'.cache == g.cache && g'.enabled == g.enabled && g'.provider == g.provider
    ensures SharedOk(g')
  {
  }

  /** A call returns `r`: the parts of the invariant that do not concern provenance. */
  lemma ReturnKeeps(s: State, s': State, id: nat, c: Call, r: Result)
    requires Inv(s) && id in s.calls && !s.calls[id].caller.Returned? && c == s.calls[id].(caller := Returned(r))
    requires CallOk(c) && s'.calls == s.calls[id := c] && s'.epoch == s.epoch && s'.next == s.next
    requires s'.g.stats == Tally(s.g.stats, r) && s'.aux == s.aux.(stragglers := s.aux.stragglers + Late(s, c))
    requires if r.verdict == Unavailable then r.reason == Timeout || r.reason == Error else r.reason == Ok
    requires s'.g.inflight == s.g.inflight + Count(HoldsPlace(c)) - Count(HoldsPlace(s.calls[id]))
    ensures CallsOk(s') && PlacesOk(s') && StatsOk(s')
  {
    TakeApart(s, id);
    hide CallOk, AnswerOk, HoldsPlace, Tally, CallsOk, PlacesOk, StatsOk, ProvenanceOk, SharedOk;
    CallsOkAfter(s, s', id, c);
    PlacesAfter(s, s', id, c);
    StatsAfterReturn(s, s', id, c, r);
  }

  lemma FailedCallOk(c: Call, id: nat, answers: map<nat, Answer>, puts: set<Put>)
    requires CallOk(c) && AnswerOk(c, id, answers) && c.caller.NotingFailure?
    ensures var r := Result(Unavailable, Error);
            var c' := c.(caller := Returned(r));
            && CallOk(c') && AnswerOk(c', id, answers) && HoldsPlace(c) && !HoldsPlace(c')
            && ReturnOk(Return(Some(id), c.asked, r, 0), answers, puts)
  {
    hide Normalise;
  }

  lemma FailKeeps(s: State, id: nat)
    requires Inv(s) && Possible(s, NoteFailure(id))
    ensures Inv(Apply(s, NoteFailure(id)))
  {
    hide CallOk, AnswerOk, PutOk, Backed, ReturnOk, CallsOk, PlacesOk, SharedOk, StatsOk, ProvenanceOk, HoldsPlace, Tally;
    var s' := Apply(s, NoteFailure(id));
    var r := Result(Unavailable, Error);
    var c := s.calls[id].(caller := Returned(r));
    TakeApart(s, id);
    FailedCallOk(s.calls[id], id, s.answers, s.puts);
    ReturnKeeps(s, s', id, c, r);
    ProvenanceAfter(s, s', id, c, [Return(Some(id), c.asked, r, 0)]);
    SharedAfter(s.g, s'.g);
    Assemble(s');
  }

  /** The answers after one step of call `id`. */
  ghost function Heard(c: Call, id: nat, step: LocalStep, answers: map<nat, Answer>): map<nat, Answer> {
    if step.Reply? && c.provider.Some? then answers[id := Answer(c.provider.value, c.host, step.code)] else answers
  }

  /** The ends of the callers' waits after one step of call `id`. */
  function Waited(c: Call, id: nat, step: LocalStep, waits: map<nat, Wait>): map<nat, Wait> {
    if step.Wake? then waits[id := Wait(step.timedOut, c.job.Live? && c.job.done)] else waits
  }

  lemma MoveAnswers(c: Call, id: nat, step: LocalStep, answers: map<nat, Answer>)
    requires CallOk(c) && AnswerOk(c, id, answers) && Enabled(c, step)
    ensures AnswerOk(Move(c, step), id, Heard(c, id, step, answers))
    ensures step.Reply? ==> id !in answers
  {
    hide Normalise;
  }

  lemma LocalKeeps(s: State, id: nat, step: LocalStep)
    requires Inv(s) && Possible(s, Local(id, step))
    ensures Inv(Apply(s, Local(id, step)))
  {
    hide Move, Faulty, CallOk, AnswerOk, PutOk, ReturnOk, Backed, CallsOk, PlacesOk, SharedOk, StatsOk, ProvenanceOk, HoldsPlace;
    hide Enabled;
    var s' := Apply(s, Local(id, step));
    var c := Move(s.calls[id], step);
    TakeApart(s, id);
    MoveIsSafe(s.calls[id], step);
    MoveAnswers(s.calls[id], id, step, s.answers);
    CallsOkAfter(s, s', id, c);
    PlacesAfter(s, s', id, c);
    StatsAfterMove(s, s', id, c);
    ProvenanceAfter(s, s', id, c, []);
    SharedAfter(s.g, s'.g);
    Assemble(s');
  }

  /** The outcome of one finished or abandoned call, and what is remembered of it, has its source. */
  lemma OutcomeOk(c: Call, id: nat, answers: map<nat, Answer>, now: int)
    requires CallOk(c) && AnswerOk(c, id, answers) && c.caller.Noting?
    ensures var o := Outcome(c.caller.finished, c.caller.answer, c.ttl);
            && PutOk(Put(c.host, o.result.verdict, now, o.ttl), answers)
            && forall puts :: ReturnOk(Return(Some(id), c.asked, o.result, now), answers, puts)
  {
    hide Normalise;
    var o := Outcome(c.caller.finished, c.caller.answer, c.ttl);
    if o.result.verdict != Unavailable {
      assert Said(answers, id, c.host, o.result.verdict);
    }
  }

  lemma RememberedBacked(s: State, host: string, v: Verdict, now: int, ttl: nat, puts: set<Put>)
    requires SharedOk(s.g) && Put(host, v, now, ttl) in puts
    ensures var g' := Remember(s.g, host, v, now + ttl);
            && SharedOk(g')
            && forall i :: 0 <= i < |g'.cache| ==> g'.cache[i] in s.g.cache || Backed(g'.cache[i], puts)
  {
    PutKeepsUnique(s.g.cache, s.g.tick + 1, host, v, now + ttl);
    hide UniqueHosts, Target;
    var slot := Used(host, v, now + ttl, s.g.tick + 1);
    assert Backed(slot, puts) by { var p := Put(host, v, now, ttl); assert p in puts; }
    var g' := Remember(s.g, host, v, now + ttl);
    forall i | 0 <= i < |g'.cache| ensures g'.cache[i] in s.g.cache || Backed(g'.cache[i], puts) {
      assert g'.cache[i] == slot || g'.cache[i] == s.g.cache[i];
    }
  }

  lemma FinishedCallOk(c: Call, id: nat, answers: map<nat, Answer>)
    requires CallOk(c) && AnswerOk(c, id, answers) && c.caller.Noting?
    ensures var r := Outcome(c.caller.finished, c.caller.answer, c.ttl).result;
            var c' := c.(caller := Returned(r));
            && CallOk(c') && AnswerOk(c', id, answers) && HoldsPlace(c') == HoldsPlace(c)
            && if r.verdict == Unavailable then r.reason == Timeout || r.reason == Error else r.reason == Ok
  {
    hide Normalise;
  }

  lemma FinishKeeps(s: State, id: nat, now: int)
    requires Inv(s) && Possible(s, NoteOutcome(id, now))
    ensures Inv(Apply(s, NoteOutcome(id, now)))
  {
    hide CallOk, AnswerOk, PutOk, ReturnOk, Backed, CallsOk, PlacesOk, SharedOk, StatsOk, ProvenanceOk, HoldsPlace;
    hide Tally, Outcome, PutVerdict;
    var s' := Apply(s, NoteOutcome(id, now));
    var o := Outcome(s.calls[id].caller.finished, s.calls[id].caller.answer, s.calls[id].ttl);
    var c := s.calls[id].(caller := Returned(o.result));
    TakeApart(s, id);
    FinishedCallOk(s.calls[id], id, s.answers);
    ReturnKeeps(s, s', id, c, o.result);
    FinishProvenance(s, s', id, c, o, now);
    Assemble(s');
  }

  lemma FinishProvenance(s: State, s': State, id: nat, c: Call, o: Judgement, now: int)
    requires Inv(s) && Possible(s, NoteOutcome(id, now)) && s' == Apply(s, NoteOutcome(id, now))
    requires o == Outcome(s.calls[id].caller.finished, s.calls[id].caller.answer, s.calls[id].ttl)
    requires c == s.calls[id].(caller := Returned(o.result)) && AnswerOk(c, id, s.answers)
    ensures SharedOk(s'.g) && ProvenanceOk(s')
  {
    hide CallOk, AnswerOk, PutOk, ReturnOk, Backed, CallsOk, PlacesOk, SharedOk, StatsOk, ProvenanceOk, HoldsPlace;
    hide Tally, Outcome, PutVerdict;
    TakeApart(s, id);
    OutcomeOk(s.calls[id], id, s.answers, now);
    if s.g.enabled && o.ttl != 0 {
      RememberedBacked(s, c.host, o.result.verdict, now, o.ttl, s'.puts);
      SharedAfter(Remember(s.g, c.host, o.result.verdict, now + o.ttl), s'.g);
    } else {
      SharedAfter(s.g, s'.g);
    }
    ProvenanceAfter(s, s', id, c, [Return(Some(id), c.asked, o.result, now)]);
  }

  // ---------- the first critical section ----------

  /** Only shared state, statistics and history change. */
  lemma NoCallChanges(s: State, s': State, more: seq<Return>)
    requires Inv(s) && s'.calls == s.calls && s'.next == s.next && s'.epoch == s.epoch && s'.fault == s.fault
    requires s'.answers == s.answers && s'.puts == s.puts && s'.g.inflight == s.g.inflight
    requires s'.history == s.history + more && forall i :: 0 <= i < |more| ==> ReturnOk(more[i], s.answers, s.puts)
    requires forall i :: 0 <= i < |s'.g.cache| ==> Backed(s'.g.cache[i], s.puts)
    requires SharedOk(s'.g) && StatsOk(s')
    ensures Inv(s')
  {
    hide CallOk, AnswerOk, PutOk, ReturnOk, Backed, SharedOk, StatsOk, Holders;
  }

  lemma SlotsBacked(s: State)
    requires Inv(s)
    ensures SharedOk(s.g) && StatsOk(s) && forall i :: 0 <= i < |s.g.cache| ==> Backed(s.g.cache[i], s.puts)
  {
    hide CallsOk, PlacesOk, SharedOk, StatsOk, AnswerOk, PutOk, ReturnOk, Backed;
  }

  lemma FailedReturnOk(r: Return, answers: map<nat, Answer>, puts: set<Put>)
    requires r.result.verdict == Unavailable && r.result.reason in {Error, BadInput, Saturated}
    ensures ReturnOk(r, answers, puts)
  {
  }

  lemma RefusalStats(s: State, host: Option<string>, reason: Reason, now: int)
    requires Inv(s) && reason in {Error, BadInput, Saturated}
    ensures StatsOk(AfterRefusal(s, host, reason, now))
  {
    hide CallsOk, PlacesOk, SharedOk, ProvenanceOk;
  }

  lemma RefusalKeeps(s: State, host: Option<string>, reason: Reason, now: int)
    requires Inv(s) && reason in {Error, BadInput, Saturated}
    ensures Inv(AfterRefusal(s, host, reason, now))
  {
    hide Inv, StatsOk, SharedOk, Backed, ReturnOk;
    var s' := AfterRefusal(s, host, reason, now);
    var r := Return(None, host, Result(Unavailable, reason), now);
    RefusalStats(s, host, reason, now);
    SlotsBacked(s);
    SharedAfter(s.g, s'.g);
    FailedReturnOk(r, s.answers, s.puts);
    NoCallChanges(s, s', [r]);
  }

  lemma TouchedSlots(s: State, k: nat, norm: string, now: int, host: Option<string>)
    requires SharedOk(s.g) && (forall i :: 0 <= i < |s.g.cache| ==> Backed(s.g.cache[i], s.puts))
    requires k < |s.g.cache| && Holds(s.g.cache[k], norm) && s.g.cache[k].expires > now && Normalise(host) == Some(norm)
    ensures var s' := AfterHit(s, host, k, now);
            && SharedOk(s'.g)
            && (forall i :: 0 <= i < |s'.g.cache| ==> Backed(s'.g.cache[i], s.puts))
            && ReturnOk(Return(None, host, Result(s.g.cache[k].verdict, Cache), now), s.answers, s.puts)
  {
    hide Normalise;
    assert Backed(s.g.cache[k], s.puts);
    var p :| p in s.puts && p.host == norm && p.verdict == s.g.cache[k].verdict && s.g.cache[k].expires == p.at + p.ttl;
    var s' := AfterHit(s, host, k, now);
    forall i | 0 <= i < |s'.g.cache| ensures Backed(s'.g.cache[i], s.puts) {
      assert Backed(s.g.cache[i], s.puts);
      if i == k { assert p in s.puts; }
    }
  }

  lemma HitKeeps(s: State, host: Option<string>, norm: string, k: nat, now: int)
    requires Inv(s) && Normalise(host) == Some(norm)
    requires k < |s.g.cache| && Holds(s.g.cache[k], norm) && s.g.cache[k].expires > now
    ensures Inv(AfterHit(s, host, k, now))
  {
    var s' := AfterHit(s, host, k, now);
    HitStats(s, host, k, now);
    hide Inv, StatsOk, SharedOk, Backed, ReturnOk, Normalise;
    SlotsBacked(s);
    TouchedSlots(s, k, norm, now, host);
    NoCallChanges(s, s', [Return(None, host, Result(s.g.cache[k].verdict, Cache), now)]);
  }

  lemma HitStats(s: State, host: Option<string>, k: nat, now: int)
    requires Inv(s) && k < |s.g.cache| && s.g.cache[k].Used?
    ensures StatsOk(AfterHit(s, host, k, now))
  {
    hide CallsOk, PlacesOk, SharedOk, ProvenanceOk, Normalise;
  }

  lemma NewCallOk(s: State, host: Option<string>, norm: string)
    requires Inv(s) && s.g.enabled && Normalise(host) == Some(norm)
    ensures var c := Call(host, norm, s.g.provider, s.g.ttl, s.epoch, Reserved, NoJob, NoHelper);
            CallOk(c) && AnswerOk(c, s.next, s.answers) && HoldsPlace(c) && s.next !in s.calls
    ensures CallsOk(s) && PlacesOk(s) && ProvenanceOk(s) && SharedOk(s.g)
  {
    hide Normalise, PutOk, ReturnOk, Backed, StatsOk, UniqueHosts, PlacesOk;
  }

  lemma ReserveStats(s: State, host: Option<string>, norm: string)
    requires Inv(s) && s.next !in s.calls
    ensures StatsOk(AfterReserve(s, host, norm))
  {
    hide CallsOk, PlacesOk, SharedOk, ProvenanceOk;
    var c := Call(host, norm, s.g.provider, s.g.ttl, s.epoch, Reserved, NoJob, NoHelper);
    PendingAfter(s.calls, s.next, c, s.epoch);
  }

  lemma ReserveKeeps(s: State, host: Option<string>, norm: string)
    requires Inv(s) && s.g.enabled && Normalise(host) == Some(norm) && s.g.inflight < MAX_INFLIGHT
    ensures Inv(AfterReserve(s, host, norm))
  {
    hide Inv, CallOk, AnswerOk, PutOk, ReturnOk, Backed, CallsOk, PlacesOk, SharedOk, StatsOk, ProvenanceOk, HoldsPlace, Normalise;
    var s' := AfterReserve(s, host, norm);
    var c := s'.calls[s.next];
    NewCallOk(s, host, norm);
    NotFaulty(s);
    CallsOkAfter(s, s', s.next, c);
    PlacesAfter(s, s', s.next, c);
    ReserveStats(s, host, norm);
    ProvenanceAfter(s, s', s.next, c, []);
    SharedAfter(s.g, s'.g);
    Assemble(s');
  }

  lemma NotFaulty(s: State)
    requires Inv(s)
    ensures !s.fault
  {
  }

  lemma CheckKeeps(s: State, host: Option<string>, now: int)
    requires Inv(s)
    ensures Inv(CheckHost(s, host, now))
  {
    hide Inv, Normalise, AfterHit, AfterRefusal, AfterReserve;
    if !s.g.enabled {
      RefusalKeeps(s, host, Error, now);
    } else if Normalise(host).None? {
      RefusalKeeps(s, host, BadInput, now);
    } else {
      var norm := Normalise(host).value;
      var k := FindHost(s.g.cache, norm);
      if k < |s.g.cache| && s.g.cache[k].expires > now {
        HitKeeps(s, host, norm, k, now);
      } else if s.g.inflight >= MAX_INFLIGHT {
        RefusalKeeps(s, host, Saturated, now);
      } else {
        ReserveKeeps(s, host, norm);
      }
    }
  }

  lemma StartIsOk()
    ensures Inv(START)
  {
    assert Holders(START.calls) == {} && Pending(START.calls, 0) == {};
  }

  // ---------- theorems over every interleaving ----------

  lemma {:induction false} RunInv(actions: seq<Action>)
    ensures Inv(Run(actions))
  {
    hide Inv, CheckHost, Possible, START;
    if actions == [] {
      StartIsOk();
    } else {
      RunInv(actions[..|actions| - 1]);
      var s, a := Run(actions[..|actions| - 1]), actions[|actions| - 1];
      if Possible(s, a) { ActionKeeps(s, a); }
    }
  }

  lemma ActionKeeps(s: State, a: Action)
    requires Inv(s) && Possible(s, a)
    ensures Inv(Apply(s, a))
  {
    match a
    case Init(provider, ttl) => InitKeeps(s, provider, ttl);
    case Shutdown => ShutdownKeeps(s);
    case Check(host, now) => CheckKeeps(s, host, now);
    case Local(id, step) => LocalKeeps(s, id, step);
    case GiveBack(id) => GiveBackKeeps(s, id);
    case NoteFailure(id) => FailKeeps(s, id);
    case NoteOutcome(id, now) => FinishKeeps(s, id, now);
  }

  /** In every interleaving the in-flight counter equals the lookups really outstanding, stays within
      0 and 16, and no step ever touches or frees a job wrongly. */
  lemma InflightIsExact(actions: seq<Action>)
    ensures var s := Run(actions);
            0 <= s.g.inflight == |Holders(s.calls)| <= MAX_INFLIGHT && !s.fault
  {
    RunInv(actions);
  }

  /** A job is live exactly as long as an owner needs it, with one reference per owner that has not
      released it; a call that has returned and whose helper is gone leaves no job behind. */
  lemma JobLivesWhileOwned(actions: seq<Action>, id: nat)
    requires id in Run(actions).calls
    ensures var c := Run(actions).calls[id];
            && (c.job.Live? && !c.helper.NoHelper? ==>
                  JobNeeded(c) && c.job.refs == Count(CallerHolds(c.caller)) + Count(HelperHolds(c.helper)))
            && (c.job.Freed? ==> !JobNeeded(c))
            && (c.caller.Returned? && (c.helper.NoHelper? || c.helper.Gone?) ==> !c.job.Live?)
  {
    hide Inv, Run, CallOk, AnswerOk;
    RunInv(actions);
    TakeApart(Run(actions), id);
    OwnedJob(Run(actions).calls[id]);
  }

  lemma OwnedJob(c: Call)
    requires CallOk(c)
    ensures c.job.Live? && !c.helper.NoHelper? ==>
              JobNeeded(c) && c.job.refs == Count(CallerHolds(c.caller)) + Count(HelperHolds(c.helper))
    ensures c.job.Freed? ==> !JobNeeded(c)
    ensures c.caller.Returned? && (c.helper.NoHelper? || c.helper.Gone?) ==> !c.job.Live?
  {
    hide Normalise;
  }

  /** After the free no step of the call that could touch the job is possible any more. */
  lemma FreedIsUntouched(c: Call, step: LocalStep)
    requires CallOk(c) && c.job.Freed?
    ensures !Enabled(c, step)
  {
    if Enabled(c, step) { MoveIsSafe(c, step); }
    hide Normalise;
  }

  /** A freed job stays freed over every continuation, so it is freed once. */
  lemma {:induction false} FreedIsFinal(actions: seq<Action>, more: seq<Action>, id: nat)
    requires id in Run(actions).calls && Run(actions).calls[id].job.Freed?
    ensures id in Run(actions + more).calls && Run(actions + more).calls[id].job.Freed?
    decreases |more|
  {
    hide Inv, CallOk, AnswerOk, START, Apply, Possible;
    if more == [] {
      assert actions + more == actions;
    } else {
      var n := |more| - 1;
      FreedIsFinal(actions, more[..n], id);
      var before, a := actions + more[..n], more[n];
      assert actions + more == before + [a] && (before + [a])[..|before|] == before;
      RunInv(before);
      if Possible(Run(before), a) { FreedStays(Run(before), a, id); }
    }
  }

  lemma FreedStays(s: State, a: Action, id: nat)
    requires Inv(s) && Possible(s, a) && id in s.calls && s.calls[id].job.Freed?
    ensures id in Apply(s, a).calls && Apply(s, a).calls[id].job.Freed?
  {
    hide Inv, CallOk, AnswerOk, Normalise, PutVerdict, FindHost, Enabled, Move;
    TakeApart(s, id);
    if a.Local? && a.id == id { FreedIsUntouched(s.calls[id], a.step); }
  }

  /** A remembered answer, still fresh at `now`. */
  ghost predicate Remembered(s: State, host: string, v: Verdict, now: int) {
    exists p, id :: p in s.puts && p.host == host && p.verdict == v && now < p.at + p.ttl && Said(s.answers, id, host, v)
  }

  /** Every result other than "unavailable" is a provider's answer for the same normalised host: either
      the answer this very call waited for, or one remembered from an answer and not yet expired. */
  lemma VerdictProvenance(actions: seq<Action>, i: nat)
    requires i < |Run(actions).history| && Run(actions).history[i].result.verdict != Unavailable
    ensures var s, r := Run(actions), Run(actions).history[i];
            && Normalise(r.host).Some?
            && var host := Normalise(r.host).value;
            || (r.result.reason == Ok && r.id.Some? && Said(s.answers, r.id.value, host, r.result.verdict))
            || (r.result.reason == Cache && Remembered(s, host, r.result.verdict, r.at))
  {
    RunInv(actions);
    var s, r := Run(actions), Run(actions).history[i];
    HistoryBacked(s, i);
    hide Run, Inv, Normalise, Said;
    if r.result.reason == Cache {
      var p :| p in s.puts && Normalise(r.host) == Some(p.host) && p.verdict == r.result.verdict && r.at < p.at + p.ttl;
      PutBacked(s, p);
      var id :| Said(s.answers, id, p.host, p.verdict);
    }
  }

  lemma HistoryBacked(s: State, i: nat)
    requires Inv(s) && i < |s.history|
    ensures ReturnOk(s.history[i], s.answers, s.puts)
  {
    hide CallsOk, PlacesOk, SharedOk, StatsOk, ReturnOk, AnswerOk, PutOk, Backed;
  }

  lemma PutBacked(s: State, p: Put)
    requires Inv(s) && p in s.puts
    ensures PutOk(p, s.answers)
  {
    hide CallsOk, PlacesOk, SharedOk, StatsOk, ReturnOk, AnswerOk, PutOk, Backed;
  }

  /** Failures and out-of-range answers never become a verdict and are remembered for 5 seconds only. */
  lemma FailuresAreNotVerdicts(actions: seq<Action>, i: nat, p: Put)
    requires i < |Run(actions).history| && p in Run(actions).puts
    ensures Run(actions).history[i].result.reason !in {Ok, Cache} ==> Run(actions).history[i].result.verdict == Unavailable
    ensures p.verdict == Unavailable ==> p.ttl == NEGATIVE_TTL
  {
    RunInv(actions);
    HistoryBacked(Run(actions), i);
    PutBacked(Run(actions), p);
    hide Run, Inv, Normalise, Said;
  }

  /** Only bare lowercase hostnames ever reach a provider. */
  lemma OnlyBareHostsLeave(actions: seq<Action>, id: nat)
    requires id in Run(actions).answers
    ensures IsBareHost(Run(actions).answers[id].host)
  {
    RunInv(actions);
    AnsweredCallOk(Run(actions), id);
  }

  lemma AnsweredCallOk(s: State, id: nat)
    requires Inv(s) && id in s.answers
    ensures IsBareHost(s.answers[id].host)
  {
    hide PlacesOk, SharedOk, StatsOk, ReturnOk, PutOk, Backed;
    assert id in s.calls;
    assert Normalise(s.calls[id].asked) == Some(s.calls[id].host);
  }

  /** Statistics conservation at every lock release. Outcomes of calls that began before the last init
      ("stragglers") are counted without their provider call having been. */
  lemma StatisticsConserved(actions: seq<Action>)
    ensures var s := Run(actions);
            var st, x := s.g.stats, s.aux;
            && st.unavailable == st.rejectedInput + st.saturated + st.timeouts + st.errors + x.cachedUnavailable
            && st.lookups == st.rejectedInput + st.cacheHits + st.saturated + st.providerCalls + x.disabled
            && (x.stragglers == 0 ==>
                  st.providerCalls - |Pending(s.calls, s.epoch)| ==
                  st.safe + st.suspicious + st.malicious + st.timeouts + (st.errors - x.disabled))
  {
    RunInv(actions);
  }
}
