/** src/reputation.c: what each lookup hands back, remembers and counts, over every interleaving. */
module ReputationResults {
  import opened Text
  import opened ReputationCache
  import opened Reputation

  // ---------- what a call hands back ----------

  /** The result says how the call went: no helper, a wait that timed out, or the provider's answer. */
  ghost predicate Reports(r: Result, id: nat, answers: map<nat, Answer>, waits: map<nat, Wait>) {
    if id !in waits then r == Result(Unavailable, Error)
    else if !waits[id].done then waits[id].timedOut && r == Result(Unavailable, Timeout)
    else
      && id in answers && var code := answers[id].code;
      && (code == 0 ==> r == Result(Safe, Ok)) && (code == 1 ==> r == Result(Suspicious, Ok))
      && (code == 2 ==> r == Result(Malicious, Ok)) && (code < 0 || 2 < code ==> r == Result(Unavailable, Error))
  }

  predicate HasWoken(c: Caller) { c.Decided? || c.CallerFreeing? || c.Noting? }

  ghost predicate ToldOk(c: Call, id: nat, answers: map<nat, Answer>, waits: map<nat, Wait>) {
    && (id in waits <==> !c.helper.NoHelper? && !c.caller.Waiting?)
    && (id in waits && !waits[id].done ==> waits[id].timedOut)
    && (id in waits && waits[id].done ==> id in answers)
    && (HasWoken(c.caller) ==> id in waits && c.caller.finished == waits[id].done)
    && (HasWoken(c.caller) && c.caller.finished ==> c.caller.answer == answers[id].code)
    && (c.caller.Returned? ==> Reports(c.caller.result, id, answers, waits))
  }

  ghost predicate AllTold(s: State) {
    && (forall id :: id in s.calls ==> ToldOk(s.calls[id], id, s.answers, s.waits))
    && forall id :: id in s.waits ==> id in s.calls
  }

  /** Every result with a call is that call's, and a call hands back one. */
  ghost predicate OneEach(s: State) {
    && (forall i, id :: 0 <= i < |s.history| && s.history[i].id == Some(id) ==>
          id in s.calls && s.calls[id].caller == Returned(s.history[i].result) && s.calls[id].asked == s.history[i].host)
    && forall i, j :: 0 <= i < j < |s.history| && s.history[i].id.Some? ==> s.history[i].id != s.history[j].id
  }

  lemma LocalTells(c: Call, id: nat, step: LocalStep, answers: map<nat, Answer>, waits: map<nat, Wait>)
    requires CallOk(c) && AnswerOk(c, id, answers) && ToldOk(c, id, answers, waits) && Enabled(c, step)
    ensures ToldOk(Move(c, step), id, Heard(c, id, step, answers), Waited(c, id, step, waits))
    ensures c.caller.Returned? ==> Move(c, step).caller == c.caller
    ensures Move(c, step).asked == c.asked
  {
    hide Normalise;
  }

  /** One call changed; what the others were told stays. */
  lemma StillTold(s: State, s': State, id: nat, c: Call)
    requires AllTold(s) && s'.calls == s.calls[id := c] && ToldOk(c, id, s'.answers, s'.waits)
    requires forall k :: k != id ==> (k in s'.answers <==> k in s.answers) && (k in s'.waits <==> k in s.waits)
    requires forall k :: k != id && k in s.answers ==> s'.answers[k] == s.answers[k]
    requires forall k :: k != id && k in s.waits ==> s'.waits[k] == s.waits[k]
    ensures AllTold(s')
  {
    forall k | k in s'.calls ensures ToldOk(s'.calls[k], k, s'.answers, s'.waits) {
      if k != id { assert ToldOk(s.calls[k], k, s.answers, s.waits); }
    }
  }

  lemma LocalKeepsTold(s: State, id: nat, step: LocalStep)
    requires Inv(s) && AllTold(s) && OneEach(s) && Possible(s, Local(id, step))
    ensures var s' := Apply(s, Local(id, step)); AllTold(s') && OneEach(s')
  {
    hide Inv, Move, Enabled, CallOk, AnswerOk, ToldOk, Faulty, Heard, Waited;
    TakeApart(s, id);
    assert ToldOk(s.calls[id], id, s.answers, s.waits);
    LocalTells(s.calls[id], id, step, s.answers, s.waits);
    OthersUnheard(s.calls[id], id, step, s.answers, s.waits);
    StillTold(s, Apply(s, Local(id, step)), id, Move(s.calls[id], step));
  }

  lemma OthersUnheard(c: Call, id: nat, step: LocalStep, answers: map<nat, Answer>, waits: map<nat, Wait>)
    ensures var more, ends := Heard(c, id, step, answers), Waited(c, id, step, waits);
            forall k :: k != id ==> (k in more <==> k in answers) && (k in ends <==> k in waits)
                                    && (k in answers ==> more[k] == answers[k]) && (k in waits ==> ends[k] == waits[k])
  {
  }

  lemma OutcomeTells(c: Call, id: nat, answers: map<nat, Answer>, waits: map<nat, Wait>)
    requires CallOk(c) && ToldOk(c, id, answers, waits) && c.caller.Noting?
    ensures ToldOk(c.(caller := Returned(Outcome(c.caller.finished, c.caller.answer, c.ttl).result)), id, answers, waits)
  {
    hide Normalise;
  }

  lemma FailureTells(c: Call, id: nat, answers: map<nat, Answer>, waits: map<nat, Wait>)
    requires CallOk(c) && ToldOk(c, id, answers, waits) && c.caller.NotingFailure?
    ensures ToldOk(c.(caller := Returned(Result(Unavailable, Error))), id, answers, waits)
  {
    hide Normalise;
  }

  lemma ReturnKeepsTold(s: State, s': State, id: nat, c: Call, r: Return)
    requires AllTold(s) && OneEach(s) && id in s.calls && !s.calls[id].caller.Returned?
    requires c == s.calls[id].(caller := Returned(r.result)) && r.id == Some(id) && r.host == c.asked
    requires ToldOk(c, id, s.answers, s.waits) && s'.calls == s.calls[id := c] && s'.history == s.history + [r]
    requires s'.answers == s.answers && s'.waits == s.waits
    ensures AllTold(s') && OneEach(s')
  {
    hide ToldOk;
    StillTold(s, s', id, c);
  }

  lemma ActionKeepsTold(s: State, a: Action)
    requires Inv(s) && AllTold(s) && OneEach(s) && Possible(s, a)
    ensures AllTold(Apply(s, a)) && OneEach(Apply(s, a))
  {
    hide Inv, ToldOk, CallOk, AnswerOk, Move, Enabled, Outcome, Tally, PutVerdict, FindHost, Normalise;
    match a
    case Init(_, _) =>
    case Shutdown =>
    case Check(host, now) => CheckKeepsTold(s, host, now);
    case Local(id, step) => LocalKeepsTold(s, id, step);
    case GiveBack(id) => GiveBackKeepsTold(s, id);
    case NoteFailure(id) =>
      TakeApart(s, id);
      assert ToldOk(s.calls[id], id, s.answers, s.waits);
      FailureTells(s.calls[id], id, s.answers, s.waits);
      var s' := Apply(s, a);
      ReturnKeepsTold(s, s', id, s'.calls[id], s'.history[|s.history|]);
    case NoteOutcome(id, now) =>
      TakeApart(s, id);
      assert ToldOk(s.calls[id], id, s.answers, s.waits);
      OutcomeTells(s.calls[id], id, s.answers, s.waits);
      var s' := Apply(s, a);
      ReturnKeepsTold(s, s', id, s'.calls[id], s'.history[|s.history|]);
  }

  lemma GiveBackKeepsTold(s: State, id: nat)
    requires Inv(s) && AllTold(s) && OneEach(s) && Possible(s, GiveBack(id))
    ensures var s' := Apply(s, GiveBack(id)); AllTold(s') && OneEach(s')
  {
    hide Inv;
    assert ToldOk(s.calls[id], id, s.answers, s.waits);
    StillTold(s, Apply(s, GiveBack(id)), id, s.calls[id].(helper := PlaceReturned));
  }

  lemma CheckKeepsTold(s: State, host: Option<string>, now: int)
    requires Inv(s) && AllTold(s) && OneEach(s)
    ensures AllTold(CheckHost(s, host, now)) && OneEach(CheckHost(s, host, now))
  {
    hide Inv, Normalise, AfterReserve, AllTold, OneEach;
    if !s.g.enabled {
      AnsweredAtOnce(s, AfterRefusal(s, host, Error, now));
    } else if Normalise(host).None? {
      AnsweredAtOnce(s, AfterRefusal(s, host, BadInput, now));
    } else {
      var norm := Normalise(host).value;
      var k := FindHost(s.g.cache, norm);
      if k < |s.g.cache| && s.g.cache[k].expires > now {
        AnsweredAtOnce(s, AfterHit(s, host, k, now));
      } else if s.g.inflight >= MAX_INFLIGHT {
        AnsweredAtOnce(s, AfterRefusal(s, host, Saturated, now));
      } else {
        ReserveKeepsTold(s, host, norm);
      }
    }
  }

  /** A check that is answered in its first critical section. */
  lemma AnsweredAtOnce(s: State, s': State)
    requires AllTold(s) && OneEach(s)
    requires s'.calls == s.calls && s'.answers == s.answers && s'.waits == s.waits
    requires |s'.history| == |s.history| + 1 && s'.history[..|s.history|] == s.history && s'.history[|s.history|].id.None?
    ensures AllTold(s') && OneEach(s')
  {
    hide ToldOk;
    assert forall i :: 0 <= i < |s.history| ==> s'.history[i] == s'.history[..|s.history|][i];
  }

  lemma ReserveKeepsTold(s: State, host: Option<string>, norm: string)
    requires Inv(s) && AllTold(s) && OneEach(s)
    ensures AllTold(AfterReserve(s, host, norm)) && OneEach(AfterReserve(s, host, norm))
  {
    hide Inv;
    NewIsFree(s);
    hide Normalise;
    var s' := AfterReserve(s, host, norm);
    StillTold(s, s', s.next, s'.calls[s.next]);
  }

  lemma NewIsFree(s: State)
    requires Inv(s) && AllTold(s)
    ensures s.next !in s.calls && s.next !in s.answers && s.next !in s.waits
  {
  }

  lemma {:induction false} RunTells(actions: seq<Action>)
    ensures AllTold(Run(actions)) && OneEach(Run(actions))
  {
    hide Inv, Possible, Apply, AllTold, OneEach;
    if actions == [] {
      NothingTold();
    } else {
      var n := |actions| - 1;
      RunTells(actions[..n]);
      RunInv(actions[..n]);
      if Possible(Run(actions[..n]), actions[n]) { ActionKeepsTold(Run(actions[..n]), actions[n]); }
    }
  }

  lemma NothingTold()
    ensures AllTold(START) && OneEach(START)
  {
  }

  /** Every result that came from a call reports how that call went, and no call hands back two: without a helper an
      error; after a wait that timed out with the job not done, a timeout; and otherwise the provider's answer about the
      host that was asked for, code for code, or an error if the code is none of the three. */
  lemma AnswerReachesCaller(actions: seq<Action>, i: nat, id: nat)
    requires i < |Run(actions).history| && Run(actions).history[i].id == Some(id)
    ensures var s, r := Run(actions), Run(actions).history[i].result;
            && (id !in s.waits ==> r == Result(Unavailable, Error))
            && (id in s.waits && !s.waits[id].done ==> s.waits[id].timedOut && r == Result(Unavailable, Timeout))
            && (id in s.waits && s.waits[id].done ==>
                  && id in s.answers && Normalise(s.history[i].host) == Some(s.answers[id].host)
                  && var code := s.answers[id].code;
                  && (code == 0 ==> r == Result(Safe, Ok)) && (code == 1 ==> r == Result(Suspicious, Ok))
                  && (code == 2 ==> r == Result(Malicious, Ok)) && (code < 0 || 2 < code ==> r == Result(Unavailable, Error)))
    ensures forall j :: 0 <= j < |Run(actions).history| && Run(actions).history[j].id == Some(id) ==> j == i
  {
    hide Run, Inv, CallOk;
    RunTells(actions);
    RunInv(actions);
    var s := Run(actions);
    assert ToldOk(s.calls[id], id, s.answers, s.waits);
    TakeApart(s, id);
    AskedAbout(s.calls[id]);
  }

  lemma AskedAbout(c: Call)
    requires CallOk(c)
    ensures Normalise(c.asked) == Some(c.host)
  {
    hide Normalise;
  }

  // ---------- one more action ----------

  lemma RunMore(actions: seq<Action>, a: Action)
    ensures Run(actions + [a]) == if Possible(Run(actions), a) then Apply(Run(actions), a) else Run(actions)
  {
    hide Possible, Apply;
    assert (actions + [a])[..|actions|] == actions;
  }

  /** A call that ends is remembered while the service is on: a verdict for the time to live that was configured when the
      call began, a failure for 5 seconds, in one slot, and nothing for no time at all. */
  ghost predicate Noted(s: State, s': State, c: Call, r: Return) {
    var ttl := if r.result.verdict == Unavailable then 5 else c.ttl;
    && s'.history == s.history + [r] && r.host == c.asked
    && if s.g.enabled && ttl != 0 then
         && s'.puts == s.puts + {Put(c.host, r.result.verdict, r.at, ttl)}
         && Lands(s.g.cache, s'.g.cache, Used(c.host, r.result.verdict, r.at + ttl, s.g.tick + 1))
       else s'.puts == s.puts && s'.g.cache == s.g.cache
  }

  lemma OutcomeIsRemembered(actions: seq<Action>, id: nat, now: int) returns (r: Return)
    requires Possible(Run(actions), NoteOutcome(id, now))
    ensures r.id == Some(id) && r.at == now
    ensures Noted(Run(actions), Run(actions + [NoteOutcome(id, now)]), Run(actions).calls[id], r)
    ensures Run(actions + [NoteOutcome(id, now)]).g.enabled == Run(actions).g.enabled
  {
    hide Run, Noted, Inv, Finish;
    RunMore(actions, NoteOutcome(id, now));
    RunInv(actions);
    r := FinishNotes(Run(actions), id, now);
  }

  lemma FinishNotes(s: State, id: nat, now: int) returns (r: Return)
    requires Inv(s) && Possible(s, NoteOutcome(id, now))
    ensures r.id == Some(id) && r.at == now
    ensures Noted(s, Finish(s, id, now), s.calls[id], r) && Finish(s, id, now).g.enabled == s.g.enabled
  {
    hide Inv, PutVerdict, Tally, Outcome, Lands;
    var c := s.calls[id];
    var o := Outcome(c.caller.finished, c.caller.answer, c.ttl);
    r := Return(Some(id), c.asked, o.result, now);
    OutcomeTime(c.caller.finished, c.caller.answer, c.ttl);
    CacheThere(s);
    PutLands(s.g.cache, s.g.tick + 1, c.host, o.result.verdict, now + o.ttl);
  }

  lemma OutcomeTime(finished: bool, code: int, ttl: nat)
    ensures var o := Outcome(finished, code, ttl); o.ttl == if o.result.verdict == Unavailable then 5 else ttl
  {
  }

  /** The slot is written in one place, which is then the only one with its host, and the others stay. */
  ghost predicate Lands(c: seq<Slot>, c': seq<Slot>, slot: Slot)
    requires slot.Used?
  {
    exists k :: 0 <= k < |c| == |c'| && c'[k] == slot && forall i :: 0 <= i < |c| && i != k ==> c'[i] == c[i] && !Holds(c[i], slot.host)
  }

  lemma PutLands(c: seq<Slot>, tick: nat, host: string, v: Verdict, expires: int)
    requires c != [] && UniqueHosts(c)
    ensures Lands(c, PutVerdict(c, tick, host, v, expires), Used(host, v, expires, tick))
  {
    hide Target;
    var k, c' := TargetOf(c, host), PutVerdict(c, tick, host, v, expires);
    PutKeepsUnique(c, tick, host, v, expires);
    assert c'[k] == Used(host, v, expires, tick);
    forall i | 0 <= i < |c| && i != k ensures c'[i] == c[i] && !Holds(c[i], host) {
      assert i < k ==> c'[i].Used? && c'[k].Used? ==> c'[i].host != c'[k].host;
    }
  }

  lemma CacheThere(s: State)
    requires Inv(s)
    ensures s.g.cache != [] && UniqueHosts(s.g.cache)
  {
  }

  /** A slot holds this verdict for the host, and has not expired. */
  ghost predicate Fresh(cache: seq<Slot>, host: string, v: Verdict, now: int) {
    exists k :: 0 <= k < |cache| && Holds(cache[k], host) && cache[k].verdict == v && now < cache[k].expires
  }

  /** What the first critical section answers, and when it goes on to ask the provider. */
  lemma CheckIsExact(actions: seq<Action>, host: Option<string>, now: int)
    ensures var s, s' := Run(actions), Run(actions + [Check(host, now)]);
            var known := if Normalise(host).Some? then Normalise(host).value else "";
            if !s.g.enabled then Answers(s, s', host, Result(Unavailable, Error), now)
            else if Normalise(host).None? then Answers(s, s', host, Result(Unavailable, BadInput), now)
            else if exists v :: Fresh(s.g.cache, known, v, now) then
              && (forall v :: Fresh(s.g.cache, known, v, now) ==> Answers(s, s', host, Result(v, Cache), now))
              && Touches(s.g, s'.g, known)
            else if |Holders(s.calls)| == 16 then Answers(s, s', host, Result(Unavailable, Saturated), now)
            else
              && s'.history == s.history && s'.next == s.next + 1
              && s'.calls == s.calls[s.next := Call(host, known, s.g.provider, s.g.ttl, s.epoch, Reserved, NoJob, NoHelper)]
  {
    hide Run, Inv, Normalise, Holders;
    RunMore(actions, Check(host, now));
    RunInv(actions);
    var s := Run(actions);
    InflightIsExact(actions);
    if s.g.enabled && Normalise(host).Some? {
      FoundIsFresh(s, Normalise(host).value, now);
    }
  }

  /** The host's slot becomes the most recently used. */
  ghost predicate Touches(g: Shared, g': Shared, host: string) {
    && g'.tick == g.tick + 1
    && exists k :: 0 <= k < |g.cache| && Holds(g.cache[k], host) && g'.cache == g.cache[k := g.cache[k].(lastUsed := g'.tick)]
  }

  ghost predicate Answers(s: State, s': State, host: Option<string>, r: Result, now: int) {
    s'.history == s.history + [Return(None, host, r, now)] && s'.calls == s.calls && s'.puts == s.puts
  }

  lemma FoundIsFresh(s: State, host: string, now: int)
    requires Inv(s)
    ensures var k := FindHost(s.g.cache, host);
            if k < |s.g.cache| && s.g.cache[k].expires > now
            then forall v :: Fresh(s.g.cache, host, v, now) <==> v == s.g.cache[k].verdict
            else forall v :: !Fresh(s.g.cache, host, v, now)
  {
    hide CallsOk, PlacesOk, StatsOk, ProvenanceOk;
    var c, k := s.g.cache, FindHost(s.g.cache, host);
    assert UniqueHosts(c);
    forall i | 0 <= i < |c| && Holds(c[i], host) ensures i == k {
      assert k <= i && Holds(c[k], host);
    }
  }

  /** What is remembered is given to whoever asks next for that host, until it expires. */
  lemma RememberedIsServed(actions: seq<Action>, id: nat, now: int, host: Option<string>, later: int) returns (r: Return)
    requires Possible(Run(actions), NoteOutcome(id, now)) && Run(actions).g.enabled
    requires Normalise(host) == Some(Run(actions).calls[id].host)
    ensures r.id == Some(id) && r.at == now && r.host == Run(actions).calls[id].asked
    ensures later < now + (if r.result.verdict == Unavailable then 5 else Run(actions).calls[id].ttl) && now <= later ==>
              Run(actions + [NoteOutcome(id, now)] + [Check(host, later)]).history ==
              Run(actions).history + [r] + [Return(None, host, Result(r.result.verdict, Cache), later)]
  {
    hide Run, Inv, Normalise, Holders, Holds;
    r := OutcomeIsRemembered(actions, id, now);
    var s, s' := Run(actions), Run(actions + [NoteOutcome(id, now)]);
    CheckIsExact(actions + [NoteOutcome(id, now)], host, later);
    var v, c := r.result.verdict, s.calls[id];
    var ttl := if v == Unavailable then 5 else c.ttl;
    if now <= later < now + ttl {
      LandedIsFresh(s.g.cache, s'.g.cache, c.host, v, now + ttl, s.g.tick + 1, later);
    }
  }

  lemma LandedIsFresh(c: seq<Slot>, c': seq<Slot>, host: string, v: Verdict, expires: int, tick: nat, now: int)
    requires Lands(c, c', Used(host, v, expires, tick)) && now < expires
    ensures Fresh(c', host, v, now)
  {
  }

  // ---------- the statistics are counts ----------

  datatype Kind = Because(reason: Reason) | Judged(verdict: Verdict)

  /** Results of this kind; verdicts other than "unavailable" are counted when a provider gave them. */
  predicate IsKind(r: Result, k: Kind) {
    match k
    case Because(reason) => r.reason == reason
    case Judged(v) => r.verdict == v && (v == Unavailable || r.reason == Ok)
  }

  ghost function Many(h: seq<Return>, k: Kind): nat {
    if h == [] then 0 else Many(h[..|h| - 1], k) + if IsKind(h[|h| - 1].result, k) then 1 else 0
  }

  ghost function CallsOf(calls: map<nat, Call>, epoch: nat): set<nat> { set id | id in calls && calls[id].epoch == epoch }

  ghost predicate Counted(st: Stats, h: seq<Return>) {
    && st.cacheHits == Many(h, Because(Cache)) && st.timeouts == Many(h, Because(Timeout)) && st.errors == Many(h, Because(Error))
    && st.saturated == Many(h, Because(Saturated)) && st.rejectedInput == Many(h, Because(BadInput))
    && st.safe == Many(h, Judged(Safe)) && st.suspicious == Many(h, Judged(Suspicious))
    && st.malicious == Many(h, Judged(Malicious)) && st.unavailable == Many(h, Judged(Unavailable))
  }

  ghost predicate CountsOk(s: State) {
    && s.since <= |s.history| && Counted(s.g.stats, s.history[s.since..])
    && s.g.stats.providerCalls == |CallsOf(s.calls, s.epoch)|
  }

  lemma OneMoreResult(s: State, r: Return)
    requires s.since <= |s.history|
    ensures forall k :: Many((s.history + [r])[s.since..], k) == Many(s.history[s.since..], k) + if IsKind(r.result, k) then 1 else 0
  {
    var h := s.history[s.since..];
    assert (s.history + [r])[s.since..] == h + [r] && (h + [r])[..|h|] == h;
  }

  lemma SameCalls(calls: map<nat, Call>, id: nat, c: Call, epoch: nat)
    requires id in calls && c.epoch == calls[id].epoch
    ensures CallsOf(calls[id := c], epoch) == CallsOf(calls, epoch)
  {
  }

  lemma ReturnCounts(s: State, s': State, id: nat, r: Return)
    requires CountsOk(s) && id in s.calls && s'.calls == s.calls[id := s.calls[id].(caller := Returned(r.result))]
    requires s'.history == s.history + [r] && s'.since == s.since && s'.epoch == s.epoch && s'.g.stats == Tally(s.g.stats, r.result)
    requires if r.result.verdict == Unavailable then r.result.reason == Timeout || r.result.reason == Error else r.result.reason == Ok
    ensures CountsOk(s')
  {
    hide Many;
    OneMoreResult(s, r);
    SameCalls(s.calls, id, s'.calls[id], s.epoch);
  }

  lemma CheckCounts(s: State, host: Option<string>, now: int)
    requires Inv(s) && CountsOk(s)
    ensures CountsOk(CheckHost(s, host, now))
  {
    hide Inv, Normalise, CountsOk;
    if !s.g.enabled {
      RefusalCounts(s, host, Error, now);
    } else if Normalise(host).None? {
      RefusalCounts(s, host, BadInput, now);
    } else {
      var norm := Normalise(host).value;
      var k := FindHost(s.g.cache, norm);
      if k < |s.g.cache| && s.g.cache[k].expires > now {
        HitCounts(s, host, k, now);
      } else if s.g.inflight >= MAX_INFLIGHT {
        RefusalCounts(s, host, Saturated, now);
      } else {
        ReserveCounts(s, host, norm);
      }
    }
  }

  lemma RefusalCounts(s: State, host: Option<string>, reason: Reason, now: int)
    requires CountsOk(s) && reason in {Error, BadInput, Saturated}
    ensures CountsOk(AfterRefusal(s, host, reason, now))
  {
    hide Many;
    OneMoreResult(s, Return(None, host, Result(Unavailable, reason), now));
  }

  lemma HitCounts(s: State, host: Option<string>, k: nat, now: int)
    requires CountsOk(s) && k < |s.g.cache| && s.g.cache[k].Used?
    ensures CountsOk(AfterHit(s, host, k, now))
  {
    hide Many;
    OneMoreResult(s, Return(None, host, Result(s.g.cache[k].verdict, Cache), now));
  }

  lemma ReserveCounts(s: State, host: Option<string>, norm: string)
    requires Inv(s) && CountsOk(s)
    ensures CountsOk(AfterReserve(s, host, norm))
  {
    hide Many, Inv, CallsOf, AllTold, Normalise;
    var s' := AfterReserve(s, host, norm);
    NextIsFree(s);
    OneMoreCall(s.calls, s.next, s'.calls[s.next]);
  }

  lemma NextIsFree(s: State)
    requires Inv(s)
    ensures s.next !in s.calls
  {
    hide StatsOk, ProvenanceOk, SharedOk, PlacesOk, CallOk;
  }

  lemma OneMoreCall(calls: map<nat, Call>, id: nat, c: Call)
    requires id !in calls
    ensures |CallsOf(calls[id := c], c.epoch)| == |CallsOf(calls, c.epoch)| + 1
  {
    assert CallsOf(calls[id := c], c.epoch) == CallsOf(calls, c.epoch) + {id};
  }

  lemma ActionCounts(s: State, a: Action)
    requires Inv(s) && CountsOk(s) && Possible(s, a)
    ensures CountsOk(Apply(s, a))
  {
    hide Inv, Move, Enabled, Faulty, Outcome, Tally, PutVerdict, CountsOk, CheckHost;
    match a
    case Init(_, _) => FreshCounts(s, Apply(s, a));
    case Shutdown => SameCounts(s, Apply(s, a));
    case Check(host, now) => CheckCounts(s, host, now);
    case Local(id, step) =>
      TakeApart(s, id);
      MoveIsSafe(s.calls[id], step);
      SameCalls(s.calls, id, Move(s.calls[id], step), s.epoch);
      SameCounts(s, Apply(s, a));
    case GiveBack(id) =>
      SameCalls(s.calls, id, s.calls[id].(helper := PlaceReturned), s.epoch);
      SameCounts(s, Apply(s, a));
    case NoteFailure(id) => ReturnCounts(s, Apply(s, a), id, Return(Some(id), s.calls[id].asked, Result(Unavailable, Error), 0));
    case NoteOutcome(id, now) =>
      var c := s.calls[id];
      TakeApart(s, id);
      FinishedCallOk(c, id, s.answers);
      ReturnCounts(s, Apply(s, a), id, Return(Some(id), c.asked, Outcome(c.caller.finished, c.caller.answer, c.ttl).result, now));
  }

  lemma SameCounts(s: State, s': State)
    requires CountsOk(s) && s'.history == s.history && s'.since == s.since && s'.g.stats == s.g.stats
    requires CallsOf(s'.calls, s'.epoch) == CallsOf(s.calls, s.epoch)
    ensures CountsOk(s')
  {
  }

  lemma FreshCounts(s: State, s': State)
    requires Inv(s) && s'.history == s.history && s'.since == |s.history| && s'.g.stats == ZERO
    requires s'.calls == s.calls && s'.epoch == s.epoch + 1
    ensures CountsOk(s')
  {
    hide StatsOk, ProvenanceOk, SharedOk, PlacesOk, CallOk;
    assert s'.history[s'.since..] == [];
    assert CallsOf(s'.calls, s'.epoch) == {};
  }

  lemma {:induction false} RunCounts(actions: seq<Action>)
    ensures CountsOk(Run(actions))
  {
    hide Inv, Possible, Apply, CountsOk;
    if actions == [] {
      NothingCounted();
    } else {
      var n := |actions| - 1;
      RunCounts(actions[..n]);
      RunInv(actions[..n]);
      if Possible(Run(actions[..n]), actions[n]) { ActionCounts(Run(actions[..n]), actions[n]); }
    }
  }

  lemma NothingCounted()
    ensures CountsOk(START)
  {
    assert CallsOf(START.calls, START.epoch) == {};
  }

  /** In every interleaving each statistic is the number of results of its kind handed back since the last init, and the
      provider calls are the calls begun since then. */
  lemma StatisticsCount(actions: seq<Action>)
    ensures var s := Run(actions);
            && s.since <= |s.history| && Counted(s.g.stats, s.history[s.since..])
            && s.g.stats.providerCalls == |CallsOf(s.calls, s.epoch)|
  {
    RunCounts(actions);
  }
}
