/** src/proxy.c: all plain HTTP requests of a proxy together with its cache, as a state machine. Each step is
    one critical section of the cache or one event of a worker thread; a run is any interleaving. */
module ProxyRuns {
  import opened Text
  import opened RequestParser
  import opened CacheKey
  import opened LruSpec
  import CacheRuns
  import Eligibility

  /** Where a worker is with its request. */
  datatype Worker =
    | Admitted(url: Url)                 // parsed, destination allowed
    | Missed(url: Url)                   // looked up without success; a copy will be kept
    | Fetching(url: Url, wanted: bool, whole: string, got: string)
                                         // connected to an origin that sends `whole`, of which `got` was relayed
    | Copied(url: Url, bytes: string)    // relayed a complete response and kept a copy

  /** The bytes of a response for a URL. */
  datatype Relay = Relay(url: Url, bytes: string)

  /** A response served from memory, after so many relays and cache operations. */
  datatype Hit = Hit(url: Url, data: string, now: int, relays: nat, ops: nat)

  /** `ops` is the history of the cache; `responses` is what each origin sends on its connection, all of it;
      `relays` and `hits` are what clients were sent. */
  datatype System = System(workers: map<nat, Worker>, ops: seq<CacheRuns.Op>, responses: seq<Relay>,
                           relays: seq<Relay>, hits: seq<Hit>)

  const START := System(map[], [], [], [], [])

  datatype Step =
    | Admit(w: nat, url: Url)
    | Look(w: nat, now: int, copied: bool)
    | Open(w: nat, whole: string)
    | Chunk(w: nat, chunk: string)
    | Deliver(w: nat, kept: bool)
    | Keep(w: nat, ttl: nat, now: int, copied: bool)
    | Leave(w: nat)
    | Administer(op: CacheRuns.Op)

  predicate Plain(u: Url) { '?' !in u.path }

  /** The origin has closed after a response that was relayed to its end. */
  predicate Complete(x: Worker)
    requires x.Fetching?
  {
    x.got == x.whole != ""
  }

  /** The guard of each step. */
  ghost predicate Can(s: System, step: Step) {
    match step
    case Admit(w, url) => w !in s.workers && IsParsed(url)
    case Look(w, _, _) => w in s.workers && s.workers[w].Admitted? && Plain(s.workers[w].url)
    case Open(w, _) => w in s.workers && (s.workers[w].Admitted? || s.workers[w].Missed?)
    case Chunk(w, chunk) => w in s.workers && s.workers[w].Fetching? && s.workers[w].got + chunk <= s.workers[w].whole
    case Deliver(w, kept) => w in s.workers && s.workers[w].Fetching? && Complete(s.workers[w]) && (kept ==> s.workers[w].wanted)
    case Keep(w, ttl, _, _) => w in s.workers && s.workers[w].Copied? && Eligibility.Judges(s.workers[w].bytes, Eligibility.Yes(ttl))
    case Leave(w) => w in s.workers
    case Administer(op) => op.Init? || op.Destroy?
  }

  /** The cache operation of a step, if it has one. */
  function OpOf(s: System, step: Step): Option<CacheRuns.Op> {
    match step
    case Look(w, now, copied) =>
      if w in s.workers then Some(CacheRuns.Lookup(KeyOf(s.workers[w].url), now, copied)) else None
    case Keep(w, ttl, now, copied) =>
      if w in s.workers && s.workers[w].Copied?
      then Some(CacheRuns.Store(KeyOf(s.workers[w].url), s.workers[w].bytes, ttl, now, copied)) else None
    case Administer(op) => Some(op)
    case _ => None
  }

  function Cached(s: System, u: Url, now: int, copied: bool): Option<string> {
    CacheRuns.Answer(CacheRuns.Run(CacheRuns.Off, s.ops), KeyOf(u), now, copied)
  }

  ghost function Do(s: System, step: Step): System
    requires Can(s, step)
  {
    var ops := match OpOf(s, step) case Some(op) => s.ops + [op] case None => s.ops;
    match step
    case Admit(w, url) => s.(workers := s.workers[w := Admitted(url)])
    case Look(w, now, copied) =>
      var u := s.workers[w].url;
      (match Cached(s, u, now, copied)
       case Some(data) => s.(workers := s.workers - {w}, ops := ops, hits := s.hits + [Hit(u, data, now, |s.relays|, |s.ops|)])
       case None => s.(workers := s.workers[w := Missed(u)], ops := ops))
    case Open(w, whole) =>
      var x := s.workers[w];
      s.(workers := s.workers[w := Fetching(x.url, x.Missed?, whole, "")], responses := s.responses + [Relay(x.url, whole)])
    case Chunk(w, chunk) =>
      s.(workers := s.workers[w := s.workers[w].(got := s.workers[w].got + chunk)])
    case Deliver(w, kept) =>
      var x := s.workers[w];
      s.(workers := if kept then s.workers[w := Copied(x.url, x.got)] else s.workers - {w}, relays := s.relays + [Relay(x.url, x.got)])
    case Keep(w, _, _, _) => s.(workers := s.workers - {w}, ops := ops)
    case Leave(w) => s.(workers := s.workers - {w})
    case Administer(_) => s.(ops := ops)
  }

  /** `steps` is a run from `s` to `t`. */
  ghost predicate Runs(s: System, steps: seq<Step>, t: System)
    decreases |steps|
  {
    if steps == [] then s == t else Can(s, steps[0]) && Runs(Do(s, steps[0]), steps[1..], t)
  }

  lemma {:induction false} RunsAppend(s: System, a: seq<Step>, t: System, step: Step)
    requires Runs(s, a, t) && Can(t, step)
    ensures Runs(s, a + [step], Do(t, step))
    decreases |a|
  {
    hide Can, Do;
    if a == [] {
      assert [step][1..] == [] && ([] + [step]) == [step];
    } else {
      assert (a + [step])[0] == a[0] && (a + [step])[1..] == a[1..] + [step];
      RunsAppend(Do(s, a[0]), a[1..], t, step);
    }
  }

  // ---------- what every run keeps ----------

  /** A store of a complete response that a client was sent, under its own key, with its own lifetime. */
  ghost predicate Backs(r: Relay, op: CacheRuns.Op) {
    && op.Store? && op.key == KeyOf(r.url) && op.data == r.bytes && IsParsed(r.url) && Plain(r.url)
    && Eligibility.Judges(op.data, Eligibility.Yes(op.ttl))
  }

  ghost predicate Backed(op: CacheRuns.Op, relays: seq<Relay>) { op.Store? ==> exists r :: r in relays && Backs(r, op) }

  ghost predicate AllBacked(s: System) { forall i :: 0 <= i < |s.ops| ==> Backed(s.ops[i], s.relays) }

  ghost predicate Sound(x: Worker, s: System) {
    && IsParsed(x.url)
    && (x.Missed? || x.Copied? || (x.Fetching? && x.wanted) ==> Plain(x.url))
    && (x.Fetching? ==> Relay(x.url, x.whole) in s.responses)
    && (x.Copied? ==> Relay(x.url, x.bytes) in s.relays)
  }

  ghost predicate AllSound(s: System) { forall w :: w in s.workers ==> Sound(s.workers[w], s) }

  /** Everything relayed to its end is the whole of what an origin sent. */
  ghost predicate AllWhole(s: System) { forall r :: r in s.relays ==> r in s.responses && r.bytes != "" }

  /** Stored from these bytes, and `now` is still within the lifetime that they were judged to have. */
  ghost predicate FreshStore(op: CacheRuns.Op, h: Hit) {
    && op.Store? && op.key == KeyOf(h.url) && op.data == h.data
    && Eligibility.Judges(op.data, Eligibility.Yes(op.ttl)) && 0 < op.ttl <= MAX_TTL && h.now < op.now + op.ttl
  }

  /** The bytes of a hit are all that an origin sent for the same URL, were relayed to their end before the hit, are
      cacheable, and were stored before the hit and no longer ago than their own lifetime. */
  ghost predicate Proven(h: Hit, s: System) {
    && Relay(h.url, h.data) in s.responses && Plain(h.url)
    && h.relays <= |s.relays| && Relay(h.url, h.data) in s.relays[..h.relays]
    && (exists n: nat :: Eligibility.Cacheable(h.data, n))
    && h.ops <= |s.ops| && (exists i :: 0 <= i < h.ops && FreshStore(s.ops[i], h))
  }

  ghost predicate Inv(s: System) {
    AllBacked(s) && AllSound(s) && AllWhole(s) && forall i :: 0 <= i < |s.hits| ==> Proven(s.hits[i], s)
  }

  ghost predicate Grows(s: System, t: System) { s.ops <= t.ops && s.responses <= t.responses && s.relays <= t.relays }

  lemma BackedGrows(op: CacheRuns.Op, a: seq<Relay>, b: seq<Relay>)
    requires Backed(op, a) && a <= b
    ensures Backed(op, b)
  {
  }

  lemma ProvenGrows(h: Hit, s: System, t: System)
    requires Proven(h, s) && Grows(s, t)
    ensures Proven(h, t)
  {
    hide FreshStore;
    var i :| 0 <= i < h.ops && FreshStore(s.ops[i], h);
    assert t.ops[i] == s.ops[i];
    assert t.relays[..h.relays] == s.relays[..h.relays];
  }

  /** A hit is proven when it happens. */
  lemma HitIsProven(s: System, u: Url, now: int, copied: bool)
    requires AllBacked(s) && AllWhole(s) && IsParsed(u) && Plain(u) && Cached(s, u, now, copied).Some?
    ensures Proven(Hit(u, Cached(s, u, now, copied).value, now, |s.relays|, |s.ops|), s)
  {
    hide IsParsed, KeyOf, CacheRuns.Run, Eligibility.Judges, Eligibility.Cacheable;
    var key := KeyOf(u);
    var i := LastStoreAnswers(s.ops, key, now, copied);
    assert Backed(s.ops[i], s.relays);
    var r :| r in s.relays && Backs(r, s.ops[i]);
    KeyFitsAndIsInjective(u, r.url);
    Eligibility.VerdictIsExact(r.bytes, Eligibility.Yes(s.ops[i].ttl));
    assert s.relays[..|s.relays|] == s.relays;
    assert FreshStore(s.ops[i], Hit(u, r.bytes, now, |s.relays|, |s.ops|));
  }

  lemma LastStoreAnswers(ops: seq<CacheRuns.Op>, key: string, now: int, copied: bool) returns (i: nat)
    requires CacheRuns.Answer(CacheRuns.Run(CacheRuns.Off, ops), key, now, copied).Some?
    ensures i < |ops| && ops[i].Store? && ops[i].key == key && now < Expiry(ops[i].now, ops[i].ttl)
    ensures CacheRuns.Answer(CacheRuns.Run(CacheRuns.Off, ops), key, now, copied) == Some(ops[i].data)
  {
    hide CacheRuns.Run, CacheRuns.LastStore;
    var m := CacheRuns.Run(CacheRuns.Off, ops);
    GetIsMember(m.lru, key);
    CacheRuns.LiveIsLastStore(ops, Get(m.lru, key).value);
    i := CacheRuns.LastStore(ops, key).value;
  }

  lemma DoGrows(s: System, step: Step)
    requires Can(s, step)
    ensures Grows(s, Do(s, step))
  {
    hide Cached, KeyOf, IsParsed, Eligibility.Judges;
  }

  /** Every step keeps the cache filled from relayed responses only. */
  lemma StepKeepsBacked(s: System, step: Step)
    requires Can(s, step) && AllBacked(s) && AllSound(s)
    ensures AllBacked(Do(s, step))
  {
    hide Cached, KeyOf, IsParsed, Eligibility.Judges, Plain;
    var t := Do(s, step);
    DoGrows(s, step);
    forall i | 0 <= i < |t.ops| ensures Backed(t.ops[i], t.relays) {
      if i < |s.ops| {
        assert t.ops[i] == s.ops[i];
        BackedGrows(s.ops[i], s.relays, t.relays);
      } else if step.Keep? {
        var x := s.workers[step.w];
        assert Sound(x, s) && Backs(Relay(x.url, x.bytes), t.ops[i]);
      }
    }
  }

  lemma StepKeepsSound(s: System, step: Step)
    requires Can(s, step) && AllSound(s)
    ensures AllSound(Do(s, step))
  {
    hide Cached, KeyOf, IsParsed, Eligibility.Judges, Plain;
    var t := Do(s, step);
    DoGrows(s, step);
    forall w | w in t.workers ensures Sound(t.workers[w], t) {
      if w in s.workers { assert Sound(s.workers[w], s); }
    }
  }

  /** Only what an origin sent to its end is ever delivered. */
  lemma StepKeepsWhole(s: System, step: Step)
    requires Can(s, step) && AllSound(s) && AllWhole(s)
    ensures AllWhole(Do(s, step))
  {
    hide Cached, KeyOf, IsParsed, Eligibility.Judges, Plain;
    var t := Do(s, step);
    DoGrows(s, step);
    if step.Deliver? { assert Sound(s.workers[step.w], s); }
    forall r | r in t.relays ensures r in t.responses && r.bytes != "" {
      assert r in s.relays || step.Deliver?;
    }
  }

  lemma StepKeepsInv(s: System, step: Step)
    requires Can(s, step) && Inv(s)
    ensures Inv(Do(s, step))
  {
    hide Cached, AllBacked, AllSound, AllWhole, Proven, Sound, KeyOf, IsParsed, Eligibility.Judges;
    var t := Do(s, step);
    DoGrows(s, step);
    StepKeepsBacked(s, step);
    StepKeepsSound(s, step);
    StepKeepsWhole(s, step);
    forall i | 0 <= i < |t.hits| ensures Proven(t.hits[i], t) {
      if i < |s.hits| {
        assert t.hits[i] == s.hits[i];
        ProvenGrows(s.hits[i], s, t);
      } else {
        SoundAdmitted(s, step.w);
        HitIsProven(s, s.workers[step.w].url, step.now, step.copied);
        ProvenGrows(t.hits[i], s, t);
      }
    }
  }

  lemma SoundAdmitted(s: System, w: nat)
    requires AllSound(s) && w in s.workers
    ensures IsParsed(s.workers[w].url)
  {
    assert Sound(s.workers[w], s);
  }

  lemma {:induction false} RunKeepsInv(s: System, steps: seq<Step>, t: System)
    requires Inv(s) && Runs(s, steps, t)
    ensures Inv(t)
    decreases |steps|
  {
    hide Inv, Can, Do;
    if steps != [] {
      StepKeepsInv(s, steps[0]);
      RunKeepsInv(Do(s, steps[0]), steps[1..], t);
    }
  }

  /** In every run of any number of concurrent requests, whatever a client is served from memory is byte for
      byte all that an origin sent for the same host, port and path without query, was relayed to its end before,
      meets the rules for caching, and was stored before and no longer ago than its own lifetime. */
  lemma HitProvenance(steps: seq<Step>, t: System, h: Hit)
    requires Runs(START, steps, t) && h in t.hits
    ensures Proven(h, t)
  {
    hide Runs, Proven;
    RunKeepsInv(START, steps, t);
  }

  // ---------- a worker among others ----------

  predicate IsOf(step: Step, w: nat) { !step.Administer? && step.w == w }

  /** `others` is a run from `s` without steps of worker `w`; `ops` are its cache operations. */
  ghost predicate Meanwhile(s: System, w: nat, others: seq<Step>, ops: seq<CacheRuns.Op>)
    decreases |others|
  {
    if others == [] then ops == [] else
    && Can(s, others[0]) && !IsOf(others[0], w)
    && match OpOf(s, others[0])
       case None => Meanwhile(Do(s, others[0]), w, others[1..], ops)
       case Some(op) => ops != [] && ops[0] == op && Meanwhile(Do(s, others[0]), w, others[1..], ops[1..])
  }

  lemma DoOps(s: System, step: Step)
    requires Can(s, step)
    ensures Do(s, step).ops == match OpOf(s, step) case Some(op) => s.ops + [op] case None => s.ops
    ensures forall w :: w in s.workers && !IsOf(step, w) ==> w in Do(s, step).workers && Do(s, step).workers[w] == s.workers[w]
  {
    hide Cached, KeyOf, IsParsed, Eligibility.Judges, Plain;
  }

  /** Others leave a worker where it is. */
  lemma {:induction false} OthersLeave(s: System, w: nat, others: seq<Step>, ops: seq<CacheRuns.Op>) returns (t: System)
    requires Meanwhile(s, w, others, ops) && w in s.workers
    ensures Runs(s, others, t) && t.ops == s.ops + ops && w in t.workers && t.workers[w] == s.workers[w]
    decreases |others|
  {
    hide Can, Do, OpOf;
    if others == [] {
      t := s;
    } else {
      DoOps(s, others[0]);
      var next := Do(s, others[0]);
      if OpOf(s, others[0]).None? {
        t := OthersLeave(next, w, others[1..], ops);
      } else {
        t := OthersLeave(next, w, others[1..], ops[1..]);
        assert s.ops + [ops[0]] + ops[1..] == s.ops + ops;
      }
    }
  }

  lemma {:induction false} RunsConcat(s: System, a: seq<Step>, t: System, b: seq<Step>, u: System)
    requires Runs(s, a, t) && Runs(t, b, u)
    ensures Runs(s, a + b, u)
    decreases |a|
  {
    hide Can, Do;
    if a == [] {
      assert a + b == b;
    } else {
      assert (a + b)[0] == a[0] && (a + b)[1..] == a[1..] + b;
      RunsConcat(Do(s, a[0]), a[1..], t, b, u);
    }
  }
}
