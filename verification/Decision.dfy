/** src/decision.c: combining the signals gathered about a request. */
module Decision {
  import opened ReputationCache

  const RULE_SCORE := 100
  const THRESHOLD := 80

  datatype Signals = Signals(port: bool, policy: bool, network: bool, checked: bool, verdict: Verdict)

  const NO_SIGNALS := Signals(false, false, false, false, Unavailable)

  datatype Reason = NoReason | Port | Policy | Network | Reputation

  datatype Decision = Decision(block: bool, reason: Reason, score: nat)

  function VerdictScore(v: Verdict): nat {
    match v
    case Safe => 0
    case Suspicious => 50
    case Malicious => 90
    case Unavailable => 10
  }

  /** The score a reason contributes; 0 when its signal is absent. */
  function Contribution(s: Signals, r: Reason): nat {
    match r
    case NoReason => 0
    case Port => if s.port then RULE_SCORE else 0
    case Policy => if s.policy then RULE_SCORE else 0
    case Network => if s.network then RULE_SCORE else 0
    case Reputation => if s.checked then VerdictScore(s.verdict) else 0
  }

  function Rank(r: Reason): nat {
    match r case Port => 0 case Policy => 1 case Network => 2 case Reputation => 3 case NoReason => 4
  }

  /** The highest contribution decides; on a tie the reason that comes first is named. */
  ghost predicate Combines(s: Signals, d: Decision) {
    && (forall r :: Contribution(s, r) <= d.score)
    && (exists r :: Contribution(s, r) == d.score)
    && (d.block <==> d.score >= THRESHOLD)
    && (!d.block ==> d.reason == NoReason)
    && (d.block ==> Contribution(s, d.reason) == d.score && forall r :: Contribution(s, r) == d.score ==> Rank(d.reason) <= Rank(r))
  }

  method Evaluate(s: Signals) returns (d: Decision)
    ensures Combines(s, d)
    ensures d.block <==> s.port || s.policy || s.network || (s.checked && s.verdict == Malicious)
  {
    var order := [Port, Policy, Network, Reputation];
    var score, top := 0, NoReason;
    assert Contribution(s, NoReason) == 0;
    for i := 0 to 4
      invariant Contribution(s, top) == score
      invariant forall j :: 0 <= j < i ==> Contribution(s, order[j]) <= score
      invariant top == NoReason <==> score == 0
      invariant top != NoReason ==> Rank(top) < i && order[Rank(top)] == top
      invariant forall j :: 0 <= j < i && j < Rank(top) ==> Contribution(s, order[j]) < score || score == 0
    {
      if Contribution(s, order[i]) > score {
        score, top := Contribution(s, order[i]), order[i];
      }
    }
    assert order[0] == Port && order[1] == Policy && order[2] == Network && order[3] == Reputation;
    forall r ensures Contribution(s, r) <= score {
      if r != NoReason { assert order[Rank(r)] == r; }
    }
    forall r | score > 0 && Contribution(s, r) == score ensures Rank(top) <= Rank(r) {
      if r != NoReason { assert order[Rank(r)] == r; }
    }
    d := if score >= THRESHOLD then Decision(true, top, score) else Decision(false, NoReason, score);
  }

  /** The decision as a table: any rule blocks with a score of 100, in the order port, policy, network; a malicious verdict
      blocks with 90; a suspicious one scores 50, an unavailable one 10, and neither blocks. */
  lemma DecisionTable(s: Signals, d: Decision)
    requires Combines(s, d)
    ensures d == if s.port then Decision(true, Port, 100) else if s.policy then Decision(true, Policy, 100)
                 else if s.network then Decision(true, Network, 100)
                 else if s.checked && s.verdict == Malicious then Decision(true, Reputation, 90)
                 else Decision(false, NoReason, if !s.checked || s.verdict == Safe then 0 else if s.verdict == Suspicious then 50 else 10)
  {
    assert Contribution(s, Port) <= d.score && Contribution(s, Policy) <= d.score && Contribution(s, Network) <= d.score;
    assert Contribution(s, Reputation) <= d.score && Contribution(s, NoReason) <= d.score;
    var r :| Contribution(s, r) == d.score;
    if d.block {
      assert Contribution(s, Port) == d.score ==> Rank(d.reason) <= Rank(Port);
      assert Contribution(s, Policy) == d.score ==> Rank(d.reason) <= Rank(Policy);
      assert Contribution(s, Network) == d.score ==> Rank(d.reason) <= Rank(Network);
    }
  }

  /** Further signals never lower the score, and there is exactly one decision. */
  lemma MoreSignalsNeverHelp(s: Signals, d: Decision, t: Signals, e: Decision)
    requires Combines(s, d) && Combines(t, e)
    requires (s.port ==> t.port) && (s.policy ==> t.policy) && (s.network ==> t.network)
    requires s.checked ==> t.checked && t.verdict == s.verdict
    ensures d.score <= e.score && (d.block ==> e.block)
    ensures s == t ==> d == e
  {
    var r :| Contribution(s, r) == d.score;
    assert Contribution(s, r) <= Contribution(t, r) <= e.score;
    if s == t {
      var q :| Contribution(t, q) == e.score;
      assert e.score <= d.score;
      if d.block {
        assert Rank(d.reason) <= Rank(e.reason) <= Rank(d.reason);
      }
    }
  }
}
