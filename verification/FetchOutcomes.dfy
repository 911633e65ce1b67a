/** What a fetch attempt must report, said of the plan of sources alone. */
module FetchOutcomes {
  import opened Seqs
  import opened FetchChain

  /** A source that was asked and left the question open. */
  predicate LeavesOpen(t: Tried) {
    t.outcome == Lane404 || t.outcome == NetErr || t.outcome == StreamErr || t.outcome == Deadline
  }

  /** The `k`-th source is the first that settles the fetch: fetched, failed to verify, over quota, or failed here. */
  ghost predicate Settles(plan: seq<Tried>, k: nat) {
    && k < |plan|
    && (plan[k].outcome == Fetched || plan[k].outcome == Verify || plan[k].outcome == Quota || plan[k].outcome == Local)
    && forall i | 0 <= i < k :: LeavesOpen(plan[i])
  }

  ghost predicate SettledBy(plan: seq<Tried>, outcome: SourceOutcome) { exists k: nat :: Settles(plan, k) && plan[k].outcome == outcome }

  ghost predicate SettledAs(plan: seq<Tried>, t: Tried) { exists k: nat :: Settles(plan, k) && plan[k] == t }

  /** No source settles the fetch. */
  ghost predicate LeftOpen(plan: seq<Tried>) { forall i | 0 <= i < |plan| :: LeavesOpen(plan[i]) }

  ghost predicate SomeAnswer(plan: seq<Tried>, outcome: SourceOutcome) { exists i :: 0 <= i < |plan| && plan[i].outcome == outcome }

  /** A transfer failed under way, or could not be had from a node that claimed to hold the blob. */
  ghost predicate TransferFailed(plan: seq<Tried>) {
    exists i :: 0 <= i < |plan| && (plan[i].outcome == StreamErr || (plan[i].outcome == NetErr && plan[i].source.Holder?))
  }

  lemma TerminalOrOpen(t: Tried)
    ensures Terminal(t.outcome) <==> t.outcome == Fetched || t.outcome == Verify || t.outcome == Quota || t.outcome == Local
    ensures LeavesOpen(t) <==> !Terminal(t.outcome)
  {
  }

  /** The sources tried are the plan up to the one that settles it, or all of it. */
  lemma TriedExactly(plan: seq<Tried>, tried: seq<Tried>)
    requires CutAtTerminal(plan, tried)
    ensures forall k: nat | Settles(plan, k) :: tried == plan[..k + 1]
    ensures LeftOpen(plan) ==> tried == plan
    ensures LeftOpen(plan) || exists k: nat :: Settles(plan, k)
  {
    forall t: Tried ensures LeavesOpen(t) <==> !Terminal(t.outcome) { TerminalOrOpen(t); }
    hide Terminal, LeavesOpen;
    if tried != [] && Terminal(tried[|tried| - 1].outcome) {
      var last := |tried| - 1;
      assert tried[last] == plan[last];
      TerminalOrOpen(plan[last]);
      assert forall i | 0 <= i < last :: plan[i] == tried[i];
      assert Settles(plan, last);
      OnlyOneSettles(plan, last);
      assert plan[..last + 1] == tried;
    } else {
      assert forall i | 0 <= i < |plan| :: LeavesOpen(plan[i]);
      forall k: nat ensures !Settles(plan, k) { if k < |plan| { TerminalOrOpen(plan[k]); } }
    }
  }

  lemma OnlyOneSettles(plan: seq<Tried>, k: nat)
    requires Settles(plan, k)
    ensures forall j: nat | Settles(plan, j) :: j == k
    ensures !LeftOpen(plan)
  {
    TerminalOrOpen(plan[k]);
    forall j: nat | Settles(plan, j) ensures j == k {
      TerminalOrOpen(plan[j]);
    }
  }

  /** The attempt that a plan must end in. */
  ghost predicate Reports(plan: seq<Tried>, saidNo: bool, attempt: Attempt) {
    && (forall n :: attempt == Succeeded(Some(n)) <==>
        SettledAs(plan, Tried(Origin(n), Fetched)) || SettledAs(plan, Tried(Holder(n), Fetched)))
    && attempt != Succeeded(None)
    && (attempt == Failed(VerifyFailed, Stopped) <==> SettledBy(plan, Verify))
    && (attempt == Failed(OverQuota, Stopped) <==> SettledBy(plan, Quota))
    && (attempt == Failed(Io, Stopped) <==> SettledBy(plan, Local))
    && (attempt == Failed(Io, HolderFailed) <==> LeftOpen(plan) && TransferFailed(plan))
    && (attempt == Failed(OriginUnreachable, TooSlow) <==> LeftOpen(plan) && !TransferFailed(plan) && SomeAnswer(plan, Deadline))
    && (attempt == Failed(NotFoundAnywhere, NobodyHas) <==>
        LeftOpen(plan) && !TransferFailed(plan) && !SomeAnswer(plan, Deadline) && (saidNo || SomeAnswer(plan, Lane404)))
    && (attempt == Failed(OriginUnreachable, NobodyReachable) <==>
        LeftOpen(plan) && !TransferFailed(plan) && !SomeAnswer(plan, Deadline) && !saidNo && !SomeAnswer(plan, Lane404))
  }

  lemma SettledReports(plan: seq<Tried>, saidNo: bool, k: nat)
    requires Settles(plan, k)
    ensures Terminal(plan[k].outcome) && Reports(plan, saidNo, TerminalAttempt(plan[k]))
  {
    TerminalOrOpen(plan[k]);
    OnlyOneSettles(plan, k);
    hide Settles, LeftOpen;
    assert forall o :: SettledBy(plan, o) <==> plan[k].outcome == o;
    assert forall t :: SettledAs(plan, t) <==> plan[k] == t;
    hide SettledBy, SettledAs;
    var t := plan[k];
    assert t == Tried(Origin(t.source.node), t.outcome) || t == Tried(Holder(t.source.node), t.outcome);
  }

  lemma OpenReports(plan: seq<Tried>, saidNo: bool)
    requires LeftOpen(plan)
    ensures Reports(plan, saidNo, Exhausted(plan, saidNo))
  {
    forall k: nat ensures !Settles(plan, k) { if k < |plan| { assert LeavesOpen(plan[k]); } }
    assert forall o :: !SettledBy(plan, o);
    assert forall t :: !SettledAs(plan, t);
    AnswersByIndex(plan);
    hide SettledBy, SettledAs, LeftOpen, TransferFailed, SomeAnswer, FailedHolder;
  }

  lemma AnswersByIndex(plan: seq<Tried>)
    ensures TransferFailed(plan) <==> exists t | t in plan :: FailedHolder(t)
    ensures SomeAnswer(plan, Deadline) <==> exists t | t in plan :: t.outcome == Deadline
    ensures SomeAnswer(plan, Lane404) <==> exists t | t in plan :: t.outcome == Lane404
  {
    if TransferFailed(plan) {
      var i :| 0 <= i < |plan| && (plan[i].outcome == StreamErr || (plan[i].outcome == NetErr && plan[i].source.Holder?));
      assert plan[i] in plan && FailedHolder(plan[i]);
    }
    if SomeAnswer(plan, Deadline) {
      var i :| 0 <= i < |plan| && plan[i].outcome == Deadline;
      assert plan[i] in plan;
    }
    if SomeAnswer(plan, Lane404) {
      var i :| 0 <= i < |plan| && plan[i].outcome == Lane404;
      assert plan[i] in plan;
    }
  }

  /** Whatever the chain amounts to is what the plan demands: each outcome iff its own condition on the plan. */
  lemma AttemptExactly(plan: seq<Tried>, tried: seq<Tried>, saidNo: bool, attempt: Attempt)
    requires CutAtTerminal(plan, tried) && Amounts(tried, saidNo, attempt)
    ensures Reports(plan, saidNo, attempt)
  {
    TriedExactly(plan, tried);
    hide CutAtTerminal, Reports, TerminalAttempt, Exhausted;
    if LeftOpen(plan) {
      OpenReports(plan, saidNo);
      if tried != [] { TerminalOrOpen(plan[|plan| - 1]); }
    } else {
      var k: nat :| Settles(plan, k);
      SettledReports(plan, saidNo, k);
      assert tried[|tried| - 1] == plan[k];
    }
  }

  // ---- The plan ----

  /** How many of the lanes resolve. */
  function Resolvable(tries: seq<Option<SourceOutcome>>): nat {
    if tries == [] then 0 else (if tries[0].Some? then 1 else 0) + Resolvable(tries[1..])
  }

  /** The planned holders are the resolvable ones, in the order the fan-out named them: a holder comes after exactly
      the resolvable ones named before it. */
  lemma {:induction false} HoldersInOrder(holders: seq<Node>, tries: seq<Option<SourceOutcome>>, j: nat)
    requires |tries| == |holders| && j < |holders|
    ensures |HolderPlan(holders, tries)| == Resolvable(tries)
    ensures tries[j].Some? ==>
      var k := Resolvable(tries[..j]);
      k < Resolvable(tries) && HolderPlan(holders, tries)[k] == Tried(Holder(holders[j]), tries[j].value)
  {
    if |holders| == 1 {
      assert holders[1..] == [] && tries[1..] == [];
      assert HolderPlan(holders[1..], tries[1..]) == [] && Resolvable(tries[1..]) == 0;
    } else {
      HoldersInOrder(holders[1..], tries[1..], if j > 0 then j - 1 else 0);
      if j > 0 {
        assert tries[..j][1..] == tries[1..][..j - 1];
        assert tries[..j][0] == tries[0] && tries[1..][j - 1] == tries[j] && holders[1..][j - 1] == holders[j];
      }
    }
  }

  /** An origin that is given and resolves is tried first; if it has the blob, the fetch succeeds from there and nobody
      else is tried. */
  lemma OriginFirst(n: Node, o: SourceOutcome, rest: seq<Tried>, tried: seq<Tried>, saidNo: bool, attempt: Attempt)
    requires CutAtTerminal(OriginPlan(Some(n), Some(o)) + rest, tried) && Amounts(tried, saidNo, attempt)
    ensures tried != [] && tried[0] == Tried(Origin(n), o)
    ensures o == Fetched ==> tried == [Tried(Origin(n), Fetched)] && attempt == Succeeded(Some(n))
  {
    var plan := OriginPlan(Some(n), Some(o)) + rest;
    assert plan[0] == Tried(Origin(n), o);
    TriedExactly(plan, tried);
    if o == Fetched {
      assert Settles(plan, 0);
      assert plan[..1] == [plan[0]];
    }
  }

  /** Without a target, or with one that does not resolve, only holders are tried. */
  lemma NoOrigin(target: Option<Node>, originTry: Option<SourceOutcome>, rest: seq<Tried>)
    requires target.None? || originTry.None?
    ensures OriginPlan(target, originTry) + rest == rest
  {
  }

  // ---- The rounds ----

  /** No two equal names fall into the same four places of the roster. */
  ghost predicate FoursDistinct(peers: seq<Node>) {
    forall i, j | 0 <= i < j < |peers| && peers[i] == peers[j] :: i / 4 != j / 4
  }

  /** The rounds are the roster's fours: at most four peers are asked at a time, and a name is asked twice in a round iff
      it stands twice in the same four places. */
  lemma {:induction false} RoundsAreFours(peers: seq<Node>)
    ensures peers != [] ==> 1 <= RoundSize(peers) <= 4
    ensures RoundsDistinct(peers) <==> FoursDistinct(peers)
    decreases |peers|
  {
    if peers != [] {
      var k := RoundSize(peers);
      RoundsAreFours(peers[k..]);
      assert forall i | 0 <= i < k :: i / 4 == 0;
      if |peers| <= 4 {
        assert peers[..k] == peers && peers[k..] == [];
      } else {
        FoursSplit(peers);
      }
    }
  }

  lemma FoursSplit(peers: seq<Node>)
    requires |peers| > 4
    ensures FoursDistinct(peers) <==> Distinct(peers[..4]) && FoursDistinct(peers[4..])
  {
    hide FoursDistinct, Distinct;
    if FoursDistinct(peers) { FoursApart(peers); }
    if Distinct(peers[..4]) && FoursDistinct(peers[4..]) { FoursTogether(peers); }
  }

  lemma NextFour(i: nat)
    ensures (i + 4) / 4 == i / 4 + 1
  {
  }

  lemma FoursApart(peers: seq<Node>)
    requires |peers| > 4 && FoursDistinct(peers)
    ensures Distinct(peers[..4]) && FoursDistinct(peers[4..])
  {
    var rest := peers[4..];
    forall i, j | 0 <= i < j < |rest| && rest[i] == rest[j] ensures i / 4 != j / 4 {
      NextFour(i);
      NextFour(j);
      assert peers[i + 4] == peers[j + 4];
    }
  }

  lemma FoursTogether(peers: seq<Node>)
    requires |peers| > 4 && Distinct(peers[..4]) && FoursDistinct(peers[4..])
    ensures FoursDistinct(peers)
  {
    var first, rest := peers[..4], peers[4..];
    assert forall i, j | 0 <= i < j < 4 :: peers[i] != peers[j] by {
      forall i, j | 0 <= i < j < 4 ensures peers[i] != peers[j] { assert first[i] == peers[i] && first[j] == peers[j]; }
    }
    forall i, j | 0 <= i < j < |peers| && peers[i] == peers[j] ensures i / 4 != j / 4 {
      if i >= 4 {
        NextFour(i - 4);
        NextFour(j - 4);
        assert rest[i - 4] == rest[j - 4];
      }
    }
  }
}
