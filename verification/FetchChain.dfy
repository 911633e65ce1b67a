/**
 The resolution chain of one fetch: the origin first, then every peer that a bounded
 `blob.has` fan-out names as a holder, then the classification of the failure. What the
 network answers is given by the parameters.
 */
module FetchChain {
  import opened Seqs

  type Node = nat

  const FANOUT_CONCURRENCY := 4

  datatype HasReply = Yes | No | Unreachable | Lost

  // ---- The fan-out ----

  /** The order in which the answers of one round arrive: every position once. */
  ghost predicate Arrivals(order: seq<nat>, size: nat) {
    && |order| == size
    && (forall k | 0 <= k < size :: order[k] < size)
    && forall i | 0 <= i < size :: i in order
  }

  function RoundSize(peers: seq<Node>): nat {
    if |peers| < FANOUT_CONCURRENCY then |peers| else FANOUT_CONCURRENCY
  }

  ghost predicate ValidOrders(peers: seq<Node>, orders: seq<seq<nat>>)
    decreases |peers|
  {
    if peers == [] then orders == []
    else orders != [] && Arrivals(orders[0], RoundSize(peers)) && ValidOrders(peers[RoundSize(peers)..], orders[1..])
  }

  /** The answers by peer name after these arrivals: a later answer replaces an earlier one, a lost one is skipped. */
  function ByPeer(chunk: seq<Node>, replies: seq<HasReply>, order: seq<nat>): map<Node, HasReply>
    requires |replies| == |chunk| && forall k | 0 <= k < |order| :: order[k] < |chunk|
  {
    if order == [] then map[]
    else
      var earlier, i := ByPeer(chunk, replies, order[..|order| - 1]), order[|order| - 1];
      if replies[i].Lost? then earlier else earlier[chunk[i] := replies[i]]
  }

  predicate Answers(answers: map<Node, HasReply>, peer: Node, reply: HasReply) {
    peer in answers && answers[peer] == reply
  }

  function ChunkHolders(chunk: seq<Node>, answers: map<Node, HasReply>): seq<Node> {
    Filter((peer: Node) => Answers(answers, peer, Yes), chunk)
  }

  /** The holders the chunked fan-out reports. */
  ghost function FanOutHolders(peers: seq<Node>, replies: seq<HasReply>, orders: seq<seq<nat>>): seq<Node>
    requires |replies| == |peers| && ValidOrders(peers, orders)
    decreases |peers|
  {
    if peers == [] then []
    else
      var k := RoundSize(peers);
      ChunkHolders(peers[..k], ByPeer(peers[..k], replies[..k], orders[0]))
      + FanOutHolders(peers[k..], replies[k..], orders[1..])
  }

  /** Whether some peer answered that it does not hold the blob. */
  ghost predicate FanOutNo(peers: seq<Node>, replies: seq<HasReply>, orders: seq<seq<nat>>)
    requires |replies| == |peers| && ValidOrders(peers, orders)
    decreases |peers|
  {
    peers != [] &&
    var k := RoundSize(peers);
    || (exists peer | peer in peers[..k] :: Answers(ByPeer(peers[..k], replies[..k], orders[0]), peer, No))
    || FanOutNo(peers[k..], replies[k..], orders[1..])
  }

  lemma FanOutRound(peers: seq<Node>, replies: seq<HasReply>, orders: seq<seq<nat>>)
    requires |replies| == |peers| && ValidOrders(peers, orders) && peers != []
    ensures var k := RoundSize(peers);
      && 0 < k <= |peers| && orders != [] && Arrivals(orders[0], k) && ValidOrders(peers[k..], orders[1..])
      && var answers := ByPeer(peers[..k], replies[..k], orders[0]);
      && FanOutHolders(peers, replies, orders) == ChunkHolders(peers[..k], answers) + FanOutHolders(peers[k..], replies[k..], orders[1..])
      && (FanOutNo(peers, replies, orders) <==>
          (exists peer | peer in peers[..k] :: Answers(answers, peer, No)) || FanOutNo(peers[k..], replies[k..], orders[1..]))
  {
    hide ByPeer, ChunkHolders, Answers;
  }

  lemma FanOutEnd(replies: seq<HasReply>, orders: seq<seq<nat>>)
    requires replies == [] && ValidOrders([], orders)
    ensures FanOutHolders([], replies, orders) == [] && !FanOutNo([], replies, orders)
  {
  }

  /** The fan-out as it runs: rounds of at most four, answers in any order. */
  method FanOut(peers: seq<Node>, replies: seq<HasReply>, orders: seq<seq<nat>>)
    returns (holders: seq<Node>, answeredNo: bool)
    requires |replies| == |peers| && ValidOrders(peers, orders)
    ensures holders == FanOutHolders(peers, replies, orders)
    ensures answeredNo == FanOutNo(peers, replies, orders)
  {
    hide FanOutHolders, FanOutNo, ValidOrders, ByPeer, ChunkHolders, Answers;
    holders, answeredNo := [], false;
    var peersLeft, repliesLeft, ordersLeft := peers, replies, orders;
    while peersLeft != []
      invariant |repliesLeft| == |peersLeft| && ValidOrders(peersLeft, ordersLeft)
      invariant FanOutHolders(peers, replies, orders) == holders + FanOutHolders(peersLeft, repliesLeft, ordersLeft)
      invariant FanOutNo(peers, replies, orders) == (answeredNo || FanOutNo(peersLeft, repliesLeft, ordersLeft))
      decreases |peersLeft|
    {
      FanOutRound(peersLeft, repliesLeft, ordersLeft);
      var k := RoundSize(peersLeft);
      var chunk, chunkReplies, order := peersLeft[..k], repliesLeft[..k], ordersLeft[0];
      var answers := GatherRound(chunk, chunkReplies, order);
      var found, saidNo := ReadRound(chunk, answers);
      holders := holders + found;
      answeredNo := answeredNo || saidNo;
      peersLeft, repliesLeft, ordersLeft := peersLeft[k..], repliesLeft[k..], ordersLeft[1..];
    }
    FanOutEnd(repliesLeft, ordersLeft);
  }

  method GatherRound(chunk: seq<Node>, replies: seq<HasReply>, order: seq<nat>) returns (answers: map<Node, HasReply>)
    requires |replies| == |chunk| && forall k | 0 <= k < |order| :: order[k] < |chunk|
    ensures answers == ByPeer(chunk, replies, order)
  {
    answers := map[];
    for n := 0 to |order|
      invariant answers == ByPeer(chunk, replies, order[..n])
    {
      assert order[..n + 1][..n] == order[..n];
      var i := order[n];
      if !replies[i].Lost? { answers := answers[chunk[i] := replies[i]]; }
    }
    assert order[..|order|] == order;
  }

  method ReadRound(chunk: seq<Node>, answers: map<Node, HasReply>) returns (holders: seq<Node>, saidNo: bool)
    ensures holders == ChunkHolders(chunk, answers)
    ensures saidNo == exists peer | peer in chunk :: Answers(answers, peer, No)
  {
    holders, saidNo := [], false;
    var left := chunk;
    while left != []
      invariant ChunkHolders(chunk, answers) == holders + ChunkHolders(left, answers)
      invariant (exists peer | peer in chunk :: Answers(answers, peer, No)) ==
                (saidNo || exists peer | peer in left :: Answers(answers, peer, No))
      decreases |left|
    {
      var peer := left[0];
      assert left == [peer] + left[1..];
      if Answers(answers, peer, Yes) { holders := holders + [peer]; }
      else if Answers(answers, peer, No) { saidNo := true; }
      left := left[1..];
    }
  }

  // ---- The fan-out against the roster ----

  /** The roster filtered by each peer's own answer. */
  function DirectHolders(peers: seq<Node>, replies: seq<HasReply>): seq<Node>
    requires |replies| == |peers|
  {
    if peers == [] then []
    else (if replies[0] == Yes then [peers[0]] else []) + DirectHolders(peers[1..], replies[1..])
  }

  /** No name occurs twice in one round. */
  ghost predicate RoundsDistinct(peers: seq<Node>)
    decreases |peers|
  {
    peers == [] || (Distinct(peers[..RoundSize(peers)]) && RoundsDistinct(peers[RoundSize(peers)..]))
  }

  /** In a round of distinct names, each peer is recorded under its own answer, whatever the arrival order. */
  lemma {:induction false} OwnAnswer(chunk: seq<Node>, replies: seq<HasReply>, order: seq<nat>, i: nat)
    requires |replies| == |chunk| && i < |chunk| && Distinct(chunk)
    requires forall k | 0 <= k < |order| :: order[k] < |chunk|
    ensures var answers := ByPeer(chunk, replies, order);
      if i in order && !replies[i].Lost? then Answers(answers, chunk[i], replies[i]) else chunk[i] !in answers
    decreases |order|
  {
    if order != [] {
      OwnAnswer(chunk, replies, order[..|order| - 1], i);
      assert order == order[..|order| - 1] + [order[|order| - 1]];
    }
  }

  lemma {:induction false} FilteredRound(chunk: seq<Node>, replies: seq<HasReply>, answers: map<Node, HasReply>)
    requires |replies| == |chunk|
    requires forall i | 0 <= i < |chunk| :: Answers(answers, chunk[i], Yes) == (replies[i] == Yes)
    ensures ChunkHolders(chunk, answers) == DirectHolders(chunk, replies)
  {
    if chunk != [] {
      assert forall i | 0 <= i < |chunk[1..]| :: chunk[1..][i] == chunk[i + 1] && replies[1..][i] == replies[i + 1];
      FilteredRound(chunk[1..], replies[1..], answers);
    }
  }

  lemma {:induction false} DirectHoldersSplit(peers: seq<Node>, replies: seq<HasReply>, k: nat)
    requires |replies| == |peers| && k <= |peers|
    ensures DirectHolders(peers, replies) == DirectHolders(peers[..k], replies[..k]) + DirectHolders(peers[k..], replies[k..])
  {
    if k == 0 {
      assert peers[0..] == peers && replies[0..] == replies;
    } else {
      DirectHoldersSplit(peers[1..], replies[1..], k - 1);
      assert peers[..k][1..] == peers[1..][..k - 1] && replies[..k][1..] == replies[1..][..k - 1];
      assert peers[1..][k - 1..] == peers[k..] && replies[1..][k - 1..] == replies[k..];
    }
  }

  /** One round of distinct names. */
  lemma RoundIsFilter(chunk: seq<Node>, own: seq<HasReply>, order: seq<nat>)
    requires |own| == |chunk| && Distinct(chunk) && Arrivals(order, |chunk|)
    ensures ChunkHolders(chunk, ByPeer(chunk, own, order)) == DirectHolders(chunk, own)
    ensures (exists peer | peer in chunk :: Answers(ByPeer(chunk, own, order), peer, No)) <==> No in own
  {
    hide ByPeer, ChunkHolders, DirectHolders, Distinct;
    var answers := ByPeer(chunk, own, order);
    forall i | 0 <= i < |chunk|
      ensures Answers(answers, chunk[i], Yes) == (own[i] == Yes) && Answers(answers, chunk[i], No) == (own[i] == No)
    {
      OwnAnswer(chunk, own, order, i);
    }
    FilteredRound(chunk, own, answers);
    if No in own {
      var i :| 0 <= i < |own| && own[i] == No;
      assert chunk[i] in chunk && Answers(answers, chunk[i], No);
    }
  }

  /** With no name twice in a round, the out-of-order fan-out is the filtered roster. */
  lemma {:induction false} FanOutIsFilter(peers: seq<Node>, replies: seq<HasReply>, orders: seq<seq<nat>>)
    requires |replies| == |peers| && ValidOrders(peers, orders) && RoundsDistinct(peers)
    ensures FanOutHolders(peers, replies, orders) == DirectHolders(peers, replies)
    ensures FanOutNo(peers, replies, orders) <==> No in replies
    decreases |peers|
  {
    if peers != [] {
      hide FanOutHolders, FanOutNo, ValidOrders, DirectHolders, ByPeer, ChunkHolders, Answers, Distinct;
      FanOutRound(peers, replies, orders);
      var k := RoundSize(peers);
      RoundIsFilter(peers[..k], replies[..k], orders[0]);
      DirectHoldersSplit(peers, replies, k);
      FanOutIsFilter(peers[k..], replies[k..], orders[1..]);
      assert replies == replies[..k] + replies[k..];
    }
  }

  function InOrder(n: nat): (r: seq<nat>)
    ensures |r| == n && forall i | 0 <= i < n :: r[i] == i
  {
    seq(n, i => i)
  }

  /** Only names that some `Yes` came from can be recorded as holders. */
  lemma {:induction false} YesComesFromYes(chunk: seq<Node>, replies: seq<HasReply>, order: seq<nat>, peer: Node)
    requires |replies| == |chunk| && forall k | 0 <= k < |order| :: order[k] < |chunk|
    requires Answers(ByPeer(chunk, replies, order), peer, Yes)
    ensures Yes in replies
    decreases |order|
  {
    var i := order[|order| - 1];
    if replies[i].Lost? || chunk[i] != peer {
      YesComesFromYes(chunk, replies, order[..|order| - 1], peer);
    } else {
      assert replies[i] in replies;
    }
  }

  lemma {:induction false} NobodyHolds(chunk: seq<Node>, answers: map<Node, HasReply>)
    requires forall peer | peer in chunk :: !Answers(answers, peer, Yes)
    ensures ChunkHolders(chunk, answers) == []
  {
    if chunk != [] { NobodyHolds(chunk[1..], answers); }
  }

  lemma {:induction false} NoYesNoHolders(peers: seq<Node>, replies: seq<HasReply>, orders: seq<seq<nat>>)
    requires |replies| == |peers| && ValidOrders(peers, orders) && Yes !in replies
    ensures FanOutHolders(peers, replies, orders) == []
    decreases |peers|
  {
    if peers != [] {
      var k := RoundSize(peers);
      var answers := ByPeer(peers[..k], replies[..k], orders[0]);
      forall peer | peer in peers[..k] ensures !Answers(answers, peer, Yes) {
        if Answers(answers, peer, Yes) {
          YesComesFromYes(peers[..k], replies[..k], orders[0], peer);
        }
      }
      NobodyHolds(peers[..k], answers);
      NoYesNoHolders(peers[k..], replies[k..], orders[1..]);
    }
  }

  lemma {:induction false} OrdersExist(peers: seq<Node>) returns (orders: seq<seq<nat>>)
    ensures ValidOrders(peers, orders)
    ensures peers != [] ==> orders[0] == InOrder(RoundSize(peers))
    decreases |peers|
  {
    if peers == [] {
      orders := [];
    } else {
      var rest := OrdersExist(peers[RoundSize(peers)..]);
      var first := InOrder(RoundSize(peers));
      forall i | 0 <= i < RoundSize(peers) ensures i in first {
        assert first[i] == i;
      }
      orders := [first] + rest;
    }
  }

  /** A name asked twice: the later `No` hides the earlier `Yes`. */
  lemma {:induction false} LaterAnswerWins(chunk: seq<Node>, replies: seq<HasReply>, i: nat, j: nat, n: nat, peer: Node)
    requires |replies| == |chunk| && i < j < |chunk| && chunk[i] == chunk[j] && n <= |chunk|
    requires forall x | 0 <= x < |chunk| :: replies[x] == (if x == i then Yes else if x == j then No else Unreachable)
    ensures Answers(ByPeer(chunk, replies, InOrder(|chunk|)[..n]), peer, Yes) ==> i < n <= j && peer == chunk[i]
  {
    if n > 0 {
      LaterAnswerWins(chunk, replies, i, j, n - 1, peer);
      assert InOrder(|chunk|)[..n][..n - 1] == InOrder(|chunk|)[..n - 1];
    }
  }

  lemma DirectHoldersNonEmpty(peers: seq<Node>, replies: seq<HasReply>, i: nat)
    requires |replies| == |peers| && i < |peers| && replies[i] == Yes
    ensures DirectHolders(peers, replies) != []
  {
    if i > 0 { DirectHoldersNonEmpty(peers[1..], replies[1..], i - 1); }
  }

  lemma {:induction false} NoYesDirect(peers: seq<Node>, replies: seq<HasReply>)
    requires |replies| == |peers| && Yes !in replies
    ensures DirectHolders(peers, replies) == []
  {
    if peers != [] { NoYesDirect(peers[1..], replies[1..]); }
  }

  /** A name asked twice in the first round, answering first `Yes` and then `No`. */
  lemma RepeatedInFirstRound(peers: seq<Node>, i: nat, j: nat) returns (replies: seq<HasReply>, orders: seq<seq<nat>>)
    requires i < j < RoundSize(peers) && peers[i] == peers[j]
    ensures |replies| == |peers| && ValidOrders(peers, orders)
    ensures FanOutHolders(peers, replies, orders) != DirectHolders(peers, replies)
  {
    var k := RoundSize(peers);
    var chunk := peers[..k];
    replies := seq(|peers|, x => if x == i then Yes else if x == j then No else Unreachable);
    orders := OrdersExist(peers);
    var own, answers := replies[..k], ByPeer(chunk, replies[..k], orders[0]);
    hide ByPeer;
    forall peer | peer in chunk ensures !Answers(answers, peer, Yes) {
      LaterAnswerWins(chunk, own, i, j, k, peer);
      assert InOrder(k)[..k] == InOrder(k);
    }
    NobodyHolds(chunk, answers);
    assert Yes !in replies[k..];
    NoYesNoHolders(peers[k..], replies[k..], orders[1..]);
    DirectHoldersNonEmpty(peers, replies, i);
  }

  lemma SilentRound(chunk: seq<Node>, own: seq<HasReply>, order: seq<nat>)
    requires |own| == |chunk| && Yes !in own && forall k | 0 <= k < |order| :: order[k] < |chunk|
    ensures ChunkHolders(chunk, ByPeer(chunk, own, order)) == []
  {
    hide ByPeer;
    forall peer | peer in chunk ensures !Answers(ByPeer(chunk, own, order), peer, Yes) {
      if Answers(ByPeer(chunk, own, order), peer, Yes) { YesComesFromYes(chunk, own, order, peer); }
    }
    NobodyHolds(chunk, ByPeer(chunk, own, order));
  }

  /** A name that occurs twice in a round can make the fan-out differ from the filtered roster. */
  lemma {:induction false} RepeatedNameDiffers(peers: seq<Node>) returns (replies: seq<HasReply>, orders: seq<seq<nat>>)
    requires !RoundsDistinct(peers)
    ensures |replies| == |peers| && ValidOrders(peers, orders)
    ensures FanOutHolders(peers, replies, orders) != DirectHolders(peers, replies)
    decreases |peers|
  {
    hide ByPeer, DirectHolders, ChunkHolders;
    var k := RoundSize(peers);
    var chunk := peers[..k];
    if !Distinct(chunk) {
      var i, j :| 0 <= i < j < k && chunk[i] == chunk[j];
      replies, orders := RepeatedInFirstRound(peers, i, j);
    } else {
      var restReplies, restOrders := RepeatedNameDiffers(peers[k..]);
      var own := seq(k, _ => Unreachable);
      var anyOrders := OrdersExist(peers);
      replies, orders := own + restReplies, [anyOrders[0]] + restOrders;
      assert replies[..k] == own && replies[k..] == restReplies && orders[1..] == restOrders;
      SilentRound(chunk, own, orders[0]);
      NoYesDirect(chunk, own);
      DirectHoldersSplit(peers, replies, k);
      assert FanOutHolders(peers, replies, orders) == FanOutHolders(peers[k..], restReplies, restOrders);
      assert DirectHolders(peers, replies) == DirectHolders(peers[k..], restReplies);
    }
  }

  /** The fan-out reports the filtered roster for all answers and arrival orders iff no round asks a name twice. */
  lemma FanOutIsFilterExactly(peers: seq<Node>)
    ensures RoundsDistinct(peers) <==>
      forall replies: seq<HasReply>, orders | |replies| == |peers| && ValidOrders(peers, orders) ::
        FanOutHolders(peers, replies, orders) == DirectHolders(peers, replies)
  {
    if RoundsDistinct(peers) {
      forall replies: seq<HasReply>, orders | |replies| == |peers| && ValidOrders(peers, orders)
        ensures FanOutHolders(peers, replies, orders) == DirectHolders(peers, replies)
      {
        FanOutIsFilter(peers, replies, orders);
      }
    } else {
      var replies, orders := RepeatedNameDiffers(peers);
    }
  }

  // ---- The chain ----

  datatype SourceOutcome = Fetched | Verify | Quota | Lane404 | NetErr | StreamErr | Deadline | Local

  datatype FetchOutcome = Ok | OriginUnreachable | NotFoundAnywhere | VerifyFailed | OverQuota | Io

  datatype Source = Origin(node: Node) | Holder(node: Node)

  datatype Tried = Tried(source: Source, outcome: SourceOutcome)

  /** Why a failed attempt got its outcome. */
  datatype Cause = Stopped | TooSlow | HolderFailed | NobodyHas | NobodyReachable

  datatype Attempt = Succeeded(origin: Option<Node>) | Failed(outcome: FetchOutcome, cause: Cause)

  /** Outcomes after which no other source is tried. */
  predicate Terminal(o: SourceOutcome) { o in {Fetched, Verify, Quota, Local} }

  function TerminalAttempt(t: Tried): Attempt
    requires Terminal(t.outcome)
  {
    match t.outcome
    case Fetched => Succeeded(Some(t.source.node))
    case Verify => Failed(VerifyFailed, Stopped)
    case Quota => Failed(OverQuota, Stopped)
    case _ => Failed(Io, Stopped)
  }

  /** The source demonstrably held the bytes, or claimed to, and still failed. */
  predicate FailedHolder(t: Tried) {
    t.outcome == StreamErr || (t.outcome == NetErr && t.source.Holder?)
  }

  /** The sources in the order they may be tried: the resolvable origin, then the resolvable holders.
      `holderTry[i]` is what the `i`-th holder's lane answers, or `None` if it does not resolve. */
  function HolderPlan(holders: seq<Node>, holderTry: seq<Option<SourceOutcome>>): (r: seq<Tried>)
    requires |holderTry| == |holders|
    ensures forall t | t in r :: t.source.Holder?
  {
    if holders == [] then []
    else (if holderTry[0].Some? then [Tried(Holder(holders[0]), holderTry[0].value)] else [])
         + HolderPlan(holders[1..], holderTry[1..])
  }

  function OriginPlan(target: Option<Node>, originTry: Option<SourceOutcome>): seq<Tried> {
    if target.Some? && originTry.Some? then [Tried(Origin(target.value), originTry.value)] else []
  }

  /** `tried` is the plan, cut just after its first terminal outcome. */
  ghost predicate CutAtTerminal(plan: seq<Tried>, tried: seq<Tried>) {
    && tried <= plan
    && (forall i | 0 <= i < |tried| - 1 :: !Terminal(tried[i].outcome))
    && ((tried != [] && Terminal(tried[|tried| - 1].outcome)) || tried == plan)
  }

  /** What exhausting `tried` amounts to: a failed holder, else a slow source, else an answer of absence, else nothing. */
  ghost function Exhausted(tried: seq<Tried>, saidNo: bool): Attempt {
    if exists t | t in tried :: FailedHolder(t) then Failed(Io, HolderFailed)
    else if exists t | t in tried :: t.outcome == Deadline then Failed(OriginUnreachable, TooSlow)
    else if saidNo || exists t | t in tried :: t.outcome == Lane404 then Failed(NotFoundAnywhere, NobodyHas)
    else Failed(OriginUnreachable, NobodyReachable)
  }

  /** The attempt that a chain of tries amounts to. */
  ghost predicate Amounts(tried: seq<Tried>, saidNo: bool, attempt: Attempt) {
    if tried != [] && Terminal(tried[|tried| - 1].outcome) then attempt == TerminalAttempt(tried[|tried| - 1])
    else attempt == Exhausted(tried, saidNo)
  }

  /** `execute` for a blob that is not already here. `holders` and `saidNo` are what the fan-out found. */
  method TrySources(
    target: Option<Node>, originTry: Option<SourceOutcome>,
    holders: seq<Node>, saidNo: bool, holderTry: seq<Option<SourceOutcome>>)
    returns (attempt: Attempt, tried: seq<Tried>)
    requires |holderTry| == |holders|
    ensures CutAtTerminal(OriginPlan(target, originTry) + HolderPlan(holders, holderTry), tried)
    ensures Amounts(tried, saidNo, attempt)
  {
    NoFlags(saidNo);
    hide HolderPlan, Flags, Exhausted;
    tried := [];
    var answeredNo, holderFailed, tooSlow := false, false, false;
    if target.Some? && originTry.Some? {
      var t := Tried(Origin(target.value), originTry.value);
      tried := [t];
      if Terminal(t.outcome) {
        assert (OriginPlan(target, originTry) + HolderPlan(holders, holderTry))[..1] == tried;
        return TerminalAttempt(t), tried;
      }
      FlagsStep([], t, saidNo, saidNo, false, false);
      assert [] + [t] == [t];
      match t.outcome {
        case Lane404 => answeredNo := true;
        case StreamErr => holderFailed := true;
        case Deadline => tooSlow := true;
        case _ =>
      }
    }
    answeredNo := answeredNo || saidNo;
    var done: bool;
    attempt, tried, answeredNo, holderFailed, tooSlow, done :=
      TryHolders(holders, holderTry, tried, saidNo, answeredNo, holderFailed, tooSlow);
    if !done {
      FlagsClassify(tried, saidNo, answeredNo, holderFailed, tooSlow);
      if tooSlow && !holderFailed { attempt := Failed(OriginUnreachable, TooSlow); }
      else if holderFailed { attempt := Failed(Io, HolderFailed); }
      else if answeredNo { attempt := Failed(NotFoundAnywhere, NobodyHas); }
      else { attempt := Failed(OriginUnreachable, NobodyReachable); }
    }
  }

  /** What the three flags of the chain record. */
  ghost predicate Flags(tried: seq<Tried>, saidNo: bool, answeredNo: bool, holderFailed: bool, tooSlow: bool) {
    && answeredNo == (saidNo || exists t | t in tried :: t.outcome == Lane404)
    && holderFailed == (exists t | t in tried :: FailedHolder(t))
    && tooSlow == exists t | t in tried :: t.outcome == Deadline
  }

  lemma NoFlags(saidNo: bool)
    ensures Flags([], saidNo, saidNo, false, false)
  {
  }

  lemma FlagsClassify(tried: seq<Tried>, saidNo: bool, answeredNo: bool, holderFailed: bool, tooSlow: bool)
    requires Flags(tried, saidNo, answeredNo, holderFailed, tooSlow)
    ensures Exhausted(tried, saidNo) ==
      if holderFailed then Failed(Io, HolderFailed)
      else if tooSlow then Failed(OriginUnreachable, TooSlow)
      else if answeredNo then Failed(NotFoundAnywhere, NobodyHas)
      else Failed(OriginUnreachable, NobodyReachable)
  {
    hide FailedHolder;
  }

  /** The holder loop of `execute`. */
  method TryHolders(
    holders: seq<Node>, holderTry: seq<Option<SourceOutcome>>, before: seq<Tried>,
    saidNo: bool, answeredNo: bool, holderFailed: bool, tooSlow: bool)
    returns (attempt: Attempt, tried: seq<Tried>, answeredNo': bool, holderFailed': bool, tooSlow': bool, done: bool)
    requires |holderTry| == |holders| && Flags(before, saidNo, answeredNo, holderFailed, tooSlow)
    requires forall i | 0 <= i < |before| :: !Terminal(before[i].outcome)
    ensures CutAtTerminal(before + HolderPlan(holders, holderTry), tried)
    ensures done <==> tried != [] && Terminal(tried[|tried| - 1].outcome)
    ensures done ==> attempt == TerminalAttempt(tried[|tried| - 1])
    ensures !done ==> Flags(tried, saidNo, answeredNo', holderFailed', tooSlow')
  {
    hide Flags;
    attempt, done := Failed(Io, Stopped), false;
    tried, answeredNo', holderFailed', tooSlow' := before, answeredNo, holderFailed, tooSlow;
    var left, tries := holders, holderTry;
    while left != []
      invariant |tries| == |left|
      invariant before + HolderPlan(holders, holderTry) == tried + HolderPlan(left, tries)
      invariant forall i | 0 <= i < |tried| :: !Terminal(tried[i].outcome)
      invariant Flags(tried, saidNo, answeredNo', holderFailed', tooSlow')
      decreases |left|
    {
      if tries[0].Some? {
        var t := Tried(Holder(left[0]), tries[0].value);
        ghost var soFar := tried;
        tried := tried + [t];
        assert before + HolderPlan(holders, holderTry) == tried + HolderPlan(left[1..], tries[1..]);
        if Terminal(t.outcome) {
          return TerminalAttempt(t), tried, answeredNo', holderFailed', tooSlow', true;
        }
        FlagsStep(soFar, t, saidNo, answeredNo', holderFailed', tooSlow');
        match t.outcome {
          case Lane404 => answeredNo' := true;
          case StreamErr => holderFailed' := true;
          case NetErr => holderFailed' := true;
          case Deadline => tooSlow' := true;
          case _ =>
        }
      }
      left, tries := left[1..], tries[1..];
    }
  }

  lemma FlagsStep(tried: seq<Tried>, t: Tried, saidNo: bool, answeredNo: bool, holderFailed: bool, tooSlow: bool)
    requires Flags(tried, saidNo, answeredNo, holderFailed, tooSlow)
    ensures Flags(tried + [t], saidNo, answeredNo || t.outcome == Lane404, holderFailed || FailedHolder(t), tooSlow || t.outcome == Deadline)
  {
    assert t in tried + [t];
    assert forall u | u in tried :: u in tried + [t];
  }

  function HolderTries(holders: seq<Node>, lane: nat -> Option<SourceOutcome>): (r: seq<Option<SourceOutcome>>)
    ensures |r| == |holders|
  {
    seq(|holders|, (i: nat) => lane(i))
  }

  /** `execute`: nothing to move when the blob is here already; otherwise the chain over the fan-out's holders,
      where `lane(i)` is what the `i`-th holder's lane would answer. */
  method Execute(
    present: bool, target: Option<Node>, originTry: Option<SourceOutcome>,
    peers: seq<Node>, replies: seq<HasReply>, orders: seq<seq<nat>>, lane: nat -> Option<SourceOutcome>)
    returns (attempt: Attempt, tried: seq<Tried>)
    requires |replies| == |peers| && ValidOrders(peers, orders)
    ensures present ==> attempt == Succeeded(None) && tried == []
    ensures !present ==>
      var holders := FanOutHolders(peers, replies, orders);
      && CutAtTerminal(OriginPlan(target, originTry) + HolderPlan(holders, HolderTries(holders, lane)), tried)
      && Amounts(tried, FanOutNo(peers, replies, orders), attempt)
  {
    if present { return Succeeded(None), []; }
    var holders, saidNo := FanOut(peers, replies, orders);
    attempt, tried := TrySources(target, originTry, holders, saidNo, HolderTries(holders, lane));
  }

  /** A verify failure is never retried: it can only be the last thing tried, and it decides the outcome. */
  lemma VerifyIsFinal(plan: seq<Tried>, tried: seq<Tried>, saidNo: bool, attempt: Attempt, i: nat)
    requires CutAtTerminal(plan, tried) && Amounts(tried, saidNo, attempt)
    requires i < |tried| && tried[i].outcome == Verify
    ensures i == |tried| - 1 && attempt == Failed(VerifyFailed, Stopped)
  {
  }
}
