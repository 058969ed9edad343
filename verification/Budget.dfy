/**
 Budget payments (src/masternode-budget.h, src/masternode-budget.cpp): the block builder
 adds the payment of the finalized budget with the most votes, and the block checker,
 which also keeps a history of what was paid, must accept it.

 Finalized budgets are listed in the order of the map that holds them; hashes and scripts
 are numbers, and the number of enabled masternodes is a parameter.
 */
module Budget {

  datatype Output = Output(script: nat, value: int)

  datatype Payment = Payment(proposal: nat, output: Output)

  /** CFinalizedBudget: one payment for each block from blockStart on. */
  datatype Finalized = Finalized(blockStart: int, payments: seq<Payment>, votes: nat)
  {
    function BlockEnd(): int { blockStart + |payments| - 1 }

    predicate InWindow(height: int) { blockStart <= height <= BlockEnd() }

    function PaymentAt(height: int): Payment
      requires InWindow(height)
    {
      payments[height - blockStart]
    }
  }

  datatype Status = InValid | Valid | DoublePayment | VoteThreshold

  /** mapPayment_History: the height at which a proposal was paid. */
  type History = map<nat, int>

  // ---------------------------------------------------------------------------
  // The winning budget.

  /** The most votes of a budget for this height, among the first k, and at least `floor`. */
  function Highest(bs: seq<Finalized>, height: int, k: nat, floor: int): (n: int)
    requires k <= |bs|
    ensures n >= floor
    ensures forall i :: 0 <= i < k && bs[i].InWindow(height) ==> bs[i].votes <= n
    ensures n > floor ==> exists i :: 0 <= i < k && bs[i].InWindow(height) && bs[i].votes == n
  {
    if k == 0 then floor
    else
      var n := Highest(bs, height, k - 1, floor);
      if bs[k - 1].votes > n && bs[k - 1].InWindow(height) then bs[k - 1].votes else n
  }

  /** The first budget with those votes, or -1. */
  function Winner(bs: seq<Finalized>, height: int, k: nat): (w: int)
    requires k <= |bs|
    ensures -1 <= w < k
    ensures w >= 0 ==> bs[w].InWindow(height) && bs[w].votes == Highest(bs, height, k, 0)
    ensures w < 0 <==> Highest(bs, height, k, 0) == 0
  {
    if k == 0 then -1
    else if bs[k - 1].votes > Highest(bs, height, k - 1, 0) && bs[k - 1].InWindow(height) then k - 1
    else Winner(bs, height, k - 1)
  }

  /** Starting from -1 or from 0 makes a difference only where nobody voted. */
  lemma {:induction false} HighestFloor(bs: seq<Finalized>, height: int, k: nat)
    requires k <= |bs|
    ensures Highest(bs, height, k, 0) == if Highest(bs, height, k, -1) > 0 then Highest(bs, height, k, -1) else 0
  {
    if k > 0 {
      HighestFloor(bs, height, k - 1);
    }
  }

  /** IsBudgetPaymentBlock. */
  predicate IsPaymentBlock(bs: seq<Finalized>, height: int, enabled: nat) {
    Highest(bs, height, |bs|, -1) > enabled / 20
  }

  /** A budget payment block: some budget of the height has more votes than a twentieth of the masternodes. */
  lemma PaymentBlockIff(bs: seq<Finalized>, height: int, enabled: nat)
    ensures IsPaymentBlock(bs, height, enabled) <==>
              exists i :: 0 <= i < |bs| && bs[i].InWindow(height) && bs[i].votes > enabled / 20
  {
  }

  /** The winning payment: that of the first budget with the most votes. */
  ghost predicate IsWinning(bs: seq<Finalized>, height: int, w: nat) {
    && w < |bs| && bs[w].InWindow(height) && bs[w].votes > 0
    && (forall i :: 0 <= i < |bs| && bs[i].InWindow(height) ==> bs[i].votes <= bs[w].votes)
    && (forall i :: 0 <= i < w && bs[i].InWindow(height) ==> bs[i].votes < bs[w].votes)
  }

  lemma {:induction false} WinnerIsFirst(bs: seq<Finalized>, height: int, k: nat)
    requires k <= |bs|
    ensures var w := Winner(bs, height, k);
            w >= 0 ==> bs[w].votes > 0 && forall i :: 0 <= i < w && bs[i].InWindow(height) ==> bs[i].votes < bs[w].votes
  {
    if k > 0 {
      WinnerIsFirst(bs, height, k - 1);
    }
  }

  lemma WinnerIff(bs: seq<Finalized>, height: int, w: nat)
    ensures IsWinning(bs, height, w) <==> Winner(bs, height, |bs|) == w
  {
    WinnerIsFirst(bs, height, |bs|);
  }

  /** What FillBlockPayee does to the outputs, kind by kind. */
  lemma FillMeans(bs: seq<Finalized>, height: int, outs: seq<Output>, proofOfStake: bool, blockValue: int)
    requires !proofOfStake ==> outs != []
    ensures var r := Fill(bs, height, outs, proofOfStake, blockValue);
            && (forall w: nat :: IsWinning(bs, height, w) ==>
                 if proofOfStake then |r| == |outs| + 1 && r[..|outs|] == outs && r[|outs|] == bs[w].PaymentAt(height).output
                 else r == [Output(outs[0].script, blockValue), bs[w].PaymentAt(height).output])
            && ((forall w: nat :: !IsWinning(bs, height, w)) ==>
                 if proofOfStake then r == outs
                 else |r| == |outs| && r[0] == Output(outs[0].script, blockValue) && r[1..] == outs[1..])
  {
    forall w: nat ensures IsWinning(bs, height, w) <==> Winner(bs, height, |bs|) == w {
      WinnerIff(bs, height, w);
    }
    assert Winner(bs, height, |bs|) >= 0 ==> IsWinning(bs, height, Winner(bs, height, |bs|));
  }

  /** FillBlockPayee: append the payment in a proof-of-stake block, or make it the second output. */
  function Fill(bs: seq<Finalized>, height: int, outs: seq<Output>, proofOfStake: bool, blockValue: int): seq<Output>
    requires !proofOfStake ==> outs != []
  {
    var w := Winner(bs, height, |bs|);
    if proofOfStake then
      if w < 0 then outs else outs + [bs[w].PaymentAt(height).output]
    else
      var full := outs[0 := outs[0].(value := blockValue)];
      if w < 0 then full else [full[0], bs[w].PaymentAt(height).output]
  }

  // ---------------------------------------------------------------------------
  // The checker.

  /** Payments outside the window of a budget are forgotten. */
  function Purge(h: History, b: Finalized): History {
    map p | p in h && b.InWindow(h[p]) :: h[p]
  }

  /** IsPaidAlready: purge, and note the payment if it is new. */
  function Note(h: History, b: Finalized, proposal: nat, height: int): (History, bool) {
    var p := Purge(h, b);
    if proposal in p then (p, true) else (p[proposal := height], false)
  }

  predicate Matches(b: Finalized, height: int, out: Output)
    requires b.InWindow(height)
  {
    b.PaymentAt(height).output == out
  }

  /** The outputs from i on, for one budget: a second payment of a proposal ends the search. */
  function CheckFrom(h: History, b: Finalized, height: int, outs: seq<Output>, i: nat, status: Status): (History, Status)
    requires b.InWindow(height) && i <= |outs|
    decreases |outs| - i
  {
    if i == |outs| then (h, status)
    else if !Matches(b, height, outs[i]) then CheckFrom(h, b, height, outs, i + 1, status)
    else
      var (h', paid) := Note(h, b, b.PaymentAt(height).proposal, height);
      if paid then (h', DoublePayment) else CheckFrom(h', b, height, outs, i + 1, Valid)
  }

  /** CFinalizedBudget::IsTransactionValid. */
  function CheckBudget(h: History, b: Finalized, outs: seq<Output>, height: int): (History, Status) {
    if b.InWindow(height) then CheckFrom(h, b, height, outs, 0, InValid) else (h, InValid)
  }

  /** The budgets from k on: the first that finds the transaction valid decides. */
  function CheckAll(h: History, bs: seq<Finalized>, outs: seq<Output>, height: int, threshold: int,
                    k: nat, status: Status, above: bool): (History, Status)
    requires k <= |bs|
    decreases |bs| - k
  {
    if k == |bs| then (h, if above then status else VoteThreshold)
    else if bs[k].votes > threshold && bs[k].InWindow(height) then
      var (h', s) := CheckBudget(h, bs[k], outs, height);
      if s == Valid then (h', Valid) else CheckAll(h', bs, outs, height, threshold, k + 1, s, true)
    else CheckAll(h, bs, outs, height, threshold, k + 1, status, above || bs[k].votes > threshold)
  }

  /** CBudgetManager::IsTransactionValid. */
  function Check(h: History, bs: seq<Finalized>, outs: seq<Output>, height: int, enabled: nat): (History, Status) {
    var highest := Highest(bs, height, |bs|, 0);
    if highest < enabled / 20 then (h, InValid)
    else CheckAll(h, bs, outs, height, highest - enabled / 10, 0, InValid, false)
  }

  // ---------------------------------------------------------------------------
  // Builder and checker agree.

  /** The proposal is not in the history, or from another cycle. */
  predicate Unpaid(h: History, b: Finalized, proposal: nat) {
    proposal in h ==> !b.InWindow(h[proposal])
  }

  /** Output m is the only one that can be a budget payment. */
  ghost predicate OnlyPayment(bs: seq<Finalized>, height: int, outs: seq<Output>, m: nat) {
    forall i, j :: 0 <= i < |bs| && 0 <= j < |outs| && j != m && bs[i].InWindow(height) ==> !Matches(bs[i], height, outs[j])
  }

  lemma {:induction false} NoneMatches(h: History, b: Finalized, height: int, outs: seq<Output>, i: nat, status: Status)
    requires b.InWindow(height) && i <= |outs| && forall j :: i <= j < |outs| ==> !Matches(b, height, outs[j])
    ensures CheckFrom(h, b, height, outs, i, status) == (h, status)
    decreases |outs| - i
  {
    if i < |outs| {
      NoneMatches(h, b, height, outs, i + 1, status);
    }
  }

  /** With one candidate, a budget's verdict is whether it matches and whether it was paid. */
  lemma {:induction false} OneMatches(h: History, b: Finalized, height: int, outs: seq<Output>, i: nat, m: nat)
    requires b.InWindow(height) && i <= m < |outs| && forall j :: i <= j < |outs| && j != m ==> !Matches(b, height, outs[j])
    ensures CheckFrom(h, b, height, outs, i, InValid) ==
            if !Matches(b, height, outs[m]) then (h, InValid)
            else
              var (h', paid) := Note(h, b, b.PaymentAt(height).proposal, height);
              (h', if paid then DoublePayment else Valid)
    decreases m - i
  {
    if i < m {
      OneMatches(h, b, height, outs, i + 1, m);
    } else if Matches(b, height, outs[m]) {
      var (h', paid) := Note(h, b, b.PaymentAt(height).proposal, height);
      NoneMatches(h', b, height, outs, m + 1, Valid);
    } else {
      NoneMatches(h, b, height, outs, m + 1, InValid);
    }
  }

  /** A budget that does not find the transaction valid leaves the winner unpaid. */
  lemma StaysUnpaid(h: History, b: Finalized, outs: seq<Output>, height: int, m: nat, w: Finalized, proposal: nat)
    requires b.InWindow(height) && m < |outs| && forall j :: 0 <= j < |outs| && j != m ==> !Matches(b, height, outs[j])
    requires Unpaid(h, w, proposal) && CheckBudget(h, b, outs, height).1 != Valid
    ensures Unpaid(CheckBudget(h, b, outs, height).0, w, proposal)
  {
    OneMatches(h, b, height, outs, 0, m);
  }

  /** From any budget up to the winner on, the check ends in Valid. */
  lemma {:induction false} WinnerIsReached(h: History, bs: seq<Finalized>, outs: seq<Output>, height: int, threshold: int,
                                           k: nat, status: Status, above: bool, w: nat, m: nat)
    requires k <= w < |bs| && m < |outs| && OnlyPayment(bs, height, outs, m)
    requires bs[w].InWindow(height) && bs[w].votes > threshold && Matches(bs[w], height, outs[m])
    requires Unpaid(h, bs[w], bs[w].PaymentAt(height).proposal)
    ensures CheckAll(h, bs, outs, height, threshold, k, status, above).1 == Valid
    decreases w - k
  {
    if k == w {
      OneMatches(h, bs[w], height, outs, 0, m);
    } else if bs[k].votes > threshold && bs[k].InWindow(height) {
      var (h', s) := CheckBudget(h, bs[k], outs, height);
      if s != Valid {
        StaysUnpaid(h, bs[k], outs, height, m, bs[w], bs[w].PaymentAt(height).proposal);
        WinnerIsReached(h', bs, outs, height, threshold, k + 1, s, true, w, m);
      }
    } else {
      WinnerIsReached(h, bs, outs, height, threshold, k + 1, status, above || bs[k].votes > threshold, w, m);
    }
  }

  /** Without a budget for this height above the threshold, nothing is found valid. */
  lemma {:induction false} NoneAboveThreshold(h: History, bs: seq<Finalized>, outs: seq<Output>, height: int, threshold: int,
                                              k: nat, status: Status, above: bool)
    requires k <= |bs| && status != Valid
    requires forall i :: 0 <= i < |bs| && bs[i].InWindow(height) ==> bs[i].votes <= threshold
    ensures CheckAll(h, bs, outs, height, threshold, k, status, above).1 != Valid
    decreases |bs| - k
  {
    if k < |bs| {
      NoneAboveThreshold(h, bs, outs, height, threshold, k + 1, status, above || bs[k].votes > threshold);
    }
  }

  /** Where Fill puts the payment. */
  function PaymentIndex(outs: seq<Output>, proofOfStake: bool): nat {
    if proofOfStake then |outs| else 1
  }

  /**
   On a budget payment block, with the winning proposal unpaid and no other output that
   matches a budget payment, the filled transaction is judged valid exactly if there are
   at least ten enabled masternodes: below that the ten percent margin is nothing.
   */
  lemma BuilderAndCheckerAgreeIff(h: History, bs: seq<Finalized>, height: int, outs: seq<Output>,
                                  proofOfStake: bool, blockValue: int, enabled: nat)
    requires !proofOfStake ==> outs != []
    requires IsPaymentBlock(bs, height, enabled) && Winner(bs, height, |bs|) >= 0
    requires var w := bs[Winner(bs, height, |bs|)]; Unpaid(h, w, w.PaymentAt(height).proposal)
    requires OnlyPayment(bs, height, Fill(bs, height, outs, proofOfStake, blockValue), PaymentIndex(outs, proofOfStake))
    ensures Check(h, bs, Fill(bs, height, outs, proofOfStake, blockValue), height, enabled).1 == Valid <==> enabled >= 10
  {
    var filled, m := Fill(bs, height, outs, proofOfStake, blockValue), PaymentIndex(outs, proofOfStake);
    var highest, w := Highest(bs, height, |bs|, 0), Winner(bs, height, |bs|);
    HighestFloor(bs, height, |bs|);
    if enabled >= 10 {
      WinnerIsReached(h, bs, filled, height, highest - enabled / 10, 0, InValid, false, w, m);
    } else {
      NoneAboveThreshold(h, bs, filled, height, highest, 0, InValid, false);
    }
  }

  /** On a budget payment block somebody voted, so there is a winner to pay. */
  lemma PaymentBlockHasWinner(bs: seq<Finalized>, height: int, enabled: nat)
    requires IsPaymentBlock(bs, height, enabled)
    ensures Winner(bs, height, |bs|) >= 0
  {
    HighestFloor(bs, height, |bs|);
  }

  // ---------------------------------------------------------------------------
  // Checking the same transaction again.

  /** How many of the outputs from i on are the payment of the budget. */
  function MatchCount(b: Finalized, height: int, outs: seq<Output>, i: nat): nat
    requires b.InWindow(height) && i <= |outs|
    decreases |outs| - i
  {
    if i == |outs| then 0 else MatchCount(b, height, outs, i + 1) + if Matches(b, height, outs[i]) then 1 else 0
  }

  lemma PurgedStays(h: History, b: Finalized, proposal: nat, height: int)
    requires b.InWindow(height)
    ensures Purge(Purge(h, b)[proposal := height], b) == Purge(h, b)[proposal := height]
    ensures Purge(Purge(h, b), b) == Purge(h, b)
  {
  }

  /** A budget's verdict and history, from the number of matching outputs and what was paid. */
  lemma {:induction false} CheckFromIs(h: History, b: Finalized, height: int, outs: seq<Output>, i: nat, status: Status)
    requires b.InWindow(height) && i <= |outs|
    ensures var c, p, proposal := MatchCount(b, height, outs, i), Purge(h, b), b.PaymentAt(height).proposal;
            CheckFrom(h, b, height, outs, i, status) ==
            if c == 0 then (h, status)
            else if proposal in p then (p, DoublePayment)
            else (p[proposal := height], if c == 1 then Valid else DoublePayment)
    decreases |outs| - i
  {
    if i < |outs| {
      if Matches(b, height, outs[i]) {
        PurgedStays(h, b, b.PaymentAt(height).proposal, height);
        CheckFromIs(Note(h, b, b.PaymentAt(height).proposal, height).0, b, height, outs, i + 1, Valid);
      } else {
        CheckFromIs(h, b, height, outs, i + 1, status);
      }
    }
  }

  /** The second verdict of a budget differs exactly if one output matches and the proposal was unpaid. */
  lemma SecondVerdictDiffersIff(h: History, b: Finalized, outs: seq<Output>, height: int)
    ensures var first := CheckBudget(h, b, outs, height); var second := CheckBudget(first.0, b, outs, height);
            && (second.1 != first.1 <==>
                b.InWindow(height) && MatchCount(b, height, outs, 0) == 1 && Unpaid(h, b, b.PaymentAt(height).proposal))
            && (second.1 != first.1 ==> first.1 == Valid && second.1 == DoublePayment)
  {
    if b.InWindow(height) {
      PurgedStays(h, b, b.PaymentAt(height).proposal, height);
      CheckFromIs(h, b, height, outs, 0, InValid);
      CheckFromIs(CheckBudget(h, b, outs, height).0, b, height, outs, 0, InValid);
    }
  }

  function Max(a: int, b: int): int {
    if a < b then b else a
  }

  /** One transaction before the budgets, with the vote count they must exceed. */
  datatype Inquiry = Inquiry(bs: seq<Finalized>, outs: seq<Output>, height: int, threshold: int)
  {
    /** Above the threshold, with a payment for the height. */
    predicate Candidate(k: nat) {
      k < |bs| && bs[k].votes > threshold && bs[k].InWindow(height)
    }

    /** Above the threshold, whatever its window. */
    predicate Above(k: nat) {
      k < |bs| && bs[k].votes > threshold
    }

    /** The candidate that is looked at last. */
    ghost predicate Last(w: nat) {
      Candidate(w) && forall j: nat :: Candidate(j) ==> j <= w
    }

    function Proposal(k: nat): nat
      requires Candidate(k)
    {
      bs[k].PaymentAt(height).proposal
    }

    /** A candidate whose payment is among the outputs: it looks into the history. */
    predicate Asks(k: nat) {
      Candidate(k) && MatchCount(bs[k], height, outs, 0) > 0
    }

    /** Its payment is there once. */
    predicate Sole(k: nat) {
      Candidate(k) && MatchCount(bs[k], height, outs, 0) == 1
    }

    /** Its payment is there more than once. */
    predicate Repeats(k: nat, p: nat) {
      Candidate(k) && MatchCount(bs[k], height, outs, 0) > 1 && Proposal(k) == p
    }

    /** The record of a payment is in the windows of all budgets before i that ask. */
    ghost predicate Survives(h: History, p: nat, i: nat) {
      p in h && forall j: nat :: j < i && Asks(j) ==> bs[j].InWindow(h[p])
    }

    /** A budget before i whose payment is repeated found it unpaid, and noted it. */
    ghost predicate Noted(h: History, p: nat, i: nat) {
      exists j: nat :: j < i && Repeats(j, p) && !Survives(h, p, j + 1)
    }

    ghost predicate Paid(h: History, w: nat)
      requires Candidate(w)
    {
      Survives(h, Proposal(w), w + 1) || Noted(h, Proposal(w), w)
    }

    /** `now` is what the budgets before i make of h, if none of them finds the transaction valid. */
    ghost predicate Tracks(h: History, now: History, i: nat) {
      && (forall p: nat :: p in now <==> Survives(h, p, i) || Noted(h, p, i))
      && (forall p: nat :: p in now ==> now[p] == if Survives(h, p, i) then h[p] else height)
    }

    /** The first budget that accepts. */
    ghost predicate Accepts(h: History, w: nat) {
      Sole(w) && !Paid(h, w) && forall j: nat :: j < w && Sole(j) ==> Paid(h, j)
    }

    /** What is left of the history when budget k has accepted. */
    ghost predicate LeftBy(h: History, k: nat, now: History)
      requires Candidate(k)
    {
      && Proposal(k) in now && now[Proposal(k)] == height
      && (forall p: nat :: p != Proposal(k) ==> (p in now <==> Survives(h, p, k + 1) || Noted(h, p, k)))
      && (forall p: nat :: p in now && p != Proposal(k) ==> now[p] == if Survives(h, p, k + 1) then h[p] else height)
    }

    /** Whether budget w finds its proposal paid in what budget k left. */
    ghost predicate PaidAgain(h: History, k: nat, w: nat)
      requires Candidate(w)
    {
      var p := Proposal(w);
      || Noted(h, p, k)
      || Survives(h, p, Max(k, w) + 1)
      || exists j: nat :: j < w && Repeats(j, p) && !Survives(h, p, Max(k, j) + 1)
    }
  }

  lemma TracksStart(q: Inquiry, h: History)
    ensures q.Tracks(h, h, 0)
  {
  }

  /** A budget that does not ask changes nothing. */
  lemma TracksQuiet(q: Inquiry, h: History, now: History, i: nat)
    requires q.Tracks(h, now, i) && !q.Asks(i)
    ensures q.Tracks(h, now, i + 1)
  {
    forall p: nat
      ensures q.Survives(h, p, i + 1) <==> q.Survives(h, p, i)
      ensures q.Noted(h, p, i + 1) <==> q.Noted(h, p, i)
    {
      assert !q.Repeats(i, p);
    }
  }

  lemma SurvivorIsNotNoted(q: Inquiry, h: History, p: nat, i: nat)
    requires q.Survives(h, p, i)
    ensures !q.Noted(h, p, i)
  {
  }

  lemma SurvivesLess(q: Inquiry, h: History, p: nat, m: nat, n: nat)
    requires m <= n
    ensures q.Survives(h, p, n) ==> q.Survives(h, p, m)
  {
  }

  /** What a purge by budget i leaves. */
  lemma TracksPurged(q: Inquiry, h: History, now: History, i: nat, p: nat)
    requires q.Tracks(h, now, i) && q.Asks(i)
    ensures p in Purge(now, q.bs[i]) <==> q.Survives(h, p, i + 1) || q.Noted(h, p, i)
    ensures p in Purge(now, q.bs[i]) ==> Purge(now, q.bs[i])[p] == if q.Survives(h, p, i + 1) then h[p] else q.height
  {
    if q.Survives(h, p, i + 1) {
      assert q.Survives(h, p, i);
    } else if q.Survives(h, p, i) {
      SurvivorIsNotNoted(q, h, p, i);
    }
  }

  lemma NotedNext(q: Inquiry, h: History, p: nat, i: nat)
    ensures q.Noted(h, p, i + 1) <==> q.Noted(h, p, i) || (q.Repeats(i, p) && !q.Survives(h, p, i + 1))
  {
  }

  /** A budget that asks and does not accept. */
  lemma TracksRejected(q: Inquiry, h: History, now: History, i: nat)
    requires q.Tracks(h, now, i) && q.Asks(i) && CheckBudget(now, q.bs[i], q.outs, q.height).1 != Valid
    ensures q.Tracks(h, CheckBudget(now, q.bs[i], q.outs, q.height).0, i + 1)
  {
    CheckFromIs(now, q.bs[i], q.height, q.outs, 0, InValid);
    forall p: nat
      ensures p in Purge(now, q.bs[i]) <==> q.Survives(h, p, i + 1) || q.Noted(h, p, i)
      ensures p in Purge(now, q.bs[i]) ==> Purge(now, q.bs[i])[p] == if q.Survives(h, p, i + 1) then h[p] else q.height
      ensures q.Noted(h, p, i + 1) <==> q.Noted(h, p, i) || (q.Repeats(i, p) && !q.Survives(h, p, i + 1))
    {
      TracksPurged(q, h, now, i, p);
      NotedNext(q, h, p, i);
    }
  }

  /** A budget with one match accepts exactly if its proposal is not paid. */
  lemma AcceptsIff(q: Inquiry, h: History, now: History, i: nat)
    requires q.Tracks(h, now, i) && q.Candidate(i)
    ensures CheckBudget(now, q.bs[i], q.outs, q.height).1 == Valid <==> q.Sole(i) && !q.Paid(h, i)
    ensures CheckBudget(now, q.bs[i], q.outs, q.height).1 == Valid ==>
              q.LeftBy(h, i, CheckBudget(now, q.bs[i], q.outs, q.height).0)
  {
    CheckFromIs(now, q.bs[i], q.height, q.outs, 0, InValid);
    if q.Asks(i) {
      forall p: nat
        ensures p in Purge(now, q.bs[i]) <==> q.Survives(h, p, i + 1) || q.Noted(h, p, i)
        ensures p in Purge(now, q.bs[i]) ==> Purge(now, q.bs[i])[p] == if q.Survives(h, p, i + 1) then h[p] else q.height
      {
        TracksPurged(q, h, now, i, p);
      }
    }
  }

  /** The walk over the budgets ends in Valid exactly if one accepts, and the first that does decides. */
  lemma {:induction false} CheckAllIs(q: Inquiry, h: History, now: History, k: nat, status: Status, above: bool) returns (w: nat)
    requires q.Tracks(h, now, k) && k <= |q.bs| && status != Valid
    requires forall j: nat :: j < k && q.Sole(j) ==> q.Paid(h, j)
    ensures var r := CheckAll(now, q.bs, q.outs, q.height, q.threshold, k, status, above);
            if r.1 == Valid then q.Accepts(h, w) && q.LeftBy(h, w, r.0)
            else forall j: nat :: q.Sole(j) ==> q.Paid(h, j)
    decreases |q.bs| - k
  {
    w := k;
    if k < |q.bs| {
      if q.Candidate(k) {
        AcceptsIff(q, h, now, k);
        var (next, s) := CheckBudget(now, q.bs[k], q.outs, q.height);
        if s != Valid {
          NextTracks(q, h, now, k);
          w := CheckAllIs(q, h, next, k + 1, s, true);
        }
      } else {
        TracksQuiet(q, h, now, k);
        w := CheckAllIs(q, h, now, k + 1, status, above || q.bs[k].votes > q.threshold);
      }
    }
  }

  lemma NextTracks(q: Inquiry, h: History, now: History, k: nat)
    requires q.Tracks(h, now, k) && q.Candidate(k) && CheckBudget(now, q.bs[k], q.outs, q.height).1 != Valid
    ensures q.Tracks(h, CheckBudget(now, q.bs[k], q.outs, q.height).0, k + 1)
  {
    if q.Asks(k) {
      TracksRejected(q, h, now, k);
    } else {
      CheckFromIs(now, q.bs[k], q.height, q.outs, 0, InValid);
      TracksQuiet(q, h, now, k);
    }
  }

  /** The inquiry that IsTransactionValid makes. */
  function InquiryOf(bs: seq<Finalized>, outs: seq<Output>, height: int, enabled: nat): Inquiry {
    Inquiry(bs, outs, height, Highest(bs, height, |bs|, 0) - enabled / 10)
  }

  /** The checker finds a transaction valid exactly if the vote is high enough and some budget accepts it. */
  lemma CheckIsValidIff(h: History, bs: seq<Finalized>, outs: seq<Output>, height: int, enabled: nat)
    ensures var q := InquiryOf(bs, outs, height, enabled);
            Check(h, bs, outs, height, enabled).1 == Valid <==>
            Highest(bs, height, |bs|, 0) >= enabled / 20 && exists w: nat :: q.Sole(w) && !q.Paid(h, w)
  {
    var q := InquiryOf(bs, outs, height, enabled);
    TracksStart(q, h);
    var w := CheckAllIs(q, h, h, 0, InValid, false);
  }

  /** What a walk answers that does not end in Valid, from budget k on. */
  lemma {:induction false} CheckAllStatus(q: Inquiry, now: History, k: nat, status: Status, above: bool)
    requires k <= |q.bs| && CheckAll(now, q.bs, q.outs, q.height, q.threshold, k, status, above).1 != Valid
    ensures var r := CheckAll(now, q.bs, q.outs, q.height, q.threshold, k, status, above).1;
            && (forall w: nat :: k <= w && q.Last(w) ==> r == if q.Asks(w) then DoublePayment else InValid)
            && ((forall w: nat :: k <= w ==> !q.Candidate(w)) ==>
                r == if above || (exists w: nat :: k <= w && q.Above(w)) then status else VoteThreshold)
    decreases |q.bs| - k
  {
    if k < |q.bs| {
      if q.Candidate(k) {
        var (next, s) := CheckBudget(now, q.bs[k], q.outs, q.height);
        CheckFromIs(now, q.bs[k], q.height, q.outs, 0, InValid);
        CheckAllStatus(q, next, k + 1, s, true);
      } else {
        CheckAllStatus(q, now, k + 1, status, above || q.bs[k].votes > q.threshold);
        assert q.Above(k) <==> q.bs[k].votes > q.threshold;
      }
    }
  }

  lemma {:induction false} SomeLast(q: Inquiry, n: nat) returns (w: nat)
    requires exists k: nat :: k < n && q.Candidate(k)
    requires forall j: nat :: j >= n ==> !q.Candidate(j)
    ensures q.Last(w)
  {
    if q.Candidate(n - 1) {
      w := n - 1;
    } else {
      w := SomeLast(q, n - 1);
    }
  }

  /**
   Every answer of the checker: the vote is too low, no budget is above the threshold, one
   of them accepts, or the last one for the height has the last word.
   */
  lemma CheckStatusIs(h: History, bs: seq<Finalized>, outs: seq<Output>, height: int, enabled: nat)
    ensures var q, r := InquiryOf(bs, outs, height, enabled), Check(h, bs, outs, height, enabled).1;
            var enough := Highest(bs, height, |bs|, 0) >= enabled / 20;
            && (r == Valid <==> enough && exists w: nat :: q.Sole(w) && !q.Paid(h, w))
            && (r == VoteThreshold <==> enough && forall w: nat :: !q.Above(w))
            && (r == DoublePayment <==>
                  enough && r != Valid && exists w: nat :: q.Last(w) && (q.Repeats(w, q.Proposal(w)) || (q.Sole(w) && q.Paid(h, w))))
            && (r == InValid <==>
                  !enough || (r != Valid && (exists w: nat :: q.Above(w)) && forall w: nat :: q.Last(w) ==> !q.Asks(w)))
  {
    var q := InquiryOf(bs, outs, height, enabled);
    CheckIsValidIff(h, bs, outs, height, enabled);
    assert forall w: nat :: q.Sole(w) ==> q.Above(w);
    if Highest(bs, height, |bs|, 0) >= enabled / 20 && Check(h, bs, outs, height, enabled).1 != Valid {
      CheckAllStatus(q, h, 0, InValid, false);
      if k: nat :| q.Candidate(k) {
        var w := SomeLast(q, |bs|);
        assert q.Above(w);
        assert forall v: nat :: q.Last(v) ==> v == w;
      }
    }
  }

  /** The budget that accepts, and the history it leaves. */
  lemma CheckLeaves(h: History, bs: seq<Finalized>, outs: seq<Output>, height: int, enabled: nat) returns (k: nat)
    requires Check(h, bs, outs, height, enabled).1 == Valid
    ensures var q := InquiryOf(bs, outs, height, enabled);
            q.Accepts(h, k) && q.LeftBy(h, k, Check(h, bs, outs, height, enabled).0)
  {
    var q := InquiryOf(bs, outs, height, enabled);
    TracksStart(q, h);
    k := CheckAllIs(q, h, h, 0, InValid, false);
  }

  /** Survival in what budget k left, for a proposal that is not its own. */
  lemma SurvivesIn(q: Inquiry, h: History, k: nat, left: History, p: nat, i: nat)
    requires q.Candidate(k) && q.LeftBy(h, k, left) && p != q.Proposal(k)
    ensures q.Survives(left, p, i + 1) <==> q.Noted(h, p, k) || q.Survives(h, p, Max(k, i) + 1)
  {
    if q.Survives(h, p, k + 1) {
      assert left[p] == h[p];
      SurvivorIsNotNoted(q, h, p, k);
      assert q.Survives(left, p, i + 1) <==> q.Survives(h, p, Max(k, i) + 1);
    } else {
      SurvivesLess(q, h, p, k + 1, Max(k, i) + 1);
    }
  }

  /** In what budget k left, its own proposal is paid, and the others are as PaidAgain says. */
  lemma PaidIn(q: Inquiry, h: History, k: nat, left: History, w: nat)
    requires q.Candidate(k) && q.LeftBy(h, k, left) && q.Candidate(w)
    ensures q.Paid(left, w) <==> q.Proposal(w) == q.Proposal(k) || q.PaidAgain(h, k, w)
  {
    var p := q.Proposal(w);
    if p == q.Proposal(k) {
      assert q.Survives(left, p, w + 1);
    } else {
      forall i: nat ensures q.Survives(left, p, i + 1) <==> q.Noted(h, p, k) || q.Survives(h, p, Max(k, i) + 1) {
        SurvivesIn(q, h, k, left, p, i);
      }
    }
  }

  /**
   A transaction that was found valid is found valid again exactly if another budget above
   the threshold, for another proposal, has its payment among the outputs once and finds
   it unpaid in what the first check left.
   */
  lemma SecondCheckIsValidIff(h: History, bs: seq<Finalized>, outs: seq<Output>, height: int, enabled: nat) returns (k: nat)
    requires Check(h, bs, outs, height, enabled).1 == Valid
    ensures InquiryOf(bs, outs, height, enabled).Accepts(h, k)
    ensures var q, left := InquiryOf(bs, outs, height, enabled), Check(h, bs, outs, height, enabled).0;
            Check(left, bs, outs, height, enabled).1 == Valid <==>
            exists w: nat :: q.Sole(w) && q.Proposal(w) != q.Proposal(k) && !q.PaidAgain(h, k, w)
  {
    var q, left := InquiryOf(bs, outs, height, enabled), Check(h, bs, outs, height, enabled).0;
    CheckIsValidIff(h, bs, outs, height, enabled);
    k := CheckLeaves(h, bs, outs, height, enabled);
    CheckIsValidIff(left, bs, outs, height, enabled);
    forall w: nat | q.Sole(w) ensures q.Paid(left, w) <==> q.Proposal(w) == q.Proposal(k) || q.PaidAgain(h, k, w) {
      PaidIn(q, h, k, left, w);
    }
  }

  /** With one budget to accept it, a transaction is not found valid twice. */
  lemma SingleProposalIsNotRepeatable(h: History, bs: seq<Finalized>, outs: seq<Output>, height: int, enabled: nat)
    requires Check(h, bs, outs, height, enabled).1 == Valid
    requires var q := InquiryOf(bs, outs, height, enabled);
             forall v: nat, w: nat :: q.Sole(v) && q.Sole(w) ==> q.Proposal(v) == q.Proposal(w)
    ensures Check(Check(h, bs, outs, height, enabled).0, bs, outs, height, enabled).1 != Valid
  {
    var k := SecondCheckIsValidIff(h, bs, outs, height, enabled);
  }

  /** Two budgets of fifty votes with the same payment for two proposals: both checks find it valid. */
  lemma SecondCheckCanBeValid(first: Finalized, second: Finalized, out: Output)
    requires first == Finalized(100, [Payment(7, out)], 50) && second == Finalized(100, [Payment(8, out)], 50)
    ensures var bs := [first, second];
            && Check(map[], bs, [out], 100, 20).1 == Valid
            && Check(Check(map[], bs, [out], 100, 20).0, bs, [out], 100, 20).1 == Valid
  {
    var bs := [first, second];
    assert Highest(bs, 100, 2, 0) == 50 by {
      assert Highest(bs, 100, 1, 0) == 50 && Highest(bs, 100, 0, 0) == 0;
    }
    var q := InquiryOf(bs, [out], 100, 20);
    assert MatchCount(first, 100, [out], 0) == MatchCount(first, 100, [out], 1) + 1;
    assert MatchCount(second, 100, [out], 0) == MatchCount(second, 100, [out], 1) + 1;
    assert q.Sole(0) && q.Sole(1) && q.Proposal(0) == 7 && q.Proposal(1) == 8;
    forall p: nat, j: nat ensures !q.Repeats(j, p) {
    }
    assert !q.Paid(map[], 0) && !q.Paid(map[], 1);
    CheckIsValidIff(map[], bs, [out], 100, 20);
    var k := SecondCheckIsValidIff(map[], bs, [out], 100, 20);
    assert !q.PaidAgain(map[], k, 0) && !q.PaidAgain(map[], k, 1);
  }

  /** Nine masternodes, two of whom voted: the block pays the budget, and the checker refuses it. */
  lemma FewMasternodesRefuse(b: Finalized, out: Output)
    requires b == Finalized(100, [Payment(7, out)], 2)
    ensures IsPaymentBlock([b], 100, 9) && Fill([b], 100, [], true, 0) == [out]
    ensures Check(map[], [b], [out], 100, 9).1 == VoteThreshold
  {
    assert Highest([b], 100, 1, -1) == 2 by { assert Highest([b], 100, 0, -1) == -1; }
    assert Highest([b], 100, 1, 0) == 2 by { assert Highest([b], 100, 0, 0) == 0; }
    assert Winner([b], 100, 1) == 0;
    CheckStatusIs(map[], [b], [out], 100, 9);
  }

  // ---------------------------------------------------------------------------
  // The manager in place.

  /** Purged, except for the entries still to be looked at. */
  ghost predicate PurgedBut(h: History, b: Finalized, rest: History, now: History) {
    && (forall p: nat :: p in rest ==> p in h && rest[p] == h[p])
    && (forall p: nat :: p in now <==> p in h && (p in rest || b.InWindow(h[p])))
    && (forall p: nat :: p in now ==> now[p] == h[p])
  }

  lemma PurgedAll(h: History, b: Finalized, now: History)
    requires PurgedBut(h, b, map[], now)
    ensures now == Purge(h, b)
  {
    forall p: nat ensures p in now <==> p in Purge(h, b) {
    }
  }

  class BudgetManager {
    var budgets: seq<Finalized>
    var history: History

    constructor (budgets: seq<Finalized>)
      ensures this.budgets == budgets && history == map[]
    {
      this.budgets, history := budgets, map[];
    }

    method HighestCount(height: int, floor: int) returns (n: int)
      ensures n == Highest(budgets, height, |budgets|, floor)
    {
      n := floor;
      for k := 0 to |budgets|
        invariant n == Highest(budgets, height, k, floor)
      {
        if budgets[k].votes > n && height >= budgets[k].blockStart && height <= budgets[k].BlockEnd() {
          n := budgets[k].votes;
        }
      }
    }

    method IsBudgetPaymentBlock(height: int, enabled: nat) returns (r: bool)
      ensures r == IsPaymentBlock(budgets, height, enabled)
    {
      var n := HighestCount(height, -1);
      r := n > enabled / 20;
    }

    /** GetPayeeAndAmount. */
    static method GetPayment(b: Finalized, height: int) returns (found: bool, out: Output)
      ensures found == b.InWindow(height) && (found ==> out == b.PaymentAt(height).output)
    {
      out := Output(0, 0);
      var i := height - b.blockStart;
      if i < 0 {
        return false, out;
      }
      if i > |b.payments| - 1 {
        return false, out;
      }
      return true, b.payments[i].output;
    }

    /** The loop of FillBlockPayee; the payment is that of the last budget that had more votes. */
    method WinningPayment(height: int) returns (n: int, out: Output)
      ensures n == Highest(budgets, height, |budgets|, 0)
      ensures n > 0 ==> var w := Winner(budgets, height, |budgets|); out == budgets[w].PaymentAt(height).output
    {
      n, out := 0, Output(0, 0);
      for k := 0 to |budgets|
        invariant n == Highest(budgets, height, k, 0)
        invariant n > 0 ==> var w := Winner(budgets, height, k); w >= 0 && out == budgets[w].PaymentAt(height).output
      {
        if budgets[k].votes > n && height >= budgets[k].blockStart && height <= budgets[k].BlockEnd() {
          var found, payment := GetPayment(budgets[k], height);
          if found {
            n, out := budgets[k].votes, payment;
          }
        }
      }
    }

    method FillBlockPayee(height: int, vout: seq<Output>, proofOfStake: bool, blockValue: int) returns (r: seq<Output>)
      requires !proofOfStake ==> vout != []
      ensures r == Fill(budgets, height, vout, proofOfStake, blockValue)
    {
      var n, payment := WinningPayment(height);
      r := vout;
      if proofOfStake {
        if n > 0 {
          r := r + [payment];
        }
      } else {
        r := r[0 := r[0].(value := blockValue)];
        if n > 0 {
          r := [r[0], payment];
        }
      }
    }

    /** Walks the history in any order. */
    method IsPaidAlready(b: Finalized, proposal: nat, height: int) returns (paid: bool)
      modifies this`history
      ensures (history, paid) == Note(old(history), b, proposal, height)
    {
      var rest := history;
      while rest != map[]
        invariant PurgedBut(old(history), b, rest, history)
        decreases |rest|
      {
        var p :| p in rest;
        if rest[p] < b.blockStart || rest[p] > b.BlockEnd() {
          history := history - {p};
        }
        rest := rest - {p};
      }
      PurgedAll(old(history), b, history);
      if proposal !in history {
        history := history[proposal := height];
        return false;
      }
      paid := true;
    }

    /** CFinalizedBudget::IsTransactionValid. */
    method BudgetAccepts(b: Finalized, vout: seq<Output>, height: int) returns (status: Status)
      modifies this`history
      ensures (history, status) == CheckBudget(old(history), b, vout, height)
    {
      status := InValid;
      var i := height - b.blockStart;
      if i < 0 {
        return;
      }
      if i > |b.payments| - 1 {
        return;
      }
      for j := 0 to |vout|
        invariant CheckFrom(old(history), b, height, vout, 0, InValid) == CheckFrom(history, b, height, vout, j, status)
      {
        if b.payments[i].output == vout[j] {
          var paid := IsPaidAlready(b, b.payments[i].proposal, height);
          if paid {
            status := DoublePayment;
            return;
          }
          status := Valid;
        }
      }
    }

    /** CBudgetManager::IsTransactionValid. */
    method IsTransactionValid(vout: seq<Output>, height: int, enabled: nat) returns (status: Status)
      modifies this`history
      ensures (history, status) == Check(old(history), budgets, vout, height, enabled)
    {
      status := InValid;
      var n := HighestCount(height, 0);
      if n < enabled / 20 {
        return;
      }
      var threshold := n - enabled / 10;
      var fThreshold := false;
      for k := 0 to |budgets|
        invariant Check(old(history), budgets, vout, height, enabled)
                  == CheckAll(history, budgets, vout, height, threshold, k, status, fThreshold)
      {
        if budgets[k].votes > threshold {
          fThreshold := true;
          if height >= budgets[k].blockStart && height <= budgets[k].BlockEnd() {
            status := BudgetAccepts(budgets[k], vout, height);
            if status == Valid {
              return;
            }
          }
        }
      }
      if !fThreshold {
        status := VoteThreshold;
      }
    }
  }
}
