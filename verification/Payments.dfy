/**
 The tally of masternode payment votes (src/masternode-payments.h,
 src/masternode-payments.cpp): recorded winner messages, and for each height a list of
 payees with their votes, which must always equal a recount of the messages.
 */
module Payments {

  const SIGNATURES_REQUIRED: int := 6

  /** CMasternodePaymentWinner: who votes for whom at which height.  Scripts are numbers. */
  datatype Winner = Winner(outpoint: nat, height: int, payee: nat)

  datatype Payee = Payee(script: nat, votes: int)

  /** mapMasternodePayeeVotes by hash, and mapMasternodeBlocks by height. */
  datatype Tally = Tally(messages: map<nat, Winner>, blocks: map<int, seq<Payee>>)

  const EMPTY: Tally := Tally(map[], map[])

  // ---------------------------------------------------------------------------
  // The two ways to count.

  predicate Listed(list: seq<Payee>, script: nat, i: nat) {
    i < |list| && list[i].script == script
  }

  /** The votes listed for a payee; none if it is not listed. */
  function VotesIn(list: seq<Payee>, script: nat): int {
    if list == [] then 0
    else if list[0].script == script then list[0].votes
    else VotesIn(list[1..], script)
  }

  function VotesAt(t: Tally, height: int, script: nat): int {
    if height in t.blocks then VotesIn(t.blocks[height], script) else 0
  }

  /** The messages with that height and payee. */
  ghost function Messages(m: map<nat, Winner>, height: int, script: nat): set<nat> {
    set h: nat | h in m && m[h].height == height && m[h].payee == script
  }

  predicate NoDuplicates(list: seq<Payee>) {
    forall i, j :: 0 <= i < j < |list| ==> list[i].script != list[j].script
  }

  /** Every tally is a recount, and no payee is listed twice. */
  ghost predicate Exact(t: Tally) {
    && (forall height: int, script: nat :: VotesAt(t, height, script) == |Messages(t.messages, height, script)|)
    && (forall height :: height in t.blocks ==> NoDuplicates(t.blocks[height]))
  }

  // ---------------------------------------------------------------------------
  // Adding.

  function AddPayee(list: seq<Payee>, script: nat): seq<Payee> {
    if list == [] then [Payee(script, 1)]
    else if list[0].script == script then [list[0].(votes := list[0].votes + 1)] + list[1..]
    else [list[0]] + AddPayee(list[1..], script)
  }

  /** One more vote for that payee, and for no other. */
  lemma {:induction false} AddPayeeCounts(list: seq<Payee>, script: nat, other: nat)
    ensures VotesIn(AddPayee(list, script), other) == VotesIn(list, other) + if other == script then 1 else 0
  {
    if list != [] {
      var l := AddPayee(list, script);
      if list[0].script == script {
        assert l[1..] == list[1..];
      } else {
        assert l[1..] == AddPayee(list[1..], script);
        AddPayeeCounts(list[1..], script, other);
      }
    } else {
      assert [Payee(script, 1)][1..] == [];
    }
  }

  lemma {:induction false} AddPayeeScripts(list: seq<Payee>, script: nat)
    ensures |list| <= |AddPayee(list, script)| <= |list| + 1
    ensures forall i :: 0 <= i < |list| ==> AddPayee(list, script)[i].script == list[i].script
    ensures |AddPayee(list, script)| > |list| ==>
              AddPayee(list, script)[|list|].script == script && forall i :: 0 <= i < |list| ==> list[i].script != script
  {
    if list != [] && list[0].script != script {
      AddPayeeScripts(list[1..], script);
    }
  }

  /** The first entry of the payee is counted up. */
  lemma {:induction false} AddPayeeAt(list: seq<Payee>, script: nat, i: nat)
    requires i < |list| && list[i].script == script && forall j :: 0 <= j < i ==> list[j].script != script
    ensures AddPayee(list, script) == list[i := list[i].(votes := list[i].votes + 1)]
  {
    if i > 0 {
      AddPayeeAt(list[1..], script, i - 1);
    }
  }

  /** A payee without an entry gets one at the end. */
  lemma {:induction false} AddPayeeNew(list: seq<Payee>, script: nat)
    requires forall j :: 0 <= j < |list| ==> list[j].script != script
    ensures AddPayee(list, script) == list + [Payee(script, 1)]
  {
    if list != [] {
      AddPayeeNew(list[1..], script);
    }
  }

  lemma AddPayeeKeepsDistinct(list: seq<Payee>, script: nat)
    requires NoDuplicates(list)
    ensures NoDuplicates(AddPayee(list, script))
  {
    AddPayeeScripts(list, script);
  }

  /** AddWinningMasternode: a message is counted once, and only if the block it refers to is known. */
  function AddWinner(t: Tally, hash: nat, w: Winner, blockKnown: bool): Tally {
    if !blockKnown || hash in t.messages then t
    else
      var list := if w.height in t.blocks then t.blocks[w.height] else [];
      Tally(t.messages[hash := w], t.blocks[w.height := AddPayee(list, w.payee)])
  }

  lemma MessagesWithVote(m: map<nat, Winner>, hash: nat, w: Winner)
    requires hash !in m
    ensures Messages(m[hash := w], w.height, w.payee) == Messages(m, w.height, w.payee) + {hash}
  {
  }

  lemma MessagesElsewhere(m: map<nat, Winner>, hash: nat, w: Winner, height: int, script: nat)
    requires hash !in m && (w.height != height || w.payee != script)
    ensures Messages(m[hash := w], height, script) == Messages(m, height, script)
  {
  }

  lemma MessagesAfterAdd(m: map<nat, Winner>, hash: nat, w: Winner, height: int, script: nat)
    requires hash !in m
    ensures |Messages(m[hash := w], height, script)| ==
              |Messages(m, height, script)| + if w.height == height && w.payee == script then 1 else 0
  {
    if w.height == height && w.payee == script {
      MessagesWithVote(m, hash, w);
      assert hash !in Messages(m, height, script);
    } else {
      MessagesElsewhere(m, hash, w, height, script);
    }
  }

  lemma AddWinnerKeepsExact(t: Tally, hash: nat, w: Winner, blockKnown: bool)
    requires Exact(t)
    ensures Exact(AddWinner(t, hash, w, blockKnown))
  {
    var t' := AddWinner(t, hash, w, blockKnown);
    if t' != t {
      var list := if w.height in t.blocks then t.blocks[w.height] else [];
      AddPayeeKeepsDistinct(list, w.payee);
      forall height: int, script: nat ensures VotesAt(t', height, script) == |Messages(t'.messages, height, script)| {
        MessagesAfterAdd(t.messages, hash, w, height, script);
        AddPayeeCounts(list, w.payee, script);
        assert VotesAt(t, height, script) == |Messages(t.messages, height, script)|;
      }
    }
  }

  /** A message that is recorded gives its payee one vote at its height; otherwise nothing changes. */
  lemma AddWinnerCounts(t: Tally, hash: nat, w: Winner, blockKnown: bool)
    ensures blockKnown && hash !in t.messages ==>
      var t' := AddWinner(t, hash, w, blockKnown);
      && t'.messages == t.messages[hash := w]
      && forall height: int, script: nat ::
           VotesAt(t', height, script) == VotesAt(t, height, script) + if height == w.height && script == w.payee then 1 else 0
    ensures !blockKnown || hash in t.messages ==> AddWinner(t, hash, w, blockKnown) == t
  {
    var t' := AddWinner(t, hash, w, blockKnown);
    if blockKnown && hash !in t.messages {
      var list := if w.height in t.blocks then t.blocks[w.height] else [];
      forall height: int, script: nat
        ensures VotesAt(t', height, script) == VotesAt(t, height, script) + if height == w.height && script == w.payee then 1 else 0
      {
        AddPayeeCounts(list, w.payee, script);
      }
    }
  }

  // ---------------------------------------------------------------------------
  // Cleaning.

  predicate IsOld(w: Winner, nHeight: int, nLimit: int) {
    nHeight - w.height > nLimit
  }

  /** CleanPaymentList: old messages go, and with each the list of its height. */
  ghost predicate Cleaned(t: Tally, nHeight: int, nLimit: int, t': Tally) {
    && (forall h: nat :: h in t'.messages <==> h in t.messages && !IsOld(t.messages[h], nHeight, nLimit))
    && (forall h: nat :: h in t'.messages ==> t'.messages[h] == t.messages[h])
    && (forall height: int :: height in t'.blocks <==>
          height in t.blocks && !(exists h: nat :: h in t.messages && t.messages[h].height == height && IsOld(t.messages[h], nHeight, nLimit)))
    && (forall height: int :: height in t'.blocks ==> t'.blocks[height] == t.blocks[height])
  }

  lemma CleanKeepsExact(t: Tally, nHeight: int, nLimit: int, t': Tally)
    requires Exact(t) && Cleaned(t, nHeight, nLimit, t')
    ensures Exact(t')
  {
    forall height: int, script: nat ensures VotesAt(t', height, script) == |Messages(t'.messages, height, script)| {
      var before, after := Messages(t.messages, height, script), Messages(t'.messages, height, script);
      assert VotesAt(t, height, script) == |before|;
      if h: nat :| h in t.messages && t.messages[h].height == height && IsOld(t.messages[h], nHeight, nLimit) {
        assert height !in t'.blocks && after == {};
      } else {
        assert after == before;
      }
    }
  }

  // ---------------------------------------------------------------------------
  // Runs.

  datatype Event =
    | Vote(hash: nat, winner: Winner, blockKnown: bool)
    | Clean(nHeight: int, nLimit: int)

  ghost predicate Next(t: Tally, e: Event, t': Tally) {
    match e
    case Vote(hash, w, known) => t' == AddWinner(t, hash, w, known)
    case Clean(nHeight, nLimit) => Cleaned(t, nHeight, nLimit, t')
  }

  /** Across any run from nothing, the tally is a recount. */
  lemma {:induction false} RunIsExact(states: seq<Tally>, events: seq<Event>, n: nat)
    requires |states| == |events| + 1 && states[0] == EMPTY && n <= |events|
    requires forall i :: 0 <= i < |events| ==> Next(states[i], events[i], states[i + 1])
    ensures Exact(states[n])
  {
    if n == 0 {
      forall height: int, script: nat ensures Messages(map[], height, script) == {} {
      }
    } else {
      RunIsExact(states, events, n - 1);
      assert Next(states[n - 1], events[n - 1], states[n - 1 + 1]);
      match events[n - 1]
      case Vote(hash, w, known) => AddWinnerKeepsExact(states[n - 1], hash, w, known);
      case Clean(nHeight, nLimit) => CleanKeepsExact(states[n - 1], nHeight, nLimit, states[n]);
    }
  }

  /** Event i records a message of this hash, and no later one before n cleans it away. */
  ghost predicate StillRecorded(events: seq<Event>, n: nat, hash: nat, i: nat) {
    && i < n <= |events| && events[i].Vote? && events[i].hash == hash && events[i].blockKnown
    && forall j :: i < j < n && events[j].Clean? ==> !IsOld(events[i].winner, events[j].nHeight, events[j].nLimit)
  }

  /** The hash of a message identifies it. */
  ghost predicate HashIdentifies(events: seq<Event>) {
    forall i, j :: 0 <= i < |events| && 0 <= j < |events| && events[i].Vote? && events[j].Vote? && events[i].hash == events[j].hash ==>
      events[i].winner == events[j].winner
  }

  /** One more event, seen from the message recorded by event i. */
  lemma StillRecordedNext(events: seq<Event>, n: nat, hash: nat, i: nat)
    requires n < |events|
    ensures StillRecorded(events, n + 1, hash, i) <==>
              if i == n then events[n].Vote? && events[n].hash == hash && events[n].blockKnown
              else StillRecorded(events, n, hash, i) &&
                   (events[n].Clean? ==> !IsOld(events[i].winner, events[n].nHeight, events[n].nLimit))
  {
  }

  /**
   After any run, exactly those messages are recorded that came with a known block and
   that no later clean-up found old.
   */
  lemma {:induction false} RunRecords(states: seq<Tally>, events: seq<Event>, n: nat, hash: nat)
    requires |states| == |events| + 1 && states[0] == EMPTY && n <= |events| && HashIdentifies(events)
    requires forall i :: 0 <= i < |events| ==> Next(states[i], events[i], states[i + 1])
    ensures hash in states[n].messages <==> exists i: nat :: StillRecorded(events, n, hash, i)
    ensures forall i: nat :: StillRecorded(events, n, hash, i) ==> hash in states[n].messages && states[n].messages[hash] == events[i].winner
  {
    if n > 0 {
      var m := n - 1;
      RunRecords(states, events, m, hash);
      assert Next(states[m], events[m], states[m + 1]);
      forall i: nat ensures StillRecorded(events, n, hash, i) <==>
              if i == m then events[m].Vote? && events[m].hash == hash && events[m].blockKnown
              else StillRecorded(events, m, hash, i) &&
                   (events[m].Clean? ==> !IsOld(events[i].winner, events[m].nHeight, events[m].nLimit)) {
        StillRecordedNext(events, m, hash, i);
      }
      match events[m]
      case Vote(other, w, known) =>
        RecordVote(states, events, m, n, hash);
      case Clean(nHeight, nLimit) =>
    }
  }

  lemma RecordVote(states: seq<Tally>, events: seq<Event>, m: nat, n: nat, hash: nat)
    requires |states| == |events| + 1 && n == m + 1 <= |events| && HashIdentifies(events) && events[m].Vote?
    requires Next(states[m], events[m], states[n])
    requires hash in states[m].messages <==> exists i: nat :: StillRecorded(events, m, hash, i)
    requires forall i: nat :: StillRecorded(events, m, hash, i) ==> states[m].messages[hash] == events[i].winner
    ensures hash in states[n].messages <==> exists i: nat :: StillRecorded(events, n, hash, i)
    ensures forall i: nat :: StillRecorded(events, n, hash, i) ==> states[n].messages[hash] == events[i].winner
  {
    var e := events[m];
    AddWinnerCounts(states[m], e.hash, e.winner, e.blockKnown);
    forall i: nat ensures StillRecorded(events, n, hash, i) <==>
            if i == m then e.hash == hash && e.blockKnown else StillRecorded(events, m, hash, i) {
      StillRecordedNext(events, m, hash, i);
    }
    assert !StillRecorded(events, m, hash, m);
    if hash in states[m].messages {
      var i: nat :| StillRecorded(events, m, hash, i);
      assert StillRecorded(events, n, hash, i);
    } else if e.hash == hash && e.blockKnown {
      assert StillRecorded(events, n, hash, m);
    } else {
      assert forall i: nat :: !StillRecorded(events, n, hash, i);
    }
  }

  // ---------------------------------------------------------------------------
  // Reading a list.

  /** Entry k has the most votes, and is the first that does. */
  predicate FirstWithMost(list: seq<Payee>, k: nat) {
    && k < |list|
    && (forall i :: 0 <= i < |list| ==> list[i].votes <= list[k].votes)
    && (forall i :: 0 <= i < k ==> list[i].votes < list[k].votes)
  }

  /** CMasternodeBlockPayees::GetPayee. */
  method GetPayee(list: seq<Payee>) returns (found: bool, payee: nat)
    ensures found <==> exists i :: 0 <= i < |list| && list[i].votes >= 0
    ensures found ==> exists k: nat :: Listed(list, payee, k) && FirstWithMost(list, k)
  {
    var nVotes := -1;
    payee := 0;
    ghost var k: nat := 0;
    for i := 0 to |list|
      invariant nVotes >= -1
      invariant nVotes > -1 ==> k < i && list[k] == Payee(payee, nVotes) && forall j :: 0 <= j < k ==> list[j].votes < nVotes
      invariant forall j :: 0 <= j < i ==> list[j].votes <= nVotes
    {
      if list[i].votes > nVotes {
        payee, nVotes := list[i].script, list[i].votes;
        k := i;
      }
    }
    found := nVotes > -1;
    assert found ==> Listed(list, payee, k) && FirstWithMost(list, k);
  }

  method HasPayeeWithVotes(list: seq<Payee>, script: nat, nVotesReq: int) returns (r: bool)
    ensures r <==> exists i :: 0 <= i < |list| && list[i].script == script && list[i].votes >= nVotesReq
  {
    for i := 0 to |list|
      invariant forall j :: 0 <= j < i ==> !(list[j].script == script && list[j].votes >= nVotesReq)
    {
      if list[i].votes >= nVotesReq && list[i].script == script {
        return true;
      }
    }
    r := false;
  }

  predicate Required(p: Payee) {
    p.votes >= SIGNATURES_REQUIRED
  }

  method PaysTo(outputs: seq<nat>, script: nat) returns (found: bool)
    ensures found <==> script in outputs
  {
    found := false;
    for i := 0 to |outputs|
      invariant found <==> script in outputs[..i]
    {
      if script == outputs[i] {
        found := true;
      }
    }
    assert outputs[..|outputs|] == outputs;
  }

  /** CMasternodeBlockPayees::IsTransactionValid: one of the payees with enough votes is paid, if there is any. */
  method IsTransactionValid(list: seq<Payee>, outputs: seq<nat>) returns (ok: bool)
    ensures ok <==> (forall i :: 0 <= i < |list| ==> !Required(list[i])) ||
                    (exists i :: 0 <= i < |list| && Required(list[i]) && list[i].script in outputs)
  {
    var nMaxSignatures := 0;
    for i := 0 to |list|
      invariant nMaxSignatures == 0 || nMaxSignatures >= SIGNATURES_REQUIRED
      invariant nMaxSignatures == 0 <==> forall j :: 0 <= j < i ==> !Required(list[j])
    {
      if list[i].votes >= nMaxSignatures && list[i].votes >= SIGNATURES_REQUIRED {
        nMaxSignatures := list[i].votes;
      }
    }
    if nMaxSignatures < SIGNATURES_REQUIRED {
      return true;
    }
    for i := 0 to |list|
      invariant forall j :: 0 <= j < i ==> !(Required(list[j]) && list[j].script in outputs)
    {
      var found := PaysTo(outputs, list[i].script);
      if list[i].votes >= SIGNATURES_REQUIRED {
        if found {
          return true;
        }
      }
    }
    ok := false;
  }

  // ---------------------------------------------------------------------------
  // The manager in place.

  class PaymentManager {
    var messages: map<nat, Winner>
    var blocks: map<int, seq<Payee>>

    ghost function Value(): Tally
      reads this
    {
      Tally(messages, blocks)
    }

    constructor ()
      ensures Value() == EMPTY && Exact(Value())
    {
      messages, blocks := map[], map[];
      new;
      forall height: int, script: nat ensures Messages(map[], height, script) == {} {
      }
    }

    /** The loop of AddPayee over one list. */
    method CountVote(height: int, script: nat)
      requires height in blocks
      modifies this`blocks
      ensures blocks == old(blocks)[height := AddPayee(old(blocks)[height], script)]
    {
      var list := blocks[height];
      for i := 0 to |list|
        invariant blocks == old(blocks) && forall j :: 0 <= j < i ==> list[j].script != script
      {
        if list[i].script == script {
          AddPayeeAt(list, script, i);
          blocks := blocks[height := list[i := list[i].(votes := list[i].votes + 1)]];
          return;
        }
      }
      AddPayeeNew(list, script);
      blocks := blocks[height := list + [Payee(script, 1)]];
    }

    method AddWinningMasternode(hash: nat, winner: Winner, blockKnown: bool) returns (added: bool)
      requires Exact(Value())
      modifies this
      ensures Value() == AddWinner(old(Value()), hash, winner, blockKnown) && Exact(Value())
      ensures added <==> blockKnown && hash !in old(messages)
      ensures added ==> messages == old(messages)[hash := winner]
      ensures added ==> forall height: int, script: nat ::
        VotesAt(Value(), height, script) ==
        old(VotesAt(Value(), height, script)) + if height == winner.height && script == winner.payee then 1 else 0
      ensures !added ==> Value() == old(Value())
    {
      AddWinnerKeepsExact(Value(), hash, winner, blockKnown);
      AddWinnerCounts(Value(), hash, winner, blockKnown);
      if !blockKnown {
        return false;
      }
      if hash in messages {
        return false;
      }
      messages := messages[hash := winner];
      if winner.height !in blocks {
        blocks := blocks[winner.height := []];
      }
      CountVote(winner.height, winner.payee);
      added := true;
    }

    /** Walks the messages in any order. */
    method CleanPaymentList(nHeight: int, nLimit: int)
      requires Exact(Value())
      modifies this
      ensures Cleaned(old(Value()), nHeight, nLimit, Value()) && Exact(Value())
    {
      ghost var t := Value();
      var rest := messages;
      while rest != map[]
        invariant CleanedBut(t, nHeight, nLimit, rest, Value())
        decreases |rest|
      {
        var h :| h in rest;
        var winner := rest[h];
        CleanStep(t, nHeight, nLimit, rest, Value(), h);
        if nHeight - winner.height > nLimit {
          messages := messages - {h};
          blocks := blocks - {winner.height};
        }
        rest := rest - {h};
      }
      CleanKeepsExact(t, nHeight, nLimit, Value());
    }
  }

  /** Cleaned, except for the messages still to be looked at. */
  ghost predicate CleanedBut(t: Tally, nHeight: int, nLimit: int, rest: map<nat, Winner>, t': Tally) {
    && (forall h: nat :: h in rest ==> h in t.messages && rest[h] == t.messages[h])
    && (forall h: nat :: h in t'.messages <==> h in t.messages && (h in rest || !IsOld(t.messages[h], nHeight, nLimit)))
    && (forall h: nat :: h in t'.messages ==> t'.messages[h] == t.messages[h])
    && (forall height: int :: height in t'.blocks <==>
          height in t.blocks &&
          !(exists h: nat :: h in t.messages && h !in rest && t.messages[h].height == height && IsOld(t.messages[h], nHeight, nLimit)))
    && (forall height: int :: height in t'.blocks ==> t'.blocks[height] == t.blocks[height])
  }

  lemma CleanStep(t: Tally, nHeight: int, nLimit: int, rest: map<nat, Winner>, now: Tally, h: nat)
    requires CleanedBut(t, nHeight, nLimit, rest, now) && h in rest
    ensures CleanedBut(t, nHeight, nLimit, rest - {h},
                       if IsOld(rest[h], nHeight, nLimit) then Tally(now.messages - {h}, now.blocks - {rest[h].height}) else now)
  {
    assert h in t.messages && rest[h] == t.messages[h];
  }
}
