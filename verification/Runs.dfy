/** Whole runs of the chain from genesis: every replica folds `ApplyTx` over the
    transactions it is delivered and drops the ones that fail. */
module Runs {
  import opened FrostSuite
  import opened Chain
  import opened Ledgers
  import opened Acceptance

  function Step(frost: Frost, s: State, tx: Tx): State {
    match ApplyTx(frost, s, tx)
    case Accepted(next) => next
    case _ => s
  }

  function Deliver(frost: Frost, s: State, txs: seq<Tx>): State {
    if txs == [] then s
    else Step(frost, Deliver(frost, s, txs[..|txs| - 1]), txs[|txs| - 1])
  }

  /** The delivered transactions that were accepted, in order. */
  function Kept(frost: Frost, s: State, txs: seq<Tx>): seq<Tx> {
    if txs == [] then []
    else
      var before := Deliver(frost, s, txs[..|txs| - 1]);
      var kept := Kept(frost, s, txs[..|txs| - 1]);
      if ApplyTx(frost, before, txs[|txs| - 1]).Accepted? then kept + [txs[|txs| - 1]] else kept
  }

  ghost predicate AllSound(txs: seq<Tx>) {
    forall i :: 0 <= i < |txs| ==> SoundSetup(txs[i])
  }

  /** The setup transaction the run accepted, if any, is sound. Refused setup
      transactions may be anything. */
  ghost predicate SoundRun(frost: Frost, txs: seq<Tx>) {
    AllSound(Kept(frost, GENESIS, txs))
  }

  /** The ledger of the accepted transactions of a run from genesis. */
  ghost function LedgerOf(frost: Frost, txs: seq<Tx>): Ledger {
    if txs == [] then map[]
    else
      var tx := txs[|txs| - 1];
      var L := LedgerOf(frost, txs[..|txs| - 1]);
      if ApplyTx(frost, Deliver(frost, GENESIS, txs[..|txs| - 1]), tx).Accepted? then L[SlotOf(tx) := tx] else L
  }

  lemma SoundBefore(frost: Frost, txs: seq<Tx>)
    requires txs != [] && SoundRun(frost, txs)
    ensures SoundRun(frost, txs[..|txs| - 1])
    ensures ApplyTx(frost, Deliver(frost, GENESIS, txs[..|txs| - 1]), txs[|txs| - 1]).Accepted? ==>
      SoundSetup(txs[|txs| - 1])
  {
    var front := Kept(frost, GENESIS, txs[..|txs| - 1]);
    var kept := Kept(frost, GENESIS, txs);
    assert forall i :: 0 <= i < |front| ==> front[i] == kept[i];
    assert |kept| > |front| ==> kept[|front|] == txs[|txs| - 1];
  }

  /** Every state of every run is the view of the ledger of what was accepted. */
  lemma {:induction false} RunIsView(frost: Frost, txs: seq<Tx>)
    requires SoundRun(frost, txs)
    ensures Admissible(LedgerOf(frost, txs))
    ensures Deliver(frost, GENESIS, txs) == View(frost, LedgerOf(frost, txs))
  {
    if txs == [] {
    } else {
      SoundBefore(frost, txs);
      RunIsView(frost, txs[..|txs| - 1]);
      AcceptIff(frost, LedgerOf(frost, txs[..|txs| - 1]), txs[|txs| - 1]);
    }
  }

  /** One more delivery: it is accepted iff it extends the ledger. */
  lemma NextDelivery(frost: Frost, txs: seq<Tx>)
    requires txs != [] && SoundRun(frost, txs)
    ensures var front, tx := txs[..|txs| - 1], txs[|txs| - 1];
      && SoundRun(frost, front) && Admissible(LedgerOf(frost, front))
      && (ApplyTx(frost, Deliver(frost, GENESIS, front), tx).Accepted? <==> Extends(LedgerOf(frost, front), tx))
      && LedgerOf(frost, txs) == if Extends(LedgerOf(frost, front), tx) then LedgerOf(frost, front)[SlotOf(tx) := tx]
                                 else LedgerOf(frost, front)
  {
    SoundBefore(frost, txs);
    RunIsView(frost, txs[..|txs| - 1]);
    AcceptIff(frost, LedgerOf(frost, txs[..|txs| - 1]), txs[|txs| - 1]);
  }

  /** On a chain that has been set up, no soundness is needed of what comes next. */
  lemma AcceptedIffExtends(frost: Frost, txs: seq<Tx>, tx: Tx)
    requires SoundRun(frost, txs) && (LedgerOf(frost, txs) == map[] ==> SoundSetup(tx))
    ensures Admissible(LedgerOf(frost, txs))
    ensures ApplyTx(frost, Deliver(frost, GENESIS, txs), tx).Accepted? <==> Extends(LedgerOf(frost, txs), tx)
  {
    RunIsView(frost, txs);
    AcceptIff(frost, LedgerOf(frost, txs), tx);
  }

  lemma SoundAsDelivered(frost: Frost, txs: seq<Tx>)
    requires AllSound(txs)
    ensures SoundRun(frost, txs)
  {
    KeptWasDelivered(frost, GENESIS, txs);
    var kept := Kept(frost, GENESIS, txs);
    forall i | 0 <= i < |kept| ensures SoundSetup(kept[i]) {
      assert kept[i] in kept;
    }
  }

  lemma SoundPrefix(frost: Frost, xs: seq<Tx>, ys: seq<Tx>)
    requires SoundRun(frost, xs + ys)
    ensures SoundRun(frost, xs)
  {
    DeliverAppend(frost, GENESIS, xs, ys);
    var front, kept := Kept(frost, GENESIS, xs), Kept(frost, GENESIS, xs + ys);
    assert forall i :: 0 <= i < |front| ==> front[i] == kept[i];
  }

  /** Delivering an acceptable transaction adds exactly that entry. */
  lemma DeliverOne(frost: Frost, txs: seq<Tx>, tx: Tx)
    requires SoundRun(frost, txs)
    requires Extends(LedgerOf(frost, txs), tx)
    ensures SoundRun(frost, txs + [tx]) && SoundSetup(tx)
    ensures ApplyTx(frost, Deliver(frost, GENESIS, txs), tx).Accepted?
    ensures LedgerOf(frost, txs + [tx]) == LedgerOf(frost, txs)[SlotOf(tx) := tx]
    ensures Kept(frost, GENESIS, txs + [tx]) == Kept(frost, GENESIS, txs) + [tx]
  {
    ExtensionIsSound(LedgerOf(frost, txs), tx);
    AcceptedIffExtends(frost, txs, tx);
    assert (txs + [tx])[..|txs + [tx]| - 1] == txs;
  }

  /** The ledger holds exactly the accepted transactions, one slot each. */
  lemma {:induction false} LedgerHoldsKept(frost: Frost, txs: seq<Tx>)
    requires SoundRun(frost, txs)
    ensures forall tx :: tx in Kept(frost, GENESIS, txs) <==>
      SlotOf(tx) in LedgerOf(frost, txs) && LedgerOf(frost, txs)[SlotOf(tx)] == tx
    ensures |Kept(frost, GENESIS, txs)| == |LedgerOf(frost, txs)|
  {
    if txs == [] {
    } else {
      var prefix := txs[..|txs| - 1];
      NextDelivery(frost, txs);
      LedgerHoldsKept(frost, prefix);
    }
  }

  lemma {:induction false} KeptWasDelivered(frost: Frost, s: State, txs: seq<Tx>)
    ensures forall tx :: tx in Kept(frost, s, txs) ==> tx in txs
  {
    if txs == [] {
    } else {
      KeptWasDelivered(frost, s, txs[..|txs| - 1]);
    }
  }

  lemma SameKeptSameLedger(frost: Frost, xs: seq<Tx>, ys: seq<Tx>)
    requires SoundRun(frost, xs) && SoundRun(frost, ys)
    requires forall tx :: tx in Kept(frost, GENESIS, xs) <==> tx in Kept(frost, GENESIS, ys)
    ensures LedgerOf(frost, xs) == LedgerOf(frost, ys)
  {
    LedgerHoldsKept(frost, xs);
    LedgerHoldsKept(frost, ys);
    RunIsView(frost, xs);
    RunIsView(frost, ys);
    var X, Y := LedgerOf(frost, xs), LedgerOf(frost, ys);
    forall k | k in X ensures k in Y && Y[k] == X[k] {
      assert SlotOf(X[k]) == k && X[k] in Kept(frost, GENESIS, xs);
    }
    forall k | k in Y ensures k in X && X[k] == Y[k] {
      assert SlotOf(Y[k]) == k && Y[k] in Kept(frost, GENESIS, ys);
    }
  }

  ghost predicate FullyAccepted(frost: Frost, txs: seq<Tx>) {
    Kept(frost, GENESIS, txs) == txs
  }

  /** Accepted-run confluence: fully accepted permutations end in the same state. */
  lemma Confluence(frost: Frost, xs: seq<Tx>, ys: seq<Tx>)
    requires SoundRun(frost, xs) && SoundRun(frost, ys)
    requires FullyAccepted(frost, xs) && FullyAccepted(frost, ys)
    requires multiset(xs) == multiset(ys)
    ensures Deliver(frost, GENESIS, xs) == Deliver(frost, GENESIS, ys)
  {
    forall tx ensures tx in xs <==> tx in ys {
      assert tx in multiset(xs) <==> tx in xs;
      assert tx in multiset(ys) <==> tx in ys;
    }
    SameKeptSameLedger(frost, xs, ys);
    RunIsView(frost, xs);
    RunIsView(frost, ys);
  }

  /** Two runs that accepted the same set of transactions, in whatever order and
      among whatever rejected ones, are in the same state. */
  lemma StateIsAFunctionOfTheAcceptedSet(frost: Frost, xs: seq<Tx>, ys: seq<Tx>)
    requires SoundRun(frost, xs) && SoundRun(frost, ys)
    requires forall tx :: tx in Kept(frost, GENESIS, xs) <==> tx in Kept(frost, GENESIS, ys)
    ensures Deliver(frost, GENESIS, xs) == Deliver(frost, GENESIS, ys)
  {
    SameKeptSameLedger(frost, xs, ys);
    RunIsView(frost, xs);
    RunIsView(frost, ys);
  }

  lemma DeliverTwo(frost: Frost, s: State, a: Tx, b: Tx)
    ensures Deliver(frost, s, [a, b]) == Step(frost, Step(frost, s, a), b)
  {
    var one, two := [a], [a, b];
    assert one[..|one| - 1] == [] && two[..|two| - 1] == one;
    assert Deliver(frost, s, one) == Step(frost, s, a);
  }

  lemma {:induction false} DeliverAppend(frost: Frost, s: State, xs: seq<Tx>, ys: seq<Tx>)
    ensures Deliver(frost, s, xs + ys) == Deliver(frost, Deliver(frost, s, xs), ys)
    ensures Kept(frost, s, xs + ys) == Kept(frost, s, xs) + Kept(frost, Deliver(frost, s, xs), ys)
  {
    if ys == [] {
      assert xs + ys == xs;
    } else {
      DeliverAppend(frost, s, xs, ys[..|ys| - 1]);
      assert (xs + ys)[..|xs + ys| - 1] == xs + ys[..|ys| - 1];
    }
  }

  ghost function Flatten(batches: seq<seq<Tx>>): seq<Tx> {
    if batches == [] then [] else Flatten(batches[..|batches| - 1]) + batches[|batches| - 1]
  }

  // ------------------------------------------------------ re-delivery

  lemma {:induction false} LedgerGrows(frost: Frost, xs: seq<Tx>, ys: seq<Tx>)
    requires SoundRun(frost, xs + ys)
    ensures SoundRun(frost, xs)
    ensures forall k :: k in LedgerOf(frost, xs) ==>
      k in LedgerOf(frost, xs + ys) && LedgerOf(frost, xs + ys)[k] == LedgerOf(frost, xs)[k]
  {
    if ys == [] {
      assert xs + ys == xs;
    } else {
      assert (xs + ys)[..|xs + ys| - 1] == xs + ys[..|ys| - 1];
      NextDelivery(frost, xs + ys);
      LedgerGrows(frost, xs, ys[..|ys| - 1]);
    }
  }

  /** Once a slot is filled, every later transaction for that slot is rejected:
      an accepted transaction is accepted at most once. */
  lemma AtMostOnce(frost: Frost, xs: seq<Tx>, tx: Tx, ys: seq<Tx>, again: Tx)
    requires SoundRun(frost, xs + [tx] + ys)
    requires ApplyTx(frost, Deliver(frost, GENESIS, xs), tx).Accepted?
    requires SlotOf(again) == SlotOf(tx)
    ensures ApplyTx(frost, Deliver(frost, GENESIS, xs + [tx] + ys), again).Rejected?
  {
    assert (xs + [tx])[..|xs + [tx]| - 1] == xs;
    assert SlotOf(tx) in LedgerOf(frost, xs + [tx]);
    LedgerGrows(frost, xs + [tx], ys);
    RunIsView(frost, xs + [tx] + ys);
    AcceptIff(frost, LedgerOf(frost, xs + [tx] + ys), again);
  }

  /** The sublist of `txs` without the positions marked as repeats. */
  ghost function Originals(txs: seq<Tx>, repeat: seq<bool>): seq<Tx>
    requires |repeat| == |txs|
  {
    if txs == [] then []
    else
      var rest := Originals(txs[..|txs| - 1], repeat[..|txs| - 1]);
      if repeat[|txs| - 1] then rest else rest + [txs[|txs| - 1]]
  }

  /** Inserting re-deliveries of already accepted transactions changes nothing. */
  lemma {:induction false} RedeliveryIsInert(frost: Frost, txs: seq<Tx>, repeat: seq<bool>)
    requires SoundRun(frost, txs)
    requires |repeat| == |txs|
    requires forall j :: 0 <= j < |txs| && repeat[j] ==> txs[j] in Kept(frost, GENESIS, txs[..j])
    ensures Deliver(frost, GENESIS, txs) == Deliver(frost, GENESIS, Originals(txs, repeat))
    ensures Kept(frost, GENESIS, txs) == Kept(frost, GENESIS, Originals(txs, repeat))
  {
    if txs == [] {
    } else {
      var last := |txs| - 1;
      var prefix := txs[..last];
      forall j | 0 <= j < last && repeat[..last][j] ensures prefix[j] in Kept(frost, GENESIS, prefix[..j]) {
        assert prefix[..j] == txs[..j];
      }
      SoundBefore(frost, txs);
      RedeliveryIsInert(frost, prefix, repeat[..last]);
      var kept := Originals(prefix, repeat[..last]);
      if repeat[last] {
        KeptIsRejected(frost, prefix, txs[last]);
      } else {
        assert (kept + [txs[last]])[..|kept|] == kept;
      }
    }
  }

  lemma KeptIsRejected(frost: Frost, txs: seq<Tx>, tx: Tx)
    requires SoundRun(frost, txs) && tx in Kept(frost, GENESIS, txs)
    ensures !ApplyTx(frost, Deliver(frost, GENESIS, txs), tx).Accepted?
  {
    LedgerHoldsKept(frost, txs);
    RunIsView(frost, txs);
    AcceptIff(frost, LedgerOf(frost, txs), tx);
  }
}
