/** When the transition function aborts, and why checked parameters rule it out.
    Nothing is assumed of the setup transactions here. */
module PanicFreedom {
  import opened Core
  import opened FrostSuite
  import opened Chain
  import opened Runs

  /** A ceremony for `total` participants was begun. */
  ghost predicate Begun(kept: seq<Tx>, total: nat) {
    exists i :: 0 <= i < |kept| && kept[i].DkgBegin? && kept[i].params.total == total
  }

  /** A running ceremony was begun with its total, and an empty one never ends. */
  ghost predicate Traced(s: State, kept: seq<Tx>) {
    && (s.ceremony.Some? ==> Begun(kept, s.ceremony.value.params.total))
    && (Begun(kept, 0) ==> s.ceremony.Some? && s.ceremony.value.params.total == 0)
  }

  lemma BegunNext(kept: seq<Tx>, tx: Tx, total: nat)
    ensures Begun(kept + [tx], total) <==> Begun(kept, total) || (tx.DkgBegin? && tx.params.total == total)
  {
    var all := kept + [tx];
    if Begun(kept, total) {
      var i :| 0 <= i < |kept| && kept[i].DkgBegin? && kept[i].params.total == total;
      assert all[i] == kept[i];
    }
    if tx.DkgBegin? && tx.params.total == total {
      assert all[|kept|] == tx;
    }
  }

  /** Only a setup transaction and the last finalization change which ceremony runs. */
  lemma CeremonyKept(frost: Frost, s: State, tx: Tx)
    requires ApplyTx(frost, s, tx).Accepted?
    ensures tx.DkgBegin? ==>
      s.ceremony.None?
        && ApplyTx(frost, s, tx).state.ceremony == Some(DkgCeremony(tx.params, tx.validators, map[], map[], map[]))
    ensures tx.InitGroup? ==> s.ceremony.None? && ApplyTx(frost, s, tx).state.ceremony.None?
    ensures tx.DkgFinalize? ==> s.ceremony.Some? && s.ceremony.value.params.total != 0
    ensures !tx.DkgBegin? && !tx.DkgFinalize? ==> (ApplyTx(frost, s, tx).state.ceremony.Some? <==> s.ceremony.Some?)
    ensures !tx.DkgBegin? && ApplyTx(frost, s, tx).state.ceremony.Some? ==>
      s.ceremony.Some? && ApplyTx(frost, s, tx).state.ceremony.value.params == s.ceremony.value.params
  {
  }

  lemma TracedNext(frost: Frost, s: State, kept: seq<Tx>, tx: Tx)
    requires Traced(s, kept) && ApplyTx(frost, s, tx).Accepted?
    ensures Traced(ApplyTx(frost, s, tx).state, kept + [tx])
  {
    var next := ApplyTx(frost, s, tx).state;
    CeremonyKept(frost, s, tx);
    BegunNext(kept, tx, 0);
    if next.ceremony.Some? {
      BegunNext(kept, tx, next.ceremony.value.params.total);
    }
  }

  lemma {:induction false} AlwaysTraced(frost: Frost, txs: seq<Tx>)
    ensures Traced(Deliver(frost, GENESIS, txs), Kept(frost, GENESIS, txs))
  {
    if txs == [] {
    } else {
      var front, tx := txs[..|txs| - 1], txs[|txs| - 1];
      AlwaysTraced(frost, front);
      if ApplyTx(frost, Deliver(frost, GENESIS, front), tx).Accepted? {
        TracedNext(frost, Deliver(frost, GENESIS, front), Kept(frost, GENESIS, front), tx);
      }
    }
  }

  /** The machine aborts exactly when a finalization reaches a chain that has
      accepted a ceremony for zero participants. */
  lemma PanicIff(frost: Frost, txs: seq<Tx>, tx: Tx)
    ensures ApplyTx(frost, Deliver(frost, GENESIS, txs), tx).Panicked? <==>
      tx.DkgFinalize? && Begun(Kept(frost, GENESIS, txs), 0)
  {
    AlwaysTraced(frost, txs);
    PanickedOn(frost, Deliver(frost, GENESIS, txs), tx);
  }

  lemma PanickedOn(frost: Frost, s: State, tx: Tx)
    ensures ApplyTx(frost, s, tx).Panicked? <==>
      tx.DkgFinalize? && s.ceremony.Some? && s.ceremony.value.params.total == 0
  {
  }

  // ------------------------------------------------------ without overflow checks

  const USIZE: nat := 0x1_0000_0000_0000_0000

  /** The round-2 barrier when the arithmetic wraps instead of aborting. */
  predicate WrappingR2Complete(c: DkgCeremony) {
    |c.round2| == Wrapped(c.params.total)
  }

  function Wrapped(n: nat): nat {
    (n * ((n - 1 + USIZE) % USIZE)) % USIZE
  }

  lemma SmallWrapped(n: nat)
    requires 1 <= n <= 0xFFFF
    ensures Wrapped(n) == n * (n - 1)
  {
    ProductBound(n);
    WrapsOnce(n - 1);
    SmallModulus(n * (n - 1));
  }

  lemma WrapsOnce(m: nat)
    requires m < USIZE
    ensures (m + USIZE) % USIZE == m
  {
  }

  lemma SmallModulus(m: nat)
    requires m < USIZE
    ensures m % USIZE == m
  {
  }

  /** The finalize branch in a build whose arithmetic wraps. */
  function ApplyFinalizeWrapping(s: State, from: Identifier, pkp: PublicKeyPackage): Outcome {
    if s.ceremony.None? then Rejected(NoCeremony)
    else PastBarrier(s, s.ceremony.value, WrappingR2Complete(s.ceremony.value), from, pkp)
  }

  /** A ceremony has as many validators as it says, and no envelopes without them. */
  ghost predicate Proportioned(s: State) {
    s.ceremony.Some? ==>
      var c := s.ceremony.value;
      |c.validators| == c.params.total && forall p :: p in c.round2 ==> p.0 in c.validators
  }

  lemma ProportionedNext(frost: Frost, s: State, tx: Tx)
    requires Proportioned(s) && ApplyTx(frost, s, tx).Accepted?
    ensures Proportioned(ApplyTx(frost, s, tx).state)
  {
  }

  lemma {:induction false} AlwaysProportioned(frost: Frost, txs: seq<Tx>)
    ensures Proportioned(Deliver(frost, GENESIS, txs))
  {
    if txs == [] {
    } else {
      var front, tx := txs[..|txs| - 1], txs[|txs| - 1];
      AlwaysProportioned(frost, front);
      if ApplyTx(frost, Deliver(frost, GENESIS, front), tx).Accepted? {
        ProportionedNext(frost, Deliver(frost, GENESIS, front), tx);
      }
    }
  }

  /** Without overflow checks nothing aborts, and nothing else changes: on every run
      the finalize branch does what it does with them, except that where it would
      abort it refuses the sender as unknown. */
  lemma WrappingIsHarmless(frost: Frost, txs: seq<Tx>, from: Identifier, pkp: PublicKeyPackage)
    ensures var s := Deliver(frost, GENESIS, txs); var r := ApplyFinalize(s, from, pkp);
      ApplyFinalizeWrapping(s, from, pkp) == if r.Panicked? then Rejected(UnknownDkgValidator(from)) else r
  {
    AlwaysProportioned(frost, txs);
    var s := Deliver(frost, GENESIS, txs);
    if s.ceremony.Some? {
      WrappingBarrier(s.ceremony.value);
    }
  }

  lemma WrappingBarrier(c: DkgCeremony)
    requires |c.validators| == c.params.total && forall p :: p in c.round2 ==> p.0 in c.validators
    ensures if c.params.total >= 1 then WrappingR2Complete(c) <==> c.R2Complete()
            else WrappingR2Complete(c) && c.validators == map[]
  {
    if c.params.total >= 1 {
      SmallWrapped(c.params.total);
    } else {
      assert c.validators == map[];
      forall p ensures p !in c.round2 { assert p in c.round2 ==> p.0 in c.validators; }
      assert c.round2 == map[];
    }
  }

  /** Setup parameters that went through the checked constructor. */
  predicate Checked(tx: Tx) {
    tx.InitGroup? || tx.DkgBegin? ==> NewParams(tx.params.threshold, tx.params.total).Ok?
  }

  /** With checked parameters no run aborts, `total - 1` never underflows, and the
      product behind the round-2 barrier fits 32 bits. */
  lemma NeverPanics(frost: Frost, txs: seq<Tx>, tx: Tx)
    requires forall i :: 0 <= i < |txs| ==> Checked(txs[i])
    ensures !ApplyTx(frost, Deliver(frost, GENESIS, txs), tx).Panicked?
    ensures var s := Deliver(frost, GENESIS, txs);
      s.ceremony.Some? ==>
        && s.ceremony.value.params.total - 1 >= 0
        && s.ceremony.value.params.total * (s.ceremony.value.params.total - 1) < 0x1_0000_0000
  {
    var s := Deliver(frost, GENESIS, txs);
    AlwaysTraced(frost, txs);
    KeptWasDelivered(frost, GENESIS, txs);
    PanickedOn(frost, s, tx);
    if s.ceremony.Some? {
      var kept, total := Kept(frost, GENESIS, txs), s.ceremony.value.params.total;
      var i :| 0 <= i < |kept| && kept[i].DkgBegin? && kept[i].params.total == total;
      assert kept[i] in kept && Checked(kept[i]);
      ProductBound(total);
    }
  }

  lemma ProductBound(n: nat)
    requires 1 <= n <= 0xFFFF
    ensures n * (n - 1) < 0x1_0000_0000
  {
    NonNegativeProduct(0xFFFF - n, n - 1);
    assert n * (n - 1) == 0xFFFF * (n - 1) - (0xFFFF - n) * (n - 1);
  }

  lemma NonNegativeProduct(a: nat, b: nat)
    ensures 0 <= a * b
  {
  }
}
