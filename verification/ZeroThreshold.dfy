/** Groups of threshold zero. Nothing on the chain excludes them, and none of their
    requests is ever decided. */
module ZeroThreshold {
  import opened Core
  import opened FrostSuite
  import opened Chain
  import opened Runs

  /** Where a request of such a group stands: untouched, or signing with no participants. */
  predicate Stalled(e: RequestEntry) {
    e.status == AwaitingCommitments(map[]) || e.status == Signing(SigningPackage(map[], e.message), {}, map[])
  }

  ghost predicate AllStalled(s: State) {
    && (s.ceremony.Some? ==> s.group.None?) && (s.group.None? ==> s.requests == map[])
    && (s.group.Some? && s.group.value.params.threshold == 0 ==>
          forall id {:trigger s.requests[id]} :: id in s.requests ==> Stalled(s.requests[id]))
  }

  /** At threshold zero nothing is taken of the commitments. */
  lemma NothingChosen(params: MpcParams, message: Message, cs: map<Identifier, Commitments>)
    requires params.threshold == 0
    ensures AfterCommitment(params, message, cs) == Signing(SigningPackage(map[], message), {}, map[])
  {
    var chosen := TakeSmallest(cs, 0);
    assert |chosen| == 0;
    assert chosen == map[];
  }

  lemma CommitmentTo(params: MpcParams, e: RequestEntry, v: Identifier, c: Commitments)
    requires params.threshold == 0
    ensures e.status.AwaitingCommitments? ==>
      AfterCommitment(params, e.message, e.status.commitments[v := c]) ==
      Signing(SigningPackage(map[], e.message), {}, map[])
  {
    if e.status.AwaitingCommitments? {
      NothingChosen(params, e.message, e.status.commitments[v := c]);
    }
  }

  lemma StaysStalled(frost: Frost, s: State, tx: Tx)
    requires AllStalled(s)
    ensures AllStalled(Step(frost, s, tx))
  {
    var s' := Step(frost, s, tx);
    if s'.group.Some? && s'.group.value.params.threshold == 0 {
      forall id | id in s'.requests ensures Stalled(s'.requests[id]) {
        if id in s.requests {
          assert Stalled(s.requests[id]);
          if tx.SubmitCommitment? {
            CommitmentTo(s.group.value.params, s.requests[id], tx.validator, tx.commitments);
          }
        }
      }
    }
  }

  lemma {:induction false} AlwaysStalled(frost: Frost, txs: seq<Tx>)
    ensures AllStalled(Deliver(frost, GENESIS, txs))
  {
    if txs == [] {
    } else {
      AlwaysStalled(frost, txs[..|txs| - 1]);
      StaysStalled(frost, Deliver(frost, GENESIS, txs[..|txs| - 1]), txs[|txs| - 1]);
    }
  }

  /** In a group of threshold zero a request takes one commitment of a member, is then
      said to be signing with an empty package, and accepts no share. */
  lemma NeverDecided(frost: Frost, txs: seq<Tx>, tx: Tx)
    requires var g := Deliver(frost, GENESIS, txs).group; g.Some? && g.value.params.threshold == 0
    requires tx.SubmitCommitment? || tx.SubmitShare?
    ensures var s := Deliver(frost, GENESIS, txs); var r := ApplyTx(frost, s, tx);
      && (r.Accepted? <==>
            && tx.SubmitCommitment? && tx.validator in s.group.value.validators
            && tx.requestId in s.requests && s.requests[tx.requestId].status == AwaitingCommitments(map[]))
      && (r.Accepted? ==>
            && tx.requestId in r.state.requests
            && r.state.requests[tx.requestId].status ==
                 Signing(SigningPackage(map[], s.requests[tx.requestId].message), {}, map[]))
  {
    AlwaysStalled(frost, txs);
    var s := Deliver(frost, GENESIS, txs);
    if tx.requestId in s.requests {
      assert Stalled(s.requests[tx.requestId]);
      if tx.SubmitCommitment? {
        CommitmentTo(s.group.value.params, s.requests[tx.requestId], tx.validator, tx.commitments);
      }
    }
  }
}
