/** The in-process chain simulator and what a block commit amounts to. */
module Sim {
  import opened FrostSuite
  import opened Chain
  import opened Runs

  datatype TxResult = Applied | Dropped(error: ApplyError) | Aborted

  function ResultOf(o: Outcome): TxResult {
    match o
    case Accepted(_) => Applied
    case Rejected(e) => Dropped(e)
    case Panicked => Aborted
  }

  /** What a block commit reports, transaction by transaction. */
  function Results(frost: Frost, s: State, txs: seq<Tx>): seq<(Tx, TxResult)> {
    if txs == [] then []
    else
      var front, tx := txs[..|txs| - 1], txs[|txs| - 1];
      Results(frost, s, front) + [(tx, ResultOf(ApplyTx(frost, Deliver(frost, s, front), tx)))]
  }

  lemma NextResult(frost: Frost, s: State, txs: seq<Tx>, i: nat)
    requires i < |txs|
    ensures var before := Deliver(frost, s, txs[..i]); var outcome := ApplyTx(frost, before, txs[i]);
      && Results(frost, s, txs[..i + 1]) == Results(frost, s, txs[..i]) + [(txs[i], ResultOf(outcome))]
      && Deliver(frost, s, txs[..i + 1]) == (if outcome.Accepted? then outcome.state else before)
      && Kept(frost, s, txs[..i + 1]) ==
           (if outcome.Accepted? then Kept(frost, s, txs[..i]) + [txs[i]] else Kept(frost, s, txs[..i]))
  {
    assert txs[..i + 1][..i] == txs[..i];
  }

  /** A block reports every transaction, in order: applied if the machine accepts it
      where it stands, dropped with the machine's own error if it refuses. */
  lemma {:induction false} ReportedAsDelivered(frost: Frost, s: State, txs: seq<Tx>, i: nat)
    requires i < |txs|
    ensures |Results(frost, s, txs)| == |txs| && Results(frost, s, txs)[i].0 == txs[i]
    ensures var report, outcome := Results(frost, s, txs)[i].1, ApplyTx(frost, Deliver(frost, s, txs[..i]), txs[i]);
      && (report == Applied <==> outcome.Accepted?)
      && (report == Aborted <==> outcome.Panicked?)
      && forall e :: report == Dropped(e) <==> outcome == Rejected(e)
  {
    var front := txs[..|txs| - 1];
    if i == |txs| - 1 {
      ResultsLength(frost, s, front);
    } else {
      ReportedAsDelivered(frost, s, front, i);
      assert front[..i] == txs[..i];
    }
  }

  lemma {:induction false} ResultsLength(frost: Frost, s: State, txs: seq<Tx>)
    ensures |Results(frost, s, txs)| == |txs|
  {
    if txs == [] {
    } else {
      ResultsLength(frost, s, txs[..|txs| - 1]);
    }
  }

  class ChainSim {
    var state: State
    var mempool: seq<Tx>
    var blockHeight: nat
    var lastBlock: seq<Tx>

    constructor ()
      ensures state == GENESIS && mempool == [] && blockHeight == 0 && lastBlock == []
    {
      state, mempool, blockHeight, lastBlock := GENESIS, [], 0, [];
    }

    method Submit(tx: Tx)
      modifies this`mempool
      ensures mempool == old(mempool) + [tx]
    {
      mempool := mempool + [tx];
    }

    /** Drains the mempool in order, dropping what fails. */
    method CommitBlock(frost: Frost) returns (results: seq<(Tx, TxResult)>)
      modifies this
      ensures state == Deliver(frost, old(state), old(mempool))
      ensures lastBlock == Kept(frost, old(state), old(mempool))
      ensures mempool == []
      ensures blockHeight == old(blockHeight) + 1
      ensures results == Results(frost, old(state), old(mempool))
    {
      ghost var all, start := mempool, state;
      var accepted: seq<Tx> := [];
      results := [];
      var next := state;
      ghost var done := 0;
      while mempool != []
        invariant 0 <= done <= |all| && mempool == all[done..]
        invariant next == Deliver(frost, start, all[..done])
        invariant accepted == Kept(frost, start, all[..done])
        invariant results == Results(frost, start, all[..done])
        invariant blockHeight == old(blockHeight)
        decreases |mempool|
      {
        NextResult(frost, start, all, done);
        var tx := mempool[0];
        mempool := mempool[1..];
        var outcome := ApplyTx(frost, next, tx);
        results := results + [(tx, ResultOf(outcome))];
        if outcome.Accepted? {
          next := outcome.state;
          accepted := accepted + [tx];
        }
        done := done + 1;
      }
      assert all[..done] == all;
      state := next;
      lastBlock := accepted;
      blockHeight := blockHeight + 1;
    }
  }

  /** Block refinement: replaying only the accepted transactions of a block from
      the old state accepts every one of them and reaches the new state. */
  lemma {:induction false} ReplayLastBlock(frost: Frost, s: State, txs: seq<Tx>)
    ensures Deliver(frost, s, Kept(frost, s, txs)) == Deliver(frost, s, txs)
    ensures Kept(frost, s, Kept(frost, s, txs)) == Kept(frost, s, txs)
  {
    if txs == [] {
    } else {
      var prefix, tx := txs[..|txs| - 1], txs[|txs| - 1];
      ReplayLastBlock(frost, s, prefix);
      var kept := Kept(frost, s, prefix);
      assert (kept + [tx])[..|kept + [tx]| - 1] == kept;
    }
  }

  ghost function CommitAll(frost: Frost, s: State, blocks: seq<seq<Tx>>): State {
    if blocks == [] then s
    else Deliver(frost, CommitAll(frost, s, blocks[..|blocks| - 1]), blocks[|blocks| - 1])
  }

  /** Cutting a stream of transactions into blocks anywhere makes no difference. */
  lemma {:induction false} BlockCutsDoNotMatter(frost: Frost, s: State, blocks: seq<seq<Tx>>, other: seq<seq<Tx>>)
    requires Flatten(blocks) == Flatten(other)
    ensures CommitAll(frost, s, blocks) == CommitAll(frost, s, other)
  {
    CommitAllIsDeliver(frost, s, blocks);
    CommitAllIsDeliver(frost, s, other);
  }

  lemma {:induction false} CommitAllIsDeliver(frost: Frost, s: State, blocks: seq<seq<Tx>>)
    ensures CommitAll(frost, s, blocks) == Deliver(frost, s, Flatten(blocks))
  {
    if blocks == [] {
    } else {
      var front := blocks[..|blocks| - 1];
      CommitAllIsDeliver(frost, s, front);
      DeliverAppend(frost, s, Flatten(front), blocks[|blocks| - 1]);
    }
  }
}
