/** The precise filter one wallet hands to the SPV syncer, and one pass of it over a block
    (spv/rescan.go, and LoadTxFilter of spv/backend.go).

    Wire structures carry the results of the library calls made on them: a transaction its
    hash and stake type, an output the addresses extracted from its script. */
module SpvFilter {
  type Hash = string
  type Address = string
  type Script = string

  datatype Tree = RegularTree | StakeTree

  datatype TxType = TypeRegular | TypeVote | TypeOtherStake

  datatype OutPoint = OutPoint(hash: Hash, index: nat, tree: Tree)

  datatype TxOut = TxOut(script: Script, addrs: seq<Address>)

  datatype MsgTx = MsgTx(hash: Hash, stakeType: TxType, ins: seq<OutPoint>, outs: seq<TxOut>)

  // A transaction is classified as a vote only when it has a stakebase input.
  type Tx = t: MsgTx | t.stakeType.TypeVote? ==> |t.ins| > 0 witness MsgTx("", TypeRegular, [], [])

  datatype Block = Block(hash: Hash, stakeTxs: seq<Tx>, regularTxs: seq<Tx>)
  {
    function Txs(tree: Tree): seq<Tx> { if tree.StakeTree? then stakeTxs else regularTxs }
  }

  /** Watched addresses and outpoints, and the scripts tested against compact filters. */
  datatype Filter = Filter(addrs: set<Address>, outpoints: set<OutPoint>, data: set<Script>)

  const EMPTY_FILTER := Filter({}, {}, {})

  /** What scanning one block yields: the new filter, the matched transactions and the
      filter data the scan added. */
  datatype Outcome = Outcome(filter: Filter, matches: seq<Tx>, fadded: set<Script>)

  // ----- which transactions a pass must find -----

  /** Inputs that reference a previous output: none for a coinbase, all but the stakebase
      for a vote. */
  function SpendingInputs(txs: seq<Tx>, i: nat, tree: Tree): seq<OutPoint>
    requires i < |txs|
  {
    var stakeType := if tree.StakeTree? then txs[i].stakeType else TypeRegular;
    if i == 0 && stakeType.TypeRegular? then []
    else if stakeType.TypeVote? then txs[i].ins[1..]
    else txs[i].ins
  }

  predicate PaysWatched(out: TxOut, addrs: set<Address>) {
    exists j :: 0 <= j < |out.addrs| && out.addrs[j] in addrs
  }

  predicate TxPaysWatched(tx: Tx, addrs: set<Address>) {
    exists k :: 0 <= k < |tx.outs| && PaysWatched(tx.outs[k], addrs)
  }

  /** Outpoints of the first n outputs of tx that pay a watched address. */
  function PaidOutPoints(tx: Tx, n: nat, tree: Tree, addrs: set<Address>): set<OutPoint>
    requires n <= |tx.outs|
  {
    set k | 0 <= k < n && PaysWatched(tx.outs[k], addrs) :: OutPoint(tx.hash, k, tree)
  }

  /** Outpoints watched when the pass reaches transaction n: those watched at its start and
      every watched output of an earlier transaction of the pass. */
  function WatchedAt(f: Filter, txs: seq<Tx>, n: nat, tree: Tree): set<OutPoint>
    requires n <= |txs|
  {
    f.outpoints +
    (set i, k | 0 <= i < n && 0 <= k < |txs[i].outs| && PaysWatched(txs[i].outs[k], f.addrs)
       :: OutPoint(txs[i].hash, k, tree))
  }

  predicate Relevant(f: Filter, txs: seq<Tx>, i: nat, tree: Tree)
    requires i < |txs|
  {
    || TxPaysWatched(txs[i], f.addrs)
    || exists j :: 0 <= j < |SpendingInputs(txs, i, tree)|
                && SpendingInputs(txs, i, tree)[j] in WatchedAt(f, txs, i, tree)
  }

  function Matched(f: Filter, txs: seq<Tx>, n: nat, tree: Tree): seq<Tx>
    requires n <= |txs|
  {
    if n == 0 then []
    else Matched(f, txs, n - 1, tree) + (if Relevant(f, txs, n - 1, tree) then [txs[n - 1]] else [])
  }

  function AfterTxs(f: Filter, txs: seq<Tx>, tree: Tree): Filter {
    f.(outpoints := WatchedAt(f, txs, |txs|, tree))
  }

  /** The stake tree is scanned first, then the regular tree with the outpoints it added.
      No filter data is added. */
  function ScanBlock(f: Filter, b: Block): Outcome {
    var g := AfterTxs(f, b.stakeTxs, StakeTree);
    Outcome(AfterTxs(g, b.regularTxs, RegularTree),
            Matched(f, b.stakeTxs, |b.stakeTxs|, StakeTree) +
            Matched(g, b.regularTxs, |b.regularTxs|, RegularTree),
            {})
  }

  /** The matches of a pass are picked by a strictly increasing list of positions, so each
      transaction is reported at most once, and a position is picked exactly when its
      transaction is relevant. */
  lemma {:induction false} MatchedExactly(f: Filter, txs: seq<Tx>, n: nat, tree: Tree) returns (at: seq<nat>)
    requires n <= |txs|
    ensures |at| == |Matched(f, txs, n, tree)|
    ensures forall j :: 0 <= j < |at| ==> at[j] < n && Matched(f, txs, n, tree)[j] == txs[at[j]]
    ensures forall j, k :: 0 <= j < k < |at| ==> at[j] < at[k]
    ensures forall i :: 0 <= i < n ==> (i in at <==> Relevant(f, txs, i, tree))
  {
    if n == 0 {
      at := [];
    } else {
      at := MatchedExactly(f, txs, n - 1, tree);
      if Relevant(f, txs, n - 1, tree) {
        at := at + [n - 1];
      }
    }
  }

  // ----- mempool transactions -----

  /** A transaction that pays a watched address or spends an outpoint watched already. */
  predicate Watches(f: Filter, tx: Tx) {
    || (exists j :: 0 <= j < |tx.ins| && tx.ins[j] in f.outpoints)
    || TxPaysWatched(tx, f.addrs)
  }

  function Kept(f: Filter, txs: seq<Tx>, n: nat): seq<Tx>
    requires n <= |txs|
  {
    if n == 0 then [] else Kept(f, txs, n - 1) + (if Watches(f, txs[n - 1]) then [txs[n - 1]] else [])
  }

  /** Transaction i spends nothing of the coinbase or of a transaction before it. */
  predicate SpendsNoneBefore(coinbase: Tx, txs: seq<Tx>, i: nat)
    requires i < |txs|
  {
    && (forall j :: 0 <= j < |txs[i].ins| ==> txs[i].ins[j].hash != coinbase.hash)
    && (forall j, k :: 0 <= j < |txs[i].ins| && 0 <= k < i ==> txs[i].ins[j].hash != txs[k].hash)
  }

  /** Filtering mempool transactions agrees with the pass of the regular tree that later scans
      them behind the block's coinbase, when none of them spends an output of one before it. */
  lemma {:induction false} KeptIsMatched(f: Filter, coinbase: Tx, txs: seq<Tx>, n: nat)
    requires n <= |txs| && forall i :: 0 <= i < n ==> SpendsNoneBefore(coinbase, txs, i)
    ensures Matched(f, [coinbase] + txs, n + 1, RegularTree) ==
            (if TxPaysWatched(coinbase, f.addrs) then [coinbase] else []) + Kept(f, txs, n)
  {
    var block := [coinbase] + txs;
    if n == 0 {
      assert SpendingInputs(block, 0, RegularTree) == [];
      assert Matched(f, block, 0, RegularTree) == [];
    } else {
      KeptIsMatched(f, coinbase, txs, n - 1);
      RelevantIsWatched(f, coinbase, txs, n - 1);
      assert block[n] == txs[n - 1];
    }
  }

  lemma RelevantIsWatched(f: Filter, coinbase: Tx, txs: seq<Tx>, i: nat)
    requires i < |txs| && SpendsNoneBefore(coinbase, txs, i)
    ensures Relevant(f, [coinbase] + txs, i + 1, RegularTree) <==> Watches(f, txs[i])
  {
    var block := [coinbase] + txs;
    assert block[i + 1] == txs[i];
    assert SpendingInputs(block, i + 1, RegularTree) == txs[i].ins;
    forall j | 0 <= j < |txs[i].ins|
      ensures txs[i].ins[j] in WatchedAt(f, block, i + 1, RegularTree) <==> txs[i].ins[j] in f.outpoints
    {
      forall k | 0 <= k < i + 1 ensures block[k].hash != txs[i].ins[j].hash {
        assert block[k] == if k == 0 then coinbase else txs[k - 1];
      }
    }
  }

  // ----- coverage of the compact-filter data -----

  /** Where the outputs and addresses of the chain lead: the script an outpoint pays and the
      payment script of an address. */
  datatype Ledger = Ledger(paidScript: OutPoint -> Script, paymentScript: Address -> Script)

  /** Every watched address and outpoint is represented by a script in the filter data. */
  ghost predicate Covered(f: Filter, l: Ledger) {
    && (forall a :: a in f.addrs ==> l.paymentScript(a) in f.data)
    && (forall op :: op in f.outpoints ==> l.paidScript(op) in f.data)
  }

  predicate IsOutput(b: Block, tree: Tree, i: int, k: int) {
    0 <= i < |b.Txs(tree)| && 0 <= k < |b.Txs(tree)[i].outs|
  }

  function Output(b: Block, tree: Tree, i: int, k: int): TxOut
    requires IsOutput(b, tree, i, k)
  {
    b.Txs(tree)[i].outs[k]
  }

  /** The outputs of b are the ones the ledger records. */
  ghost predicate Recorded(b: Block, l: Ledger) {
    forall tree: Tree, i, k {:trigger IsOutput(b, tree, i, k)} :: IsOutput(b, tree, i, k) ==>
      l.paidScript(OutPoint(b.Txs(tree)[i].hash, k, tree)) == Output(b, tree, i, k).script
  }

  /** Every address extracted from an output is paid by exactly that output's script. */
  ghost predicate PaysOwnScripts(b: Block, l: Ledger) {
    forall tree: Tree, i, k {:trigger IsOutput(b, tree, i, k)} :: IsOutput(b, tree, i, k) ==>
      forall a :: a in Output(b, tree, i, k).addrs ==> l.paymentScript(a) == Output(b, tree, i, k).script
  }

  ghost predicate Standard(b: Block, l: Ledger) { Recorded(b, l) && PaysOwnScripts(b, l) }

  /** Input j of transaction i references a previous output: the transaction is not a coinbase,
      which is the transaction of regular type at the front of its tree, and the input is not the
      stakebase, which is the first one of a vote in the stake tree. */
  predicate CanSpend(b: Block, tree: Tree, i: int, j: int) {
    && 0 <= i < |b.Txs(tree)|
    && 0 <= j < |b.Txs(tree)[i].ins|
    && (i == 0 ==> tree.StakeTree? && !b.Txs(tree)[i].stakeType.TypeRegular?)
    && (tree.StakeTree? && b.Txs(tree)[i].stakeType.TypeVote? ==> j > 0)
  }

  /** The inputs looked at are exactly those. */
  lemma SpendingInputsIff(b: Block, tree: Tree, i: nat, op: OutPoint)
    requires i < |b.Txs(tree)|
    ensures op in SpendingInputs(b.Txs(tree), i, tree)
            <==> exists j :: CanSpend(b, tree, i, j) && b.Txs(tree)[i].ins[j] == op
  {
    var tx := b.Txs(tree)[i];
    var inputs := SpendingInputs(b.Txs(tree), i, tree);
    var skipped := |tx.ins| - |inputs|;
    forall m | 0 <= m < |inputs| ensures CanSpend(b, tree, i, m + skipped) && tx.ins[m + skipped] == inputs[m] { }
    forall j | CanSpend(b, tree, i, j) ensures tx.ins[j] in inputs {
      assert inputs[j - skipped] == tx.ins[j];
    }
  }

  /** Scripts a version 2 block filter commits to: every output script, and the script paid
      by every output the block spends. */
  ghost predicate Commits(b: Block, l: Ledger, s: Script)
  {
    exists tree: Tree, i :: 0 <= i < |b.Txs(tree)| && TxCommits(b, tree, i, l, s)
  }

  ghost predicate TxCommits(b: Block, tree: Tree, i: nat, l: Ledger, s: Script)
    requires i < |b.Txs(tree)|
  {
    || (exists k :: 0 <= k < |b.Txs(tree)[i].outs| && b.Txs(tree)[i].outs[k].script == s)
    || (exists j :: CanSpend(b, tree, i, j)
                 && l.paidScript(b.Txs(tree)[i].ins[j]) == s)
  }

  lemma PassKeepsCoverage(f: Filter, b: Block, tree: Tree, l: Ledger)
    requires Standard(b, l) && Covered(f, l)
    ensures Covered(AfterTxs(f, b.Txs(tree), tree), l)
  {
    var g := AfterTxs(f, b.Txs(tree), tree);
    forall op | op in g.outpoints ensures l.paidScript(op) in g.data {
      if op !in f.outpoints {
        var i, k :| 0 <= i < |b.Txs(tree)| && 0 <= k < |b.Txs(tree)[i].outs|
                    && PaysWatched(b.Txs(tree)[i].outs[k], f.addrs) && op == OutPoint(b.Txs(tree)[i].hash, k, tree);
        assert IsOutput(b, tree, i, k) && Output(b, tree, i, k) == b.Txs(tree)[i].outs[k];
      }
    }
  }

  /** Scanning any standard block keeps every watched address and outpoint covered. */
  lemma ScanKeepsCoverage(f: Filter, b: Block, l: Ledger)
    requires Standard(b, l) && Covered(f, l)
    ensures Covered(ScanBlock(f, b).filter, l)
  {
    PassKeepsCoverage(f, b, StakeTree, l);
    PassKeepsCoverage(AfterTxs(f, b.stakeTxs, StakeTree), b, RegularTree, l);
  }

  /** The payment script of every address extracted from an output of b is committed by b. */
  ghost predicate AddressesCommitted(b: Block, l: Ledger) {
    forall tree: Tree, i, k {:trigger IsOutput(b, tree, i, k)} :: IsOutput(b, tree, i, k) ==>
      forall a :: a in Output(b, tree, i, k).addrs ==> Commits(b, l, l.paymentScript(a))
  }

  lemma StandardIsCommitted(b: Block, l: Ledger)
    requires PaysOwnScripts(b, l)
    ensures AddressesCommitted(b, l)
  {
    forall tree: Tree, i, k, a | IsOutput(b, tree, i, k) && a in Output(b, tree, i, k).addrs
      ensures Commits(b, l, l.paymentScript(a))
    {
      assert TxCommits(b, tree, i, l, Output(b, tree, i, k).script);
    }
  }

  ghost predicate Uncommitted(f: Filter, b: Block, l: Ledger) {
    forall s :: s in f.data ==> !Commits(b, l, s)
  }

  /** A pass over a tree none of whose committed scripts is in the filter data watches
      nothing new and matches nothing. */
  lemma {:induction false} PassMissesNothing(f: Filter, b: Block, tree: Tree, n: nat, l: Ledger)
    requires AddressesCommitted(b, l) && Covered(f, l) && Uncommitted(f, b, l)
    requires n <= |b.Txs(tree)|
    ensures WatchedAt(f, b.Txs(tree), n, tree) == f.outpoints
    ensures Matched(f, b.Txs(tree), n, tree) == []
  {
    var txs := b.Txs(tree);
    forall i, k | 0 <= i < |txs| && 0 <= k < |txs[i].outs| ensures !PaysWatched(txs[i].outs[k], f.addrs) {
      assert IsOutput(b, tree, i, k) && Output(b, tree, i, k) == txs[i].outs[k];
    }
    assert WatchedAt(f, txs, n, tree) == f.outpoints;
    if n > 0 {
      PassMissesNothing(f, b, tree, n - 1, l);
      var ins := SpendingInputs(txs, n - 1, tree);
      forall j | 0 <= j < |ins| ensures ins[j] !in f.outpoints {
        SpendingInputsIff(b, tree, n - 1, ins[j]);
        assert TxCommits(b, tree, n - 1, l, l.paidScript(ins[j]));
      }
      assert !Relevant(f, txs, n - 1, tree);
    }
  }

  /** The fact that makes skipping a block safe: when no script a block commits to is in the
      filter data, scanning it would change nothing and find nothing. */
  lemma UncommittedBlockIsIrrelevant(f: Filter, b: Block, l: Ledger)
    requires AddressesCommitted(b, l) && Covered(f, l) && Uncommitted(f, b, l)
    ensures ScanBlock(f, b) == Outcome(f, [], {})
  {
    PassMissesNothing(f, b, StakeTree, |b.stakeTxs|, l);
    PassMissesNothing(f, b, RegularTree, |b.regularTxs|, l);
  }

  /** The filter of a wallet that watches one address and nothing else. */
  function Watching(a: Address, l: Ledger): Filter { Filter({a}, {}, {l.paymentScript(a)}) }

  lemma PaymentIsFound(b: Block, tree: Tree, i: nat, k: nat, a: Address, l: Ledger)
    requires IsOutput(b, tree, i, k) && a in Output(b, tree, i, k).addrs
    ensures ScanBlock(Watching(a, l), b).matches != []
    ensures OutPoint(b.Txs(tree)[i].hash, k, tree) in ScanBlock(Watching(a, l), b).filter.outpoints
  {
    var f := Watching(a, l);
    var g := if tree.StakeTree? then f else AfterTxs(f, b.stakeTxs, StakeTree);
    var txs := b.Txs(tree);
    assert PaysWatched(txs[i].outs[k], g.addrs) by {
      var j :| 0 <= j < |txs[i].outs[k].addrs| && txs[i].outs[k].addrs[j] == a;
    }
    assert Relevant(g, txs, i, tree);
    var at := MatchedExactly(g, txs, |txs|, tree);
    assert i in at;
    assert OutPoint(txs[i].hash, k, tree) in AfterTxs(g, txs, tree).outpoints;
  }

  ghost predicate Skippable(f: Filter, b: Block, l: Ledger) {
    Covered(f, l) && Uncommitted(f, b, l) ==> ScanBlock(f, b) == Outcome(f, [], {})
  }

  /** Skipping a block that no filter match points to is safe for every covered filter if and
      only if the block commits to the payment script of every address extracted from it. */
  lemma SkippingIsSafeIff(b: Block, l: Ledger)
    ensures (forall f :: Skippable(f, b, l)) <==> AddressesCommitted(b, l)
  {
    if AddressesCommitted(b, l) {
      forall f ensures Skippable(f, b, l) {
        if Covered(f, l) && Uncommitted(f, b, l) {
          UncommittedBlockIsIrrelevant(f, b, l);
        }
      }
    } else {
      var tree, i, k :| && IsOutput(b, tree, i, k)
                        && exists a :: a in Output(b, tree, i, k).addrs && !Commits(b, l, l.paymentScript(a));
      var a :| a in Output(b, tree, i, k).addrs && !Commits(b, l, l.paymentScript(a));
      PaymentIsFound(b, tree, i, k, a, l);
      assert !Skippable(Watching(a, l), b, l);
    }
  }

  ghost predicate KeepsCovered(f: Filter, b: Block, l: Ledger) {
    Covered(f, l) ==> Covered(ScanBlock(f, b).filter, l)
  }

  /** A scan keeps every covered filter covered if and only if each address extracted from an
      output is paid by that output's script. */
  lemma CoverageIsKeptIff(b: Block, l: Ledger)
    requires Recorded(b, l)
    ensures (forall f :: KeepsCovered(f, b, l)) <==> PaysOwnScripts(b, l)
  {
    if PaysOwnScripts(b, l) {
      forall f ensures KeepsCovered(f, b, l) {
        if Covered(f, l) {
          ScanKeepsCoverage(f, b, l);
        }
      }
    } else {
      var tree, i, k :| && IsOutput(b, tree, i, k)
                        && exists a :: && a in Output(b, tree, i, k).addrs
                                       && l.paymentScript(a) != Output(b, tree, i, k).script;
      var a :| a in Output(b, tree, i, k).addrs && l.paymentScript(a) != Output(b, tree, i, k).script;
      PaymentIsFound(b, tree, i, k, a, l);
      assert !KeepsCovered(Watching(a, l), b, l);
    }
  }

  /** An input where skipping fails: an output whose script is not the payment script of a
      watched address extracted from it (a bare multisignature output) is matched by a scan
      although the block commits to no script of the filter data. */
  lemma NonStandardOutputIsMissed(a: Address, script: Script, tx: Tx, l: Ledger)
    requires tx.ins == [] && tx.outs == [TxOut(script, [a])] && tx.stakeType.TypeRegular?
    requires l.paymentScript(a) != script
    ensures var f, b := Filter({a}, {}, {l.paymentScript(a)}), Block("", [], [tx]);
            && Covered(f, l) && Uncommitted(f, b, l)
            && ScanBlock(f, b).matches == [tx]
  {
    var f, b := Filter({a}, {}, {l.paymentScript(a)}), Block("", [], [tx]);
    assert b.Txs(StakeTree) == [] && b.Txs(RegularTree) == [tx];
    assert PaysWatched(tx.outs[0], f.addrs) by { assert tx.outs[0].addrs[0] == a; }
    assert Matched(f, b.regularTxs, 0, RegularTree) == [];
    assert Relevant(f, b.regularTxs, 0, RegularTree);
    assert Matched(f, b.stakeTxs, 0, StakeTree) == [];
    var g := AfterTxs(f, b.stakeTxs, StakeTree);
    assert g == f;
  }

  // ----- what a scan finds, on the block itself -----

  /** Transaction i of one tree is scanned before transaction j of another or the same. */
  predicate ScannedBefore(tree: Tree, i: int, other: Tree, j: int) {
    (tree == other && i < j) || (tree.StakeTree? && other.RegularTree?)
  }

  /** When a scan reaches transaction i, op is watched: it was at the start, or it is an output
      of a transaction scanned before and pays a watched address. */
  ghost predicate WatchedBefore(f: Filter, b: Block, tree: Tree, i: int, op: OutPoint) {
    || op in f.outpoints
    || exists other: Tree, m, k :: && IsOutput(b, other, m, k) && ScannedBefore(other, m, tree, i)
                                   && PaysWatched(Output(b, other, m, k), f.addrs)
                                   && op == OutPoint(b.Txs(other)[m].hash, k, other)
  }

  /** Transaction i pays a watched address or spends an outpoint watched by then. */
  ghost predicate Found(f: Filter, b: Block, tree: Tree, i: int) {
    && 0 <= i < |b.Txs(tree)|
    && (|| TxPaysWatched(b.Txs(tree)[i], f.addrs)
        || exists j :: CanSpend(b, tree, i, j) && WatchedBefore(f, b, tree, i, b.Txs(tree)[i].ins[j]))
  }

  /** The filter a scan passes over a tree with. */
  function AtTree(f: Filter, b: Block, tree: Tree): Filter {
    if tree.StakeTree? then f else AfterTxs(f, b.stakeTxs, StakeTree)
  }

  lemma WatchedAtIff(f: Filter, b: Block, tree: Tree, i: nat, op: OutPoint)
    requires i <= |b.Txs(tree)|
    ensures op in WatchedAt(AtTree(f, b, tree), b.Txs(tree), i, tree) <==> WatchedBefore(f, b, tree, i, op)
  {
    var txs, g := b.Txs(tree), AtTree(f, b, tree);
    if op in WatchedAt(g, txs, i, tree) && op !in f.outpoints {
      var other := if op in g.outpoints then StakeTree else tree;
      var m, k :| && 0 <= m < |b.Txs(other)| && 0 <= k < |b.Txs(other)[m].outs|
                  && (other == tree ==> m < i || op in g.outpoints)
                  && PaysWatched(b.Txs(other)[m].outs[k], f.addrs) && op == OutPoint(b.Txs(other)[m].hash, k, other);
      assert IsOutput(b, other, m, k) && ScannedBefore(other, m, tree, i);
    }
    if WatchedBefore(f, b, tree, i, op) && op !in f.outpoints {
      var other: Tree, m, k :| && IsOutput(b, other, m, k) && ScannedBefore(other, m, tree, i)
                               && PaysWatched(Output(b, other, m, k), f.addrs)
                               && op == OutPoint(b.Txs(other)[m].hash, k, other);
      assert op in WatchedAt(g, txs, i, tree);
    }
  }

  lemma RelevantIffFound(f: Filter, b: Block, tree: Tree, i: nat)
    requires i < |b.Txs(tree)|
    ensures Relevant(AtTree(f, b, tree), b.Txs(tree), i, tree) <==> Found(f, b, tree, i)
  {
    var txs, g := b.Txs(tree), AtTree(f, b, tree);
    var inputs, watched := SpendingInputs(txs, i, tree), WatchedAt(g, txs, i, tree);
    forall op
      ensures op in watched <==> WatchedBefore(f, b, tree, i, op)
      ensures op in inputs <==> exists j :: CanSpend(b, tree, i, j) && txs[i].ins[j] == op
    {
      WatchedAtIff(f, b, tree, i, op);
      SpendingInputsIff(b, tree, i, op);
    }
    if m :| 0 <= m < |inputs| && inputs[m] in watched {
      assert inputs[m] in inputs;
      var j :| CanSpend(b, tree, i, j) && txs[i].ins[j] == inputs[m];
      assert WatchedBefore(f, b, tree, i, txs[i].ins[j]);
    }
    if j :| CanSpend(b, tree, i, j) && WatchedBefore(f, b, tree, i, txs[i].ins[j]) {
      assert txs[i].ins[j] in inputs && txs[i].ins[j] in watched;
    }
  }

  lemma PassFindsExactly(f: Filter, b: Block, tree: Tree, tx: Tx)
    ensures tx in Matched(AtTree(f, b, tree), b.Txs(tree), |b.Txs(tree)|, tree)
            <==> exists i :: Found(f, b, tree, i) && b.Txs(tree)[i] == tx
  {
    var txs, g := b.Txs(tree), AtTree(f, b, tree);
    var at := MatchedExactly(g, txs, |txs|, tree);
    forall i: nat | i < |txs| ensures i in at <==> Found(f, b, tree, i) {
      RelevantIffFound(f, b, tree, i);
    }
    if n :| 0 <= n < |at| && txs[at[n]] == tx {
      assert at[n] in at;
    }
  }

  /** A scan finds exactly the transactions that pay a watched address or have an input that
      spends an outpoint watched by then. */
  lemma ScanFindsExactly(f: Filter, b: Block, tx: Tx)
    ensures tx in ScanBlock(f, b).matches <==> exists tree: Tree, i :: Found(f, b, tree, i) && b.Txs(tree)[i] == tx
  {
    PassFindsExactly(f, b, StakeTree, tx);
    PassFindsExactly(f, b, RegularTree, tx);
  }

  // ----- every reachable filter -----

  datatype Event =
    | Load(reload: bool, addrs: seq<Address>, outpoints: seq<OutPoint>)
    | Scan(block: Block)

  function Loaded(f: Filter, reload: bool, addrs: seq<Address>, outpoints: seq<OutPoint>, l: Ledger): Filter {
    var g := if reload then EMPTY_FILTER else f;
    Filter(g.addrs + (set i | 0 <= i < |addrs| :: addrs[i]),
           g.outpoints + (set i | 0 <= i < |outpoints| :: outpoints[i]),
           g.data + (set i | 0 <= i < |addrs| :: l.paymentScript(addrs[i])))
  }

  /** What is watched after a load: everything passed, and what was watched unless reloading. */
  lemma LoadedWatches(f: Filter, reload: bool, addrs: seq<Address>, outpoints: seq<OutPoint>, l: Ledger)
    ensures var g := Loaded(f, reload, addrs, outpoints, l);
            && (forall a :: a in g.addrs <==> a in addrs || (!reload && a in f.addrs))
            && (forall op :: op in g.outpoints <==> op in outpoints || (!reload && op in f.outpoints))
            && (forall s :: s in g.data <==>
                  (exists a :: a in addrs && l.paymentScript(a) == s) || (!reload && s in f.data))
  {
    var g := Loaded(f, reload, addrs, outpoints, l);
    forall s, a | a in addrs && l.paymentScript(a) == s ensures s in g.data {
      var i :| 0 <= i < |addrs| && addrs[i] == a;
    }
  }

  function Run(f: Filter, events: seq<Event>, l: Ledger): Filter {
    if events == [] then f
    else
      var g := Run(f, events[..|events| - 1], l);
      match events[|events| - 1]
      case Load(reload, addrs, outpoints) => Loaded(g, reload, addrs, outpoints, l)
      case Scan(b) => ScanBlock(g, b).filter
  }

  /** What LoadTxFilter asks of its caller: the addresses passed include, for every outpoint
      passed, one whose payment script that outpoint pays. */
  ghost predicate AddressesCoverOutPoints(addrs: seq<Address>, outpoints: seq<OutPoint>, l: Ledger) {
    forall i :: 0 <= i < |outpoints| ==>
      exists j :: 0 <= j < |addrs| && l.paymentScript(addrs[j]) == l.paidScript(outpoints[i])
  }

  ghost predicate Admissible(e: Event, l: Ledger) {
    match e
    case Load(_, addrs, outpoints) => AddressesCoverOutPoints(addrs, outpoints, l)
    case Scan(b) => Standard(b, l)
  }

  /** Coverage holds after every sequence of filter loads and block scans. */
  lemma {:induction false} EveryReachableFilterIsCovered(f: Filter, events: seq<Event>, l: Ledger)
    requires Covered(f, l)
    requires forall e :: e in events ==> Admissible(e, l)
    ensures Covered(Run(f, events, l), l)
  {
    if events != [] {
      var rest, e := events[..|events| - 1], events[|events| - 1];
      assert e in events;
      EveryReachableFilterIsCovered(f, rest, l);
      match e
      case Load(_, _, _) =>
      case Scan(b) => ScanKeepsCoverage(Run(f, rest, l), b, l);
    }
  }
}
