/** The syncer's per-wallet filter as it is updated in place, and the two scans that fetch
    only blocks whose compact filter matches: `Rescan` (spv/backend.go) and `scanChain`
    (spv/sync.go).  Both are proved equal to scanning every block in full. */
module SpvBackend {
  import opened SpvFilter

  datatype Option<+T> = None | Some(value: T)

  /** MatchAny of one block's version 2 filter, as a function of the data tested. */
  type CFilter = set<Script> -> bool

  /** A block scan, as `rescanBlock` promises it; it may report filter data it added. */
  type Step = (Filter, Block) -> Outcome

  datatype Save = Save(hash: Hash, txs: seq<Tx>)

  /** One attempt to get the requested blocks from a peer.  A delivered block has the
      requested header; the ones at `corrupt` fail Merkle root validation. */
  datatype PeerAnswer = NoPeers | FetchFailed | Delivered(corrupt: set<nat>)

  // ----- the reference: scanning every block -----

  function Scanned(step: Step, f: Filter, b: Block): Outcome { step(f, b) }

  function FilterAfter(step: Step, f: Filter, chain: seq<Block>, n: nat): Filter
    requires n <= |chain|
  {
    if n == 0 then f else Scanned(step, FilterAfter(step, f, chain, n - 1), chain[n - 1]).filter
  }

  function MatchesAt(step: Step, f: Filter, chain: seq<Block>, i: nat): seq<Tx>
    requires i < |chain|
  {
    Scanned(step, FilterAfter(step, f, chain, i), chain[i]).matches
  }

  function SavesUpTo(step: Step, f: Filter, chain: seq<Block>, n: nat): seq<Save>
    requires n <= |chain|
  {
    if n == 0 then []
    else
      var txs := MatchesAt(step, f, chain, n - 1);
      SavesUpTo(step, f, chain, n - 1) + (if txs == [] then [] else [Save(chain[n - 1].hash, txs)])
  }

  /** The saves are those of the blocks with matches, in chain order, each under its own hash. */
  lemma {:induction false} SavesExactly(step: Step, f: Filter, chain: seq<Block>, n: nat) returns (at: seq<nat>)
    requires n <= |chain|
    ensures |at| == |SavesUpTo(step, f, chain, n)|
    ensures forall j :: 0 <= j < |at| ==>
              at[j] < n && SavesUpTo(step, f, chain, n)[j] == Save(chain[at[j]].hash, MatchesAt(step, f, chain, at[j]))
    ensures forall j, k :: 0 <= j < k < |at| ==> at[j] < at[k]
    ensures forall i {:trigger MatchesAt(step, f, chain, i)} :: 0 <= i < n ==>
              (i in at <==> MatchesAt(step, f, chain, i) != [])
  {
    if n == 0 {
      at := [];
    } else {
      at := SavesExactly(step, f, chain, n - 1);
      if MatchesAt(step, f, chain, n - 1) != [] {
        at := at + [n - 1];
      }
    }
  }

  lemma {:induction false} SavesGrow(step: Step, f: Filter, chain: seq<Block>, m: nat, n: nat)
    requires m <= n <= |chain|
    ensures SavesUpTo(step, f, chain, m) <= SavesUpTo(step, f, chain, n)
  {
    if m < n {
      SavesGrow(step, f, chain, m, n - 1);
    }
  }

  // ----- contracts -----

  /** No false negatives: a filter matches data holding any script its block commits to. */
  ghost predicate NoFalseNegatives(cf: CFilter, b: Block, commits: (Block, Script) -> bool) {
    forall data: set<Script>, s :: s in data && commits(b, s) ==> cf(data)
  }

  ghost predicate Untouched(b: Block, data: set<Script>, commits: (Block, Script) -> bool) {
    forall s :: s in data ==> !commits(b, s)
  }

  /** What a block scan promises: it keeps the filter invariant, reports exactly the data it
      adds, and does nothing to a block that commits to none of the filter data. */
  ghost predicate SoundAt(step: Step, f: Filter, b: Block, inv: Filter -> bool, commits: (Block, Script) -> bool) {
    var o := Scanned(step, f, b);
    && inv(o.filter)
    && o.filter.data == f.data + o.fadded
    && (Untouched(b, f.data, commits) ==> o == Outcome(f, [], {}))
  }

  ghost predicate Sound(step: Step, chain: seq<Block>, inv: Filter -> bool, commits: (Block, Script) -> bool) {
    forall f, i {:trigger SoundAt(step, f, chain[i], inv, commits)} ::
      0 <= i < |chain| && inv(f) ==> SoundAt(step, f, chain[i], inv, commits)
  }

  /** Filter data is only ever added by a scan that also matches a transaction. */
  ghost predicate AddsOnlyWithMatch(step: Step, f: Filter, b: Block) {
    Scanned(step, f, b).fadded != {} ==> Scanned(step, f, b).matches != []
  }

  ghost predicate NeverAddsWithoutMatch(step: Step, chain: seq<Block>, inv: Filter -> bool) {
    forall f, i {:trigger AddsOnlyWithMatch(step, f, chain[i])} ::
      0 <= i < |chain| && inv(f) ==> AddsOnlyWithMatch(step, f, chain[i])
  }

  /** The block scan of spv/rescan.go is sound on every chain of standard blocks. */
  lemma ScanBlockIsSound(chain: seq<Block>, l: Ledger)
    requires forall i :: 0 <= i < |chain| ==> Standard(chain[i], l)
    ensures Sound(ScanBlock, chain, f => Covered(f, l), (b, s) => Commits(b, l, s))
    ensures NeverAddsWithoutMatch(ScanBlock, chain, f => Covered(f, l))
  {
    var inv: Filter -> bool := f => Covered(f, l);
    var commits: (Block, Script) -> bool := (b, s) => Commits(b, l, s);
    forall f, i | 0 <= i < |chain| && Covered(f, l)
      ensures SoundAt(ScanBlock, f, chain[i], inv, commits)
    {
      ScanKeepsCoverage(f, chain[i], l);
      if Untouched(chain[i], f.data, commits) {
        assert forall s :: s in f.data ==> !commits(chain[i], s);
        StandardIsCommitted(chain[i], l);
        UncommittedBlockIsIrrelevant(f, chain[i], l);
      }
    }
  }

  // ----- the pieces of a filter round -----

  ghost predicate Genuine(fetched: seq<Option<Block>>, chain: seq<Block>) {
    && |fetched| == |chain|
    && forall i :: 0 <= i < |chain| && fetched[i].Some? ==> fetched[i].value == chain[i]
  }

  /** Blocks from idx on that are not fetched commit to nothing in data. */
  ghost predicate RuledOut(chain: seq<Block>, fetched: seq<Option<Block>>, idx: nat, data: set<Script>,
                           commits: (Block, Script) -> bool)
    requires |fetched| == |chain|
  {
    forall i :: idx <= i < |chain| && fetched[i].None? ==> Untouched(chain[i], data, commits)
  }

  /** Tests the filters of the blocks from idx on that are not yet fetched.  The workers may
      report their hits in any order. */
  method TestFilters(cfilters: seq<CFilter>, fetched: seq<Option<Block>>, idx: nat, data: set<Script>)
    returns (hits: seq<nat>)
    requires |fetched| == |cfilters|
    ensures forall j :: 0 <= j < |hits| ==> idx <= hits[j] < |cfilters|
    ensures forall j, k :: 0 <= j < k < |hits| ==> hits[j] != hits[k]
    ensures forall i :: idx <= i < |cfilters| ==> (i in hits <==> fetched[i].None? && cfilters[i](data))
  {
    hits := [];
    var pending := set i | idx <= i < |cfilters| && fetched[i].None? && cfilters[i](data);
    ghost var all := pending;
    while pending != {}
      invariant pending <= all
      invariant forall i :: i in all <==> i in pending || i in hits
      invariant forall j :: 0 <= j < |hits| ==> hits[j] !in pending
      invariant forall j, k :: 0 <= j < k < |hits| ==> hits[j] != hits[k]
      decreases pending
    {
      var i :| i in pending;
      hits, pending := hits + [i], pending - {i};
    }
  }

  /** Asks peers for the blocks at hits until one delivers them all intact.  The list of
      answers ends when the context is cancelled. */
  method FetchBlocks(chain: seq<Block>, hits: seq<nat>, before: seq<Option<Block>>, answers: seq<PeerAnswer>, from: nat)
    returns (ok: bool, fetched: seq<Option<Block>>, next: nat)
    requires Genuine(before, chain) && from <= |answers|
    requires forall j :: 0 <= j < |hits| ==> hits[j] < |chain|
    ensures from <= next <= |answers|
    ensures Genuine(fetched, chain)
    ensures forall i :: 0 <= i < |chain| && before[i].Some? ==> fetched[i].Some?
    ensures ok ==> forall j :: 0 <= j < |hits| ==> fetched[hits[j]].Some?
  {
    fetched, next := before, from;
    if |hits| == 0 {
      return true, fetched, next;
    }
    while next < |answers|
      invariant from <= next <= |answers|
      invariant Genuine(fetched, chain)
      invariant forall i :: 0 <= i < |chain| && before[i].Some? ==> fetched[i].Some?
    {
      var answer := answers[next];
      next := next + 1;
      match answer
      case NoPeers => return false, fetched, next;
      case FetchFailed =>
      case Delivered(corrupt) =>
        var j := 0;
        while j < |hits| && j !in corrupt
          invariant 0 <= j <= |hits|
          invariant Genuine(fetched, chain)
          invariant forall i :: 0 <= i < |chain| && before[i].Some? ==> fetched[i].Some?
          invariant forall k :: 0 <= k < j ==> fetched[hits[k]].Some?
        {
          fetched := fetched[hits[j] := Some(chain[hits[j]])];
          j := j + 1;
        }
        if j == |hits| {
          return true, fetched, next;
        }
    }
    return false, fetched, next;
  }

  /** A filter round rules out every unfetched block: it was untouched by the older data
      already, and its filter does not match the data tested now. */
  lemma RoundRulesOut(chain: seq<Block>, cfilters: seq<CFilter>, before: seq<Option<Block>>,
                      fetched: seq<Option<Block>>, idx: nat, data: set<Script>, tested: set<Script>,
                      hits: seq<nat>, commits: (Block, Script) -> bool)
    requires |before| == |fetched| == |chain| == |cfilters|
    requires forall i :: 0 <= i < |chain| ==> NoFalseNegatives(cfilters[i], chain[i], commits)
    requires RuledOut(chain, before, idx, data - tested, commits)
    requires forall i :: 0 <= i < |chain| && before[i].Some? ==> fetched[i].Some?
    requires forall i :: idx <= i < |chain| ==> (i in hits <==> before[i].None? && cfilters[i](tested))
    requires forall j :: 0 <= j < |hits| ==> 0 <= hits[j] < |chain| && fetched[hits[j]].Some?
    ensures RuledOut(chain, fetched, idx, data, commits)
  {
    forall i | idx <= i < |chain| && fetched[i].None? ensures Untouched(chain[i], data, commits) {
      assert before[i].None? && i !in hits;
      assert !cfilters[i](tested);
      forall s | s in data ensures !commits(chain[i], s) {
        if s !in tested {
          assert s in data - tested;
        }
      }
    }
  }

  /** One block of the reference scan: an unfetched block that is ruled out changes nothing,
      and the filter data grows by exactly what the scan reports. */
  lemma BlockStep(step: Step, f: Filter, chain: seq<Block>, i: nat, fetched: seq<Option<Block>>,
                  inv: Filter -> bool, commits: (Block, Script) -> bool)
    requires i < |chain| && Genuine(fetched, chain)
    requires Sound(step, chain, inv, commits)
    requires inv(FilterAfter(step, f, chain, i))
    requires RuledOut(chain, fetched, i, FilterAfter(step, f, chain, i).data, commits)
    ensures var g := FilterAfter(step, f, chain, i);
            var o := Scanned(step, g, chain[i]);
            && FilterAfter(step, f, chain, i + 1) == o.filter && inv(o.filter)
            && MatchesAt(step, f, chain, i) == o.matches
            && (fetched[i].None? ==> o == Outcome(g, [], {}))
            && RuledOut(chain, fetched, i + 1, o.filter.data - o.fadded, commits)
            && (o.fadded == {} ==> RuledOut(chain, fetched, i + 1, o.filter.data, commits))
  {
    var g := FilterAfter(step, f, chain, i);
    var o := Scanned(step, g, chain[i]);
    assert SoundAt(step, g, chain[i], inv, commits);
    assert o.filter.data - o.fadded <= g.data;
  }

  // ----- scanChain -----

  /** The filter of a header node: its number of entries and its MatchAny. */
  datatype NodeFilter = NodeFilter(n: nat, matchAny: CFilter)
  {
    ghost predicate SoundFor(b: Block, commits: (Block, Script) -> bool) {
      && (n == 0 ==> forall s :: !commits(b, s))
      && NoFalseNegatives(matchAny, b, commits)
    }

    function Guarded(): CFilter { data => n != 0 && matchAny(data) }
  }

  ghost predicate DistinctHashes(chain: seq<Block>) {
    forall i, j :: 0 <= i < j < |chain| ==> chain[i].hash != chain[j].hash
  }

  function Lookup(found: map<Hash, seq<Tx>>, h: Hash): seq<Tx> {
    if h in found then found[h] else []
  }

  ghost predicate Collected(found: map<Hash, seq<Tx>>, step: Step, f: Filter, chain: seq<Block>, n: nat)
    requires n <= |chain|
  {
    && (forall i {:trigger MatchesAt(step, f, chain, i)} :: 0 <= i < n ==>
         Lookup(found, chain[i].hash) == MatchesAt(step, f, chain, i))
    && (forall h :: h in found ==> exists i :: 0 <= i < n && chain[i].hash == h)
  }

  lemma CollectNext(found: map<Hash, seq<Tx>>, step: Step, f: Filter, chain: seq<Block>, i: nat, txs: seq<Tx>)
    requires i < |chain| && DistinctHashes(chain)
    requires Collected(found, step, f, chain, i)
    requires txs == MatchesAt(step, f, chain, i)
    ensures Collected(found[chain[i].hash := txs], step, f, chain, i + 1)
    ensures txs == [] ==> Collected(found, step, f, chain, i + 1)
  {
  }

  /** The filter one wallet keeps in the syncer.  Only one wallet is modelled: every field
      below is indexed by its wallet ID in the source. */
  class WalletBackend {
    var filter: Filter

    constructor ()
      ensures filter == EMPTY_FILTER
    {
      filter := EMPTY_FILTER;
    }

    method LoadTxFilter(reload: bool, addrs: seq<Address>, outpoints: seq<OutPoint>, l: Ledger)
      modifies this
      ensures filter == Loaded(old(filter), reload, addrs, outpoints, l)
      ensures (reload || Covered(old(filter), l)) && AddressesCoverOutPoints(addrs, outpoints, l) ==> Covered(filter, l)
    {
      if reload {
        filter := EMPTY_FILTER;
      }
      ghost var f := filter;
      for i := 0 to |addrs|
        invariant filter == f.(addrs := f.addrs + (set j | 0 <= j < i :: addrs[j]),
                               data := f.data + (set j | 0 <= j < i :: l.paymentScript(addrs[j])))
      {
        filter := filter.(addrs := filter.addrs + {addrs[i]}, data := filter.data + {l.paymentScript(addrs[i])});
      }
      ghost var g := filter;
      for i := 0 to |outpoints|
        invariant filter == g.(outpoints := g.outpoints + (set j | 0 <= j < i :: outpoints[j]))
      {
        filter := filter.(outpoints := filter.outpoints + {outpoints[i]});
      }
    }

    /** Watches the outputs of txs[i] that pay a watched address. */
    method CheckOutputs(txs: seq<Tx>, i: nat, tree: Tree, found: bool) returns (added: bool)
      requires i < |txs|
      modifies this
      ensures filter == old(filter).(
                outpoints := old(filter).outpoints + PaidOutPoints(txs[i], |txs[i].outs|, tree, old(filter).addrs))
      ensures added == (found || TxPaysWatched(txs[i], old(filter).addrs))
    {
      var tx := txs[i];
      ghost var f := filter;
      added := found;
      for k := 0 to |tx.outs|
        invariant filter == f.(outpoints := f.outpoints + PaidOutPoints(tx, k, tree, f.addrs))
        invariant added == (found || exists m :: 0 <= m < k && PaysWatched(tx.outs[m], f.addrs))
      {
        var addrs := tx.outs[k].addrs;
        ghost var before := filter;
        for j := 0 to |addrs|
          invariant filter == before.(outpoints := before.outpoints +
                      if exists m :: 0 <= m < j && addrs[m] in f.addrs then {OutPoint(tx.hash, k, tree)} else {})
          invariant added == (found || (exists m :: 0 <= m < k && PaysWatched(tx.outs[m], f.addrs))
                                    || (exists m :: 0 <= m < j && addrs[m] in f.addrs))
        {
          if addrs[j] in filter.addrs {
            var op := OutPoint(tx.hash, k, tree);
            if op !in filter.outpoints {
              filter := filter.(outpoints := filter.outpoints + {op});
            }
            added := true;
          }
        }
        assert PaidOutPoints(tx, k + 1, tree, f.addrs) ==
               PaidOutPoints(tx, k, tree, f.addrs) +
               if PaysWatched(tx.outs[k], f.addrs) then {OutPoint(tx.hash, k, tree)} else {};
      }
    }

    /** Some input spends a watched outpoint. */
    method CheckInputs(inputs: seq<OutPoint>) returns (added: bool)
      ensures added <==> exists j :: 0 <= j < |inputs| && inputs[j] in filter.outpoints
    {
      added := false;
      for j := 0 to |inputs|
        invariant added <==> exists m :: 0 <= m < j && inputs[m] in filter.outpoints
      {
        if inputs[j] in filter.outpoints {
          added := true;
        }
      }
    }

    method RescanCheckTransactions(before: seq<Tx>, txs: seq<Tx>, tree: Tree) returns (matches: seq<Tx>)
      modifies this
      ensures filter == AfterTxs(old(filter), txs, tree)
      ensures matches == before + Matched(old(filter), txs, |txs|, tree)
    {
      ghost var f := filter;
      matches := before;
      for i := 0 to |txs|
        invariant filter == f.(outpoints := WatchedAt(f, txs, i, tree))
        invariant matches == before + Matched(f, txs, i, tree)
      {
        var added := CheckInputs(SpendingInputs(txs, i, tree));
        added := CheckOutputs(txs, i, tree, added);
        if added {
          matches := matches + [txs[i]];
        }
        assert WatchedAt(f, txs, i + 1, tree) ==
               WatchedAt(f, txs, i, tree) + PaidOutPoints(txs[i], |txs[i].outs|, tree, f.addrs);
      }
    }

    method WatchesTx(tx: Tx) returns (relevant: bool)
      ensures relevant <==> Watches(filter, tx)
    {
      for j := 0 to |tx.ins|
        invariant forall i :: 0 <= i < j ==> tx.ins[i] !in filter.outpoints
      {
        if tx.ins[j] in filter.outpoints {
          return true;
        }
      }
      for k := 0 to |tx.outs|
        invariant forall i :: 0 <= i < k ==> !PaysWatched(tx.outs[i], filter.addrs)
      {
        for j := 0 to |tx.outs[k].addrs|
          invariant forall i :: 0 <= i < j ==> tx.outs[k].addrs[i] !in filter.addrs
        {
          if tx.outs[k].addrs[j] in filter.addrs {
            assert PaysWatched(tx.outs[k], filter.addrs);
            return true;
          }
        }
      }
      relevant := false;
    }

    /** filterRelevant overwrites the slice it ranges over, never ahead of what it has read. */
    method FilterRelevant(txs: array<Tx>) returns (n: nat)
      modifies txs
      ensures n <= txs.Length
      ensures txs[..n] == Kept(filter, old(txs[..]), txs.Length)
      ensures txs[n..] == old(txs[n..])
    {
      n := 0;
      ghost var start := txs[..];
      for i := 0 to txs.Length
        invariant n <= i
        invariant txs[..n] == Kept(filter, start, i)
        invariant txs[n..] == start[n..]
      {
        assert txs[i] == txs[n..][i - n] == start[i];
        var relevant := WatchesTx(txs[i]);
        if relevant {
          txs[n] := txs[i];
          n := n + 1;
        }
      }
    }

    method RescanBlock(b: Block) returns (matches: seq<Tx>, fadded: set<Script>)
      modifies this
      ensures Outcome(filter, matches, fadded) == ScanBlock(old(filter), b)
      ensures forall tx :: tx in matches <==>
                exists tree: Tree, i :: Found(old(filter), b, tree, i) && b.Txs(tree)[i] == tx
    {
      forall tx ensures tx in ScanBlock(filter, b).matches <==>
                        exists tree: Tree, i :: Found(filter, b, tree, i) && b.Txs(tree)[i] == tx
      {
        ScanFindsExactly(filter, b, tx);
      }
      matches := RescanCheckTransactions([], b.stakeTxs, StakeTree);
      matches := RescanCheckTransactions(matches, b.regularTxs, RegularTree);
      fadded := {};
    }

    /** Scans the fetched blocks from idx on, until one adds filter data. */
    method ScanFetched(chain: seq<Block>, fetched: seq<Option<Block>>, step: Step, idx: nat, before: seq<Save>,
                       ghost f: Filter, ghost inv: Filter -> bool, ghost commits: (Block, Script) -> bool)
      returns (ok: bool, saves: seq<Save>, i: nat, fadded: set<Script>)
      requires idx < |chain| && Genuine(fetched, chain)
      requires Sound(step, chain, inv, commits) && NeverAddsWithoutMatch(step, chain, inv)
      requires inv(filter) && filter == FilterAfter(step, f, chain, idx)
      requires before == SavesUpTo(step, f, chain, idx)
      requires RuledOut(chain, fetched, idx, filter.data, commits)
      modifies this
      ensures idx <= i <= |chain| && inv(filter) && filter == FilterAfter(step, f, chain, i)
      ensures saves == SavesUpTo(step, f, chain, i)
      ensures ok && i < |chain| ==> fadded != {}
      ensures ok ==> idx < i && RuledOut(chain, fetched, i, filter.data - fadded, commits)
    {
      saves, i, fadded := before, idx, {};
      while i < |chain|
        invariant idx <= i <= |chain| && inv(filter) && filter == FilterAfter(step, f, chain, i)
        invariant saves == SavesUpTo(step, f, chain, i)
        invariant RuledOut(chain, fetched, i, filter.data, commits)
      {
        BlockStep(step, f, chain, i, fetched, inv, commits);
        assert AddsOnlyWithMatch(step, filter, chain[i]);
        if fetched[i].Some? {
          if * {
            return false, saves, i, fadded;  // the context is cancelled
          }
          var o := Scanned(step, filter, fetched[i].value);
          filter := o.filter;
          if o.matches != [] {
            saves := saves + [Save(chain[i].hash, o.matches)];
            if * {
              return false, saves, i + 1, fadded;  // the save callback failed
            }
            if o.fadded != {} {
              return true, saves, i + 1, o.fadded;
            }
          }
        }
        i := i + 1;
      }
      ok := true;
    }

    /** A Rescan that succeeds makes exactly the saves of scanning every block, in order, and
        leaves the same filter.  One that fails has made a prefix of those saves.  Each
        filter round starts at a later block than the one before it. */
    method Rescan(chain: seq<Block>, cfilters: seq<CFilter>, step: Step, answers: seq<PeerAnswer>,
                  ghost inv: Filter -> bool, ghost commits: (Block, Script) -> bool)
      returns (ok: bool, saves: seq<Save>, ghost scanned: nat, ghost rounds: nat)
      requires |cfilters| == |chain|
      requires forall i :: 0 <= i < |chain| ==> NoFalseNegatives(cfilters[i], chain[i], commits)
      requires Sound(step, chain, inv, commits) && NeverAddsWithoutMatch(step, chain, inv)
      requires inv(filter)
      modifies this
      ensures scanned <= |chain| && filter == FilterAfter(step, old(filter), chain, scanned) && inv(filter)
      ensures ok ==> scanned == |chain| && saves == SavesUpTo(step, old(filter), chain, |chain|)
      ensures !ok ==> saves <= SavesUpTo(step, old(filter), chain, |chain|)
      ensures rounds <= |chain|
    {
      if * {
        return false, [], 0, 0;  // unknown wallet, or a compact filter is missing
      }
      ghost var f := filter;
      saves, rounds := [], 0;
      var fetched: seq<Option<Block>> := seq(|chain|, _ => None);
      var filterData := filter.data;
      var idx, next := 0, 0;
      while idx < |chain|
        invariant 0 <= idx <= |chain| && next <= |answers| && rounds <= idx
        invariant inv(filter) && filter == FilterAfter(step, f, chain, idx)
        invariant saves == SavesUpTo(step, f, chain, idx)
        invariant Genuine(fetched, chain)
        invariant RuledOut(chain, fetched, idx, filter.data - filterData, commits)
        decreases |chain| - idx
      {
        rounds := rounds + 1;
        var hits := TestFilters(cfilters, fetched, idx, filterData);
        ghost var before := fetched;
        ok, fetched, next := FetchBlocks(chain, hits, fetched, answers, next);
        if !ok {
          SavesGrow(step, f, chain, idx, |chain|);
          return false, saves, idx, rounds;
        }
        RoundRulesOut(chain, cfilters, before, fetched, idx, filter.data, filterData, hits, commits);
        ok, saves, idx, filterData := ScanFetched(chain, fetched, step, idx, saves, f, inv, commits);
        if !ok {
          SavesGrow(step, f, chain, idx, |chain|);
          return false, saves, idx, rounds;
        }
      }
      return true, saves, |chain|, rounds;
    }

    /** Rescan with the block scan of spv/rescan.go. */
    method RescanWallet(chain: seq<Block>, cfilters: seq<CFilter>, answers: seq<PeerAnswer>, ghost l: Ledger)
      returns (ok: bool, saves: seq<Save>)
      requires |cfilters| == |chain|
      requires forall i :: 0 <= i < |chain| ==> Standard(chain[i], l)
      requires forall i :: 0 <= i < |chain| ==> NoFalseNegatives(cfilters[i], chain[i], (b, s) => Commits(b, l, s))
      requires Covered(filter, l)
      modifies this
      ensures Covered(filter, l)
      ensures ok ==> && saves == SavesUpTo(ScanBlock, old(filter), chain, |chain|)
                     && filter == FilterAfter(ScanBlock, old(filter), chain, |chain|)
      ensures !ok ==> saves <= SavesUpTo(ScanBlock, old(filter), chain, |chain|)
    {
      ScanBlockIsSound(chain, l);
      ghost var scanned, rounds;
      ok, saves, scanned, rounds :=
          Rescan(chain, cfilters, ScanBlock, answers, f => Covered(f, l), (b, s) => Commits(b, l, s));
    }

    /** Scans the blocks at hand from idx on, recording what each matches, until one adds
        filter data. */
    method CollectFetched(chain: seq<Block>, fetched: seq<Option<Block>>, step: Step, idx: nat,
                          before: map<Hash, seq<Tx>>, ghost f: Filter, ghost inv: Filter -> bool,
                          ghost commits: (Block, Script) -> bool)
      returns (found: map<Hash, seq<Tx>>, i: nat, fadded: set<Script>)
      requires idx < |chain| && Genuine(fetched, chain) && DistinctHashes(chain)
      requires Sound(step, chain, inv, commits)
      requires inv(filter) && filter == FilterAfter(step, f, chain, idx)
      requires Collected(before, step, f, chain, idx)
      requires RuledOut(chain, fetched, idx, filter.data, commits)
      modifies this
      ensures idx < i <= |chain| && inv(filter) && filter == FilterAfter(step, f, chain, i)
      ensures Collected(found, step, f, chain, i)
      ensures i < |chain| ==> fadded != {}
      ensures RuledOut(chain, fetched, i, filter.data - fadded, commits)
    {
      found, i, fadded := before, idx, {};
      while i < |chain|
        invariant idx <= i <= |chain| && inv(filter) && filter == FilterAfter(step, f, chain, i)
        invariant Collected(found, step, f, chain, i)
        invariant RuledOut(chain, fetched, i, filter.data, commits)
      {
        BlockStep(step, f, chain, i, fetched, inv, commits);
        CollectNext(found, step, f, chain, i, MatchesAt(step, f, chain, i));
        if fetched[i].Some? {
          var o := Scanned(step, filter, fetched[i].value);
          filter := o.filter;
          found := found[chain[i].hash := o.matches];
          if o.fadded != {} {
            return found, i + 1, o.fadded;
          }
        }
        i := i + 1;
      }
    }

    /** scanChain reports for every block what scanning the whole chain in order would,
        whichever blocks are at hand in bmap; an absent entry stands for no matches. */
    method ScanChain(chain: seq<Block>, nodes: seq<NodeFilter>, bmap: map<Hash, Block>, step: Step,
                     ghost inv: Filter -> bool, ghost commits: (Block, Script) -> bool)
      returns (ok: bool, found: map<Hash, seq<Tx>>, ghost rounds: nat)
      requires |nodes| == |chain| && DistinctHashes(chain)
      requires forall i :: 0 <= i < |chain| && chain[i].hash in bmap ==> bmap[chain[i].hash] == chain[i]
      requires forall i :: 0 <= i < |chain| ==> nodes[i].SoundFor(chain[i], commits)
      requires Sound(step, chain, inv, commits)
      requires inv(filter)
      modifies this
      ensures inv(filter)
      ensures ok ==> filter == FilterAfter(step, old(filter), chain, |chain|)
      ensures ok ==> forall i {:trigger MatchesAt(step, old(filter), chain, i)} :: 0 <= i < |chain| ==>
                       Lookup(found, chain[i].hash) == MatchesAt(step, old(filter), chain, i)
      ensures ok ==> forall h :: h in found ==> exists i :: 0 <= i < |chain| && chain[i].hash == h
      ensures rounds <= |chain|
    {
      ghost var f := filter;
      found, rounds := map[], 0;
      var cfilters := seq(|nodes|, i requires 0 <= i < |nodes| => nodes[i].Guarded());
      var filterData := filter.data;
      var fetched := seq(|chain|, i requires 0 <= i < |chain| =>
                       if chain[i].hash in bmap then Some(bmap[chain[i].hash]) else None);
      var idx := 0;
      while idx < |chain|
        invariant 0 <= idx <= |chain| && rounds <= idx
        invariant inv(filter) && filter == FilterAfter(step, f, chain, idx)
        invariant Collected(found, step, f, chain, idx)
        invariant Genuine(fetched, chain)
        invariant RuledOut(chain, fetched, idx, filter.data - filterData, commits)
        decreases |chain| - idx
      {
        rounds := rounds + 1;
        var hits := TestFilters(cfilters, fetched, idx, filterData);
        ghost var before := fetched;
        for j := 0 to |hits|
          invariant Genuine(fetched, chain)
          invariant forall i :: 0 <= i < |chain| && before[i].Some? ==> fetched[i].Some?
          invariant forall k :: 0 <= k < j ==> fetched[hits[k]].Some?
        {
          if * {
            return false, map[], rounds;  // the peer fails, or this block does not validate
          }
          fetched := fetched[hits[j] := Some(chain[hits[j]])];
        }
        if * {
          return false, map[], rounds;  // the context is cancelled
        }
        RoundRulesOut(chain, cfilters, before, fetched, idx, filter.data, filterData, hits, commits);
        found, idx, filterData := CollectFetched(chain, fetched, step, idx, found, f, inv, commits);
      }
      ok := true;
    }
  }
}
