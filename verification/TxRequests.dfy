/** Answering a peer's request for transactions (getTransactionsByHashes of spv/sync.go).  Every
    wallet is asked for the hashes still missing; what it finds is deleted from the hash slice in
    place, while the deleting loop still ranges over the slice header it started with. */
module TxRequests {
  type Hash = string

  datatype MsgTx = MsgTx(hash: Hash, body: string)

  /** What a wallet stores; a failing wallet answers with an error other than NotExist. */
  datatype Wallet = Wallet(store: map<Hash, MsgTx>, fails: bool)

  datatype Outcome =
    | Panicked                                        // slice bounds out of range
    | Failed                                          // a wallet's lookup failed
    | Answer(found: seq<MsgTx>, notFound: seq<Hash>)

  predicate Indexed(w: Wallet) { forall h :: h in w.store ==> w.store[h].hash == h }

  predicate AllIndexed(wallets: seq<Wallet>) { forall i :: 0 <= i < |wallets| ==> Indexed(wallets[i]) }

  /** No hash is requested twice. */
  ghost predicate Distinct(s: seq<Hash>) { forall h :: multiset(s)[h] <= 1 }

  // ----- the reference answer -----

  /** The hashes not in gone, in order. */
  function Drop(s: seq<Hash>, gone: set<Hash>): seq<Hash> {
    if s == [] then []
    else if s[0] in gone then Drop(s[1..], gone)
    else [s[0]] + Drop(s[1..], gone)
  }

  /** The transactions a wallet returns for a request. */
  function Select(s: seq<Hash>, store: map<Hash, MsgTx>): seq<MsgTx> {
    if s == [] then []
    else if s[0] in store then [store[s[0]]] + Select(s[1..], store)
    else Select(s[1..], store)
  }

  /** The last hash is among those to be deleted and is not the only one of its kind. */
  predicate RunsOut(s: seq<Hash>, gone: set<Hash>) {
    s != [] && s[|s| - 1] in gone && s[|s| - 1] in s[..|s| - 1]
  }

  /** Ask the wallets in turn, each for what is still missing, until nothing is.  Deleting what
      a wallet found panics exactly when the last hash runs out. */
  function Reply(request: seq<Hash>, wallets: seq<Wallet>): Outcome
    decreases |wallets|
  {
    if request == [] || wallets == [] then Answer([], request)
    else if wallets[0].fails then Failed
    else if RunsOut(request, wallets[0].store.Keys) then Panicked
    else
      Prepend(Select(request, wallets[0].store), Reply(Drop(request, wallets[0].store.Keys), wallets[1..]))
  }

  /** What a wallet found comes before what later wallets find. */
  function Prepend(found: seq<MsgTx>, r: Outcome): Outcome {
    match r
    case Answer(f, notFound) => Answer(found + f, notFound)
    case other => other
  }

  function HashesOf(txs: seq<MsgTx>): seq<Hash> {
    if txs == [] then [] else [txs[0].hash] + HashesOf(txs[1..])
  }

  predicate Knows(wallets: seq<Wallet>, h: Hash) {
    exists i :: 0 <= i < |wallets| && h in wallets[i].store
  }

  // ----- dropping and selecting -----

  lemma {:induction false} DropCount(s: seq<Hash>, gone: set<Hash>, h: Hash)
    ensures multiset(Drop(s, gone))[h] == if h in gone then 0 else multiset(s)[h]
  {
    if s != [] {
      DropCount(s[1..], gone, h);
      assert s == [s[0]] + s[1..];
    }
  }

  lemma {:induction false} DropNothing(s: seq<Hash>, gone: set<Hash>)
    requires forall h :: h in gone ==> multiset(s)[h] == 0
    ensures Drop(s, gone) == s
  {
    if s != [] {
      assert s == [s[0]] + s[1..];
      assert multiset(s)[s[0]] > 0;
      forall h | h in gone ensures multiset(s[1..])[h] == 0 {
        assert multiset(s)[h] == multiset([s[0]])[h] + multiset(s[1..])[h];
      }
      DropNothing(s[1..], gone);
    }
  }

  lemma {:induction false} DropConcat(s: seq<Hash>, t: seq<Hash>, gone: set<Hash>)
    ensures Drop(s + t, gone) == Drop(s, gone) + Drop(t, gone)
  {
    if s == [] {
      assert s + t == t;
    } else {
      DropConcat(s[1..], t, gone);
      assert (s + t)[1..] == s[1..] + t;
    }
  }

  lemma {:induction false} DropLength(s: seq<Hash>, h: Hash)
    ensures |Drop(s, {h})| + multiset(s)[h] == |s|
  {
    if s != [] {
      DropLength(s[1..], h);
      assert s == [s[0]] + s[1..];
    }
  }

  lemma {:induction false} SelectCount(s: seq<Hash>, w: Wallet, h: Hash)
    requires Indexed(w)
    ensures multiset(HashesOf(Select(s, w.store)))[h] == if h in w.store then multiset(s)[h] else 0
  {
    if s != [] {
      SelectCount(s[1..], w, h);
      assert s == [s[0]] + s[1..];
    }
  }

  lemma {:induction false} HashesConcat(a: seq<MsgTx>, b: seq<MsgTx>)
    ensures HashesOf(a + b) == HashesOf(a) + HashesOf(b)
  {
    if a == [] {
      assert a + b == b;
    } else {
      var c := a + b;
      assert c[0] == a[0] && c[1..] == a[1..] + b;
      HashesConcat(a[1..], b);
      var x, y, z := [a[0].hash], HashesOf(a[1..]), HashesOf(b);
      assert HashesOf(c) == x + (y + z) == (x + y) + z;
    }
  }

  lemma {:induction false} SelectIsStored(s: seq<Hash>, w: Wallet, tx: MsgTx)
    requires Indexed(w) && tx in Select(s, w.store)
    ensures tx.hash in w.store && w.store[tx.hash] == tx
  {
    if !(s[0] in w.store && tx == w.store[s[0]]) {
      SelectIsStored(s[1..], w, tx);
    }
  }

  // ----- what the reference answer means -----

  /** An answer counts h as often as it was requested: as found when some wallet stores it, as
      not found when none does. */
  ghost predicate Splits(request: seq<Hash>, wallets: seq<Wallet>, r: Outcome, h: Hash) {
    r.Answer? ==>
      && multiset(HashesOf(r.found))[h] == (if Knows(wallets, h) then multiset(request)[h] else 0)
      && multiset(r.notFound)[h] == (if Knows(wallets, h) then 0 else multiset(request)[h])
  }

  lemma FoundCount(found: seq<MsgTx>, r: Outcome, h: Hash)
    requires r.Answer?
    ensures multiset(HashesOf(Prepend(found, r).found))[h] ==
            multiset(HashesOf(found))[h] + multiset(HashesOf(r.found))[h]
  {
    HashesConcat(found, r.found);
  }

  lemma SplitsPrepend(request: seq<Hash>, wallets: seq<Wallet>, rest: Outcome, h: Hash)
    requires wallets != [] && Indexed(wallets[0])
    requires Splits(Drop(request, wallets[0].store.Keys), wallets[1..], rest, h)
    ensures Splits(request, wallets, Prepend(Select(request, wallets[0].store), rest), h)
  {
    var w := wallets[0];
    DropCount(request, w.store.Keys, h);
    SelectCount(request, w, h);
    KnowsSplit(wallets, h);
    if rest.Answer? {
      FoundCount(Select(request, w.store), rest, h);
    }
  }

  /** Every answer splits the request exactly. */
  lemma {:induction false} ReplySplitsRequest(request: seq<Hash>, wallets: seq<Wallet>, h: Hash)
    requires AllIndexed(wallets)
    ensures Splits(request, wallets, Reply(request, wallets), h)
    decreases |wallets|
  {
    if request != [] && wallets != [] {
      var left := Drop(request, wallets[0].store.Keys);
      ReplySplitsRequest(left, wallets[1..], h);
      SplitsPrepend(request, wallets, Reply(left, wallets[1..]), h);
    }
  }

  lemma KnowsSplit(wallets: seq<Wallet>, h: Hash)
    requires wallets != []
    ensures Knows(wallets, h) <==> h in wallets[0].store || Knows(wallets[1..], h)
  {
    if i :| 1 <= i < |wallets| && h in wallets[i].store {
      assert h in wallets[1..][i - 1].store;
    }
    if i :| 0 <= i < |wallets[1..]| && h in wallets[1..][i].store {
      assert h in wallets[i + 1].store;
    }
  }

  /** What is not found keeps the order of the request. */
  lemma {:induction false} NotFoundInOrder(request: seq<Hash>, wallets: seq<Wallet>, known: set<Hash>)
    requires forall h :: h in known <==> Knows(wallets, h)
    ensures var r := Reply(request, wallets); r.Answer? ==> r.notFound == Drop(request, known)
    decreases |wallets|
  {
    if wallets == [] || request == [] {
      DropNothing(request, known);
    } else if !wallets[0].fails {
      var later := set h | h in known && Knows(wallets[1..], h);
      forall h ensures h in later <==> Knows(wallets[1..], h) {
        KnowsSplit(wallets, h);
      }
      var left := Drop(request, wallets[0].store.Keys);
      NotFoundInOrder(left, wallets[1..], later);
      forall h ensures h in wallets[0].store.Keys + later <==> h in known {
        KnowsSplit(wallets, h);
      }
      assert wallets[0].store.Keys + later == known;
      DropTwice(request, wallets[0].store.Keys, later);
    }
  }

  lemma {:induction false} DropTwice(s: seq<Hash>, a: set<Hash>, b: set<Hash>)
    ensures Drop(Drop(s, a), b) == Drop(s, a + b)
  {
    if s != [] {
      DropTwice(s[1..], a, b);
      if s[0] !in a {
        assert Drop(s, a)[1..] == Drop(s[1..], a);
      }
    }
  }

  /** Every transaction sent is one that some wallet stores under its hash. */
  lemma {:induction false} FoundIsStored(request: seq<Hash>, wallets: seq<Wallet>, tx: MsgTx) returns (i: nat)
    requires AllIndexed(wallets) && Reply(request, wallets).Answer? && tx in Reply(request, wallets).found
    ensures i < |wallets| && tx.hash in wallets[i].store && wallets[i].store[tx.hash] == tx
    decreases |wallets|
  {
    if tx in Select(request, wallets[0].store) {
      SelectIsStored(request, wallets[0], tx);
      i := 0;
    } else {
      i := FoundIsStored(Drop(request, wallets[0].store.Keys), wallets[1..], tx);
      i := i + 1;
    }
  }

  /** Pairwise distinct hashes are never deleted out of bounds. */
  lemma {:induction false} DistinctNeverPanics(request: seq<Hash>, wallets: seq<Wallet>)
    requires Distinct(request)
    ensures !Reply(request, wallets).Panicked?
    decreases |wallets|
  {
    if request != [] && wallets != [] {
      DistinctDoesNotRunOut(request, wallets[0].store.Keys);
      DropIsDistinct(request, wallets[0].store.Keys);
      DistinctNeverPanics(Drop(request, wallets[0].store.Keys), wallets[1..]);
    }
  }

  lemma DistinctDoesNotRunOut(s: seq<Hash>, gone: set<Hash>)
    requires Distinct(s)
    ensures !RunsOut(s, gone)
  {
    if s != [] {
      LastCount(s);
    }
  }

  lemma LastCount(s: seq<Hash>)
    requires s != []
    ensures s[|s| - 1] in s[..|s| - 1] <==> multiset(s)[s[|s| - 1]] > 1
    ensures multiset(s)[s[|s| - 1]] > 0
  {
    var x, h := s[..|s| - 1], s[|s| - 1];
    assert s == x + [h];
    assert multiset(s)[h] == multiset(x)[h] + 1;
    assert h in x <==> multiset(x)[h] > 0;
  }

  lemma DropIsDistinct(s: seq<Hash>, gone: set<Hash>)
    requires Distinct(s)
    ensures Distinct(Drop(s, gone))
  {
    forall h ensures multiset(Drop(s, gone))[h] <= 1 {
      DropCount(s, gone, h);
    }
  }

  /** Two requests for a stored hash and nothing else panic. */
  lemma RepeatedHashPanics(tx: MsgTx)
    ensures var request := [tx.hash, tx.hash];
            !Distinct(request) && Reply(request, [Wallet(map[tx.hash := tx], false)]) == Panicked
  {
    assert multiset([tx.hash, tx.hash])[tx.hash] == 2;
    assert [tx.hash, tx.hash][..1] == [tx.hash];
  }

  /** The hashes stored by the first i wallets. */
  function StoredBefore(wallets: seq<Wallet>, i: nat): set<Hash>
    requires i <= |wallets|
  {
    if i == 0 then {} else StoredBefore(wallets, i - 1) + wallets[i - 1].store.Keys
  }

  /** What wallet i is asked for, if it is asked. */
  function AskedFor(request: seq<Hash>, wallets: seq<Wallet>, i: nat): seq<Hash>
    requires i <= |wallets|
  {
    Drop(request, StoredBefore(wallets, i))
  }

  /** Wallet i answers, and what it found is deleted within bounds. */
  predicate Passes(request: seq<Hash>, wallets: seq<Wallet>, i: nat)
    requires i < |wallets|
  {
    !wallets[i].fails && !RunsOut(AskedFor(request, wallets, i), wallets[i].store.Keys)
  }

  /** Wallet i is the first one not to pass, and something is left to ask it for. */
  predicate StopsAt(request: seq<Hash>, wallets: seq<Wallet>, i: nat)
    requires i < |wallets|
  {
    && AskedFor(request, wallets, i) != []
    && !Passes(request, wallets, i)
    && forall k :: 0 <= k < i ==> Passes(request, wallets, k)
  }

  lemma {:induction false} StoredShift(wallets: seq<Wallet>, i: nat)
    requires i < |wallets|
    ensures StoredBefore(wallets, i + 1) == wallets[0].store.Keys + StoredBefore(wallets[1..], i)
  {
    if i > 0 {
      StoredShift(wallets, i - 1);
    }
  }

  /** From the second wallet on, what the first one stores is no longer asked for. */
  lemma AskedForShift(request: seq<Hash>, wallets: seq<Wallet>, i: nat)
    requires i < |wallets|
    ensures AskedFor(request, wallets, i + 1) == AskedFor(Drop(request, wallets[0].store.Keys), wallets[1..], i)
  {
    StoredShift(wallets, i);
    DropTwice(request, wallets[0].store.Keys, StoredBefore(wallets[1..], i));
  }

  lemma AskedFirst(request: seq<Hash>, wallets: seq<Wallet>)
    ensures AskedFor(request, wallets, 0) == request
  {
    DropNothing(request, {});
  }

  lemma StopsShift(request: seq<Hash>, wallets: seq<Wallet>, i: nat)
    requires wallets != [] && i < |wallets| - 1 && Passes(request, wallets, 0)
    ensures StopsAt(request, wallets, i + 1) <==> StopsAt(Drop(request, wallets[0].store.Keys), wallets[1..], i)
  {
    var left, rest := Drop(request, wallets[0].store.Keys), wallets[1..];
    forall k | 0 <= k <= i ensures Passes(request, wallets, k + 1) <==> Passes(left, rest, k) {
      AskedForShift(request, wallets, k);
    }
    AskedForShift(request, wallets, i);
    if StopsAt(left, rest, i) {
      forall k | 0 <= k < i + 1 ensures Passes(request, wallets, k) {
        assert k > 0 ==> Passes(left, rest, k - 1);
      }
    }
    if StopsAt(request, wallets, i + 1) {
      forall k | 0 <= k < i ensures Passes(left, rest, k) {
        assert Passes(request, wallets, k + 1);
      }
    }
  }

  /** The call, for any request, ends without an answer exactly when some wallet is the first
      not to pass while something is missing; it fails if that wallet fails, and panics if
      that wallet stores the last hash it was asked for and it was asked for it twice. */
  lemma {:induction false} StopsIff(request: seq<Hash>, wallets: seq<Wallet>)
    ensures forall i :: 0 <= i < |wallets| && StopsAt(request, wallets, i) ==>
              Reply(request, wallets) == if wallets[i].fails then Failed else Panicked
    ensures !Reply(request, wallets).Answer? ==> exists i :: 0 <= i < |wallets| && StopsAt(request, wallets, i)
    decreases |wallets|
  {
    if wallets != [] {
      AskedFirst(request, wallets);
      var left := Drop(request, wallets[0].store.Keys);
      StopsIff(left, wallets[1..]);
      if request == [] {
        forall i | 0 <= i < |wallets| ensures AskedFor(request, wallets, i) == [] { }
      } else if !Passes(request, wallets, 0) {
        assert StopsAt(request, wallets, 0);
      } else {
        assert !StopsAt(request, wallets, 0);
        forall i | 0 < i < |wallets| ensures StopsAt(request, wallets, i) <==> StopsAt(left, wallets[1..], i - 1) {
          StopsShift(request, wallets, i - 1);
        }
        if !Reply(left, wallets[1..]).Answer? {
          var i :| 0 <= i < |wallets[1..]| && StopsAt(left, wallets[1..], i);
          assert StopsAt(request, wallets, i + 1);
        }
      }
    }
  }

  // ----- the deleting loop -----

  /** txHashes = append(txHashes[:index], txHashes[index+1:]...) on a slice of length m: the hash
      at index is overwritten and the cell beyond the shorter slice keeps its value. */
  function Removed(c: seq<Hash>, index: nat, m: nat): seq<Hash>
    requires index < m <= |c|
  {
    c[..index] + c[index + 1..m] + c[m - 1..]
  }

  method RemoveAt(a: array<Hash>, n: nat, index: nat, m: nat)
    requires index < m <= n <= a.Length
    modifies a
    ensures a[..n] == Removed(old(a[..n]), index, m)
  {
    forall i | index <= i < m - 1 {
      a[i] := a[i + 1];
    }
    ghost var c := old(a[..n]);
    forall i | 0 <= i < n ensures a[i] == Removed(c, index, m)[i] {
      RemovedAt(c, index, m, i);
    }
  }

  lemma RemovedAt(c: seq<Hash>, index: nat, m: nat, i: nat)
    requires index < m <= |c| && i < |c|
    ensures |Removed(c, index, m)| == |c|
    ensures Removed(c, index, m)[i] == if index <= i < m - 1 then c[i + 1] else c[i]
  {}

  lemma RemoveOne(x: seq<Hash>, y: seq<Hash>, h: Hash)
    ensures Drop(x + ([h] + y), {h}) == Drop(x + y, {h})
  {
    DropConcat(x, [h] + y, {h});
    DropConcat(x, y, {h});
    assert ([h] + y)[1..] == y;
  }

  /** Where a range over a slice stands: start is what the slice held, c what it holds now, m the
      length left.  What was deleted leaves copies of the last hash behind. */
  ghost predicate Ranging(start: seq<Hash>, c: seq<Hash>, m: nat, index: nat, h: Hash) {
    && index <= |start| == |c| && m <= |c|
    && (m == |c| ==> c == start && h !in start[..index])
    && (m < |c| ==> h in start[..index])
    && (forall i :: m <= i < |c| ==> c[i] == start[|c| - 1])
    && (m > 0 ==> c[m - 1] == start[|c| - 1] || (start[|c| - 1] == h && index >= m))
    && (|c| > 0 && start[|c| - 1] != h ==> m > 0 && c[m - 1] == start[|c| - 1])
    && Drop(c[..m], {h}) == Drop(start, {h})
    && (index == |c| > 0 && start[|c| - 1] == h ==> h !in start[..|c| - 1])
  }

  lemma RangeSkips(start: seq<Hash>, c: seq<Hash>, m: nat, index: nat, h: Hash)
    requires Ranging(start, c, m, index, h) && index < |c| && c[index] != h
    ensures Ranging(start, c, m, index + 1, h)
  {
    assert start[..index + 1] == start[..index] + [start[index]];
  }

  lemma RangeDeletes(start: seq<Hash>, c: seq<Hash>, m: nat, index: nat, h: Hash)
    requires Ranging(start, c, m, index, h) && index < m && c[index] == h
    ensures Ranging(start, Removed(c, index, m), m - 1, index + 1, h)
  {
    var d, x, y := Removed(c, index, m), c[..index], c[index + 1..m];
    assert start[..index + 1] == start[..index] + [start[index]];
    assert c[..m] == x + ([h] + y);
    RemoveOne(x, y, h);
    assert d[..m - 1] == x + y;
    forall i | m - 1 <= i < |c| ensures d[i] == c[i] {
      assert d[i] == c[m - 1..][i - (m - 1)];
    }
    assert index < m - 1 ==> d[m - 2] == y[m - 2 - index];
  }

  lemma RangeRunsOut(start: seq<Hash>, c: seq<Hash>, m: nat, index: nat, h: Hash)
    requires Ranging(start, c, m, index, h) && m <= index < |c| && c[index] == h
    ensures RunsOut(start, {h})
  {
    var i :| 0 <= i < index && start[i] == h;
    assert start[..|c| - 1][i] == h;
  }

  /** What one pass for h does: it deletes nothing but h, some h if there is one, and leaves
      another last hash in place. */
  ghost predicate Passed(s: seq<Hash>, t: seq<Hash>, h: Hash) {
    && Drop(t, {h}) == Drop(s, {h})
    && |t| <= |s|
    && (|t| < |s| <==> h in s)
    && (s != [] && s[|s| - 1] != h ==> t != [] && t[|t| - 1] == s[|s| - 1])
  }

  lemma RangeEnds(start: seq<Hash>, c: seq<Hash>, m: nat, h: Hash)
    requires Ranging(start, c, m, |c|, h)
    ensures Passed(start, c[..m], h) && !RunsOut(start, {h})
  {
    assert start[..|c|] == start;
  }

  lemma RangeBegins(start: seq<Hash>, h: Hash)
    ensures Ranging(start, start, |start|, 0, h)
  {
    assert start[..|start|] == start;
  }

  /** One range over the slice of length n.  It runs out of bounds exactly when the last hash is
      the one sought and occurs earlier too; otherwise it is a pass for h. */
  method DeleteRanging(a: array<Hash>, n: nat, h: Hash) returns (m: nat, panicked: bool)
    requires n <= a.Length
    modifies a
    ensures panicked <==> RunsOut(old(a[..n]), {h})
    ensures !panicked ==> m <= n && Passed(old(a[..n]), a[..m], h)
  {
    m, panicked := n, false;
    ghost var start := a[..n];
    RangeBegins(start, h);
    var index := 0;
    while index < n
      invariant index <= n && m <= n
      invariant Ranging(start, a[..n], m, index, h)
    {
      ghost var c := a[..n];
      if a[index] == h {
        if index >= m {
          RangeRunsOut(start, c, m, index, h);
          return m, true;
        }
        RemoveAt(a, n, index, m);
        RangeDeletes(start, c, m, index, h);
        m := m - 1;
      } else {
        RangeSkips(start, c, m, index, h);
      }
      index := index + 1;
    }
    RangeEnds(start, a[..n], m, h);
    assert a[..n][..m] == a[..m];
  }

  // ----- one wallet's turn, and the whole request -----

  lemma PassKeepsOthers(s: seq<Hash>, t: seq<Hash>, h: Hash, gone: set<Hash>)
    requires Passed(s, t, h) && h in gone
    ensures Drop(t, gone) == Drop(s, gone)
  {
    DropTwice(s, {h}, gone);
    DropTwice(t, {h}, gone);
    assert {h} + gone == gone;
  }

  lemma PassCounts(s: seq<Hash>, t: seq<Hash>, h: Hash, g: Hash)
    requires Passed(s, t, h)
    ensures g != h ==> multiset(t)[g] == multiset(s)[g]
    ensures multiset(t)[h] < multiset(s)[h] || multiset(t)[h] == 0
  {
    DropCount(s, {h}, g);
    DropCount(t, {h}, g);
    DropLength(s, h);
    DropLength(t, h);
    assert h in s <==> multiset(s)[h] > 0;
  }

  /** The transactions still to be passed over suffice to delete every hash in gone. */
  ghost predicate CoveredBy(s: seq<Hash>, gone: set<Hash>, found: seq<MsgTx>) {
    forall h :: h in gone ==> multiset(s)[h] <= multiset(HashesOf(found))[h]
  }

  lemma PassKeepsCover(s: seq<Hash>, t: seq<Hash>, gone: set<Hash>, tx: MsgTx, later: seq<MsgTx>)
    requires CoveredBy(s, gone, [tx] + later) && Passed(s, t, tx.hash)
    ensures CoveredBy(t, gone, later)
  {
    assert HashesOf([tx] + later) == [tx.hash] + HashesOf(later) by {
      assert ([tx] + later)[1..] == later;
    }
    forall h | h in gone ensures multiset(t)[h] <= multiset(HashesOf(later))[h] {
      assert multiset([tx.hash] + HashesOf(later))[h] == multiset([tx.hash])[h] + multiset(HashesOf(later))[h];
      PassCounts(s, t, tx.hash, h);
    }
  }

  lemma {:induction false} SelectLast(s: seq<Hash>, w: Wallet)
    requires Indexed(w) && s != [] && s[|s| - 1] in w.store
    ensures var f := Select(s, w.store); f != [] && f[|f| - 1].hash == s[|s| - 1]
  {
    if |s| > 1 {
      SelectLast(s[1..], w);
    }
  }

  lemma {:induction false} HashAt(f: seq<MsgTx>, i: nat)
    requires i < |f|
    ensures multiset(HashesOf(f))[f[i].hash] > 0
  {
    if i > 0 {
      HashAt(f[1..], i - 1);
      assert multiset(HashesOf(f)) == multiset{f[0].hash} + multiset(HashesOf(f[1..]));
    }
  }

  /** A hash that occurs once in a request is sought once, and by the last pass if it is the last. */
  lemma OnceIsLast(s: seq<Hash>, w: Wallet, j: nat)
    requires Indexed(w) && s != [] && s[|s| - 1] in w.store && multiset(s)[s[|s| - 1]] == 1
    requires j < |Select(s, w.store)| && Select(s, w.store)[j].hash == s[|s| - 1]
    ensures j == |Select(s, w.store)| - 1
  {
    var f, h := Select(s, w.store), s[|s| - 1];
    SelectLast(s, w);
    SelectCount(s, w, h);
    if j < |f| - 1 {
      SoughtTwice(f, j, |f| - 1);
    }
  }

  lemma {:induction false} SoughtTwice(f: seq<MsgTx>, i: nat, k: nat)
    requires i < k < |f| && f[i].hash == f[k].hash
    ensures multiset(HashesOf(f))[f[i].hash] >= 2
  {
    assert multiset(HashesOf(f)) == multiset{f[0].hash} + multiset(HashesOf(f[1..]));
    if i == 0 {
      HashAt(f[1..], k - 1);
    } else {
      SoughtTwice(f[1..], i - 1, k - 1);
    }
  }

  /** The last hash has not been sought yet: it is in place, as often as at the start. */
  ghost predicate LastStays(start: seq<Hash>, s: seq<Hash>) {
    && start != []
    && s != []
    && s[|s| - 1] == start[|start| - 1]
    && multiset(s)[s[|s| - 1]] == multiset(start)[s[|s| - 1]]
  }

  lemma LastStaysRunsOut(start: seq<Hash>, s: seq<Hash>)
    requires LastStays(start, s)
    ensures s[|s| - 1] in s[..|s| - 1] <==> start[|start| - 1] in start[..|start| - 1]
  {
    LastCount(s);
    LastCount(start);
  }

  /** After the pass for found[j], either the last hash still stays or it was the last pass. */
  lemma PassKeepsLast(start: seq<Hash>, s: seq<Hash>, t: seq<Hash>, w: Wallet, j: nat)
    requires Indexed(w) && LastStays(start, s) && j < |Select(start, w.store)|
    requires var h := Select(start, w.store)[j].hash;
             Passed(s, t, h) && !RunsOut(s, {h})
    ensures j + 1 < |Select(start, w.store)| ==> LastStays(start, t)
    ensures j + 1 == |Select(start, w.store)| ==> !RunsOut(start, w.store.Keys)
  {
    var f, last := Select(start, w.store), start[|start| - 1];
    SelectIsStored(start, w, f[j]);
    LastStaysRunsOut(start, s);
    LastCount(start);
    if f[j].hash == last {
      OnceIsLast(start, w, j);
    } else {
      PassCounts(s, t, f[j].hash, last);
      if last in w.store {
        SelectLast(start, w);
      }
    }
  }

  /** Where the passes stand before the one for the j-th transaction found. */
  ghost predicate Passing(start: seq<Hash>, s: seq<Hash>, w: Wallet, j: nat) {
    var found := Select(start, w.store);
    && j <= |found|
    && Drop(s, w.store.Keys) == Drop(start, w.store.Keys)
    && CoveredBy(s, w.store.Keys, found[j..])
    && (j < |found| ==> LastStays(start, s))
    && (j == |found| ==> !RunsOut(start, w.store.Keys))
  }

  lemma PassesBegin(start: seq<Hash>, w: Wallet)
    requires Indexed(w)
    ensures Passing(start, start, w, 0)
  {
    var found := Select(start, w.store);
    forall h | h in w.store.Keys ensures multiset(start)[h] <= multiset(HashesOf(found))[h] {
      SelectCount(start, w, h);
    }
    assert found[0..] == found;
    if start != [] && start[|start| - 1] in w.store {
      SelectLast(start, w);
    }
  }

  lemma PassStep(start: seq<Hash>, s: seq<Hash>, t: seq<Hash>, w: Wallet, j: nat)
    requires Indexed(w) && Passing(start, s, w, j) && j < |Select(start, w.store)|
    requires var h := Select(start, w.store)[j].hash;
             Passed(s, t, h) && !RunsOut(s, {h})
    ensures Passing(start, t, w, j + 1)
  {
    var found := Select(start, w.store);
    SelectIsStored(start, w, found[j]);
    PassKeepsOthers(s, t, found[j].hash, w.store.Keys);
    assert found[j..] == [found[j]] + found[j + 1..];
    PassKeepsCover(s, t, w.store.Keys, found[j], found[j + 1..]);
    PassKeepsLast(start, s, t, w, j);
  }

  lemma PassPanics(start: seq<Hash>, s: seq<Hash>, w: Wallet, j: nat)
    requires Indexed(w) && Passing(start, s, w, j) && j < |Select(start, w.store)|
    requires RunsOut(s, {Select(start, w.store)[j].hash})
    ensures RunsOut(start, w.store.Keys)
  {
    SelectIsStored(start, w, Select(start, w.store)[j]);
    LastStaysRunsOut(start, s);
  }

  lemma PassesEnd(start: seq<Hash>, s: seq<Hash>, w: Wallet)
    requires Passing(start, s, w, |Select(start, w.store)|)
    ensures s == Drop(start, w.store.Keys) && !RunsOut(start, w.store.Keys)
  {
    var found := Select(start, w.store);
    assert found[|found|..] == [];
    DropNothing(s, w.store.Keys);
  }

  /** The passes over what a wallet found leave exactly what it did not find, in order, unless
      they run out of bounds, which the request and the wallet decide. */
  method DeleteFound(a: array<Hash>, n: nat, w: Wallet, found: seq<MsgTx>) returns (m: nat, panicked: bool)
    requires n <= a.Length && Indexed(w) && found == Select(a[..n], w.store)
    modifies a
    ensures panicked <==> RunsOut(old(a[..n]), w.store.Keys)
    ensures !panicked ==> m <= n && a[..m] == Drop(old(a[..n]), w.store.Keys)
  {
    m, panicked := n, false;
    ghost var start := a[..n];
    PassesBegin(start, w);
    for j := 0 to |found|
      invariant m <= n && !panicked
      invariant Passing(start, a[..m], w, j)
    {
      ghost var s := a[..m];
      m, panicked := DeleteRanging(a, m, found[j].hash);
      if panicked {
        PassPanics(start, s, w, j);
        return;
      }
      PassStep(start, s, a[..m], w, j);
    }
    PassesEnd(start, a[..m], w);
  }

  lemma PrependTwice(found: seq<MsgTx>, more: seq<MsgTx>, r: Outcome)
    ensures Prepend(found, Prepend(more, r)) == Prepend(found + more, r)
  {
    if r.Answer? {
      assert found + (more + r.found) == found + more + r.found;
    }
  }

  lemma AskNext(found: seq<MsgTx>, left: seq<Hash>, wallets: seq<Wallet>)
    requires left != [] && wallets != [] && !wallets[0].fails && !RunsOut(left, wallets[0].store.Keys)
    ensures Prepend(found, Reply(left, wallets)) ==
            Prepend(found + Select(left, wallets[0].store), Reply(Drop(left, wallets[0].store.Keys), wallets[1..]))
  {
    PrependTwice(found, Select(left, wallets[0].store), Reply(Drop(left, wallets[0].store.Keys), wallets[1..]));
  }

  /** For any order of the wallets the call gives the reference answer. */
  method GetTransactionsByHashes(a: array<Hash>, wallets: seq<Wallet>) returns (r: Outcome)
    requires AllIndexed(wallets)
    modifies a
    ensures r == Reply(old(a[..]), wallets)
  {
    if a.Length == 0 {
      return Answer([], []);
    }
    ghost var request := a[..];
    var m, found := a.Length, [];
    var i := 0;
    assert a[..m] == request;
    while i < |wallets|
      invariant i <= |wallets| && 0 < m <= a.Length
      invariant Reply(request, wallets) == Prepend(found, Reply(a[..m], wallets[i..]))
    {
      var w := wallets[i];
      ghost var left := a[..m];
      assert wallets[i..][1..] == wallets[i + 1..];
      if w.fails {
        return Failed;
      }
      var walletFound := Select(a[..m], w.store);
      var panicked;
      m, panicked := DeleteFound(a, m, w, walletFound);
      if panicked {
        return Panicked;
      }
      AskNext(found, left, wallets[i..]);
      found := found + walletFound;
      i := i + 1;
      if m == 0 {
        break;
      }
    }
    r := Answer(found, a[..m]);
  }
}
