/** The transaction index (txindex.go, txparser.go, walletdata): records keyed by transaction
    hash, written block by block, with every ticket linked to the transaction spending it. */
module TxIndex {
  type Hash = string

  datatype Option<+T> = None | Some(value: T)

  /** An input or output amount; accounts of the wallet are numbered from 0. */
  datatype Amount = Amount(account: int, atoms: int)

  /** A wallet transaction summary; `spends` is the ticket a vote or revocation spends. */
  datatype Summary = Summary(hash: Hash, timestamp: int, spends: Option<Hash>, inputs: seq<Amount>,
                             outputs: seq<Amount>)

  datatype Mined = Mined(tx: Summary, height: int)

  datatype Record = Record(hash: Hash, height: int, timestamp: int, spends: Option<Hash>,
                           daysToVoteOrRevoke: int, voteReward: int, ticketSpender: Option<Hash>)

  type Records = map<Hash, Record>

  /** The underlying wallet: its main chain, and the summary of any transaction by hash. */
  datatype Wallet = Wallet(blocks: seq<seq<Summary>>, lookup: map<Hash, Mined>)

  const MAX_REORG_BLOCKS := 6
  const SECONDS_PER_DAY := 86400

  // ----- decoding -----

  function SumOwned(amounts: seq<Amount>): int {
    if amounts == [] then 0
    else
      var last := amounts[|amounts| - 1];
      SumOwned(amounts[..|amounts| - 1]) + (if last.account > -1 then last.atoms else 0)
  }

  function SumAll(amounts: seq<Amount>): int {
    if amounts == [] then 0 else SumAll(amounts[..|amounts| - 1]) + amounts[|amounts| - 1].atoms
  }

  /** Amounts of the wallet's own accounts count in full and others not at all. */
  lemma {:induction false} OwnedAmounts(own: seq<Amount>, others: seq<Amount>)
    requires (forall a :: a in own ==> a.account >= 0) && (forall a :: a in others ==> a.account < 0)
    ensures SumOwned(own) == SumAll(own) && SumOwned(others) == 0
    decreases |own| + |others|
  {
    if own != [] {
      OwnedAmounts(own[..|own| - 1], []);
    }
    if others != [] {
      OwnedAmounts([], others[..|others| - 1]);
    }
  }

  lemma {:induction false} SumOwnedAppend(a: seq<Amount>, b: seq<Amount>)
    ensures SumOwned(a + b) == SumOwned(a) + SumOwned(b)
  {
    if b == [] {
      assert a + b == a;
    } else {
      SumOwnedAppend(a, b[..|b| - 1]);
      assert (a + b)[..|a + b| - 1] == a + b[..|b| - 1];
    }
  }

  /** Integer division that truncates toward zero. */
  function TruncDiv(x: int, d: int): int
    requires d > 0
  {
    if x >= 0 then x / d else -(-x / d)
  }

  /** Conversion to a signed 32-bit integer. */
  function ToInt32(x: int): int { (x + 0x8000_0000) % 0x1_0000_0000 - 0x8000_0000 }

  function PlainRecord(m: Mined): Record {
    Record(m.tx.hash, m.height, m.tx.timestamp, m.tx.spends, 0, 0, None)
  }

  function Decoded(w: Wallet, m: Mined): Record {
    if m.tx.spends.Some? && m.tx.spends.value in w.lookup then
      var ticket := w.lookup[m.tx.spends.value].tx;
      PlainRecord(m).(daysToVoteOrRevoke := ToInt32(TruncDiv(m.tx.timestamp - ticket.timestamp, SECONDS_PER_DAY)),
                      voteReward := SumOwned(m.tx.outputs) - SumOwned(ticket.inputs))
    else PlainRecord(m)
  }

  /** What a vote or revocation records about its ticket: the reward is what the wallet gets
      back over what it put in, and the days are the whole days between the two. */
  lemma DecodedReward(w: Wallet, m: Mined)
    requires m.tx.spends.Some? && m.tx.spends.value in w.lookup
    ensures var ticket, record := w.lookup[m.tx.spends.value].tx, Decoded(w, m);
            var seconds := m.tx.timestamp - ticket.timestamp;
            && record.voteReward + SumOwned(ticket.inputs) == SumOwned(m.tx.outputs)
            && (0 <= seconds < 0x8000_0000 * SECONDS_PER_DAY ==>
                  && record.daysToVoteOrRevoke >= 0
                  && record.daysToVoteOrRevoke * SECONDS_PER_DAY <= seconds
                  && seconds < (record.daysToVoteOrRevoke + 1) * SECONDS_PER_DAY)
  {
  }

  // ----- what a pass writes -----

  /** Indexing m writes its own record and that of the ticket it spends. */
  predicate Touches(m: Mined, h: Hash) { m.tx.hash == h || m.tx.spends == Some(h) }

  function Written(w: Wallet, m: Mined, h: Hash): Record
    requires Touches(m, h) && (m.tx.spends.Some? ==> m.tx.spends.value in w.lookup)
  {
    if m.tx.hash == h then Decoded(w, m)
    else PlainRecord(w.lookup[h]).(ticketSpender := Some(m.tx.hash))
  }

  function Apply(db: Records, w: Wallet, m: Mined): Records {
    var linked := if m.tx.spends.Some? && m.tx.spends.value in w.lookup then
                    var t := w.lookup[m.tx.spends.value];
                    db[t.tx.hash := PlainRecord(t).(ticketSpender := Some(m.tx.hash))]
                  else db;
    linked[m.tx.hash := Decoded(w, m)]
  }

  function ApplyAll(db: Records, w: Wallet, items: seq<Mined>): Records {
    if items == [] then db
    else Apply(ApplyAll(db, w, items[..|items| - 1]), w, items[|items| - 1])
  }

  function BlockItems(b: seq<Summary>, height: nat): seq<Mined> {
    seq(|b|, j requires 0 <= j < |b| => Mined(b[j], height))
  }

  /** The transactions of the blocks from height lo to below hi, in indexing order. */
  function Items(blocks: seq<seq<Summary>>, lo: nat, hi: nat): seq<Mined>
    requires hi <= |blocks|
  {
    if hi <= lo then [] else Items(blocks, lo, hi - 1) + BlockItems(blocks[hi - 1], hi - 1)
  }

  lemma {:induction false} ItemsSplit(blocks: seq<seq<Summary>>, lo: nat, mid: nat, hi: nat)
    requires lo <= mid <= hi <= |blocks|
    ensures Items(blocks, lo, hi) == Items(blocks, lo, mid) + Items(blocks, mid, hi)
  {
    if mid < hi {
      ItemsSplit(blocks, lo, mid, hi - 1);
    }
  }

  lemma {:induction false} ItemsAgree(a: seq<seq<Summary>>, b: seq<seq<Summary>>, lo: nat, hi: nat)
    requires hi <= |a| && hi <= |b| && forall i :: 0 <= i < hi ==> a[i] == b[i]
    ensures Items(a, lo, hi) == Items(b, lo, hi)
  {
    if lo < hi {
      ItemsAgree(a, b, lo, hi - 1);
    }
  }

  function AllItems(w: Wallet): seq<Mined> { Items(w.blocks, 0, |w.blocks|) }

  /** The index built from nothing. */
  function FullIndex(w: Wallet): Records { ApplyAll(map[], w, AllItems(w)) }

  /** A transaction is mined once, the wallet knows it by its hash, and a vote or revocation
      comes after the ticket it spends, which itself spends no ticket. */
  ghost predicate Consistent(w: Wallet) {
    var all := AllItems(w);
    && (forall a, b :: 0 <= a < b < |all| ==> all[a].tx.hash != all[b].tx.hash)
    && (forall a :: 0 <= a < |all| ==> KnownTo(w, all, a))
  }

  ghost predicate KnownTo(w: Wallet, all: seq<Mined>, a: nat)
    requires a < |all|
  {
    && all[a].tx.hash in w.lookup && w.lookup[all[a].tx.hash] == all[a]
    && (all[a].tx.spends.Some? ==> TicketBefore(all, a, all[a].tx.spends.value))
  }

  ghost predicate TicketBefore(all: seq<Mined>, a: nat, h: Hash)
    requires a < |all|
  {
    exists b :: 0 <= b < a && all[b].tx.hash == h && all[b].tx.spends.None?
  }

  // ----- the last write to a hash decides -----

  /** The record the last of these items that touches h writes for it. */
  ghost function Last(w: Wallet, items: seq<Mined>, h: Hash): Option<Record>
    requires KnownTickets(w, items)
  {
    if items == [] then None
    else
      var m := items[|items| - 1];
      if Touches(m, h) then Some(Written(w, m, h)) else Last(w, items[..|items| - 1], h)
  }

  ghost predicate KnownTickets(w: Wallet, items: seq<Mined>) {
    forall i :: 0 <= i < |items| && items[i].tx.spends.Some? ==>
      && items[i].tx.spends.value in w.lookup
      && w.lookup[items[i].tx.spends.value].tx.hash == items[i].tx.spends.value
  }

  ghost predicate Touched(items: seq<Mined>, h: Hash) {
    exists i :: 0 <= i < |items| && Touches(items[i], h)
  }

  lemma {:induction false} LastIff(w: Wallet, items: seq<Mined>, h: Hash)
    requires KnownTickets(w, items)
    ensures Last(w, items, h).Some? <==> Touched(items, h)
    ensures Last(w, items, h).Some? ==>
              exists i :: 0 <= i < |items| && Touches(items[i], h) && Last(w, items, h).value == Written(w, items[i], h)
  {
    if items != [] {
      var rest := items[..|items| - 1];
      LastIff(w, rest, h);
      if Touches(items[|items| - 1], h) {
      } else if Touched(items, h) {
        var i :| 0 <= i < |items| && Touches(items[i], h);
        assert rest[i] == items[i];
        var j :| 0 <= j < |rest| && Touches(rest[j], h) && Last(w, rest, h).value == Written(w, rest[j], h);
        assert items[j] == rest[j];
      }
    }
  }

  lemma {:induction false} ApplyAllGivesLast(db: Records, w: Wallet, items: seq<Mined>, h: Hash)
    requires KnownTickets(w, items)
    ensures var r := ApplyAll(db, w, items);
            match Last(w, items, h)
            case Some(rec) => h in r && r[h] == rec
            case None => (h in r <==> h in db) && (h in r ==> r[h] == db[h])
  {
    if items != [] {
      ApplyAllGivesLast(db, w, items[..|items| - 1], h);
    }
  }

  lemma {:induction false} LastAppend(w: Wallet, a: seq<Mined>, b: seq<Mined>, h: Hash)
    requires KnownTickets(w, a) && KnownTickets(w, b)
    ensures KnownTickets(w, a + b)
    ensures Last(w, a + b, h) == if Last(w, b, h).Some? then Last(w, b, h) else Last(w, a, h)
  {
    if b == [] {
      assert a + b == a;
    } else {
      LastAppend(w, a, b[..|b| - 1], h);
      assert (a + b)[..|a + b| - 1] == a + b[..|b| - 1];
    }
  }

  // ----- incremental against full indexing -----

  lemma ConsistentKnowsTickets(w: Wallet)
    requires Consistent(w)
    ensures KnownTickets(w, AllItems(w))
  {
    var all := AllItems(w);
    forall i | 0 <= i < |all| && all[i].tx.spends.Some?
      ensures all[i].tx.spends.value in w.lookup && w.lookup[all[i].tx.spends.value].tx.hash == all[i].tx.spends.value
    {
      assert KnownTo(w, all, i);
      var b :| 0 <= b < i && all[b].tx.hash == all[i].tx.spends.value && all[b].tx.spends.None?;
      assert KnownTo(w, all, b);
    }
  }

  /** Two consistent wallets whose chains start with the same items know the tickets spent
      there alike. */
  lemma SharedTickets(c: Wallet, d: Wallet, pre: seq<Mined>, i: nat)
    requires Consistent(c) && Consistent(d) && pre <= AllItems(c) && pre <= AllItems(d)
    requires i < |pre| && pre[i].tx.spends.Some?
    ensures pre[i].tx.spends.value in c.lookup && pre[i].tx.spends.value in d.lookup
    ensures c.lookup[pre[i].tx.spends.value] == d.lookup[pre[i].tx.spends.value]
  {
    var all, other := AllItems(c), AllItems(d);
    assert KnownTo(c, all, i);
    var b :| 0 <= b < i && all[b].tx.hash == all[i].tx.spends.value && all[b].tx.spends.None?;
    assert KnownTo(c, all, b) && KnownTo(d, other, b);
    assert all[b] == pre[b] == other[b];
  }

  lemma {:induction false} LastAgrees(c: Wallet, d: Wallet, items: seq<Mined>, h: Hash)
    requires KnownTickets(c, items) && KnownTickets(d, items)
    requires forall i :: 0 <= i < |items| && items[i].tx.spends.Some? ==>
               c.lookup[items[i].tx.spends.value] == d.lookup[items[i].tx.spends.value]
    ensures Last(c, items, h) == Last(d, items, h)
  {
    if items != [] {
      LastAgrees(c, d, items[..|items| - 1], h);
    }
  }

  /** A record written in the later part of a chain is never the one the earlier part had. */
  lemma LaterWriteDiffers(c: Wallet, pre: seq<Mined>, late: seq<Mined>, h: Hash)
    requires Consistent(c) && AllItems(c) == pre + late
    requires KnownTickets(c, pre) && KnownTickets(c, late)
    requires Last(c, late, h).Some?
    ensures Last(c, pre, h) != Last(c, late, h)
  {
    var all := AllItems(c);
    LastIff(c, pre, h);
    LastIff(c, late, h);
    if Last(c, pre, h).Some? {
      var i :| 0 <= i < |late| && Touches(late[i], h) && Last(c, late, h).value == Written(c, late[i], h);
      var j :| 0 <= j < |pre| && Touches(pre[j], h) && Last(c, pre, h).value == Written(c, pre[j], h);
      assert all[|pre| + i] == late[i] && all[j] == pre[j];
      assert all[j].tx.hash != all[|pre| + i].tx.hash;
      assert KnownTo(c, all, j);
    }
  }

  ghost predicate KeepsTouched(late: seq<Mined>, now: seq<Mined>) {
    forall h :: Touched(late, h) ==> Touched(now, h)
  }

  lemma PartsKnown(w: Wallet, pre: seq<Mined>, late: seq<Mined>)
    requires Consistent(w) && AllItems(w) == pre + late
    ensures KnownTickets(w, pre) && KnownTickets(w, late)
  {
    ConsistentKnowsTickets(w);
    var all := AllItems(w);
    assert forall i :: 0 <= i < |pre| ==> pre[i] == all[i];
    assert forall i :: 0 <= i < |late| ==> late[i] == all[|pre| + i];
  }

  lemma AgreesAt(c: Wallet, d: Wallet, pre: seq<Mined>, late: seq<Mined>, now: seq<Mined>, h: Hash)
    requires Consistent(c) && Consistent(d) && AllItems(c) == pre + late && AllItems(d) == pre + now
    ensures var incremental := ApplyAll(ApplyAll(map[], c, pre + late), d, now);
            var full := ApplyAll(map[], d, pre + now);
            ((h in incremental <==> h in full) && (h in full ==> incremental[h] == full[h]))
            <==> (Touched(late, h) ==> Touched(now, h))
  {
    PartsKnown(c, pre, late);
    PartsKnown(d, pre, now);
    LastAppend(c, pre, late, h);
    LastAppend(d, pre, now, h);
    forall i | 0 <= i < |pre| && pre[i].tx.spends.Some?
      ensures c.lookup[pre[i].tx.spends.value] == d.lookup[pre[i].tx.spends.value]
    {
      SharedTickets(c, d, pre, i);
    }
    LastAgrees(c, d, pre, h);
    LastIff(c, late, h);
    LastIff(d, now, h);
    ApplyAllGivesLast(map[], c, pre + late, h);
    ApplyAllGivesLast(ApplyAll(map[], c, pre + late), d, now, h);
    ApplyAllGivesLast(map[], d, pre + now, h);
    if Last(c, late, h).Some? {
      LaterWriteDiffers(c, pre, late, h);
    }
  }

  /** Indexing the new chain d from height `start` on top of the index of the old chain c,
      where both agree below `start`, gives the index of d built from nothing if and only if
      every transaction indexed, and every ticket spent, in the blocks of c from `start` on is
      indexed or spent again in the blocks of d from `start` on. */
  lemma IncrementalIsFullIff(c: Wallet, d: Wallet, start: nat)
    requires Consistent(c) && Consistent(d)
    requires start <= |c.blocks| && start <= |d.blocks| && c.blocks[..start] == d.blocks[..start]
    ensures ApplyAll(ApplyAll(map[], c, AllItems(c)), d, Items(d.blocks, start, |d.blocks|)) ==
            ApplyAll(map[], d, AllItems(d))
            <==> KeepsTouched(Items(c.blocks, start, |c.blocks|), Items(d.blocks, start, |d.blocks|))
  {
    var pre := Items(c.blocks, 0, start);
    var late, now := Items(c.blocks, start, |c.blocks|), Items(d.blocks, start, |d.blocks|);
    ItemsSplit(c.blocks, 0, start, |c.blocks|);
    ItemsSplit(d.blocks, 0, start, |d.blocks|);
    forall i | 0 <= i < start ensures c.blocks[i] == d.blocks[i] {
      assert c.blocks[i] == c.blocks[..start][i] == d.blocks[..start][i];
    }
    ItemsAgree(c.blocks, d.blocks, 0, start);
    AgreeIffKept(c, d, pre, late, now);
  }

  lemma AgreeIffKept(c: Wallet, d: Wallet, pre: seq<Mined>, late: seq<Mined>, now: seq<Mined>)
    requires Consistent(c) && Consistent(d) && AllItems(c) == pre + late && AllItems(d) == pre + now
    ensures ApplyAll(ApplyAll(map[], c, pre + late), d, now) == ApplyAll(map[], d, pre + now)
            <==> KeepsTouched(late, now)
  {
    var incremental := ApplyAll(ApplyAll(map[], c, pre + late), d, now);
    var full := ApplyAll(map[], d, pre + now);
    forall h
      ensures ((h in incremental <==> h in full) && (h in full ==> incremental[h] == full[h]))
              <==> (Touched(late, h) ==> Touched(now, h))
    {
      AgreesAt(c, d, pre, late, now, h);
    }
  }

  /** When the chain has only grown, indexing the new part is always enough. */
  lemma IncrementalIsFullWhenChainGrows(c: Wallet, d: Wallet, start: nat)
    requires Consistent(c) && Consistent(d)
    requires start <= |c.blocks| && c.blocks <= d.blocks
    ensures ApplyAll(ApplyAll(map[], c, AllItems(c)), d, Items(d.blocks, start, |d.blocks|)) ==
            ApplyAll(map[], d, AllItems(d))
  {
    var n, m := |c.blocks|, |d.blocks|;
    ItemsAgree(c.blocks, d.blocks, start, n);
    ItemsSplit(d.blocks, start, n, m);
    var late, now := Items(c.blocks, start, n), Items(d.blocks, start, m);
    assert forall i :: 0 <= i < |late| ==> now[i] == late[i];
    assert c.blocks[..start] == d.blocks[..start];
    IncrementalIsFullIff(c, d, start);
  }

  /** A reorganization inside the re-indexed window that drops a transaction leaves its record
      behind: the blocks below the start height agree, yet the index differs from a full one. */
  lemma DroppedTransactionStaysIndexed(x: Summary, y: Summary)
    requires x.hash != y.hash && x.spends.None? && y.spends.None?
    ensures var c := Wallet([[], [x]], map[x.hash := Mined(x, 1)]);
            var d := Wallet([[], [y]], map[y.hash := Mined(y, 1)]);
            && Consistent(c) && Consistent(d) && c.blocks[..1] == d.blocks[..1]
            && ApplyAll(FullIndex(c), d, Items(d.blocks, 1, 2)) != FullIndex(d)
  {
    var c := Wallet([[], [x]], map[x.hash := Mined(x, 1)]);
    var d := Wallet([[], [y]], map[y.hash := Mined(y, 1)]);
    OneTransaction(x);
    OneTransaction(y);
    assert KnownTo(c, AllItems(c), 0) && KnownTo(d, AllItems(d), 0);
    assert Touches(Mined(x, 1), x.hash) && !Touches(Mined(y, 1), x.hash);
    assert Touched(Items(c.blocks, 1, 2), x.hash) && !Touched(Items(d.blocks, 1, 2), x.hash);
    IncrementalIsFullIff(c, d, 1);
  }

  /** A chain with one transaction, in the block after the first. */
  lemma OneTransaction(x: Summary)
    ensures Items([[], [x]], 0, 2) == [Mined(x, 1)] && Items([[], [x]], 1, 2) == [Mined(x, 1)]
  {
    var blocks: seq<seq<Summary>> := [[], [x]];
    assert Items(blocks, 0, 0) == [] && Items(blocks, 1, 1) == [];
    assert Items(blocks, 0, 1) == [];
    assert BlockItems(blocks[1], 1) == [Mined(x, 1)];
  }

  /** After a full pass every mined transaction is indexed with its height, and a ticket is
      linked to the transaction that spends it exactly when the chain holds one. */
  lemma FullIndexLinksTickets(w: Wallet, i: nat)
    requires Consistent(w) && i < |AllItems(w)|
    requires forall a, b :: 0 <= a < b < |AllItems(w)| && AllItems(w)[a].tx.spends.Some? ==>
               AllItems(w)[a].tx.spends != AllItems(w)[b].tx.spends
    ensures var all := AllItems(w);
            var db, h := ApplyAll(map[], w, all), all[i].tx.hash;
            && h in db && db[h].hash == h && db[h].height == all[i].height
            && db[h].timestamp == all[i].tx.timestamp && db[h].spends == all[i].tx.spends
            && (forall a :: 0 <= a < |all| && all[a].tx.spends == Some(h) ==>
                 db[h].ticketSpender == Some(all[a].tx.hash))
            && ((forall a :: 0 <= a < |all| ==> all[a].tx.spends != Some(h)) ==> db[h].ticketSpender == None)
  {
    var all := AllItems(w);
    var h := all[i].tx.hash;
    ConsistentKnowsTickets(w);
    assert KnownTo(w, all, i);
    LastIff(w, all, h);
    ApplyAllGivesLast(map[], w, all, h);
    assert Touches(all[i], h) && Touched(all, h);
    forall a | 0 <= a < |all| && all[a].tx.spends == Some(h)
      ensures Last(w, all, h) == Some(Written(w, all[a], h)) && all[a].tx.hash != h
    {
      assert KnownTo(w, all, a);
      SpenderWritesLast(w, all, a, h);
    }
  }

  lemma {:induction false} SpenderWritesLast(w: Wallet, items: seq<Mined>, a: nat, h: Hash)
    requires KnownTickets(w, items) && a < |items| && Touches(items[a], h)
    requires forall b :: a < b < |items| ==> !Touches(items[b], h)
    ensures Last(w, items, h) == Some(Written(w, items[a], h))
  {
    if a < |items| - 1 {
      SpenderWritesLast(w, items[..|items| - 1], a, h);
    }
  }

  // ----- the database -----

  /** The wallet answers a query by hash with the transaction of that hash. */
  ghost predicate LookupOk(w: Wallet) {
    forall h :: h in w.lookup ==> w.lookup[h].tx.hash == h
  }

  class WalletData {
    var records: Records
    var endBlock: int

    constructor ()
      ensures records == map[] && endBlock == 0
    {
      records, endBlock := map[], 0;
    }

    method SaveOrUpdate(record: Record) returns (overwritten: bool)
      modifies this`records
      ensures records == old(records)[record.hash := record]
      ensures overwritten <==> record.hash in old(records) && old(records)[record.hash].timestamp > 0
    {
      overwritten := false;
      if record.hash in records && records[record.hash].timestamp > 0 {
        overwritten := true;
        records := records - {record.hash};
      }
      records := records[record.hash := record];
    }

    method SaveLastIndexPoint(height: int)
      modifies this`endBlock
      ensures endBlock == height
    {
      endBlock := height;
    }

    method ClearSavedTransactions()
      modifies this
      ensures records == map[] && endBlock == 0
    {
      records := map[];
      SaveLastIndexPoint(0);
    }

    method ReadIndexingStartBlock() returns (height: nat)
      ensures height == if endBlock < MAX_REORG_BLOCKS then 0 else endBlock - MAX_REORG_BLOCKS
    {
      var start := endBlock - MAX_REORG_BLOCKS;
      if start < 0 {
        start := 0;
      }
      height := start;
    }

    method OwnedAmount(amounts: seq<Amount>) returns (total: int)
      ensures total == SumOwned(amounts)
    {
      total := 0;
      for i := 0 to |amounts|
        invariant total == SumOwned(amounts[..i])
      {
        assert amounts[..i + 1][..i] == amounts[..i];
        if amounts[i].account > -1 {
          total := total + amounts[i].atoms;
        }
      }
      assert amounts[..|amounts|] == amounts;
    }

    /** Decodes a transaction; a vote or revocation also links its ticket to itself.  Fails
        when the wallet does not know the ticket. */
    method DecodeTransaction(w: Wallet, m: Mined) returns (ok: bool, record: Record)
      requires LookupOk(w)
      modifies this`records
      ensures ok <==> m.tx.spends.None? || m.tx.spends.value in w.lookup
      ensures ok ==> record == Decoded(w, m) && records[m.tx.hash := record] == Apply(old(records), w, m)
      ensures !ok ==> records == old(records)
    {
      record := PlainRecord(m);
      if m.tx.spends.None? {
        return true, record;
      }
      if m.tx.spends.value !in w.lookup {
        return false, record;
      }
      var ticket := w.lookup[m.tx.spends.value];
      var days := ToInt32(TruncDiv(m.tx.timestamp - ticket.tx.timestamp, SECONDS_PER_DAY));
      var invested := OwnedAmount(ticket.tx.inputs);
      var returned := OwnedAmount(m.tx.outputs);
      record := record.(daysToVoteOrRevoke := days, voteReward := returned - invested);
      var _ := SaveOrUpdate(PlainRecord(ticket).(ticketSpender := Some(m.tx.hash)));
      ok := true;
    }

    /** Indexes one block's transactions in order. */
    method IndexBlock(w: Wallet, height: nat) returns (ok: bool)
      requires height < |w.blocks| && LookupOk(w)
      modifies this`records
      ensures ok ==> records == ApplyAll(old(records), w, BlockItems(w.blocks[height], height))
    {
      var items := BlockItems(w.blocks[height], height);
      for j := 0 to |items|
        invariant records == ApplyAll(old(records), w, items[..j])
      {
        assert items[..j + 1][..j] == items[..j];
        var record;
        ok, record := DecodeTransaction(w, items[j]);
        if !ok {
          return false;
        }
        var _ := SaveOrUpdate(record);
      }
      assert items[..|items|] == items;
      ok := true;
    }

    /** Indexes the blocks from begin on, saving the index point after each. */
    method IndexRange(w: Wallet, begin: nat) returns (ok: bool)
      requires begin <= |w.blocks| && LookupOk(w)
      modifies this
      ensures ok ==> records == ApplyAll(old(records), w, Items(w.blocks, begin, |w.blocks|))
    {
      ghost var db := records;
      for height := begin to |w.blocks|
        invariant records == ApplyAll(db, w, Items(w.blocks, begin, height))
      {
        ok := IndexBlock(w, height);
        if !ok {
          return;
        }
        ApplyAppend(db, w, Items(w.blocks, begin, height), BlockItems(w.blocks[height], height));
        SaveLastIndexPoint(height);
        if * {
          return false;  // the context is cancelled
        }
      }
      ok := true;
    }

    /** A successful pass applies every block from the start point to the tip.  The index point
        ends at the tip in any case, because it is saved when the call is left. */
    method IndexTransactions(w: Wallet) returns (ok: bool)
      requires LookupOk(w)
      modifies this
      ensures endBlock == |w.blocks| - 1
      ensures var start: nat := if old(endBlock) < MAX_REORG_BLOCKS then 0 else old(endBlock) - MAX_REORG_BLOCKS;
              ok ==> records == ApplyAll(old(records), w, Items(w.blocks, start, |w.blocks|))
    {
      var begin := ReadIndexingStartBlock();
      ok := true;
      if begin <= |w.blocks| {
        ok := IndexRange(w, begin);
      }
      SaveLastIndexPoint(|w.blocks| - 1);
    }

    /** Indexing again after the index was complete for chain c, which shares the blocks below
        the start point with the wallet's chain now.  The index is complete again if and only if
        no record of the re-indexed blocks of c was left behind. */
    method IndexNewBlocks(ghost c: Wallet, w: Wallet, ghost start: nat) returns (ok: bool)
      requires LookupOk(w) && Consistent(c) && Consistent(w)
      requires records == FullIndex(c) && endBlock == |c.blocks| - 1
      requires start == if endBlock < MAX_REORG_BLOCKS then 0 else endBlock - MAX_REORG_BLOCKS
      requires start <= |w.blocks| && c.blocks[..start] == w.blocks[..start]
      modifies this
      ensures endBlock == |w.blocks| - 1
      ensures ok ==> (records == FullIndex(w) <==>
                      KeepsTouched(Items(c.blocks, start, |c.blocks|), Items(w.blocks, start, |w.blocks|)))
    {
      IncrementalIsFullIff(c, w, start);
      ok := IndexTransactions(w);
    }

    /** Rebuilds the index from nothing. */
    method ReindexTransactions(w: Wallet) returns (ok: bool)
      requires LookupOk(w)
      modifies this
      ensures endBlock == |w.blocks| - 1
      ensures ok ==> records == FullIndex(w)
    {
      ClearSavedTransactions();
      ok := IndexTransactions(w);
    }
  }

  lemma {:induction false} ApplyAppend(db: Records, w: Wallet, a: seq<Mined>, b: seq<Mined>)
    ensures ApplyAll(db, w, a + b) == ApplyAll(ApplyAll(db, w, a), w, b)
  {
    if b == [] {
      assert a + b == a;
    } else {
      ApplyAppend(db, w, a, b[..|b| - 1]);
      assert (a + b)[..|a + b| - 1] == a + b[..|b| - 1];
    }
  }
}
