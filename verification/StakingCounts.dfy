/** Transaction filters and the staking overview: the database query of walletdata/filter.go, the
    in-memory filter and the ticket status of transactions.go, and the counts of ticket.go. */
module StakingCounts {
  datatype TxType = Regular | Mixed | CoinBase | Ticket | Vote | Revocation | Other(name: string)

  /** A stored transaction.  A ticket's spender is "" until its vote or revocation is known. */
  datatype Tx = Tx(hash: string, txType: TxType, direction: int, height: int, spender: string, spentTicket: string)
  {
    predicate Spent() { txType == Ticket && spender != "" }

    predicate Spends() { txType == Vote || txType == Revocation }
  }

  const UNMINED_HEIGHT := -1

  const FILTER_ALL := 0
  const FILTER_SENT := 1
  const FILTER_RECEIVED := 2
  const FILTER_TRANSFERRED := 3
  const FILTER_STAKING := 4
  const FILTER_COINBASE := 5
  const FILTER_REGULAR := 6
  const FILTER_MIXED := 7
  const FILTER_VOTED := 8
  const FILTER_REVOKED := 9
  const FILTER_IMMATURE := 10
  const FILTER_LIVE := 11
  const FILTER_UNMINED := 12
  const FILTER_EXPIRED := 13
  const FILTER_TICKETS := 14

  const SENT := 0
  const RECEIVED := 1
  const TRANSFERRED := 2

  /** TicketMaturity is a uint16 and TicketExpiry a uint32 of the chain parameters. */
  datatype RawParams = Params(maturity: nat, expiry: nat)

  type Params = p: RawParams | p.maturity < 0x1_0000 && p.expiry < 0x1_0000_0000 witness Params(0, 0)

  /** TicketMaturity + uint16(TicketExpiry), in 16 bits. */
  function ExpiryWindow(p: Params): nat { (p.maturity + p.expiry % 0x1_0000) % 0x1_0000 }

  function MaturityBlock(best: int, p: Params): int { best - p.maturity }

  function ExpiryBlock(best: int, p: Params): int { best - ExpiryWindow(p) }

  // ----- the two filters -----

  /** The matcher that prepareTxQuery builds. */
  function PrepareTxQuery(code: int, best: int, p: Params): Tx -> bool {
    var maturityBlock, expiryBlock := MaturityBlock(best, p), ExpiryBlock(best, p);
    if code == FILTER_SENT then (t: Tx) => t.txType == Regular && t.direction == SENT
    else if code == FILTER_RECEIVED then (t: Tx) => t.txType == Regular && t.direction == RECEIVED
    else if code == FILTER_TRANSFERRED then (t: Tx) => t.txType == Regular && t.direction == TRANSFERRED
    else if code == FILTER_STAKING then (t: Tx) => t.txType == Ticket || t.txType == Vote || t.txType == Revocation
    else if code == FILTER_COINBASE then (t: Tx) => t.txType == CoinBase
    else if code == FILTER_REGULAR then (t: Tx) => t.txType == Regular
    else if code == FILTER_MIXED then (t: Tx) => t.txType == Mixed
    else if code == FILTER_VOTED then (t: Tx) => t.txType == Vote
    else if code == FILTER_REVOKED then (t: Tx) => t.txType == Revocation
    else if code == FILTER_IMMATURE then (t: Tx) => t.txType == Ticket && t.height > maturityBlock
    else if code == FILTER_LIVE then
      (t: Tx) =>
        && t.txType == Ticket && t.spender == ""
        && t.height > 0 && t.height <= maturityBlock && t.height > expiryBlock
    else if code == FILTER_UNMINED then (t: Tx) => t.txType == Ticket && t.height == UNMINED_HEIGHT
    else if code == FILTER_EXPIRED then
      (t: Tx) => t.txType == Ticket && t.spender == "" && t.height > 0 && t.height <= expiryBlock
    else if code == FILTER_TICKETS then (t: Tx) => t.txType == Ticket
    else (t: Tx) => true
  }

  function TxMatchesFilter(t: Tx, code: int, best: int, p: Params): bool {
    match code
    case 0 => true
    case 1 => t.txType == Regular && t.direction == SENT
    case 2 => t.txType == Regular && t.direction == RECEIVED
    case 3 => t.txType == Regular && t.direction == TRANSFERRED
    case 4 => t.txType == Ticket || t.Spends()
    case 5 => t.txType == CoinBase
    case 6 => t.txType == Regular
    case 7 => t.txType == Mixed
    case 8 => t.txType == Vote
    case 9 => t.txType == Revocation
    case 10 => t.txType == Ticket && t.height > MaturityBlock(best, p)
    case 11 =>
      && t.txType == Ticket && t.spender == ""
      && 0 < t.height <= MaturityBlock(best, p) && t.height > ExpiryBlock(best, p)
    case 12 => t.txType == Ticket && t.height == UNMINED_HEIGHT
    case 13 => t.txType == Ticket && t.spender == "" && 0 < t.height <= ExpiryBlock(best, p)
    case 14 => t.txType == Ticket
    case _ => false
  }

  /** The query and the in-memory filter select the same transactions for the filter codes, and
      disagree on every transaction for any other number. */
  lemma FiltersAgreeIff(t: Tx, code: int, best: int, p: Params)
    ensures PrepareTxQuery(code, best, p)(t) == TxMatchesFilter(t, code, best, p) <==> 0 <= code <= 14
  {}

  // ----- where a ticket is counted -----

  function One(b: bool): nat { if b then 1 else 0 }

  /** In how many of the five categories a ticket is counted. */
  function Categories(t: Tx, best: int, p: Params): nat {
    One(TxMatchesFilter(t, FILTER_UNMINED, best, p)) + One(TxMatchesFilter(t, FILTER_IMMATURE, best, p)) +
    One(TxMatchesFilter(t, FILTER_LIVE, best, p)) + One(TxMatchesFilter(t, FILTER_EXPIRED, best, p)) + One(t.Spent())
  }

  /** What the chain guarantees of a stored ticket: it is unmined or mined after the genesis block,
      and one that is spent is mature. */
  predicate Admissible(t: Tx, best: int, p: Params) {
    t.txType == Ticket ==>
      && (t.height == UNMINED_HEIGHT || 0 < t.height <= best)
      && (t.Spent() ==> 0 < t.height <= MaturityBlock(best, p))
  }

  /** The heights at which the filters partition the tickets: an unmined ticket does not look
      immature, and the expiry height does not pass the maturity height (through the 16-bit sum). */
  predicate Partitions(best: int, p: Params) {
    && best >= p.maturity - 1
    && (ExpiryWindow(p) >= p.maturity || ExpiryBlock(best, p) <= 0)
  }

  lemma TicketCountedOnce(t: Tx, best: int, p: Params)
    requires t.txType == Ticket && Admissible(t, best, p) && Partitions(best, p)
    ensures Categories(t, best, p) == 1
  {}

  /** Every ticket falls in exactly one category exactly when the heights allow it. */
  lemma PartitionIff(best: int, p: Params)
    requires best >= 0
    ensures Partitions(best, p) <==>
            forall t: Tx :: t.txType == Ticket && Admissible(t, best, p) ==> Categories(t, best, p) == 1
  {
    forall t: Tx | t.txType == Ticket && Admissible(t, best, p) && Partitions(best, p)
      ensures Categories(t, best, p) == 1
    {
      TicketCountedOnce(t, best, p);
    }
    var unmined := Tx("", Ticket, SENT, UNMINED_HEIGHT, "", "");
    assert Admissible(unmined, best, p);
    assert Categories(unmined, best, p) == 1 <==> best >= p.maturity - 1;
    var expiring := Tx("", Ticket, SENT, ExpiryBlock(best, p), "", "");
    assert ExpiryBlock(best, p) > 0 ==> Admissible(expiring, best, p);
    assert ExpiryBlock(best, p) > 0 && ExpiryWindow(p) < p.maturity ==> Categories(expiring, best, p) == 2;
  }

  // ----- ticket status -----

  datatype Status = NoTicket | StatusUnmined | StatusImmature | StatusExpired | StatusVotedOrRevoked | StatusLive

  function Confirmations(t: Tx, best: int): int {
    if t.height == UNMINED_HEIGHT then 0 else best - t.height + 1
  }

  function TicketStatus(t: Tx, maturity: int, expiry: int, best: int): Status {
    if t.txType != Ticket then NoTicket
    else
      var confirmations := Confirmations(t, best);
      if confirmations == 0 then StatusUnmined
      else if confirmations <= maturity then StatusImmature
      else if confirmations > maturity + expiry then StatusExpired
      else if t.spender != "" then StatusVotedOrRevoked
      else StatusLive
  }

  function FilterOf(s: Status): int
    requires s != NoTicket && s != StatusVotedOrRevoked
  {
    match s
    case StatusUnmined => FILTER_UNMINED
    case StatusImmature => FILTER_IMMATURE
    case StatusExpired => FILTER_EXPIRED
    case StatusLive => FILTER_LIVE
  }

  /** The status of an unspent ticket is the one category that counts it. */
  lemma StatusIsCategory(t: Tx, best: int, p: Params, s: Status)
    requires t.txType == Ticket && !t.Spent() && Admissible(t, best, p)
    requires Partitions(best, p) && p.maturity + p.expiry < 0x1_0000
    requires s != NoTicket && s != StatusVotedOrRevoked
    ensures TicketStatus(t, p.maturity, p.expiry, best) == s <==> TxMatchesFilter(t, FilterOf(s), best, p)
  {
    assert ExpiryWindow(p) == p.maturity + p.expiry;
  }

  /** A spent ticket keeps the status "voted or revoked" only while an unspent one would be live:
      afterwards it is reported as expired. */
  lemma SpentTicketExpires(t: Tx, best: int, p: Params)
    requires t.Spent() && Admissible(t, best, p)
    ensures TicketStatus(t, p.maturity, p.expiry, best) ==
            if t.height > best - (p.maturity + p.expiry) then StatusVotedOrRevoked else StatusExpired
  {}

  // ----- counting -----

  function Count(txs: seq<Tx>, f: Tx -> bool): nat {
    if txs == [] then 0 else Count(txs[1..], f) + One(f(txs[0]))
  }

  const SPENT: Tx -> bool := (t: Tx) => t.Spent()
  const SPENDING: Tx -> bool := (t: Tx) => t.Spends()

  datatype Overview = Overview(unmined: nat, immature: nat, live: nat, voted: nat, revoked: nat, expired: nat, all: nat)

  function CountMatching(txs: seq<Tx>, code: int, best: int, p: Params): nat {
    if txs == [] then 0 else CountMatching(txs[1..], code, best, p) + One(TxMatchesFilter(txs[0], code, best, p))
  }

  /** What is counted for each stored transaction: a ticket once unless it is spent, a vote or
      revocation once. */
  lemma {:induction false} OverviewSums(txs: seq<Tx>, best: int, p: Params)
    requires Partitions(best, p) && forall t :: t in txs ==> Admissible(t, best, p)
    ensures CountMatching(txs, FILTER_UNMINED, best, p) + CountMatching(txs, FILTER_IMMATURE, best, p) +
            CountMatching(txs, FILTER_LIVE, best, p) + CountMatching(txs, FILTER_EXPIRED, best, p) +
            Count(txs, SPENT) ==
            CountMatching(txs, FILTER_TICKETS, best, p)
    ensures CountMatching(txs, FILTER_VOTED, best, p) + CountMatching(txs, FILTER_REVOKED, best, p) ==
            Count(txs, SPENDING)
  {
    if txs != [] {
      OverviewSums(txs[1..], best, p);
      CountedOnce(txs[0], best, p);
    }
  }

  lemma CountedOnce(t: Tx, best: int, p: Params)
    requires Partitions(best, p) && Admissible(t, best, p)
    ensures Categories(t, best, p) == One(TxMatchesFilter(t, FILTER_TICKETS, best, p))
    ensures One(TxMatchesFilter(t, FILTER_VOTED, best, p)) + One(TxMatchesFilter(t, FILTER_REVOKED, best, p)) ==
            One(t.Spends())
  {
    if t.txType == Ticket {
      TicketCountedOnce(t, best, p);
    }
  }

  // ----- each spent ticket has its vote or revocation -----

  /** v is the vote or revocation recorded as the spender of ticket t, and records t in turn. */
  predicate Pair(t: Tx, v: Tx) {
    t.Spent() && v.Spends() && t.spender == v.hash && v.spentTicket == t.hash
  }

  /** The links left by indexing: hashes are distinct, and spent tickets and their spenders
      refer to each other. */
  ghost predicate Linked(txs: seq<Tx>) {
    && (forall i, j :: 0 <= i < j < |txs| ==> txs[i].hash != txs[j].hash)
    && (forall i :: 0 <= i < |txs| && txs[i].Spent() ==> HasSpender(txs, i))
    && (forall j :: 0 <= j < |txs| && txs[j].Spends() ==> HasTicket(txs, j))
  }

  ghost predicate HasSpender(txs: seq<Tx>, i: nat)
    requires i < |txs|
  {
    exists j :: 0 <= j < |txs| && Pair(txs[i], txs[j])
  }

  ghost predicate HasTicket(txs: seq<Tx>, j: nat)
    requires j < |txs|
  {
    exists i :: 0 <= i < |txs| && Pair(txs[i], txs[j])
  }

  ghost function Positions(txs: seq<Tx>, f: Tx -> bool, n: nat): set<int>
    requires n <= |txs|
  {
    set i | 0 <= i < n && f(txs[i])
  }

  lemma {:induction false} CountIsSize(txs: seq<Tx>, f: Tx -> bool)
    ensures Count(txs, f) == |Positions(txs, f, |txs|)|
  {
    PrefixIsSize(txs, f, |txs|);
    assert txs[..|txs|] == txs;
  }

  lemma {:induction false} PrefixIsSize(txs: seq<Tx>, f: Tx -> bool, n: nat)
    requires n <= |txs|
    ensures Count(txs[..n], f) == |Positions(txs, f, n)|
  {
    if n > 0 {
      PrefixIsSize(txs, f, n - 1);
      assert txs[..n] == txs[..n - 1] + [txs[n - 1]];
      CountSnoc(txs[..n - 1], txs[n - 1], f);
      var before := Positions(txs, f, n - 1);
      assert Positions(txs, f, n) == if f(txs[n - 1]) then before + {n - 1} else before;
    } else {
      assert Positions(txs, f, 0) == {};
    }
  }

  lemma {:induction false} CountSnoc(txs: seq<Tx>, t: Tx, f: Tx -> bool)
    ensures Count(txs + [t], f) == Count(txs, f) + One(f(t))
  {
    if txs != [] {
      CountSnoc(txs[1..], t, f);
      assert (txs + [t])[1..] == txs[1..] + [t];
    }
  }

  predicate PairAt(txs: seq<Tx>, i: int, j: int) {
    0 <= i < |txs| && 0 <= j < |txs| && Pair(txs[i], txs[j])
  }

  lemma PairsAreUnique(txs: seq<Tx>, i: int, j: int, k: int)
    requires Linked(txs)
    ensures PairAt(txs, i, j) && PairAt(txs, i, k) ==> j == k
    ensures PairAt(txs, i, k) && PairAt(txs, j, k) ==> i == j
  {}

  ghost predicate Reaches(i: int, b: set<int>, related: (int, int) -> bool) {
    exists j :: j in b && related(i, j)
  }

  ghost predicate OneToOne(related: (int, int) -> bool) {
    forall i, k, j :: related(i, j) && related(k, j) ==> i == k
  }

  /** A one-to-one relation that reaches b from all of a shows |a| <= |b|. */
  lemma {:induction false} SizeByRelation(a: set<int>, b: set<int>, related: (int, int) -> bool)
    requires OneToOne(related) && forall i :: i in a ==> Reaches(i, b, related)
    ensures |a| <= |b|
  {
    if a != {} {
      var i := Pick(a);
      assert Reaches(i, b, related);
      var j :| j in b && related(i, j);
      forall k | k in a - {i} ensures Reaches(k, b - {j}, related) {
        assert Reaches(k, b, related);
        var m :| m in b && related(k, m);
        assert m in b - {j};
      }
      SizeByRelation(a - {i}, b - {j}, related);
    }
  }

  lemma Pick<T>(a: set<T>) returns (i: T)
    requires a != {}
    ensures i in a
  {
    i :| i in a;
  }

  lemma TicketsHaveSpenders(txs: seq<Tx>, i: int)
    requires Linked(txs) && 0 <= i < |txs| && txs[i].Spent()
    ensures exists j :: j in Positions(txs, SPENDING, |txs|) && PairAt(txs, i, j)
  {
    assert HasSpender(txs, i);
    var j :| 0 <= j < |txs| && Pair(txs[i], txs[j]);
    assert j in Positions(txs, SPENDING, |txs|) && PairAt(txs, i, j);
  }

  lemma SpendersHaveTickets(txs: seq<Tx>, j: int)
    requires Linked(txs) && 0 <= j < |txs| && txs[j].Spends()
    ensures exists i :: i in Positions(txs, SPENT, |txs|) && PairAt(txs, i, j)
  {
    assert HasTicket(txs, j);
    var i :| 0 <= i < |txs| && Pair(txs[i], txs[j]);
    assert i in Positions(txs, SPENT, |txs|) && PairAt(txs, i, j);
  }

  lemma TicketsFit(txs: seq<Tx>)
    requires Linked(txs)
    ensures |Positions(txs, SPENT, |txs|)| <= |Positions(txs, SPENDING, |txs|)|
  {
    var a, b := Positions(txs, SPENT, |txs|), Positions(txs, SPENDING, |txs|);
    var pair := (i: int, j: int) => PairAt(txs, i, j);
    forall i | i in a ensures Reaches(i, b, pair) {
      TicketsHaveSpenders(txs, i);
      var j :| j in b && PairAt(txs, i, j);
      assert pair(i, j);
    }
    forall i, k, j | pair(i, j) && pair(k, j) ensures i == k {
      PairsAreUnique(txs, i, k, j);
    }
    SizeByRelation(a, b, pair);
  }

  lemma SpendersFit(txs: seq<Tx>)
    requires Linked(txs)
    ensures |Positions(txs, SPENDING, |txs|)| <= |Positions(txs, SPENT, |txs|)|
  {
    var a, b := Positions(txs, SPENT, |txs|), Positions(txs, SPENDING, |txs|);
    var pair := (j: int, i: int) => PairAt(txs, i, j);
    forall j | j in b ensures Reaches(j, a, pair) {
      SpendersHaveTickets(txs, j);
      var i :| i in a && PairAt(txs, i, j);
      assert pair(j, i);
    }
    forall j, k, i | pair(j, i) && pair(k, i) ensures j == k {
      PairsAreUnique(txs, i, j, k);
    }
    SizeByRelation(b, a, pair);
  }

  /** Linked stores hold as many votes and revocations as spent tickets. */
  lemma LinkedCounts(txs: seq<Tx>)
    requires Linked(txs)
    ensures Count(txs, SPENT) == Count(txs, SPENDING)
  {
    CountIsSize(txs, SPENT);
    CountIsSize(txs, SPENDING);
    TicketsFit(txs);
    SpendersFit(txs);
  }

  // ----- the overviews -----

  datatype Wallet = Wallet(txs: seq<Tx>, best: int)

  function Matching(w: Wallet, code: int, p: Params): nat {
    CountMatching(w.txs, code, w.best, p)
  }

  /** The number of records the query finds. */
  function CountTransactions(w: Wallet, code: int, p: Params): nat { Count(w.txs, PrepareTxQuery(code, w.best, p)) }

  lemma {:induction false} CountAgrees(txs: seq<Tx>, code: int, best: int, p: Params)
    requires 0 <= code <= 14
    ensures Count(txs, PrepareTxQuery(code, best, p)) == CountMatching(txs, code, best, p)
  {
    if txs != [] {
      CountAgrees(txs[1..], code, best, p);
      FiltersAgreeIff(txs[0], code, best, p);
    }
  }

  /** The query counts what the in-memory filter accepts. */
  lemma CountMeetsFilter(w: Wallet, code: int, p: Params)
    requires 0 <= code <= 14
    ensures CountTransactions(w, code, p) == Matching(w, code, p)
  {
    CountAgrees(w.txs, code, w.best, p);
  }

  ghost predicate Sound(w: Wallet, p: Params) {
    Partitions(w.best, p) && forall t :: t in w.txs ==> Admissible(t, w.best, p)
  }

  /** The total exceeds the ticket purchases by the votes and revocations and falls short by the
      spent tickets, so the two agree on linked stores. */
  lemma OverviewTotal(w: Wallet, p: Params)
    requires Sound(w, p)
    ensures Matching(w, FILTER_UNMINED, p) + Matching(w, FILTER_IMMATURE, p) + Matching(w, FILTER_LIVE, p) +
            Matching(w, FILTER_EXPIRED, p) + Matching(w, FILTER_VOTED, p) + Matching(w, FILTER_REVOKED, p) +
            Count(w.txs, SPENT) ==
            Matching(w, FILTER_TICKETS, p) + Count(w.txs, SPENDING)
    ensures Linked(w.txs) ==> Count(w.txs, SPENT) == Count(w.txs, SPENDING)
  {
    OverviewSums(w.txs, w.best, p);
    if Linked(w.txs) {
      LinkedCounts(w.txs);
    }
  }

  function CountType(txs: seq<Tx>, txType: TxType): nat {
    if txs == [] then 0 else CountType(txs[1..], txType) + One(txs[0].txType == txType)
  }

  /** Votes, revocations and tickets are told apart by their type alone. */
  lemma {:induction false} CountsByType(txs: seq<Tx>, best: int, p: Params)
    ensures CountMatching(txs, FILTER_VOTED, best, p) == CountType(txs, Vote)
    ensures CountMatching(txs, FILTER_REVOKED, best, p) == CountType(txs, Revocation)
    ensures CountMatching(txs, FILTER_TICKETS, best, p) == CountType(txs, Ticket)
    ensures CountMatching(txs, FILTER_STAKING, best, p) ==
            CountType(txs, Ticket) + CountType(txs, Vote) + CountType(txs, Revocation)
  {
    if txs != [] {
      CountsByType(txs[1..], best, p);
    }
  }

  ghost predicate Shows(o: Overview, w: Wallet, p: Params) {
    && o.unmined == Matching(w, FILTER_UNMINED, p)
    && o.immature == Matching(w, FILTER_IMMATURE, p)
    && o.live == Matching(w, FILTER_LIVE, p)
    && o.voted == Matching(w, FILTER_VOTED, p)
    && o.revoked == Matching(w, FILTER_REVOKED, p)
    && o.expired == Matching(w, FILTER_EXPIRED, p)
  }

  /** StakingOverview of one wallet.  Its total is the number of ticket purchases exactly when
      there are as many votes and revocations as spent tickets. */
  method StakingOverview(w: Wallet, p: Params) returns (o: Overview)
    ensures Shows(o, w, p)
    ensures o.voted == CountType(w.txs, Vote) && o.revoked == CountType(w.txs, Revocation)
    ensures Sound(w, p) ==> (o.all == Matching(w, FILTER_TICKETS, p) <==> Count(w.txs, SPENT) == Count(w.txs, SPENDING))
    ensures Sound(w, p) && Linked(w.txs) ==> o.all == Matching(w, FILTER_TICKETS, p)
  {
    var voted := CountTransactions(w, FILTER_VOTED, p);
    var revoked := CountTransactions(w, FILTER_REVOKED, p);
    var live := CountTransactions(w, FILTER_LIVE, p);
    var immature := CountTransactions(w, FILTER_IMMATURE, p);
    var expired := CountTransactions(w, FILTER_EXPIRED, p);
    var unmined := CountTransactions(w, FILTER_UNMINED, p);
    var all := unmined + immature + live + voted + revoked + expired;
    o := Overview(unmined, immature, live, voted, revoked, expired, all);
    CountMeetsFilter(w, FILTER_VOTED, p);
    CountMeetsFilter(w, FILTER_REVOKED, p);
    CountMeetsFilter(w, FILTER_LIVE, p);
    CountMeetsFilter(w, FILTER_IMMATURE, p);
    CountMeetsFilter(w, FILTER_EXPIRED, p);
    CountMeetsFilter(w, FILTER_UNMINED, p);
    CountsByType(w.txs, w.best, p);
    if Sound(w, p) {
      OverviewTotal(w, p);
    }
  }

  /** Records matching a filter in the first n wallets. */
  function Total(ws: seq<Wallet>, n: nat, code: int, p: Params): nat
    requires n <= |ws|
  {
    if n == 0 then 0 else Total(ws, n - 1, code, p) + Matching(ws[n - 1], code, p)
  }

  ghost predicate ShowsAll(o: Overview, ws: seq<Wallet>, n: nat, p: Params)
    requires n <= |ws|
  {
    && o.unmined == Total(ws, n, FILTER_UNMINED, p)
    && o.immature == Total(ws, n, FILTER_IMMATURE, p)
    && o.live == Total(ws, n, FILTER_LIVE, p)
    && o.voted == Total(ws, n, FILTER_VOTED, p)
    && o.revoked == Total(ws, n, FILTER_REVOKED, p)
    && o.expired == Total(ws, n, FILTER_EXPIRED, p)
  }

  lemma {:induction false} AllTotals(ws: seq<Wallet>, n: nat, p: Params)
    requires n <= |ws| && forall i :: 0 <= i < n ==> Sound(ws[i], p) && Linked(ws[i].txs)
    ensures Total(ws, n, FILTER_UNMINED, p) + Total(ws, n, FILTER_IMMATURE, p) + Total(ws, n, FILTER_LIVE, p) +
            Total(ws, n, FILTER_VOTED, p) + Total(ws, n, FILTER_REVOKED, p) + Total(ws, n, FILTER_EXPIRED, p) ==
            Total(ws, n, FILTER_TICKETS, p)
  {
    if n > 0 {
      AllTotals(ws, n - 1, p);
      OverviewTotal(ws[n - 1], p);
    }
  }

  /** StakingOverview over all wallets. */
  method StakingOverviewAll(ws: seq<Wallet>, p: Params) returns (o: Overview)
    ensures ShowsAll(o, ws, |ws|, p)
    ensures (forall i :: 0 <= i < |ws| ==> Sound(ws[i], p) && Linked(ws[i].txs)) ==>
              o.all == Total(ws, |ws|, FILTER_TICKETS, p)
  {
    o := Overview(0, 0, 0, 0, 0, 0, 0);
    for i := 0 to |ws|
      invariant ShowsAll(o, ws, i, p)
    {
      var st := StakingOverview(ws[i], p);
      o := o.(unmined := o.unmined + st.unmined, immature := o.immature + st.immature, live := o.live + st.live,
              voted := o.voted + st.voted, revoked := o.revoked + st.revoked, expired := o.expired + st.expired);
    }
    o := o.(all := o.unmined + o.immature + o.live + o.voted + o.revoked + o.expired);
    if forall i :: 0 <= i < |ws| ==> Sound(ws[i], p) && Linked(ws[i].txs) {
      AllTotals(ws, |ws|, p);
    }
  }
}
