/** First pages of transaction lists (GetTransactionsRaw of transactions.go over Read of
    walletdata/read.go): the first `limit` transactions of each list in timestamp order are
    collected, sorted again and cut off. */
module TxPages {
  datatype Tx = Tx(hash: string, timestamp: int)

  /** Position in the listing: by age or newest first. */
  function Key(t: Tx, newestFirst: bool): int { if newestFirst then -t.timestamp else t.timestamp }

  predicate Sorted(s: seq<Tx>, newestFirst: bool) {
    forall i, j :: 0 <= i < j < |s| ==> Key(s[i], newestFirst) <= Key(s[j], newestFirst)
  }

  /** Newest first means falling timestamps, otherwise they rise. */
  lemma SortedByTime(s: seq<Tx>, newestFirst: bool)
    ensures Sorted(s, newestFirst) <==>
              forall i, j :: 0 <= i < j < |s| ==>
                if newestFirst then s[i].timestamp >= s[j].timestamp else s[i].timestamp <= s[j].timestamp
  {
  }

  function PageSize(limit: int, total: nat): nat {
    if 0 < limit < total then limit else total
  }

  /** A page is the start of some listing of all the transactions. */
  ghost predicate IsPage(page: seq<Tx>, rest: seq<Tx>, all: seq<Tx>, limit: int, newestFirst: bool) {
    && Sorted(page + rest, newestFirst)
    && multiset(page + rest) == multiset(all)
    && |page| == PageSize(limit, |all|)
  }

  ghost predicate IsFirstPage(page: seq<Tx>, all: seq<Tx>, limit: int, newestFirst: bool) {
    exists rest :: IsPage(page, rest, all, limit, newestFirst)
  }

  // ----- sorting -----

  function Insert(t: Tx, s: seq<Tx>, newestFirst: bool): seq<Tx> {
    if s == [] || Key(t, newestFirst) <= Key(s[0], newestFirst) then [t] + s
    else [s[0]] + Insert(t, s[1..], newestFirst)
  }

  function Sort(s: seq<Tx>, newestFirst: bool): seq<Tx> {
    if s == [] then [] else Insert(s[0], Sort(s[1..], newestFirst), newestFirst)
  }

  /** Everything in a comes no later than everything in b. */
  predicate NoLater(a: multiset<Tx>, b: multiset<Tx>, newestFirst: bool) {
    forall x, y :: x in a && y in b ==> Key(x, newestFirst) <= Key(y, newestFirst)
  }

  lemma SortedConcat(a: seq<Tx>, b: seq<Tx>, newestFirst: bool)
    requires Sorted(a, newestFirst) && Sorted(b, newestFirst)
    requires NoLater(multiset(a), multiset(b), newestFirst)
    ensures Sorted(a + b, newestFirst)
  {
    var s := a + b;
    forall i, j | 0 <= i < j < |s| ensures Key(s[i], newestFirst) <= Key(s[j], newestFirst) {
      if i < |a| <= j {
        assert s[i] == a[i] && s[j] == b[j - |a|];
        assert s[i] in multiset(a) && s[j] in multiset(b);
      }
    }
  }

  lemma SortedSplit(a: seq<Tx>, b: seq<Tx>, newestFirst: bool)
    requires Sorted(a + b, newestFirst)
    ensures Sorted(a, newestFirst) && Sorted(b, newestFirst)
    ensures NoLater(multiset(a), multiset(b), newestFirst)
  {
    var s := a + b;
    forall i, j | 0 <= i < j < |a| ensures Key(a[i], newestFirst) <= Key(a[j], newestFirst) {
      assert s[i] == a[i] && s[j] == a[j];
    }
    forall i, j | 0 <= i < j < |b| ensures Key(b[i], newestFirst) <= Key(b[j], newestFirst) {
      assert s[|a| + i] == b[i] && s[|a| + j] == b[j];
    }
    forall x, y | x in multiset(a) && y in multiset(b) ensures Key(x, newestFirst) <= Key(y, newestFirst) {
      var i :| 0 <= i < |a| && a[i] == x;
      var j :| 0 <= j < |b| && b[j] == y;
      assert s[i] == x && s[|a| + j] == y;
    }
  }

  lemma {:induction false} InsertKeepsAll(t: Tx, s: seq<Tx>, newestFirst: bool)
    ensures multiset(Insert(t, s, newestFirst)) == multiset{t} + multiset(s)
  {
    if s != [] && Key(t, newestFirst) > Key(s[0], newestFirst) {
      InsertKeepsAll(t, s[1..], newestFirst);
      assert s == [s[0]] + s[1..];
    }
  }

  lemma SortedPrepend(h: Tx, s: seq<Tx>, newestFirst: bool)
    requires Sorted(s, newestFirst) && forall x :: x in s ==> Key(h, newestFirst) <= Key(x, newestFirst)
    ensures Sorted([h] + s, newestFirst)
  {
    var r := [h] + s;
    forall i, j | 0 <= i < j < |r| ensures Key(r[i], newestFirst) <= Key(r[j], newestFirst) {
      assert r[j] == s[j - 1] && (i > 0 ==> r[i] == s[i - 1]);
    }
  }

  lemma {:induction false} InsertMembers(t: Tx, s: seq<Tx>, newestFirst: bool, x: Tx)
    requires x in Insert(t, s, newestFirst)
    ensures x == t || x in s
  {
    if s != [] && Key(t, newestFirst) > Key(s[0], newestFirst) && x != s[0] {
      InsertMembers(t, s[1..], newestFirst, x);
    }
  }

  lemma {:induction false} InsertIsSorted(t: Tx, s: seq<Tx>, newestFirst: bool)
    requires Sorted(s, newestFirst)
    ensures Sorted(Insert(t, s, newestFirst), newestFirst)
  {
    if s != [] {
      FirstIsLeast(s, newestFirst);
      if Key(t, newestFirst) <= Key(s[0], newestFirst) {
        SortedPrepend(t, s, newestFirst);
      } else {
        var b := s[1..];
        InsertIsSorted(t, b, newestFirst);
        forall x | x in Insert(t, b, newestFirst) ensures Key(s[0], newestFirst) <= Key(x, newestFirst) {
          InsertMembers(t, b, newestFirst, x);
        }
        SortedPrepend(s[0], Insert(t, b, newestFirst), newestFirst);
      }
    }
  }

  lemma {:induction false} SortIsSorted(s: seq<Tx>, newestFirst: bool)
    ensures Sorted(Sort(s, newestFirst), newestFirst) && multiset(Sort(s, newestFirst)) == multiset(s)
  {
    if s != [] {
      SortIsSorted(s[1..], newestFirst);
      InsertIsSorted(s[0], Sort(s[1..], newestFirst), newestFirst);
      InsertKeepsAll(s[0], Sort(s[1..], newestFirst), newestFirst);
      assert s == [s[0]] + s[1..];
    }
  }

  // ----- counting what comes no later than a key -----

  function CountUpTo(s: seq<Tx>, k: int, newestFirst: bool): nat {
    if s == [] then 0
    else (if Key(s[0], newestFirst) <= k then 1 else 0) + CountUpTo(s[1..], k, newestFirst)
  }

  lemma {:induction false} CountAppend(a: seq<Tx>, b: seq<Tx>, k: int, newestFirst: bool)
    ensures CountUpTo(a + b, k, newestFirst) == CountUpTo(a, k, newestFirst) + CountUpTo(b, k, newestFirst)
  {
    if a == [] {
      assert a + b == b;
    } else {
      CountAppend(a[1..], b, k, newestFirst);
      assert (a + b)[1..] == a[1..] + b;
    }
  }

  /** The first element of a list, found in a permutation of it. */
  lemma TakeOut(h: Tx, a: seq<Tx>, b: seq<Tx>) returns (x: seq<Tx>, y: seq<Tx>)
    requires multiset([h] + a) == multiset(b)
    ensures b == x + ([h] + y) && multiset(a) == multiset(x + y)
  {
    assert h in multiset(b);
    var n :| 0 <= n < |b| && b[n] == h;
    x, y := b[..n], b[n + 1..];
    assert b == x + ([h] + y);
    assert multiset(x + ([h] + y)) == multiset(x + y) + multiset{h};
    assert multiset([h] + a) == multiset(a) + multiset{h};
    SameWithout(multiset(a), multiset(x + y), h);
  }

  lemma {:induction false} CountOfPermutation(a: seq<Tx>, b: seq<Tx>, k: int, newestFirst: bool)
    requires multiset(a) == multiset(b)
    ensures CountUpTo(a, k, newestFirst) == CountUpTo(b, k, newestFirst)
  {
    if a == [] {
      assert |multiset(b)| == 0;
    } else {
      var h, c := a[0], a[1..];
      assert a == [h] + c;
      var x, y := TakeOut(h, c, b);
      SplitCount(x, h, y, k, newestFirst);
      CountOfPermutation(c, x + y, k, newestFirst);
    }
  }

  lemma SplitCount(x: seq<Tx>, t: Tx, y: seq<Tx>, k: int, newestFirst: bool)
    ensures multiset(x + ([t] + y)) == multiset(x + y) + multiset{t}
    ensures CountUpTo(x + ([t] + y), k, newestFirst) ==
            CountUpTo(x + y, k, newestFirst) + (if Key(t, newestFirst) <= k then 1 else 0)
  {
    CountAppend(x, [t] + y, k, newestFirst);
    CountAppend(x, y, k, newestFirst);
    assert ([t] + y)[1..] == y;
  }

  lemma SameWithout(m: multiset<Tx>, n: multiset<Tx>, t: Tx)
    requires m + multiset{t} == n + multiset{t}
    ensures m == n
  {
    assert m == (m + multiset{t}) - multiset{t} && n == (n + multiset{t}) - multiset{t};
  }

  lemma {:induction false} CountAll(s: seq<Tx>, k: int, newestFirst: bool)
    ensures CountUpTo(s, k, newestFirst) <= |s|
    ensures (forall x :: x in s ==> Key(x, newestFirst) <= k) ==> CountUpTo(s, k, newestFirst) == |s|
    ensures (forall x :: x in s ==> Key(x, newestFirst) > k) ==> CountUpTo(s, k, newestFirst) == 0
  {
    if s != [] {
      CountAll(s[1..], k, newestFirst);
    }
  }

  lemma CountBefore(c: seq<Tx>, d: seq<Tx>, k: int, newestFirst: bool)
    requires Sorted(c + d, newestFirst) && d != [] && Key(d[0], newestFirst) > k
    ensures CountUpTo(c + d, k, newestFirst) <= |c|
  {
    CountAppend(c, d, k, newestFirst);
    CountAll(c, k, newestFirst);
    SortedSplit(c, d, newestFirst);
    FirstIsLeast(d, newestFirst);
    CountAll(d, k, newestFirst);
  }

  /** If at least |a| transactions of a sorted list come no later than k, so do its first |a|. */
  lemma FirstOnesAreUpTo(a: seq<Tx>, b: seq<Tx>, k: int, newestFirst: bool, x: Tx)
    requires Sorted(a + b, newestFirst) && CountUpTo(a + b, k, newestFirst) >= |a| && x in a
    ensures Key(x, newestFirst) <= k
  {
    if Key(x, newestFirst) > k {
      var i :| 0 <= i < |a| && a[i] == x;
      var c, d := a[..i], a[i..] + b;
      assert a + b == c + d && d[0] == x;
      CountBefore(c, d, k, newestFirst);
    }
  }

  lemma FirstIsLeast(s: seq<Tx>, newestFirst: bool)
    requires Sorted(s, newestFirst) && s != []
    ensures forall x :: x in s ==> Key(s[0], newestFirst) <= Key(x, newestFirst)
  {}

  // ----- merging pages -----

  function Flatten(ss: seq<seq<Tx>>): seq<Tx> {
    if ss == [] then [] else Flatten(ss[..|ss| - 1]) + ss[|ss| - 1]
  }

  lemma {:induction false} FlattenCounts(ss: seq<seq<Tx>>, i: nat, k: int, newestFirst: bool)
    requires i < |ss|
    ensures CountUpTo(Flatten(ss), k, newestFirst) >= CountUpTo(ss[i], k, newestFirst)
  {
    CountAppend(Flatten(ss[..|ss| - 1]), ss[|ss| - 1], k, newestFirst);
    if i < |ss| - 1 {
      FlattenCounts(ss[..|ss| - 1], i, k, newestFirst);
    }
  }

  lemma {:induction false} FlattenMember(ss: seq<seq<Tx>>, t: Tx) returns (i: nat)
    requires t in Flatten(ss)
    ensures i < |ss| && t in ss[i]
  {
    if t in ss[|ss| - 1] {
      i := |ss| - 1;
    } else {
      i := FlattenMember(ss[..|ss| - 1], t);
    }
  }

  ghost predicate Pages(pages: seq<seq<Tx>>, rests: seq<seq<Tx>>, wallets: seq<seq<Tx>>, limit: int,
                        newestFirst: bool) {
    && |pages| == |rests| == |wallets|
    && forall i :: 0 <= i < |wallets| ==> IsPage(pages[i], rests[i], wallets[i], limit, newestFirst)
  }

  lemma PagesGrow(pages: seq<seq<Tx>>, rests: seq<seq<Tx>>, wallets: seq<seq<Tx>>, page: seq<Tx>, rest: seq<Tx>,
                  wallet: seq<Tx>, limit: int, newestFirst: bool)
    requires Pages(pages, rests, wallets, limit, newestFirst) && IsPage(page, rest, wallet, limit, newestFirst)
    ensures Pages(pages + [page], rests + [rest], wallets + [wallet], limit, newestFirst)
  {
  }

  lemma FlattenOne(ss: seq<seq<Tx>>, s: seq<Tx>)
    ensures Flatten(ss + [s]) == Flatten(ss) + s
  {
    assert (ss + [s])[..|ss|] == ss;
  }

  lemma {:induction false} PagesAreAll(pages: seq<seq<Tx>>, rests: seq<seq<Tx>>, wallets: seq<seq<Tx>>, limit: int,
                                       newestFirst: bool)
    requires Pages(pages, rests, wallets, limit, newestFirst)
    ensures multiset(Flatten(pages) + Flatten(rests)) == multiset(Flatten(wallets))
  {
    if wallets != [] {
      var n := |wallets| - 1;
      PagesAreAll(pages[..n], rests[..n], wallets[..n], limit, newestFirst);
      assert multiset(pages[n] + rests[n]) == multiset(wallets[n]);
    }
  }

  /** What a wallet's page leaves out comes no earlier than any of the first `limit` of the
      sorted collection: that wallet alone contributed that many before it. */
  lemma LeftOutIsLater(pages: seq<seq<Tx>>, rests: seq<seq<Tx>>, wallets: seq<seq<Tx>>, limit: int, newestFirst: bool,
                       page: seq<Tx>, over: seq<Tx>, x: Tx, t: Tx)
    requires Pages(pages, rests, wallets, limit, newestFirst)
    requires Sorted(page + over, newestFirst) && multiset(page + over) == multiset(Flatten(pages))
    requires |page| == PageSize(limit, |page + over|)
    requires x in page && t in Flatten(rests)
    ensures Key(x, newestFirst) <= Key(t, newestFirst)
  {
    var w := FlattenMember(rests, t);
    var k := Key(t, newestFirst);
    FullPageIsUpTo(pages[w], rests[w], wallets[w], limit, newestFirst, t);
    FlattenCounts(pages, w, k, newestFirst);
    CountOfPermutation(page + over, Flatten(pages), k, newestFirst);
    CountAll(page + over, k, newestFirst);
    FirstOnesAreUpTo(page, over, k, newestFirst, x);
  }

  lemma FullPageIsUpTo(page: seq<Tx>, rest: seq<Tx>, wallet: seq<Tx>, limit: int, newestFirst: bool, t: Tx)
    requires IsPage(page, rest, wallet, limit, newestFirst) && t in rest
    ensures |page| == limit > 0 && CountUpTo(page, Key(t, newestFirst), newestFirst) == limit
  {
    assert |page + rest| == |multiset(page + rest)| == |multiset(wallet)|;
    SortedSplit(page, rest, newestFirst);
    assert t in multiset(rest);
    forall x | x in page ensures Key(x, newestFirst) <= Key(t, newestFirst) {
      assert x in multiset(page);
    }
    CountAll(page, Key(t, newestFirst), newestFirst);
  }

  lemma PageIsNoLater(pages: seq<seq<Tx>>, rests: seq<seq<Tx>>, wallets: seq<seq<Tx>>, limit: int, newestFirst: bool,
                      page: seq<Tx>, over: seq<Tx>)
    requires Pages(pages, rests, wallets, limit, newestFirst)
    requires Sorted(page + over, newestFirst) && multiset(page + over) == multiset(Flatten(pages))
    requires |page| == PageSize(limit, |page + over|)
    ensures NoLater(multiset(page), multiset(over + Flatten(rests)), newestFirst)
  {
    SortedSplit(page, over, newestFirst);
    forall x, t | x in multiset(page) && t in multiset(over + Flatten(rests))
      ensures Key(x, newestFirst) <= Key(t, newestFirst)
    {
      assert t in multiset(over) || t in Flatten(rests);
      if t in Flatten(rests) {
        LeftOutIsLater(pages, rests, wallets, limit, newestFirst, page, over, x, t);
      }
    }
  }

  /** Cutting off the sorted collection of the wallets' first pages gives the first page of all
      wallets together, whichever sorted order is used. */
  lemma MergedPagesArePage(pages: seq<seq<Tx>>, rests: seq<seq<Tx>>, wallets: seq<seq<Tx>>, limit: int,
                           newestFirst: bool, page: seq<Tx>, over: seq<Tx>) returns (rest: seq<Tx>)
    requires Pages(pages, rests, wallets, limit, newestFirst)
    requires Sorted(page + over, newestFirst) && multiset(page + over) == multiset(Flatten(pages))
    requires |page| == PageSize(limit, |page + over|)
    ensures IsPage(page, rest, Flatten(wallets), limit, newestFirst)
  {
    var last := over + Flatten(rests);
    rest := Sort(last, newestFirst);
    SortIsSorted(last, newestFirst);
    PageIsNoLater(pages, rests, wallets, limit, newestFirst, page, over);
    SortedSplit(page, over, newestFirst);
    SortedConcat(page, rest, newestFirst);
    PagesAreAll(pages, rests, wallets, limit, newestFirst);
    PageSizeFits(pages, rests, wallets, limit, newestFirst, page + over);
  }

  lemma PageSizeFits(pages: seq<seq<Tx>>, rests: seq<seq<Tx>>, wallets: seq<seq<Tx>>, limit: int, newestFirst: bool,
                     sorted: seq<Tx>)
    requires Pages(pages, rests, wallets, limit, newestFirst) && multiset(sorted) == multiset(Flatten(pages))
    ensures PageSize(limit, |sorted|) == PageSize(limit, |Flatten(wallets)|)
  {
    PagesAreAll(pages, rests, wallets, limit, newestFirst);
    assert |sorted| == |multiset(sorted)| == |multiset(Flatten(pages))| == |Flatten(pages)|;
    assert |Flatten(wallets)| == |multiset(Flatten(wallets))| == |Flatten(pages) + Flatten(rests)|;
    if limit <= 0 || |Flatten(pages)| < limit {
      NothingLeftOut(pages, rests, wallets, limit, newestFirst);
    }
  }

  lemma {:induction false} NothingLeftOut(pages: seq<seq<Tx>>, rests: seq<seq<Tx>>, wallets: seq<seq<Tx>>, limit: int,
                                          newestFirst: bool)
    requires Pages(pages, rests, wallets, limit, newestFirst) && (limit <= 0 || |Flatten(pages)| < limit)
    ensures Flatten(rests) == []
  {
    if wallets != [] {
      var n := |wallets| - 1;
      NothingLeftOut(pages[..n], rests[..n], wallets[..n], limit, newestFirst);
      assert |multiset(pages[n] + rests[n])| == |multiset(wallets[n])|;
    }
  }
}
