/** Listing transactions of one wallet and of several (Read of walletdata/read.go and
    GetTransactionsRaw of transactions.go), with filter, offset and limit.  Every wallet skips
    `offset` transactions of its own. */
module TxListing {
  import opened TxPages

  /** Stored transactions and the query prepared for the filter code. */
  datatype Wallet = Wallet(txs: seq<Tx>, matches: Tx -> bool)

  function Matching(w: Wallet): seq<Tx> { Filtered(w.txs, w.matches) }

  function Filtered(txs: seq<Tx>, matches: Tx -> bool): seq<Tx> {
    if txs == [] then []
    else if matches(txs[0]) then [txs[0]] + Filtered(txs[1..], matches)
    else Filtered(txs[1..], matches)
  }

  /** The transactions that match, each as often as it is stored. */
  lemma {:induction false} FilteredCounts(txs: seq<Tx>, matches: Tx -> bool, t: Tx)
    ensures multiset(Filtered(txs, matches))[t] == if matches(t) then multiset(txs)[t] else 0
  {
    if txs != [] {
      FilteredCounts(txs[1..], matches, t);
      assert txs == [txs[0]] + txs[1..];
    }
  }

  /** How many of a number of transactions an offset skips. */
  function Skip(offset: int, total: nat): nat {
    if offset <= 0 then 0 else if offset < total then offset else total
  }

  ghost predicate PageBetween(before: seq<Tx>, page: seq<Tx>, after: seq<Tx>, all: seq<Tx>, offset: int, limit: int,
                              newestFirst: bool) {
    && Sorted(before + (page + after), newestFirst)
    && multiset(before + (page + after)) == multiset(all)
    && |before| == Skip(offset, |all|)
    && |page| == PageSize(limit, |all| - |before|)
  }

  /** The page at an offset: what follows the first `offset` transactions of some listing of
      all of them, up to a positive limit. */
  ghost predicate IsPageAt(page: seq<Tx>, all: seq<Tx>, offset: int, limit: int, newestFirst: bool) {
    exists before, after :: PageBetween(before, page, after, all, offset, limit, newestFirst)
  }

  // ----- what each wallet skips -----

  /** A list without the transactions an offset skips. */
  ghost predicate Remains(before: seq<Tx>, remainder: seq<Tx>, all: seq<Tx>, offset: int, newestFirst: bool) {
    && Sorted(before + remainder, newestFirst)
    && multiset(before + remainder) == multiset(all)
    && |before| == Skip(offset, |all|)
  }

  ghost predicate AllRemain(befores: seq<seq<Tx>>, remainders: seq<seq<Tx>>, lists: seq<seq<Tx>>, offset: int,
                            newestFirst: bool) {
    && |befores| == |remainders| == |lists|
    && forall i :: 0 <= i < |lists| ==> Remains(befores[i], remainders[i], lists[i], offset, newestFirst)
  }

  /** What the merged call returns: the first page of what the wallets' offsets leave. */
  ghost predicate MergedPage(page: seq<Tx>, lists: seq<seq<Tx>>, offset: int, limit: int, newestFirst: bool) {
    exists befores, remainders ::
      && AllRemain(befores, remainders, lists, offset, newestFirst)
      && IsFirstPage(page, Flatten(remainders), limit, newestFirst)
  }

  /** How many transactions with a key up to k the wallets skip together. */
  function SkippedUpTo(lists: seq<seq<Tx>>, offset: int, k: int, newestFirst: bool): nat {
    if lists == [] then 0
    else
      SkippedUpTo(lists[..|lists| - 1], offset, k, newestFirst) +
      Skip(offset, CountUpTo(lists[|lists| - 1], k, newestFirst))
  }

  function Skipped(lists: seq<seq<Tx>>, offset: int): nat {
    if lists == [] then 0 else Skipped(lists[..|lists| - 1], offset) + Skip(offset, |lists[|lists| - 1]|)
  }

  /** How many transactions with a key up to k the offsets leave. */
  function LeftUpTo(lists: seq<seq<Tx>>, offset: int, k: int, newestFirst: bool): int {
    CountUpTo(Flatten(lists), k, newestFirst) - SkippedUpTo(lists, offset, k, newestFirst)
  }

  /** Wherever what is left does not fill the page yet, at most `offset` transactions have been
      skipped. */
  ghost predicate SkipsFit(lists: seq<seq<Tx>>, offset: int, o: nat, size: int, newestFirst: bool) {
    forall k {:trigger LeftUpTo(lists, offset, k, newestFirst)} ::
      LeftUpTo(lists, offset, k, newestFirst) < size ==> SkippedUpTo(lists, offset, k, newestFirst) <= o
  }

  /** The offset does the same in every wallet as it would in all of them together: with nothing
      left over there was nothing beyond it, and otherwise the wallets skip no more than
      `offset` before the page is full, and no more at all unless the page is cut off. */
  ghost predicate OffsetFits(lists: seq<seq<Tx>>, offset: int, limit: int, newestFirst: bool) {
    var o, left := if offset <= 0 then 0 else offset, |Flatten(lists)| - Skipped(lists, offset);
    if left <= 0 then |Flatten(lists)| <= o
    else
      var size := PageSize(limit, left);
      SkipsFit(lists, offset, o, size, newestFirst) && (Skipped(lists, offset) <= o || size == limit)
  }

  /** The start of a sorted list counts what the whole list does, as far as it goes. */
  lemma StartCounts(a: seq<Tx>, b: seq<Tx>, k: int, newestFirst: bool)
    requires Sorted(a + b, newestFirst)
    ensures CountUpTo(a, k, newestFirst) ==
            if CountUpTo(a + b, k, newestFirst) < |a| then CountUpTo(a + b, k, newestFirst) else |a|
  {
    CountAppend(a, b, k, newestFirst);
    CountAll(a, k, newestFirst);
    if CountUpTo(a + b, k, newestFirst) >= |a| {
      forall x | x in a ensures Key(x, newestFirst) <= k {
        FirstOnesAreUpTo(a, b, k, newestFirst, x);
      }
    } else {
      var x :| x in a && Key(x, newestFirst) > k;
      SortedSplit(a, b, newestFirst);
      forall y | y in b ensures Key(y, newestFirst) > k {
        assert x in multiset(a) && y in multiset(b);
      }
      CountAll(b, k, newestFirst);
    }
  }

  lemma RemainsCounts(before: seq<Tx>, remainder: seq<Tx>, all: seq<Tx>, offset: int, k: int, newestFirst: bool)
    requires Remains(before, remainder, all, offset, newestFirst)
    ensures CountUpTo(before, k, newestFirst) == Skip(offset, CountUpTo(all, k, newestFirst))
  {
    StartCounts(before, remainder, k, newestFirst);
    CountOfPermutation(before + remainder, all, k, newestFirst);
    CountAll(all, k, newestFirst);
  }

  lemma {:induction false} CountsOfSkipped(befores: seq<seq<Tx>>, remainders: seq<seq<Tx>>, lists: seq<seq<Tx>>,
                                           offset: int, k: int, newestFirst: bool)
    requires AllRemain(befores, remainders, lists, offset, newestFirst)
    ensures CountUpTo(Flatten(befores), k, newestFirst) == SkippedUpTo(lists, offset, k, newestFirst)
    ensures |Flatten(befores)| == Skipped(lists, offset)
  {
    if lists != [] {
      var n := |lists| - 1;
      CountsOfSkipped(befores[..n], remainders[..n], lists[..n], offset, k, newestFirst);
      assert Remains(befores[n], remainders[n], lists[n], offset, newestFirst);
      RemainsCounts(befores[n], remainders[n], lists[n], offset, k, newestFirst);
      CountAppend(Flatten(befores[..n]), befores[n], k, newestFirst);
    }
  }

  lemma {:induction false} PartsAreAll(befores: seq<seq<Tx>>, remainders: seq<seq<Tx>>, lists: seq<seq<Tx>>,
                                       offset: int, newestFirst: bool)
    requires AllRemain(befores, remainders, lists, offset, newestFirst)
    ensures multiset(Flatten(befores) + Flatten(remainders)) == multiset(Flatten(lists))
  {
    if lists != [] {
      var n := |lists| - 1;
      var a, b, c := befores[..n], remainders[..n], lists[..n];
      PartsAreAll(a, b, c, offset, newestFirst);
      assert Remains(befores[n], remainders[n], lists[n], offset, newestFirst);
      RegroupPairs(Flatten(a), Flatten(b), Flatten(c), befores[n], remainders[n], lists[n]);
    }
  }

  /** What the wallets skip together, counted up to any key and altogether. */
  lemma SkippedCounts(befores: seq<seq<Tx>>, remainders: seq<seq<Tx>>, lists: seq<seq<Tx>>, offset: int, k: int,
                      newestFirst: bool)
    requires AllRemain(befores, remainders, lists, offset, newestFirst)
    ensures CountUpTo(Flatten(befores), k, newestFirst) == SkippedUpTo(lists, offset, k, newestFirst)
    ensures |Flatten(befores)| == Skipped(lists, offset)
    ensures multiset(Flatten(befores) + Flatten(remainders)) == multiset(Flatten(lists))
  {
    CountsOfSkipped(befores, remainders, lists, offset, k, newestFirst);
    PartsAreAll(befores, remainders, lists, offset, newestFirst);
  }

  lemma RegroupPairs(a: seq<Tx>, b: seq<Tx>, c: seq<Tx>, x: seq<Tx>, y: seq<Tx>, z: seq<Tx>)
    requires multiset(a + b) == multiset(c) && multiset(x + y) == multiset(z)
    ensures multiset((a + x) + (b + y)) == multiset(c + z)
  {
  }

  /** Whatever remains of a wallet, that wallet has skipped `offset` transactions before it. */
  lemma SkippedBefore(befores: seq<seq<Tx>>, remainders: seq<seq<Tx>>, lists: seq<seq<Tx>>, offset: int,
                      newestFirst: bool, x: Tx)
    requires AllRemain(befores, remainders, lists, offset, newestFirst) && x in Flatten(remainders)
    ensures CountUpTo(Flatten(befores), Key(x, newestFirst), newestFirst) >= offset
  {
    var i := FlattenMember(remainders, x);
    var k := Key(x, newestFirst);
    var before, remainder := befores[i], remainders[i];
    assert Remains(before, remainder, lists[i], offset, newestFirst);
    assert |before + remainder| == |multiset(before + remainder)| == |multiset(lists[i])| == |lists[i]|;
    SortedSplit(before, remainder, newestFirst);
    assert x in multiset(remainder);
    forall y | y in before ensures Key(y, newestFirst) <= k {
      assert y in multiset(before);
    }
    CountAll(before, k, newestFirst);
    FlattenCounts(befores, i, k, newestFirst);
  }

  // ----- when the merged page is the page at the offset -----

  /** The merged page in terms of what is skipped, the page itself, and what follows it. */
  ghost predicate Merged(skipped: seq<Tx>, page: seq<Tx>, rest: seq<Tx>, all: seq<Tx>, o: nat, limit: int,
                         newestFirst: bool) {
    && Sorted(page + rest, newestFirst)
    && multiset(skipped + (page + rest)) == multiset(all)
    && |page| == PageSize(limit, |page + rest|)
    && (page != [] ==> CountUpTo(skipped, Key(page[0], newestFirst), newestFirst) >= o)
  }

  lemma SameSize(a: seq<Tx>, b: seq<Tx>)
    requires multiset(a) == multiset(b)
    ensures |a| == |b|
  {
    assert |a| == |multiset(a)| && |b| == |multiset(b)|;
  }

  lemma CountThree(a: seq<Tx>, b: seq<Tx>, c: seq<Tx>, k: int, newestFirst: bool)
    ensures CountUpTo(a + (b + c), k, newestFirst) ==
            CountUpTo(a, k, newestFirst) + CountUpTo(b, k, newestFirst) + CountUpTo(c, k, newestFirst)
  {
    CountAppend(a, b + c, k, newestFirst);
    CountAppend(b, c, k, newestFirst);
  }

  lemma NothingAfterIsBefore(page: seq<Tx>, after: seq<Tx>, newestFirst: bool)
    requires Sorted(page + after, newestFirst) && page != []
    ensures CountUpTo(after, Key(page[|page| - 1], newestFirst) - 1, newestFirst) == 0
  {
    var last := page[|page| - 1];
    SortedSplit(page, after, newestFirst);
    forall y | y in after ensures Key(y, newestFirst) > Key(last, newestFirst) - 1 {
      assert last in multiset(page) && y in multiset(after);
    }
    CountAll(after, Key(last, newestFirst) - 1, newestFirst);
  }

  /** If it is the page at the offset, no more than `offset` skipped ones precede its end. */
  lemma FitsIfPage(skipped: seq<Tx>, page: seq<Tx>, rest: seq<Tx>, all: seq<Tx>, before: seq<Tx>, after: seq<Tx>,
                   offset: int, o: nat, limit: int, newestFirst: bool)
    requires o == (if offset <= 0 then 0 else offset) && page != []
    requires Merged(skipped, page, rest, all, o, limit, newestFirst)
    requires PageBetween(before, page, after, all, offset, limit, newestFirst)
    ensures CountUpTo(skipped, Key(page[|page| - 1], newestFirst) - 1, newestFirst) <= o
    ensures |skipped| <= o || |page| == limit
  {
    var k := Key(page[|page| - 1], newestFirst) - 1;
    CountThree(skipped, page, rest, k, newestFirst);
    CountThree(before, page, after, k, newestFirst);
    CountOfPermutation(skipped + (page + rest), all, k, newestFirst);
    CountOfPermutation(before + (page + after), all, k, newestFirst);
    SortedSplit(before, page + after, newestFirst);
    NothingAfterIsBefore(page, after, newestFirst);
    CountAll(before, k, newestFirst);
    SameSize(skipped + (page + rest), all);
    SameSize(before + (page + after), all);
  }

  /** The first o of a sorted list and the others, split at a key. */
  lemma SplitAt(s: seq<Tx>, o: nat, low: int, high: int, newestFirst: bool)
    requires Sorted(s, newestFirst) && o <= |s|
    requires CountUpTo(s, low, newestFirst) >= o && CountUpTo(s, high - 1, newestFirst) <= o
    ensures forall x :: x in s[..o] ==> Key(x, newestFirst) <= low
    ensures forall x :: x in s[o..] ==> Key(x, newestFirst) >= high
  {
    var a, b := s[..o], s[o..];
    assert s == a + b;
    forall x | x in a ensures Key(x, newestFirst) <= low {
      FirstOnesAreUpTo(a, b, low, newestFirst, x);
    }
    forall x | x in b ensures Key(x, newestFirst) >= high {
      if Key(x, newestFirst) < high {
        LaterIsCounted(a, b, x, high - 1, newestFirst);
      }
    }
  }

  lemma LaterIsCounted(a: seq<Tx>, b: seq<Tx>, x: Tx, k: int, newestFirst: bool)
    requires Sorted(a + b, newestFirst) && x in b && Key(x, newestFirst) <= k
    ensures CountUpTo(a + b, k, newestFirst) > |a|
  {
    SortedSplit(a, b, newestFirst);
    forall y | y in a ensures Key(y, newestFirst) <= k {
      assert y in multiset(a) && x in multiset(b);
    }
    CountAll(a, k, newestFirst);
    CountAppend(a, b, k, newestFirst);
    MemberIsCounted(b, x, k, newestFirst);
  }

  lemma {:induction false} MemberIsCounted(s: seq<Tx>, x: Tx, k: int, newestFirst: bool)
    requires x in s && Key(x, newestFirst) <= k
    ensures CountUpTo(s, k, newestFirst) > 0
  {
    if s[0] != x {
      MemberIsCounted(s[1..], x, k, newestFirst);
    }
  }

  /** Where the keys of all parts lie. */
  lemma SortedThree(before: seq<Tx>, page: seq<Tx>, after: seq<Tx>, newestFirst: bool)
    requires Sorted(before, newestFirst) && Sorted(page, newestFirst) && Sorted(after, newestFirst) && page != []
    requires forall x :: x in before ==> Key(x, newestFirst) <= Key(page[0], newestFirst)
    requires forall x :: x in after ==> Key(x, newestFirst) >= Key(page[|page| - 1], newestFirst)
    ensures Sorted(before + (page + after), newestFirst)
  {
    forall x, y | x in multiset(page) && y in multiset(after) ensures Key(x, newestFirst) <= Key(y, newestFirst) {
      var i :| 0 <= i < |page| && page[i] == x;
    }
    SortedConcat(page, after, newestFirst);
    forall x, y | x in multiset(before) && y in multiset(page + after)
      ensures Key(x, newestFirst) <= Key(y, newestFirst)
    {
      var i :| 0 <= i < |page + after| && (page + after)[i] == y;
      assert (page + after)[0] == page[0];
    }
    SortedConcat(before, page + after, newestFirst);
  }

  lemma RestIsLater(page: seq<Tx>, rest: seq<Tx>, newestFirst: bool)
    requires Sorted(page + rest, newestFirst) && page != []
    ensures Sorted(page, newestFirst) && Sorted(rest, newestFirst)
    ensures forall x :: x in rest ==> Key(x, newestFirst) >= Key(page[|page| - 1], newestFirst)
  {
    SortedSplit(page, rest, newestFirst);
    forall x | x in rest ensures Key(x, newestFirst) >= Key(page[|page| - 1], newestFirst) {
      assert page[|page| - 1] in multiset(page) && x in multiset(rest);
    }
  }

  /** Takes the o earliest of the skipped ones. */
  lemma SplitSkipped(skipped: seq<Tx>, o: nat, low: int, high: int, newestFirst: bool)
    returns (before: seq<Tx>, over: seq<Tx>)
    requires CountUpTo(skipped, low, newestFirst) >= o && CountUpTo(skipped, high - 1, newestFirst) <= o
    ensures Sorted(before, newestFirst) && |before| == o && multiset(before + over) == multiset(skipped)
    ensures forall x :: x in before ==> Key(x, newestFirst) <= low
    ensures forall x :: x in over ==> Key(x, newestFirst) >= high
  {
    var sorted := Sort(skipped, newestFirst);
    SortIsSorted(skipped, newestFirst);
    SameSize(sorted, skipped);
    CountOfPermutation(sorted, skipped, low, newestFirst);
    CountOfPermutation(sorted, skipped, high - 1, newestFirst);
    CountAll(skipped, low, newestFirst);
    SplitAt(sorted, o, low, high, newestFirst);
    before, over := sorted[..o], sorted[o..];
    assert sorted == before + over;
    SortedSplit(before, over, newestFirst);
  }

  lemma SortRest(over: seq<Tx>, rest: seq<Tx>, high: int, newestFirst: bool) returns (after: seq<Tx>)
    requires forall x :: x in over ==> Key(x, newestFirst) >= high
    requires forall x :: x in rest ==> Key(x, newestFirst) >= high
    ensures Sorted(after, newestFirst) && multiset(after) == multiset(over + rest)
    ensures forall x :: x in after ==> Key(x, newestFirst) >= high
  {
    after := Sort(over + rest, newestFirst);
    SortIsSorted(over + rest, newestFirst);
    forall x | x in after ensures Key(x, newestFirst) >= high {
      assert x in multiset(after);
      assert x in over + rest;
    }
  }

  /** If no more than `offset` skipped ones precede its end, a listing has it at the offset. */
  lemma PageIfFits(skipped: seq<Tx>, page: seq<Tx>, rest: seq<Tx>, all: seq<Tx>, offset: int, o: nat, limit: int,
                   newestFirst: bool)
    returns (before: seq<Tx>, after: seq<Tx>)
    requires o == (if offset <= 0 then 0 else offset) && page != []
    requires Merged(skipped, page, rest, all, o, limit, newestFirst)
    requires CountUpTo(skipped, Key(page[|page| - 1], newestFirst) - 1, newestFirst) <= o
    requires |skipped| <= o || |page| == limit
    ensures PageBetween(before, page, after, all, offset, limit, newestFirst)
  {
    var low, high := Key(page[0], newestFirst), Key(page[|page| - 1], newestFirst);
    var over;
    before, over := SplitSkipped(skipped, o, low, high, newestFirst);
    RestIsLater(page, rest, newestFirst);
    after := SortRest(over, rest, high, newestFirst);
    SortedThree(before, page, after, newestFirst);
    Regrouped(before, over, page, rest, after, skipped, all);
    SameSize(before + (page + after), all);
    SameSize(before + over, skipped);
    SameSize(after, over + rest);
  }

  lemma Regrouped(before: seq<Tx>, over: seq<Tx>, page: seq<Tx>, rest: seq<Tx>, after: seq<Tx>, skipped: seq<Tx>,
                  all: seq<Tx>)
    requires multiset(before + over) == multiset(skipped) && multiset(after) == multiset(over + rest)
    requires multiset(skipped + (page + rest)) == multiset(all)
    ensures multiset(before + (page + after)) == multiset(all)
  {
  }

  lemma EmptyPageIff(all: seq<Tx>, offset: int, limit: int, newestFirst: bool)
    ensures IsPageAt([], all, offset, limit, newestFirst) <==> |all| <= if offset <= 0 then 0 else offset
  {
    if |all| <= if offset <= 0 then 0 else offset {
      var before := Sort(all, newestFirst);
      SortIsSorted(all, newestFirst);
      SameSize(before, all);
      assert before + ([] + []) == before;
      assert PageBetween(before, [], [], all, offset, limit, newestFirst);
    }
  }

  /** The merged page is the page at the offset of all wallets together if and only if the
      wallets do not skip too much before it is full. */
  lemma MergedPageIsPageIff(page: seq<Tx>, lists: seq<seq<Tx>>, offset: int, limit: int, newestFirst: bool)
    requires MergedPage(page, lists, offset, limit, newestFirst)
    ensures IsPageAt(page, Flatten(lists), offset, limit, newestFirst)
            <==> OffsetFits(lists, offset, limit, newestFirst)
  {
    var o := if offset <= 0 then 0 else offset;
    MergedPageSize(page, lists, offset, limit, newestFirst);
    if page == [] {
      NothingLeftFitsIff(lists, offset, limit, newestFirst);
    } else {
      var skipped, rest := MergedParts(page, lists, offset, o, limit, newestFirst);
      MergedIsPageIff(skipped, page, rest, lists, offset, o, limit, newestFirst);
    }
  }

  lemma NothingLeftFitsIff(lists: seq<seq<Tx>>, offset: int, limit: int, newestFirst: bool)
    requires |Flatten(lists)| == Skipped(lists, offset)
    ensures IsPageAt([], Flatten(lists), offset, limit, newestFirst)
            <==> OffsetFits(lists, offset, limit, newestFirst)
  {
    EmptyPageIff(Flatten(lists), offset, limit, newestFirst);
  }

  lemma MergedIsPageIff(skipped: seq<Tx>, page: seq<Tx>, rest: seq<Tx>, lists: seq<seq<Tx>>, offset: int, o: nat,
                        limit: int, newestFirst: bool)
    requires o == (if offset <= 0 then 0 else offset) && page != []
    requires Merged(skipped, page, rest, Flatten(lists), o, limit, newestFirst)
    requires |skipped| == Skipped(lists, offset) && CountsSkipped(skipped, lists, offset, newestFirst)
    ensures IsPageAt(page, Flatten(lists), offset, limit, newestFirst)
            <==> OffsetFits(lists, offset, limit, newestFirst)
  {
    SameSize(skipped + (page + rest), Flatten(lists));
    NonEmptyPageIff(skipped, page, rest, Flatten(lists), offset, o, limit, newestFirst);
    SkipsFitIff(skipped, page, rest, lists, offset, o, limit, newestFirst);
  }

  /** What is left up to a key, counted on the page and what follows it. */
  ghost predicate CountsSkipped(skipped: seq<Tx>, lists: seq<seq<Tx>>, offset: int, newestFirst: bool) {
    forall k {:trigger SkippedUpTo(lists, offset, k, newestFirst)} ::
      CountUpTo(skipped, k, newestFirst) == SkippedUpTo(lists, offset, k, newestFirst)
  }

  lemma LeftIsCounted(skipped: seq<Tx>, left: seq<Tx>, lists: seq<seq<Tx>>, offset: int, k: int, newestFirst: bool)
    requires multiset(skipped + left) == multiset(Flatten(lists))
    requires CountUpTo(skipped, k, newestFirst) == SkippedUpTo(lists, offset, k, newestFirst)
    ensures LeftUpTo(lists, offset, k, newestFirst) == CountUpTo(left, k, newestFirst)
  {
    CountAppend(skipped, left, k, newestFirst);
    CountOfPermutation(skipped + left, Flatten(lists), k, newestFirst);
  }

  /** Up to a key the page is not full exactly when its last transaction comes later. */
  lemma PageIsFullIff(page: seq<Tx>, rest: seq<Tx>, k: int, newestFirst: bool)
    requires Sorted(page + rest, newestFirst) && page != []
    ensures CountUpTo(page + rest, k, newestFirst) < |page| <==> k < Key(page[|page| - 1], newestFirst)
  {
    var n := |page| - 1;
    if k < Key(page[n], newestFirst) {
      var c, d := page[..n], [page[n]] + rest;
      assert page + rest == c + d;
      CountBefore(c, d, k, newestFirst);
    } else {
      SortedSplit(page, rest, newestFirst);
      forall x | x in page ensures Key(x, newestFirst) <= k {
        var i :| 0 <= i < |page| && page[i] == x;
      }
      CountAll(page, k, newestFirst);
      CountAppend(page, rest, k, newestFirst);
    }
  }

  lemma {:induction false} CountGrows(s: seq<Tx>, k: int, m: int, newestFirst: bool)
    requires k <= m
    ensures CountUpTo(s, k, newestFirst) <= CountUpTo(s, m, newestFirst)
  {
    if s != [] {
      CountGrows(s[1..], k, m, newestFirst);
    }
  }

  lemma SkipsFitIff(skipped: seq<Tx>, page: seq<Tx>, rest: seq<Tx>, lists: seq<seq<Tx>>, offset: int, o: nat,
                    limit: int, newestFirst: bool)
    requires page != [] && Merged(skipped, page, rest, Flatten(lists), o, limit, newestFirst)
    requires CountsSkipped(skipped, lists, offset, newestFirst)
    ensures SkipsFit(lists, offset, o, |page|, newestFirst)
            <==> CountUpTo(skipped, Key(page[|page| - 1], newestFirst) - 1, newestFirst) <= o
  {
    var last := Key(page[|page| - 1], newestFirst) - 1;
    forall k
      ensures LeftUpTo(lists, offset, k, newestFirst) < |page| <==> k <= last
      ensures CountUpTo(skipped, k, newestFirst) == SkippedUpTo(lists, offset, k, newestFirst)
      ensures k <= last ==> CountUpTo(skipped, k, newestFirst) <= CountUpTo(skipped, last, newestFirst)
    {
      assert CountUpTo(skipped, k, newestFirst) == SkippedUpTo(lists, offset, k, newestFirst);
      LeftIsCounted(skipped, page + rest, lists, offset, k, newestFirst);
      PageIsFullIff(page, rest, k, newestFirst);
      if k <= last {
        CountGrows(skipped, k, last, newestFirst);
      }
    }
    assert LeftUpTo(lists, offset, last, newestFirst) < |page|;
  }

  lemma NonEmptyPageIff(skipped: seq<Tx>, page: seq<Tx>, rest: seq<Tx>, all: seq<Tx>, offset: int, o: nat, limit: int,
                        newestFirst: bool)
    requires o == (if offset <= 0 then 0 else offset) && page != []
    requires Merged(skipped, page, rest, all, o, limit, newestFirst)
    ensures IsPageAt(page, all, offset, limit, newestFirst)
            <==> && CountUpTo(skipped, Key(page[|page| - 1], newestFirst) - 1, newestFirst) <= o
                 && (|skipped| <= o || |page| == limit)
  {
    if IsPageAt(page, all, offset, limit, newestFirst) {
      var before, after :| PageBetween(before, page, after, all, offset, limit, newestFirst);
      FitsIfPage(skipped, page, rest, all, before, after, offset, o, limit, newestFirst);
    } else if && CountUpTo(skipped, Key(page[|page| - 1], newestFirst) - 1, newestFirst) <= o
              && (|skipped| <= o || |page| == limit) {
      var before, after := PageIfFits(skipped, page, rest, all, offset, o, limit, newestFirst);
    }
  }

  lemma MergedParts(page: seq<Tx>, lists: seq<seq<Tx>>, offset: int, o: nat, limit: int, newestFirst: bool)
    returns (skipped: seq<Tx>, rest: seq<Tx>)
    requires MergedPage(page, lists, offset, limit, newestFirst) && page != [] && o == if offset <= 0 then 0 else offset
    ensures Merged(skipped, page, rest, Flatten(lists), o, limit, newestFirst)
    ensures |skipped| == Skipped(lists, offset)
    ensures CountsSkipped(skipped, lists, offset, newestFirst)
  {
    var befores, remainders :| AllRemain(befores, remainders, lists, offset, newestFirst)
                            && IsFirstPage(page, Flatten(remainders), limit, newestFirst);
    rest :| IsPage(page, rest, Flatten(remainders), limit, newestFirst);
    skipped := Flatten(befores);
    forall k ensures CountUpTo(skipped, k, newestFirst) == SkippedUpTo(lists, offset, k, newestFirst) {
      SkippedCounts(befores, remainders, lists, offset, k, newestFirst);
    }
    SkippedCounts(befores, remainders, lists, offset, 0, newestFirst);
    SameSize(page + rest, Flatten(remainders));
    assert page[0] in page + rest;
    assert page[0] in multiset(Flatten(remainders));
    SkippedBefore(befores, remainders, lists, offset, newestFirst, page[0]);
  }

  /** From the start the merged page is always right. */
  lemma {:induction false} NothingSkipped(lists: seq<seq<Tx>>, offset: int, k: int, newestFirst: bool)
    requires offset <= 0
    ensures Skipped(lists, offset) == 0 && SkippedUpTo(lists, offset, k, newestFirst) == 0
  {
    if lists != [] {
      NothingSkipped(lists[..|lists| - 1], offset, k, newestFirst);
    }
  }

  lemma FirstMergedPageIsPage(page: seq<Tx>, lists: seq<seq<Tx>>, offset: int, limit: int, newestFirst: bool)
    requires MergedPage(page, lists, offset, limit, newestFirst) && offset <= 0
    ensures IsPageAt(page, Flatten(lists), offset, limit, newestFirst)
  {
    MergedPageIsPageIff(page, lists, offset, limit, newestFirst);
    NoOffsetFits(lists, offset, limit, newestFirst);
  }

  lemma NoOffsetFits(lists: seq<seq<Tx>>, offset: int, limit: int, newestFirst: bool)
    requires offset <= 0
    ensures OffsetFits(lists, offset, limit, newestFirst)
  {
    NothingSkipped(lists, offset, 0, newestFirst);
    forall k | LeftUpTo(lists, offset, k, newestFirst) < PageSize(limit, |Flatten(lists)|)
      ensures SkippedUpTo(lists, offset, k, newestFirst) <= 0
    {
      NothingSkipped(lists, offset, k, newestFirst);
    }
  }

  lemma TwoSingles(x: Tx, y: Tx)
    ensures Flatten([[x], [y]]) == [x, y] && Skipped([[x], [y]], 1) == 2
  {
    assert [[x], [y]][..1] == [[x]] && [[x]][..0] == [];
    assert Flatten([[x]]) == [x];
    assert Skipped([[x]], 1) == 1;
  }

  /** What every wallet skips is missing from the merged page. */
  lemma MergedPageSize(page: seq<Tx>, lists: seq<seq<Tx>>, offset: int, limit: int, newestFirst: bool)
    requires MergedPage(page, lists, offset, limit, newestFirst)
    ensures Skipped(lists, offset) <= |Flatten(lists)|
    ensures |page| == PageSize(limit, |Flatten(lists)| - Skipped(lists, offset))
  {
    var befores, remainders :| AllRemain(befores, remainders, lists, offset, newestFirst)
                            && IsFirstPage(page, Flatten(remainders), limit, newestFirst);
    RemainderSize(befores, remainders, lists, offset, newestFirst);
    FirstPageSize(page, Flatten(remainders), limit, newestFirst);
  }

  lemma RemainderSize(befores: seq<seq<Tx>>, remainders: seq<seq<Tx>>, lists: seq<seq<Tx>>, offset: int,
                      newestFirst: bool)
    requires AllRemain(befores, remainders, lists, offset, newestFirst)
    ensures Skipped(lists, offset) + |Flatten(remainders)| == |Flatten(lists)|
  {
    SkippedCounts(befores, remainders, lists, offset, 0, newestFirst);
    SameSize(Flatten(befores) + Flatten(remainders), Flatten(lists));
  }

  lemma FirstPageSize(page: seq<Tx>, all: seq<Tx>, limit: int, newestFirst: bool)
    requires IsFirstPage(page, all, limit, newestFirst)
    ensures |page| == PageSize(limit, |all|)
  {
  }

  /** Two wallets with one transaction each: at offset 1 the second one is lost. */
  lemma OffsetLosesTransactions(page: seq<Tx>, x: Tx, y: Tx, limit: int, newestFirst: bool)
    requires MergedPage(page, [[x], [y]], 1, limit, newestFirst)
    ensures page == [] && !IsPageAt(page, Flatten([[x], [y]]), 1, limit, newestFirst)
  {
    TwoSingles(x, y);
    MergedPageSize(page, [[x], [y]], 1, limit, newestFirst);
    EmptyPageIff(Flatten([[x], [y]]), 1, limit, newestFirst);
  }

  // ----- the calls -----

  /** Read: one wallet's page at the offset. */
  method Read(w: Wallet, offset: int, limit: int, newestFirst: bool) returns (page: seq<Tx>)
    ensures IsPageAt(page, Matching(w), offset, limit, newestFirst)
  {
    var sorted := Sort(Matching(w), newestFirst);
    SortIsSorted(Matching(w), newestFirst);
    SameSize(sorted, Matching(w));
    var from := Skip(offset, |sorted|);
    var n := PageSize(limit, |sorted| - from);
    page := sorted[from..from + n];
    CutIsPage(sorted, Matching(w), from, n, offset, limit, newestFirst);
  }

  lemma CutIsPage(sorted: seq<Tx>, all: seq<Tx>, from: nat, n: nat, offset: int, limit: int, newestFirst: bool)
    requires Sorted(sorted, newestFirst) && multiset(sorted) == multiset(all) && |sorted| == |all|
    requires from == Skip(offset, |sorted|) && n == PageSize(limit, |sorted| - from)
    ensures IsPageAt(sorted[from..from + n], all, offset, limit, newestFirst)
  {
    var before, page, after := sorted[..from], sorted[from..from + n], sorted[from + n..];
    assert before + (page + after) == sorted;
    assert PageBetween(before, page, after, all, offset, limit, newestFirst);
  }

  /** Sorts what was collected and cuts it off at a positive limit. */
  method SortAndCut(all: seq<Tx>, limit: int, newestFirst: bool) returns (page: seq<Tx>, ghost over: seq<Tx>)
    ensures Sorted(page + over, newestFirst) && multiset(page + over) == multiset(all)
    ensures |page| == PageSize(limit, |page + over|)
  {
    page, over := Sort(all, newestFirst), [];
    SortIsSorted(all, newestFirst);
    assert page + over == page;
    if |page| > limit && limit > 0 {
      assert page[..limit] + page[limit..] == page;
      page, over := page[..limit], page[limit..];
    }
  }

  /** The matching transactions of the first n wallets, wallet by wallet. */
  function Lists(ws: seq<Wallet>, n: nat): seq<seq<Tx>>
    requires n <= |ws|
  {
    if n == 0 then [] else Lists(ws, n - 1) + [Matching(ws[n - 1])]
  }

  lemma PageParts(before: seq<Tx>, page: seq<Tx>, after: seq<Tx>, all: seq<Tx>, offset: int, limit: int,
                  newestFirst: bool)
    requires PageBetween(before, page, after, all, offset, limit, newestFirst)
    ensures Remains(before, page + after, all, offset, newestFirst)
            && IsPage(page, after, page + after, limit, newestFirst)
  {
    SameSize(before + (page + after), all);
    SortedSplit(before, page + after, newestFirst);
  }

  lemma AllRemainGrows(befores: seq<seq<Tx>>, remainders: seq<seq<Tx>>, lists: seq<seq<Tx>>, offset: int,
                       newestFirst: bool, before: seq<Tx>, remainder: seq<Tx>, all: seq<Tx>)
    requires AllRemain(befores, remainders, lists, offset, newestFirst)
             && Remains(before, remainder, all, offset, newestFirst)
    ensures AllRemain(befores + [before], remainders + [remainder], lists + [all], offset, newestFirst)
  {
  }

  /** The merged call gives the first page of what remains of the wallets.  With no offset that
      is the first page of all of them; with one, it is their page at the offset if and only if
      the wallets do not skip too much. */
  method GetTransactions(ws: seq<Wallet>, offset: int, limit: int, newestFirst: bool) returns (page: seq<Tx>)
    ensures MergedPage(page, Lists(ws, |ws|), offset, limit, newestFirst)
    ensures offset <= 0 ==> IsPageAt(page, Flatten(Lists(ws, |ws|)), offset, limit, newestFirst)
    ensures IsPageAt(page, Flatten(Lists(ws, |ws|)), offset, limit, newestFirst)
            <==> OffsetFits(Lists(ws, |ws|), offset, limit, newestFirst)
    ensures forall i, j :: 0 <= i < j < |page| ==>
              if newestFirst then page[i].timestamp >= page[j].timestamp else page[i].timestamp <= page[j].timestamp
  {
    var all := [];
    ghost var befores, pages, rests, remainders: seq<seq<Tx>> := [], [], [], [];
    for i := 0 to |ws|
      invariant Pages(pages, rests, remainders, limit, newestFirst)
      invariant AllRemain(befores, remainders, Lists(ws, i), offset, newestFirst)
      invariant all == Flatten(pages)
    {
      var p := Read(ws[i], offset, limit, newestFirst);
      ghost var before, after :| PageBetween(before, p, after, Matching(ws[i]), offset, limit, newestFirst);
      PageParts(before, p, after, Matching(ws[i]), offset, limit, newestFirst);
      PagesGrow(pages, rests, remainders, p, after, p + after, limit, newestFirst);
      AllRemainGrows(befores, remainders, Lists(ws, i), offset, newestFirst, before, p + after, Matching(ws[i]));
      FlattenOne(pages, p);
      befores, pages, rests, remainders := befores + [before], pages + [p], rests + [after], remainders + [p + after];
      all := all + p;
    }
    ghost var over;
    page, over := SortAndCut(all, limit, newestFirst);
    SortedSplit(page, over, newestFirst);
    SortedByTime(page, newestFirst);
    ghost var rest := MergedPagesArePage(pages, rests, remainders, limit, newestFirst, page, over);
    MergedPageIsPageIff(page, Lists(ws, |ws|), offset, limit, newestFirst);
    if offset <= 0 {
      FirstMergedPageIsPage(page, Lists(ws, |ws|), offset, limit, newestFirst);
    }
  }
}
