/** The interval scheduler of the automatic ticket buyer (runTicketBuyer of ticket.go).
    Ticket prices change every `window` blocks; a purchase started at tip height h has its
    split transaction mined at h+1 at the earliest and its ticket at h+2, and must not be
    mined at or after its expiry. */
module TicketBuyer {
  datatype Option<+T> = None | Some(value: T)

  /** A batch of purchases started together; they share one cancel function. */
  datatype Purchase = Purchase(height: nat, expiry: int, count: nat, cancelled: bool)

  // A stake difficulty is never zero.
  type Price = x: int | x > 0 witness 1

  /** One notification: ignored (no attached block, unsynced wallet, unknown header), or a
      tip with the spendable balance and next stake difficulty, each absent when its query
      fails. */
  datatype Event = Ignored | RescanPointFails | Tip(height: nat, spendable: Option<int>, sdiff: Option<Price>)

  function IntervalStart(h: nat, window: nat): nat
    requires window > 0
  {
    (h / window + 1) * window
  }

  lemma IntervalBounds(h: nat, window: nat)
    requires window > 0
    ensures IntervalStart(h, window) - window <= h < IntervalStart(h, window)
    ensures IntervalStart(h, window) - window >= 0
  {
    var q := h / window;
    assert h == q * window + h % window;
    assert (q + 1) * window == q * window + window;
    assert q * window >= 0;
  }

  /** Heights from the start of one price interval up to the next have the same price. */
  lemma {:induction false} SameInterval(x: nat, q: nat, window: nat)
    requires window > 0 && q * window <= x < (q + 1) * window
    ensures x / window == q
  {
    var d := x / window;
    assert x == d * window + x % window;
    assert (d + 1) * window == d * window + window;
    if d < q {
      MulMonotone(d + 1, q, window);
    } else if d > q {
      MulMonotone(q + 1, d, window);
    }
  }

  lemma MulMonotone(a: nat, b: nat, w: nat)
    requires a <= b
    ensures a * w <= b * w
  {
    assert b * w == a * w + (b - a) * w;
    assert (b - a) * w >= 0;
  }

  /** The tickets of a purchase can be mined in [height+2, expiry), and each such block has
      the price of the block after the tip. */
  ghost predicate WellTimed(p: Purchase, window: nat)
    requires window > 0
  {
    && p.height + 2 < p.expiry
    && forall x: nat :: p.height + 2 <= x < p.expiry ==> x / window == (p.height + 1) / window
  }

  predicate Boundary(x: int, window: nat)
    requires window > 0
  {
    x > 0 && x % window == 0
  }

  /** The two ways a purchase is scheduled: within the interval of the tip, or, when the next
      block begins a new interval, for that one. */
  predicate OnTime(h: nat, s: Schedule, window: nat)
    requires window > 0
  {
    var start := s.nextIntervalStart;
    || (s.expiry == start && start - window <= h && h + 2 < start)
    || (s.expiry == start + window && h + 1 == start)
  }

  lemma OnTimeIsWellTimed(p: Purchase, s: Schedule, window: nat)
    requires window >= 2 && Boundary(s.nextIntervalStart, window)
    requires p.expiry == s.expiry && OnTime(p.height, s, window)
    ensures WellTimed(p, window)
  {
    var start := s.nextIntervalStart;
    var q := start / window - 1;
    assert start == (q + 1) * window;
    assert q >= 0;
    assert (q + 1) * window == q * window + window && (q + 2) * window == (q + 1) * window + window;
    var n := if s.expiry == start then q else q + 1;
    SameInterval(p.height + 1, n, window);
    forall x: nat | p.height + 2 <= x < p.expiry ensures x / window == (p.height + 1) / window {
      SameInterval(x, n, window);
    }
  }

  /** What a tip does to the schedule. */
  datatype Schedule = Schedule(nextIntervalStart: int, expiry: int)

  predicate Renews(s: Schedule, h: nat) { h + 2 >= s.nextIntervalStart }

  /** The interval the tip is in ends too soon for another ticket, and the next price is
      unknown. */
  predicate Skips(s: Schedule, h: nat, window: nat)
    requires window > 0
  {
    Renews(s, h) && h + 2 == IntervalStart(h, window)
  }

  function Rescheduled(s: Schedule, h: nat, window: nat): Schedule
    requires window > 0
  {
    if !Renews(s, h) then s
    else
      var start := IntervalStart(h, window);
      if h + 2 == start then s.(nextIntervalStart := start)
      else Schedule(start, if h + 1 == start then start + window else start)
  }

  /** Relation between the schedule and the last tip processed, from which the schedule of
      any later tip follows. */
  predicate Timely(s: Schedule, tip: nat, window: nat)
    requires window > 0
  {
    Boundary(s.nextIntervalStart, window) && (OnTime(tip, s, window) || tip + 2 == s.nextIntervalStart)
  }

  lemma IntervalStartIsBoundary(h: nat, window: nat)
    requires window > 0
    ensures Boundary(IntervalStart(h, window), window)
  {
    IntervalBounds(h, window);
    var q := h / window + 1;
    SameInterval(q * window, q, window);
    assert q * window == (q * window) / window * window + (q * window) % window;
  }

  lemma RescheduleIsTimely(s: Schedule, tip: nat, h: nat, window: nat)
    requires window >= 2 && tip <= h
    requires s.nextIntervalStart == 0 || Timely(s, tip, window)
    ensures Timely(Rescheduled(s, h, window), h, window)
    ensures !Skips(s, h, window) ==> OnTime(h, Rescheduled(s, h, window), window)
    ensures !Skips(s, h, window) ==> h + 2 < Rescheduled(s, h, window).expiry
  {
    IntervalBounds(h, window);
    IntervalStartIsBoundary(h, window);
  }

  /** The balance and the price are known, and what exceeds the balance to maintain pays for a
      ticket. */
  predicate Affords(spendable: Option<int>, sdiff: Option<Price>, balanceToMaintain: int) {
    spendable.Some? && sdiff.Some? && spendable.value - balanceToMaintain >= sdiff.value
  }

  lemma AffordsOne(surplus: nat, price: Price)
    ensures surplus / price > 0 <==> surplus >= price
  {
    var q := surplus / price;
    assert surplus == q * price + surplus % price;
    if q >= 1 {
      MulMonotone(1, q, price);
    }
  }

  class Buyer {
    const window: nat
    const balanceToMaintain: int
    var schedule: Schedule
    var cancels: set<nat>          // purchases whose cancel function is held
    var purchases: seq<Purchase>
    ghost var tip: nat             // the last tip processed

    ghost predicate Valid()
      reads this
    {
      && window >= 2
      && ((schedule.nextIntervalStart == 0 && cancels == {}) || Timely(schedule, tip, window))
      && (forall i :: 0 <= i < |purchases| ==>
            WellTimed(purchases[i], window) && (purchases[i].cancelled <==> i !in cancels))
      && (forall i :: i in cancels ==> i < |purchases|)
      // The purchase routines read the shared expiry when they run, not when they start.
      && (forall i :: i in cancels ==> purchases[i].expiry == schedule.expiry && tip + 2 < purchases[i].expiry)
    }

    constructor (window: nat, balanceToMaintain: int)
      requires window >= 2
      ensures Valid() && purchases == [] && this.window == window
    {
      this.window, this.balanceToMaintain := window, balanceToMaintain;
      schedule, cancels, purchases, tip := Schedule(0, 0), {}, [], 0;
    }

    method CancelAll()
      modifies this`cancels, this`purchases
      ensures cancels == {} && |purchases| == |old(purchases)|
      ensures forall i :: 0 <= i < |purchases| ==>
                purchases[i] == (if i in old(cancels) then old(purchases)[i].(cancelled := true) else old(purchases)[i])
    {
      purchases := seq(|purchases|, i requires 0 <= i < |purchases| reads this =>
                         if i in cancels then purchases[i].(cancelled := true) else purchases[i]);
      cancels := {};
    }

    /** Cancels purchases of a past interval and sets the schedule for this tip.  Purchases
        that are not cancelled keep a minable range after the tip. */
    method Advance(height: nat) returns (skip: bool)
      requires Valid() && (schedule.nextIntervalStart == 0 || tip <= height)
      modifies this
      ensures Valid() && tip == height && schedule == Rescheduled(old(schedule), height, window)
      ensures skip == Skips(old(schedule), height, window)
      ensures skip ==> cancels == {}
      ensures !skip ==> Boundary(schedule.nextIntervalStart, window) && OnTime(height, schedule, window)
      ensures Renews(old(schedule), height) ==> cancels == {}
      ensures !Renews(old(schedule), height) ==> cancels == old(cancels) && purchases == old(purchases)
      ensures |purchases| == |old(purchases)| && forall i :: 0 <= i < |purchases| ==>
                purchases[i] == (if Renews(old(schedule), height) && i in old(cancels)
                                 then old(purchases)[i].(cancelled := true) else old(purchases)[i])
    {
      RescheduleIsTimely(schedule, if schedule.nextIntervalStart == 0 then height else tip, height, window);
      skip := Skips(schedule, height, window);
      if Renews(schedule, height) {
        CancelAll();
      }
      schedule := Rescheduled(schedule, height, window);
      tip := height;
    }

    method Launch(height: nat, buy: nat)
      requires Valid() && tip == height
      requires Boundary(schedule.nextIntervalStart, window) && OnTime(height, schedule, window)
      modifies this`purchases, this`cancels
      ensures Valid()
      ensures purchases == old(purchases) + [Purchase(height, schedule.expiry, buy, false)]
      ensures cancels == old(cancels) + {|old(purchases)|}
    {
      OnTimeIsWellTimed(Purchase(height, schedule.expiry, buy, false), schedule, window);
      cancels := cancels + {|purchases|};
      purchases := purchases + [Purchase(height, schedule.expiry, buy, false)];
    }

    /** Handles one tip.  Returns false when the loop is left. */
    method ProcessTip(height: nat, spendable: Option<int>, sdiff: Option<Price>) returns (again: bool)
      requires Valid() && (schedule.nextIntervalStart == 0 || tip <= height)
      modifies this
      ensures Valid() && tip == height && schedule.nextIntervalStart != 0
      ensures |old(purchases)| <= |purchases| <= |old(purchases)| + 1
      ensures forall i :: 0 <= i < |old(purchases)| ==>
                purchases[i] == (if Renews(old(schedule), height) && i in old(cancels)
                                 then old(purchases)[i].(cancelled := true) else old(purchases)[i])
      ensures |purchases| > |old(purchases)| <==>
                !Skips(old(schedule), height, window) && Affords(spendable, sdiff, balanceToMaintain)
      ensures again <==> Skips(old(schedule), height, window) || Affords(spendable, sdiff, balanceToMaintain)
      ensures |purchases| > |old(purchases)| ==>
                var p := purchases[|old(purchases)|];
                && p.height == height && !p.cancelled && p.count > 0 && spendable.Some? && sdiff.Some?
                && p.count * sdiff.value <= spendable.value - balanceToMaintain < (p.count + 1) * sdiff.value
      ensures Skips(old(schedule), height, window) ==> again && cancels == {}
    {
      var skip := Advance(height);
      if skip {
        return true;
      }
      if spendable.None? || spendable.value < balanceToMaintain || sdiff.None? {
        return false;
      }
      var surplus := spendable.value - balanceToMaintain;
      var buy := surplus / sdiff.value;
      assert surplus == buy * sdiff.value + surplus % sdiff.value;
      AffordsOne(surplus, sdiff.value);
      if buy == 0 {
        return false;
      }
      assert (buy + 1) * sdiff.value == buy * sdiff.value + sdiff.value;
      Launch(height, buy);
      again := true;
    }

    /** The whole loop.  However it ends, every purchase it started was well timed and is
        cancelled. */
    method RunLoop(events: seq<Event>)
      requires Valid() && purchases == [] && schedule.nextIntervalStart == 0
      requires forall i, j :: 0 <= i < j < |events| && events[i].Tip? && events[j].Tip? ==>
                 events[i].height <= events[j].height
      modifies this
      ensures forall i :: 0 <= i < |purchases| ==> WellTimed(purchases[i], window) && purchases[i].cancelled
    {
      var again := true;
      for n := 0 to |events|
        invariant Valid()
        invariant schedule.nextIntervalStart != 0 ==>
                    exists m :: 0 <= m < n && events[m].Tip? && events[m].height == tip
      {
        match events[n] {
          case Ignored =>
          case RescanPointFails => again := false;
          case Tip(height, spendable, sdiff) => again := ProcessTip(height, spendable, sdiff);
        }
        if !again {
          break;
        }
      }
      CancelAll();
    }
  }

  // ----- what the schedule needs -----

  /** A renewing tip is skipped exactly when no block two after it or later has the price of the
      block after it. */
  lemma SkipsIff(s: Schedule, h: nat, window: nat)
    requires window >= 2
    ensures Skips(s, h, window) <==>
              Renews(s, h) && forall x: nat :: x >= h + 2 ==> x / window != (h + 1) / window
  {
    var start, n := IntervalStart(h, window), h / window;
    IntervalBounds(h, window);
    assert start == (n + 1) * window && (n + 2) * window == start + window && start - window == n * window;
    if h + 2 == start {
      SameInterval(h + 1, n, window);
      forall x: nat | x >= h + 2 ensures x / window != n {
        AtLeastInterval(x, n + 1, window);
      }
    } else {
      var m := if h + 1 == start then n + 1 else n;
      SameInterval(h + 1, m, window);
      SameInterval(h + 2, m, window);
    }
  }

  /** A renewing tip that is not skipped gives its purchases every block, two after it or later,
      that has the price of the block after it, and no other. */
  lemma RenewedRangeIsExact(s: Schedule, h: nat, window: nat, x: nat)
    requires window >= 2 && Renews(s, h) && !Skips(s, h, window) && x >= h + 2
    ensures x < Rescheduled(s, h, window).expiry <==> x / window == (h + 1) / window
  {
    var start, n := IntervalStart(h, window), h / window;
    IntervalBounds(h, window);
    assert start == (n + 1) * window && (n + 2) * window == start + window && start - window == n * window;
    var m := if h + 1 == start then n + 1 else n;
    assert (m + 1) * window == Rescheduled(s, h, window).expiry;
    SameInterval(h + 1, m, window);
    if x < (m + 1) * window {
      SameInterval(x, m, window);
    } else {
      AtLeastInterval(x, m + 1, window);
    }
  }

  lemma AtLeastInterval(x: nat, q: nat, window: nat)
    requires window > 0 && x >= q * window
    ensures x / window >= q
  {
    var d := x / window;
    assert x == d * window + x % window;
    assert (d + 1) * window == d * window + window;
    if d + 1 <= q {
      MulMonotone(d + 1, q, window);
    }
  }

  ghost predicate RenewalIsWellTimed(s: Schedule, h: nat, window: nat)
    requires window > 0
  {
    Renews(s, h) && !Skips(s, h, window) ==>
      WellTimed(Purchase(h, Rescheduled(s, h, window).expiry, 1, false), window)
  }

  /** With a window of a single block every renewing tip starts purchases that have no block to
      be mined in. */
  lemma WindowOfOneHasNoRange(s: Schedule, h: nat)
    requires Renews(s, h)
    ensures !Skips(s, h, 1) && Rescheduled(s, h, 1).expiry == h + 2
    ensures !RenewalIsWellTimed(s, h, 1)
  {
  }

  /** Every renewing tip that is not skipped starts well-timed purchases if and only if the
      window has at least two blocks. */
  lemma WindowSufficesIff(window: nat)
    requires window > 0
    ensures (forall s, h: nat :: RenewalIsWellTimed(s, h, window)) <==> window >= 2
  {
    if window == 1 {
      WindowOfOneHasNoRange(Schedule(0, 0), 0);
    } else {
      forall s, h: nat ensures RenewalIsWellTimed(s, h, window) {
        if Renews(s, h) && !Skips(s, h, window) {
          var n := Rescheduled(s, h, window);
          IntervalBounds(h, window);
          IntervalStartIsBoundary(h, window);
          OnTimeIsWellTimed(Purchase(h, n.expiry, 1, false), n, window);
        }
      }
    }
  }

  /** For a tip of any height and any expiry, however the schedule came about: the purchases
      are well timed if and only if the expiry leaves a block and does not lie beyond the price
      interval of the block after the tip. */
  lemma WellTimedIff(h: nat, expiry: int, count: nat, window: nat)
    requires window > 0
    ensures WellTimed(Purchase(h, expiry, count, false), window) <==> h + 2 < expiry <= IntervalStart(h + 1, window)
  {
    var n, start := (h + 1) / window, IntervalStart(h + 1, window);
    IntervalBounds(h + 1, window);
    assert start == (n + 1) * window && (n + 2) * window == (n + 1) * window + window;
    assert start - window == n * window;
    if h + 2 < expiry <= start {
      forall x: nat | h + 2 <= x < expiry ensures x / window == n {
        SameInterval(x, n, window);
      }
    } else if h + 2 < expiry {
      assert h + 2 <= start < expiry;
      SameInterval(start, n + 1, window);
    }
  }

  /** A switch from tip 12 to tip 7 with a window of 10 keeps an expiry of 20, so tickets could
      be mined on both sides of the price change at 10. */
  lemma LowerTipCrossesInterval()
    ensures var s := Rescheduled(Schedule(0, 0), 12, 10);
            !Skips(s, 7, 10) && !WellTimed(Purchase(7, Rescheduled(s, 7, 10).expiry, 1, false), 10)
  {
    var s := Rescheduled(Schedule(0, 0), 12, 10);
    assert s == Schedule(20, 20);
    assert Rescheduled(s, 7, 10) == s;
    WellTimedIff(7, 20, 1, 10);
  }

  /** A first tip 8 is skipped and leaves no expiry; a switch to tip 5 then buys with it. */
  lemma LowerTipAfterSkipHasNoRange()
    ensures var s := Rescheduled(Schedule(0, 0), 8, 10);
            && Skips(Schedule(0, 0), 8, 10) && s == Schedule(10, 0)
            && !Skips(s, 5, 10) && Rescheduled(s, 5, 10) == s
            && !WellTimed(Purchase(5, s.expiry, 1, false), 10)
  {
    WellTimedIff(5, 0, 1, 10);
  }

  /** The skipped tip 18 keeps the expiry 10 set at tip 3, which suits a switch to tip 7. */
  lemma LowerTipAfterSkipCanBeWellTimed()
    ensures var s := Rescheduled(Rescheduled(Schedule(0, 0), 3, 10), 18, 10);
            && Skips(Rescheduled(Schedule(0, 0), 3, 10), 18, 10) && s == Schedule(20, 10)
            && !Skips(s, 7, 10) && Rescheduled(s, 7, 10) == s
            && WellTimed(Purchase(7, s.expiry, 1, false), 10)
  {
    WellTimedIff(7, 10, 1, 10);
  }
}
