/** Paying a VSP fee (internal/vsp/feepayment.go): the fee and address agreed with the server,
    the fee transaction built from them, and the random delay before the next action.

    `Services` are the answers of the wallet and the server to one call; `Policy` and `Rules`
    are fixed.  Amounts are in atoms. */
module FeePayment {
  import opened UniformPrng

  type Script = string

  datatype TxOut = TxOut(value: int, script: Script)

  /** A transaction under construction; callers and payments may share one. */
  class MsgTx {
    var ins: seq<int>        // input values
    var outs: seq<TxOut>

    constructor (ins: seq<int>)
      ensures this.ins == ins && outs == []
    {
      this.ins, outs := ins, [];
    }
  }

  /** The size-based fee of a transaction with this many inputs and one output of the given
      script plus change, and the limit below which an amount is dust. */
  datatype Rules = Rules(sizeFee: (nat, Script) -> nat, dustLimit: int)

  datatype Services = Services(
    feeAddress: Option<(int, Script)>,   // the server's answer, absent on any error
    reserved: Option<seq<int>>,          // values of outputs reserved to pay the fee
    changeScript: Option<Script>,
    swap: bool,                          // the coin flip
    signed: bool, recorded: bool)

  datatype Outcome = Done | Failed | Panicked

  function Sum(values: seq<int>): int {
    if values == [] then 0 else Sum(values[..|values| - 1]) + values[|values| - 1]
  }

  function Total(outs: seq<TxOut>): int {
    if outs == [] then 0 else Total(outs[..|outs| - 1]) + outs[|outs| - 1].value
  }

  lemma TotalOfTwo(a: TxOut, b: TxOut)
    ensures Total([a]) == a.value && Total([a, b]) == a.value + b.value
  {
    assert [a][..0] == [];
    assert [a, b][..1] == [a];
  }

  function SizeFee(rules: Rules, inputs: nat, feeScript: Script): nat { rules.sizeFee(inputs, feeScript) }

  /** What a finished fee transaction looks like: it pays the fee once, and returns the rest as
      change, in either position, unless that is dust. */
  predicate PaysFee(ins: seq<int>, outs: seq<TxOut>, fee: int, feeScript: Script, changeScript: Script, rules: Rules) {
    var change := Sum(ins) - fee - SizeFee(rules, |ins|, feeScript);
    var pay, back := TxOut(fee, feeScript), TxOut(change, changeScript);
    && fee <= Sum(ins)
    && (if change < rules.dustLimit then outs == [pay] else outs == [pay, back] || outs == [back, pay])
  }

  /** What the outputs pay to one script altogether. */
  function PaidTo(outs: seq<TxOut>, script: Script): int {
    if outs == [] then 0
    else
      var last := outs[|outs| - 1];
      PaidTo(outs[..|outs| - 1], script) + (if last.script == script then last.value else 0)
  }

  /** The fee script receives exactly the fee and every other output goes back to the change
      script: together the rest of the inputs, and nothing exactly when that is dust. */
  predicate SplitsInputs(ins: seq<int>, outs: seq<TxOut>, fee: int, feeScript: Script, changeScript: Script,
                         rules: Rules) {
    var rest := Sum(ins) - fee - SizeFee(rules, |ins|, feeScript);
    && PaidTo(outs, feeScript) == fee
    && (forall o :: o in outs ==> o.script == feeScript || o.script == changeScript)
    && ((exists o :: o in outs && o.script == changeScript) <==> rest >= rules.dustLimit)
    && PaidTo(outs, changeScript) == if rest >= rules.dustLimit then rest else 0
  }

  lemma PaidToTwo(a: TxOut, b: TxOut, script: Script)
    ensures PaidTo([a], script) == if a.script == script then a.value else 0
    ensures PaidTo([a, b], script) == PaidTo([a], script) + PaidTo([b], script)
  {
    assert [a][..0] == [] && [b][..0] == [];
    assert [a, b][..1] == [a];
  }

  lemma FeeTxSplitsInputs(ins: seq<int>, outs: seq<TxOut>, fee: int, feeScript: Script, changeScript: Script,
                          rules: Rules)
    requires PaysFee(ins, outs, fee, feeScript, changeScript, rules) && feeScript != changeScript
    ensures SplitsInputs(ins, outs, fee, feeScript, changeScript, rules)
  {
    var pay := TxOut(fee, feeScript);
    var back := TxOut(Sum(ins) - fee - SizeFee(rules, |ins|, feeScript), changeScript);
    PaidToTwo(pay, back, feeScript);
    PaidToTwo(back, pay, feeScript);
    PaidToTwo(pay, back, changeScript);
    PaidToTwo(back, pay, changeScript);
    assert back in [pay, back] && back in [back, pay];
  }

  /** Consequences for whoever reads the transaction: outputs are covered by inputs; with
      change the miner fee is exactly the size-based fee; without, it is below that fee plus
      the dust limit, and it reaches the size-based fee exactly when the inputs do. */
  lemma FeesAreBounded(ins: seq<int>, outs: seq<TxOut>, fee: int, feeScript: Script, changeScript: Script, rules: Rules)
    requires PaysFee(ins, outs, fee, feeScript, changeScript, rules) && rules.dustLimit > 0
    ensures var minerFee, size := Sum(ins) - Total(outs), SizeFee(rules, |ins|, feeScript);
            && 0 <= minerFee
            && TxOut(fee, feeScript) in outs
            && (|outs| == 2 ==> minerFee == size)
            && (|outs| != 2 ==> |outs| == 1 && minerFee < size + rules.dustLimit)
            && (minerFee >= size <==> Sum(ins) >= fee + size)
  {
    var pay := TxOut(fee, feeScript);
    var back := TxOut(Sum(ins) - fee - SizeFee(rules, |ins|, feeScript), changeScript);
    TotalOfTwo(pay, back);
    TotalOfTwo(back, pay);
    assert pay in [pay] && pay in [pay, back] && [back, pay][1] == pay;
  }

  /** The inputs used: those there are, or else reserved ones. */
  function Settled(ins: seq<int>, s: Services): Option<seq<int>> { if ins != [] then Some(ins) else s.reserved }

  class Payment {
    const maxFee: int
    var fee: int                 // 0 before the server is asked, -1 for a restored payment
    var feeAddr: Option<Script>
    var feeTx: MsgTx?
    var recorded: bool           // the fee hash of feeTx is set

    /** A fee is agreed together with its address; until then it is 0 or -1. */
    ghost predicate Valid()
      reads this
    {
      if feeAddr.Some? then fee <= maxFee else fee == 0 || fee == -1
    }

    constructor (maxFee: int)
      ensures Valid() && this.maxFee == maxFee && fee == 0 && feeAddr.None? && feeTx == null && !recorded
    {
      this.maxFee, fee, feeAddr, feeTx, recorded := maxFee, 0, None, null, false;
    }

    /** A payment whose fee transaction the wallet has already; unless it was paid or confirmed,
        its fee is set to -1. */
    constructor Restored(maxFee: int, tx: MsgTx, paidConfirmed: bool)
      ensures Valid() && this.maxFee == maxFee && feeAddr.None? && feeTx == tx && recorded
      ensures fee == if paidConfirmed then 0 else -1
    {
      this.maxFee, feeAddr, feeTx, recorded := maxFee, None, tx, true;
      fee := if paidConfirmed then 0 else -1;
    }

    /** Gives up a fee transaction that the server refuses or that expired. */
    method DropFeeTx()
      requires Valid()
      modifies this`feeTx, this`recorded
      ensures Valid() && feeTx == null && !recorded
    {
      feeTx, recorded := null, false;
    }

    /** The payment was restored with fee -1 and has no address to pay it to. */
    predicate Lost()
      reads this
    {
      fee == -1 && feeAddr.None?
    }

    /** A fee above the policy's maximum is refused and leaves the payment as it was. */
    method ReceiveFeeAddress(s: Services) returns (ok: bool)
      modifies this`fee, this`feeAddr
      ensures ok <==> s.feeAddress.Some? && s.feeAddress.value.0 <= maxFee
      ensures ok ==> fee == s.feeAddress.value.0 && feeAddr == Some(s.feeAddress.value.1)
      ensures !ok ==> fee == old(fee) && feeAddr == old(feeAddr)
    {
      if s.feeAddress.None? || s.feeAddress.value.0 > maxFee {
        return false;
      }
      fee, feeAddr := s.feeAddress.value.0, Some(s.feeAddress.value.1);
      ok := true;
    }

    method InputValue(ins: seq<int>) returns (input: int)
      ensures input == Sum(ins)
    {
      input := 0;
      for i := 0 to |ins|
        invariant input == Sum(ins[..i])
      {
        assert ins[..i + 1][..i] == ins[..i];
        input := input + ins[i];
      }
      assert ins[..|ins|] == ins;
    }

    /** Writes the outputs of tx, whose inputs are settled. */
    method BuildOutputs(tx: MsgTx, s: Services, rules: Rules) returns (r: Outcome)
      modifies tx`outs
      ensures r.Done? ==> && feeAddr.Some? && s.changeScript.Some?
                          && PaysFee(tx.ins, tx.outs, fee, feeAddr.value, s.changeScript.value, rules)
      ensures !r.Done? ==> tx.outs == old(tx.outs)
      ensures r.Done? <==> fee <= Sum(tx.ins) && feeAddr.Some? && s.changeScript.Some?
      ensures r.Panicked? <==> fee <= Sum(tx.ins) && feeAddr.None?
    {
      var input := InputValue(tx.ins);
      if input < fee {
        return Failed;
      }
      if feeAddr.None? {
        return Panicked;  // the address is used without a check
      }
      if s.changeScript.None? {
        return Failed;
      }
      tx.outs := [TxOut(fee, feeAddr.value)];
      var change := input - fee - SizeFee(rules, |tx.ins|, feeAddr.value);
      if change >= rules.dustLimit {
        tx.outs := tx.outs + [TxOut(change, s.changeScript.value)];
        if s.swap {
          tx.outs := [tx.outs[1], tx.outs[0]];
        }
      }
      r := Done;
    }

    /** Agrees on the fee if that is still open, reserves inputs if there are none, and builds,
        signs and records the transaction. */
    method CompleteFeeTx(tx: MsgTx, s: Services, rules: Rules) returns (r: Outcome)
      requires Valid()
      modifies this, tx
      ensures Valid()
      ensures r.Panicked? <==> old(Lost()) && Settled(old(tx.ins), s).Some? && Sum(Settled(old(tx.ins), s).value) >= -1
      ensures old(Lost()) ==> !r.Done?
      ensures r.Done? ==> && feeTx == tx && recorded && feeAddr.Some? && s.changeScript.Some?
                          && PaysFee(tx.ins, tx.outs, fee, feeAddr.value, s.changeScript.value, rules)
                          && fee <= maxFee
      ensures !r.Done? ==> feeTx == old(feeTx) && recorded == old(recorded)
      ensures old(fee > 0 && feeAddr.Some? && tx.ins != [] && fee <= Sum(tx.ins)) && s.changeScript.Some? ==>
                !r.Panicked? && (r.Done? <==> s.signed && s.recorded) && tx.outs != []
    {
      if fee == 0 {
        var ok := ReceiveFeeAddress(s);
        if !ok {
          return Failed;
        }
      }
      if tx.ins == [] {
        if s.reserved.None? {
          return Failed;
        }
        tx.ins := s.reserved.value;
      }
      r := BuildOutputs(tx, s, rules);
      if !r.Done? {
        return;
      }
      if !s.signed || !s.recorded {
        return Failed;
      }
      feeTx, recorded := tx, true;
    }

    /** The inputs a call of MakeFeeTx begins with. */
    ghost function InputsGiven(given: MsgTx?): seq<int>
      reads this, given, feeTx
    {
      if feeTx != null then feeTx.ins else if given != null then given.ins else []
    }

    ghost predicate HasOutputs()
      reads this, feeTx
    {
      feeTx != null && feeTx.outs != []
    }

    /** On success the payment holds a fee transaction: the one it had, untouched, if that had
        outputs already, and otherwise a new one that pays the fee agreed. */
    method MakeFeeTx(given: MsgTx?, s: Services, rules: Rules) returns (r: Outcome)
      requires Valid()
      modifies this, given, feeTx
      ensures Valid()
      ensures old(HasOutputs()) ==>
                && r.Done? && feeTx == old(feeTx) && recorded == old(recorded) && fee == old(fee)
                && feeTx.ins == old(feeTx.ins) && feeTx.outs == old(feeTx.outs)
                && (given != null ==> given.ins == feeTx.ins && given.outs == feeTx.outs)
      ensures r.Done? && !old(HasOutputs()) ==>
                && feeTx != null && recorded && feeAddr.Some? && s.changeScript.Some?
                && (given != null ==> feeTx == given)
                && PaysFee(feeTx.ins, feeTx.outs, fee, feeAddr.value, s.changeScript.value, rules)
                && (feeAddr != s.changeScript ==>
                      SplitsInputs(feeTx.ins, feeTx.outs, fee, feeAddr.value, s.changeScript.value, rules))
                && fee <= maxFee
      ensures r.Panicked? <==>
                && old(Lost()) && !old(HasOutputs())
                && var ins := Settled(old(InputsGiven(given)), s); ins.Some? && Sum(ins.value) >= -1
      ensures old(Lost()) && !old(HasOutputs()) ==> !r.Done?
      ensures r.Done? ==> (recorded <==> old(recorded) || !old(HasOutputs()))
      ensures !r.Done? ==> feeTx == old(feeTx) && recorded == old(recorded)
      ensures && given != null && s.changeScript.Some? && !s.signed
              && old(feeTx == given && feeTx.outs == [] && given.ins != [])
              && old(fee > 0 && feeAddr.Some? && fee <= Sum(given.ins)) ==>
                r.Failed? && given.outs != []
    {
      var tx := given;
      if feeTx != null {
        if given != null {
          given.ins, given.outs := feeTx.ins, feeTx.outs;
        } else {
          tx := feeTx;
        }
        if feeTx.outs != [] {
          return Done;
        }
      }
      if tx == null {
        tx := new MsgTx([]);
      }
      r := CompleteFeeTx(tx, s, rules);
      if r.Done? && feeAddr != s.changeScript {
        FeeTxSplitsInputs(tx.ins, tx.outs, fee, feeAddr.value, s.changeScript.value, rules);
      }
    }

    /** A restored payment that loses its fee transaction panics when it makes a new one. */
    method RestoredPaymentPanics(s: Services, rules: Rules) returns (r: Outcome)
      requires Valid() && Lost() && s.reserved.Some? && Sum(s.reserved.value) >= 0
      modifies this
      ensures r.Panicked?
    {
      DropFeeTx();
      r := MakeFeeTx(null, s, rules);
    }

    /** Process registers the caller's transaction before it is built.  When signing fails the
        outputs stay, and the next call takes them for a finished transaction: it succeeds
        although nothing was signed or recorded. */
    method UnsignedTransactionPassesForFinished(tx: MsgTx, s: Services, again: Services, rules: Rules)
      returns (first: Outcome, second: Outcome)
      requires Valid() && feeTx == null && !recorded && fee > 0 && feeAddr.Some?
      requires tx.ins != [] && fee <= Sum(tx.ins) && tx.outs == [] && s.changeScript.Some? && !s.signed
      modifies this, tx
      ensures first.Failed? && second.Done? && !recorded && feeTx == tx
    {
      feeTx := tx;
      first := MakeFeeTx(tx, s, rules);
      second := MakeFeeTx(tx, again, rules);
    }
  }

  // ----- the delay before the next action -----

  const HOUR: nat := 3_600_000_000_000
  const LIVE_JITTER: nat := 300_000_000_000
  const UNMINED_JITTER: nat := 120_000_000_000

  /** The heights a payment records, from the height of the block that mined the ticket; an
      unmined ticket has none. */
  function TicketLive(mined: int, maturity: nat): int { if mined >= 2 then mined + maturity + 1 else 0 }

  function TicketExpires(mined: int, maturity: nat, expiry: nat): int {
    if mined >= 2 then TicketLive(mined, maturity) + expiry else 0
  }

  /** The bound of the random delay, in nanoseconds. */
  function Jitter(tip: nat, live: int, expires: int, timePerBlock: nat): int {
    if tip < live then
      var jitter := timePerBlock * (expires - tip);
      if jitter > HOUR then HOUR else jitter
    else if tip < expires then LIVE_JITTER
    else UNMINED_JITTER
  }

  /** The bound if the delay were to end when the ticket is live. */
  function JitterUntilLive(tip: nat, live: int, timePerBlock: nat): int {
    var jitter := timePerBlock * (live - tip);
    if jitter > HOUR then HOUR else jitter
  }

  /** The bound is taken from the blocks until the ticket expires.  It is the one until the
      ticket is live if and only if both heights are equal or the hour caps both. */
  lemma JitterIsUntilLiveIff(tip: nat, live: int, expires: int, timePerBlock: nat)
    requires tip < live <= expires && timePerBlock > 0
    ensures Jitter(tip, live, expires, timePerBlock) == JitterUntilLive(tip, live, timePerBlock)
            <==> expires == live || timePerBlock * (live - tip) >= HOUR
    ensures Jitter(tip, live, expires, timePerBlock) >= JitterUntilLive(tip, live, timePerBlock)
  {
    var more := timePerBlock * (expires - live);
    assert timePerBlock * (expires - tip) == timePerBlock * (live - tip) + more;
    if expires > live {
      MulAtLeast(expires - live, timePerBlock);
      assert more > 0;
    }
  }

  lemma JitterIsPositive(tip: nat, mined: int, maturity: nat, expiry: nat, timePerBlock: nat)
    requires timePerBlock > 0
    ensures 0 < Jitter(tip, TicketLive(mined, maturity), TicketExpires(mined, maturity, expiry), timePerBlock) <= HOUR
  {
    if tip < TicketLive(mined, maturity) {
      MulAtLeast(TicketExpires(mined, maturity, expiry) - tip, timePerBlock);
    }
  }

  /** In every reachable payment the generator is asked with a positive bound, so it does not
      panic on the bound and the delay lies in [0, one hour). */
  method NextDelay(prng: Source, tip: nat, mined: int, maturity: nat, expiry: nat, timePerBlock: nat)
    returns (delay: Option<nat>)
    requires prng.Valid() && timePerBlock > 0
    modifies prng, prng.buf
    ensures delay.Some? ==> delay.value < HOUR
    // Up to the expiry while a mined ticket is immature, five minutes while it is live, and two
    // minutes when it is unmined or expired.
    ensures delay.Some? && mined >= 2 && tip <= mined + maturity ==>
              delay.value < timePerBlock * (mined + maturity + 1 + expiry - tip)
    ensures delay.Some? && mined >= 2 && mined + maturity < tip <= mined + maturity + expiry ==>
              delay.value < 300_000_000_000
    ensures delay.Some? && (mined < 2 || mined + maturity + expiry < tip) ==> delay.value < 120_000_000_000
    ensures delay.None? ==> prng.pos + 8 > |prng.keystream|  // only the keystream can run out
  {
    JitterIsPositive(tip, mined, maturity, expiry, timePerBlock);
    HourFits();
    ghost var draws;
    var live, expires := TicketLive(mined, maturity), TicketExpires(mined, maturity, expiry);
    delay, draws := prng.Int63n(Jitter(tip, live, expires, timePerBlock));
  }

  lemma HourFits()
    ensures HOUR < Pow2(63)
  {
    assert Pow2(16) == 65536;
    Pow2Adds(16, 16);
    Pow2Adds(16, 32);
    Pow2Adds(15, 48);
    assert Pow2(15) == 32768;
  }
}
