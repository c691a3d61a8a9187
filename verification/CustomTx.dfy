/** Building a transaction from chosen inputs (utxo.go).  Address decoding, the serialized size
    and the relay rules come from libraries and are parameters. */
module CustomTx {
  type Address = string
  type Script = string

  datatype Option<+T> = None | Some(value: T)
  {
    function GetOr(default: T): T { if Some? then value else default }
  }

  datatype Destination = Destination(address: Address, atoms: int, sendMax: bool)

  datatype TxOut = TxOut(value: int, script: Script)

  const MAX_ATOMS := 21_000_000 * 100_000_000
  const MAX_SCRIPT_SIZE := 2048

  /** `script` decodes an address; `sizeFee` is the fee for a number of inputs, the outputs and
      a change script of some size; an amount below `dustLimit` of that size is dust. */
  datatype Rules = Rules(script: Address -> Option<Script>, sizeFee: (nat, seq<TxOut>, nat) -> nat,
                         dustLimit: nat -> nat)

  datatype Result =
    | Built(outs: seq<TxOut>, totalInput: int)
    | BadDestination | ChangeNotAllowed | NoInternalAddress | BadChangeAddress | InsufficientBalance | ScriptTooLong

  // ----- the requested outputs -----

  predicate Payable(d: Destination, rules: Rules) {
    d.sendMax || (0 < d.atoms <= MAX_ATOMS && rules.script(d.address).Some?)
  }

  /** The address noted for the maximum amount among the first n destinations; the empty
      address stands for none. */
  function Recipient(dests: seq<Destination>, n: nat): Address
    requires n <= |dests|
  {
    if n == 0 then "" else if dests[n - 1].sendMax then dests[n - 1].address else Recipient(dests, n - 1)
  }

  predicate Acceptable(dests: seq<Destination>, i: nat, rules: Rules)
    requires i < |dests|
  {
    Payable(dests[i], rules) && (dests[i].sendMax ==> Recipient(dests, i) == "")
  }

  ghost predicate AcceptableUpTo(dests: seq<Destination>, n: nat, rules: Rules)
    requires n <= |dests|
  {
    forall i {:trigger Acceptable(dests, i, rules)} :: 0 <= i < n ==> Acceptable(dests, i, rules)
  }

  ghost predicate AllAcceptable(dests: seq<Destination>, rules: Rules) {
    AcceptableUpTo(dests, |dests|, rules)
  }

  /** One output per destination of a given amount, in order. */
  function Requested(dests: seq<Destination>, n: nat, rules: Rules): seq<TxOut>
    requires n <= |dests| && AcceptableUpTo(dests, n, rules)
  {
    if n == 0 then []
    else
      var d := dests[n - 1];
      assert Acceptable(dests, n - 1, rules);
      Requested(dests, n - 1, rules) + (if d.sendMax then [] else [TxOut(d.atoms, rules.script(d.address).value)])
  }

  function Total(outs: seq<TxOut>): int {
    if outs == [] then 0 else Total(outs[..|outs| - 1]) + outs[|outs| - 1].value
  }

  function Sum(values: seq<int>): int {
    if values == [] then 0 else Sum(values[..|values| - 1]) + values[|values| - 1]
  }

  method ParseOutputs(dests: seq<Destination>, rules: Rules)
    returns (ok: bool, outs: seq<TxOut>, total: int, recipient: Address)
    ensures ok <==> AllAcceptable(dests, rules)
    ensures ok ==> && outs == Requested(dests, |dests|, rules) && total == Total(outs)
                   && recipient == Recipient(dests, |dests|)
  {
    outs, total, recipient := [], 0, "";
    for i := 0 to |dests|
      invariant AcceptableUpTo(dests, i, rules)
      invariant outs == Requested(dests, i, rules) && total == Total(outs) && recipient == Recipient(dests, i)
    {
      var d := dests[i];
      assert Acceptable(dests, i, rules) <==> Payable(d, rules) && (d.sendMax ==> recipient == "");
      if !d.sendMax && !(0 < d.atoms <= MAX_ATOMS) {
        return false, [], 0, "";
      }
      if d.sendMax && recipient != "" {
        return false, [], 0, "";
      }
      if d.sendMax {
        recipient := d.address;
      } else {
        if rules.script(d.address).None? {
          return false, [], 0, "";
        }
        var out := TxOut(d.atoms, rules.script(d.address).value);
        assert (outs + [out])[..|outs|] == outs;
        total := total + out.value;
        outs := outs + [out];
      }
    }
    ok := true;
  }

  // ----- the transaction -----

  /** Where the remainder goes: the maximum-amount recipient, else the given change
      destination, else a new internal address. */
  function ChangeAddress(recipient: Address, change: Option<Destination>, internalAddress: Address): Address {
    if recipient != "" then recipient else if change.Some? then change.value.address else internalAddress
  }

  function RequiredFee(rules: Rules, inputs: nat, sends: seq<TxOut>, changeScript: Script): nat {
    rules.sizeFee(inputs, sends, |changeScript|)
  }

  function DustLimit(rules: Rules, changeScript: Script): nat { rules.dustLimit(|changeScript|) }

  /** The outputs of a transaction that keeps all sends and adds the remainder, if it is not
      dust, as one more output in any position. */
  ghost predicate KeepsSends(outs: seq<TxOut>, sends: seq<TxOut>, remainder: int, changeScript: Script, rules: Rules) {
    if remainder != 0 && remainder >= DustLimit(rules, changeScript)
    then multiset(outs) == multiset(sends) + multiset{TxOut(remainder, changeScript)}
    else outs == sends
  }

  /** RandomizeOutputPosition: the last output changes places with any output. */
  method RandomizeLast(outs: seq<TxOut>) returns (shuffled: seq<TxOut>)
    requires outs != []
    ensures multiset(shuffled) == multiset(outs) && |shuffled| == |outs|
  {
    var last := |outs| - 1;
    var k :| 0 <= k <= last;
    shuffled := outs[k := outs[last]][last := outs[k]];
    assert outs == outs[..last] + [outs[last]];
    SwapKeepsMultiset(outs, k, last);
  }

  lemma SwapKeepsMultiset(s: seq<TxOut>, i: nat, j: nat)
    requires i <= j < |s|
    ensures multiset(s[i := s[j]][j := s[i]]) == multiset(s)
  {
    var t := s[i := s[j]][j := s[i]];
    if i == j {
      assert t == s;
    } else {
      var a, b, c := s[..i], s[i + 1..j], s[j + 1..];
      assert s == a + ([s[i]] + (b + ([s[j]] + c)));
      assert t == a + ([s[j]] + (b + ([s[i]] + c)));
      ExchangeKeepsMultiset(a, s[i], b, s[j], c);
    }
  }

  lemma ExchangeKeepsMultiset(a: seq<TxOut>, x: TxOut, b: seq<TxOut>, y: TxOut, c: seq<TxOut>)
    ensures multiset(a + ([x] + (b + ([y] + c)))) == multiset(a + ([y] + (b + ([x] + c))))
  {
    var rest := multiset(a) + multiset(b) + multiset(c);
    assert multiset(a + ([x] + (b + ([y] + c)))) == rest + multiset{x} + multiset{y};
    assert multiset(a + ([y] + (b + ([x] + c)))) == rest + multiset{y} + multiset{x};
  }

  /** How sends are funded: failure is reported exactly when the inputs do not cover them and
      the fee, and a transaction keeps all of them. */
  ghost predicate Funded(r: Result, ins: seq<int>, sends: seq<TxOut>, changeScript: Script, rules: Rules) {
    var remainder := Sum(ins) - Total(sends) - RequiredFee(rules, |ins|, sends, changeScript);
    && (r.InsufficientBalance? <==> remainder < 0)
    && (r.ScriptTooLong? <==>
          0 < remainder && DustLimit(rules, changeScript) <= remainder && |changeScript| > MAX_SCRIPT_SIZE)
    && (r.Built? <==> !r.InsufficientBalance? && !r.ScriptTooLong?)
    && (r.Built? ==> r.totalInput == Sum(ins) && KeepsSends(r.outs, sends, remainder, changeScript, rules))
  }

  /** Adds up the inputs and settles the remainder after sends and fee. */
  method Fund(ins: seq<int>, sends: seq<TxOut>, total: int, changeScript: Script, rules: Rules) returns (r: Result)
    requires total == Total(sends)
    ensures Funded(r, ins, sends, changeScript, rules)
    ensures r.Built? || r.InsufficientBalance? || r.ScriptTooLong?
  {
    var totalInput := 0;
    for i := 0 to |ins|
      invariant totalInput == Sum(ins[..i])
    {
      assert ins[..i + 1][..i] == ins[..i];
      totalInput := totalInput + ins[i];
    }
    assert ins[..|ins|] == ins;
    var remainder := totalInput - total - RequiredFee(rules, |ins|, sends, changeScript);
    if remainder < 0 {
      return InsufficientBalance;
    }
    var outs := sends;
    if remainder != 0 && remainder >= DustLimit(rules, changeScript) {
      if |changeScript| > MAX_SCRIPT_SIZE {
        return ScriptTooLong;
      }
      outs := RandomizeLast(outs + [TxOut(remainder, changeScript)]);
    }
    r := Built(outs, totalInput);
  }

  /** How a request ends whose remainder is to go to an address: an error if that does not
      decode, and otherwise the requested outputs plus at most one to that address. */
  ghost predicate RemainderTo(r: Result, ins: seq<int>, sends: seq<TxOut>, address: Address, rules: Rules) {
    && (r.BadChangeAddress? <==> rules.script(address).None?)
    && (rules.script(address).Some? ==>
          var script := rules.script(address).value;
          var rest := Sum(ins) - Total(sends) - rules.sizeFee(|ins|, sends, |script|);
          var pays := rest > 0 && rest >= rules.dustLimit(|script|);
          && (r.InsufficientBalance? <==> rest < 0)
          && (r.ScriptTooLong? <==> pays && |script| > MAX_SCRIPT_SIZE)
          && (r.Built? <==> rest >= 0 && !r.ScriptTooLong?)
          && (r.Built? && pays ==> multiset(r.outs) == multiset(sends) + multiset{TxOut(rest, script)})
          && (r.Built? && !pays ==> r.outs == sends)
          && (r.Built? ==> r.totalInput == Sum(ins)))
  }

  /** Some destination takes the maximum amount and names an address. */
  predicate TakesMax(dests: seq<Destination>, i: int) {
    0 <= i < |dests| && dests[i].sendMax && dests[i].address != ""
  }

  lemma {:induction false} RecipientIs(dests: seq<Destination>, n: nat, rules: Rules)
    requires n <= |dests| && AcceptableUpTo(dests, n, rules)
    ensures forall i :: TakesMax(dests, i) && i < n ==> Recipient(dests, n) == dests[i].address
    ensures Recipient(dests, n) != "" ==> exists i :: TakesMax(dests, i) && i < n
  {
    if n > 0 {
      RecipientIs(dests, n - 1, rules);
      assert Acceptable(dests, n - 1, rules);
      if dests[n - 1].sendMax && dests[n - 1].address != "" {
        assert TakesMax(dests, n - 1);
      }
    }
  }

  /** A request is accepted exactly when every amount is in range and every address to be paid an
      amount decodes, and no maximum amount comes after one that names an address. */
  lemma AcceptedIff(dests: seq<Destination>, rules: Rules)
    ensures AllAcceptable(dests, rules) <==>
              && (forall i :: 0 <= i < |dests| && !dests[i].sendMax ==>
                    0 < dests[i].atoms <= 2_100_000_000_000_000 && rules.script(dests[i].address).Some?)
              && (forall i, j :: TakesMax(dests, i) && i < j < |dests| ==> !dests[j].sendMax)
  {
    forall n: nat | n <= |dests|
      ensures Recipient(dests, n) == "" ==> forall i :: TakesMax(dests, i) && i < n ==>
                exists j :: i < j < n && dests[j].sendMax
      ensures Recipient(dests, n) != "" ==> exists i :: TakesMax(dests, i) && i < n
    {
      RecipientMeans(dests, n);
    }
    if AllAcceptable(dests, rules) {
      forall i, j | TakesMax(dests, i) && i < j < |dests| ensures !dests[j].sendMax {
        assert Acceptable(dests, j, rules);
        RecipientIs(dests, j, rules);
      }
      forall i | 0 <= i < |dests| && !dests[i].sendMax ensures Payable(dests[i], rules) {
        assert Acceptable(dests, i, rules);
      }
    }
  }

  lemma {:induction false} RecipientMeans(dests: seq<Destination>, n: nat)
    requires n <= |dests|
    ensures Recipient(dests, n) == "" ==> forall i :: TakesMax(dests, i) && i < n ==>
              exists j :: i < j < n && dests[j].sendMax
    ensures Recipient(dests, n) != "" ==> exists i :: TakesMax(dests, i) && i < n
  {
    if n > 0 {
      RecipientMeans(dests, n - 1);
      if dests[n - 1].sendMax && dests[n - 1].address != "" {
        assert TakesMax(dests, n - 1);
      }
    }
  }

  /** The requested outputs are those of the destinations with a given amount, in order. */
  lemma {:induction false} RequestedExactly(dests: seq<Destination>, n: nat, rules: Rules) returns (at: seq<nat>)
    requires n <= |dests| && AcceptableUpTo(dests, n, rules)
    ensures |at| == |Requested(dests, n, rules)|
    ensures forall j :: 0 <= j < |at| ==>
              && at[j] < n && rules.script(dests[at[j]].address).Some?
              && Requested(dests, n, rules)[j] == TxOut(dests[at[j]].atoms, rules.script(dests[at[j]].address).value)
    ensures forall j, k :: 0 <= j < k < |at| ==> at[j] < at[k]
    ensures forall i :: 0 <= i < n ==> (i in at <==> !dests[i].sendMax)
  {
    if n == 0 {
      at := [];
    } else {
      at := RequestedExactly(dests, n - 1, rules);
      assert Acceptable(dests, n - 1, rules);
      if !dests[n - 1].sendMax {
        at := at + [n - 1];
      }
    }
  }

  /** What the steps of the call lead to, from the recipient noted and the change address. */
  ghost predicate Answers(r: Result, ins: seq<int>, dests: seq<Destination>, change: Option<Destination>,
                          internalAddress: Option<Address>, rules: Rules)
  {
    && (r.BadDestination? <==> !AllAcceptable(dests, rules))
    && (AllAcceptable(dests, rules) ==>
          var recipient := Recipient(dests, |dests|);
          && (r.ChangeNotAllowed? <==> recipient != "" && change.Some?)
          && (r.NoInternalAddress? <==> recipient == "" && change.None? && internalAddress.None?)
          && (!r.ChangeNotAllowed? && !r.NoInternalAddress? ==>
                RemainderTo(r, ins, Requested(dests, |dests|, rules),
                            ChangeAddress(recipient, change, internalAddress.GetOr("")), rules)))
  }

  lemma FundedIsRemainderTo(r: Result, ins: seq<int>, sends: seq<TxOut>, address: Address, rules: Rules)
    requires rules.script(address).Some? && Funded(r, ins, sends, rules.script(address).value, rules)
    requires r.Built? || r.InsufficientBalance? || r.ScriptTooLong?
    ensures RemainderTo(r, ins, sends, address, rules)
  {
  }

  /** Every way the request ends: refused destinations, a change destination beside a
      maximum-amount recipient, no usable change address, too little input, or a transaction
      that keeps all sends. */
  method BuildTx(ins: seq<int>, dests: seq<Destination>, change: Option<Destination>,
                 internalAddress: Option<Address>, rules: Rules)
    returns (r: Result)
    requires internalAddress.Some? ==> internalAddress.value != ""
    ensures Answers(r, ins, dests, change, internalAddress, rules)
  {
    var ok, sends, total, recipient := ParseOutputs(dests, rules);
    if !ok {
      return BadDestination;
    }
    if recipient != "" && change.Some? {
      return ChangeNotAllowed;
    }
    if recipient == "" && change.None? {
      if internalAddress.None? {
        return NoInternalAddress;
      }
      recipient := internalAddress.value;
    }
    var address := if recipient != "" then recipient else change.value.address;
    var script := rules.script(address);
    if script.None? {
      return BadChangeAddress;
    }
    r := Fund(ins, sends, total, script.value, rules);
    FundedIsRemainderTo(r, ins, sends, address, rules);
  }

  /** Who receives the remainder, on the request itself: the destination of the maximum amount,
      else the change destination, else the internal address. */
  ghost predicate PaysRemainder(r: Result, ins: seq<int>, dests: seq<Destination>, change: Option<Destination>,
                                internalAddress: Option<Address>, rules: Rules)
    requires AllAcceptable(dests, rules)
  {
    var sends := Requested(dests, |dests|, rules);
    && (r.ChangeNotAllowed? <==> change.Some? && exists i :: TakesMax(dests, i))
    && (r.NoInternalAddress? <==> change.None? && internalAddress.None? && !exists i :: TakesMax(dests, i))
    && (change.None? ==> forall i :: TakesMax(dests, i) ==> RemainderTo(r, ins, sends, dests[i].address, rules))
    && ((exists i :: TakesMax(dests, i)) ||
        ((change.Some? ==> RemainderTo(r, ins, sends, change.value.address, rules)) &&
         (change.None? && internalAddress.Some? ==> RemainderTo(r, ins, sends, internalAddress.value, rules))))
  }

  lemma AnswerPaysRemainder(r: Result, ins: seq<int>, dests: seq<Destination>, change: Option<Destination>,
                            internalAddress: Option<Address>, rules: Rules)
    requires Answers(r, ins, dests, change, internalAddress, rules) && AllAcceptable(dests, rules)
    ensures PaysRemainder(r, ins, dests, change, internalAddress, rules)
  {
    RecipientIs(dests, |dests|, rules);
    var recipient := Recipient(dests, |dests|);
    forall i | TakesMax(dests, i) ensures recipient == dests[i].address != "" { }
    if recipient != "" {
      var i :| TakesMax(dests, i) && i < |dests|;
      assert TakesMax(dests, i);
    }
  }

  /** newUnsignedTxUTXO, with every outcome stated on the request. */
  method NewUnsignedTx(ins: seq<int>, dests: seq<Destination>, change: Option<Destination>,
                       internalAddress: Option<Address>, rules: Rules)
    returns (r: Result)
    requires internalAddress.Some? ==> internalAddress.value != ""
    ensures r.BadDestination? <==> !AllAcceptable(dests, rules)
    ensures AllAcceptable(dests, rules) ==> PaysRemainder(r, ins, dests, change, internalAddress, rules)
  {
    r := BuildTx(ins, dests, change, internalAddress, rules);
    if AllAcceptable(dests, rules) {
      AnswerPaysRemainder(r, ins, dests, change, internalAddress, rules);
    }
  }

  /** Total and multiset of outputs with one more in the middle. */
  lemma InsertOne(x: seq<TxOut>, e: TxOut, y: seq<TxOut>)
    ensures Total(x + [e] + y) == Total(x + y) + e.value
    ensures multiset(x + [e] + y) == multiset(x + y) + multiset{e}
  {
    TotalAppend(x + [e], y);
    TotalAppend(x, y);
    assert (x + [e])[..|x|] == x;
  }

  lemma CancelOne(m: multiset<TxOut>, n: multiset<TxOut>, x: TxOut)
    requires m + multiset{x} == n + multiset{x}
    ensures m == n
  {
    assert m == (m + multiset{x}) - multiset{x};
    assert n == (n + multiset{x}) - multiset{x};
  }

  lemma {:induction false} TotalIsMultisetSum(a: seq<TxOut>, b: seq<TxOut>)
    requires multiset(a) == multiset(b)
    ensures Total(a) == Total(b)
  {
    if a != [] {
      var n := |a| - 1;
      assert a == a[..n] + [a[n]];
      assert a[n] in multiset(b);
      var k :| 0 <= k < |b| && b[k] == a[n];
      var x, y := b[..k], b[k + 1..];
      assert b == x + [a[n]] + y;
      InsertOne(x, a[n], y);
      CancelOne(multiset(a[..n]), multiset(x + y), a[n]);
      TotalIsMultisetSum(a[..n], x + y);
    } else {
      assert |b| == |multiset(b)| == 0;
    }
  }

  lemma {:induction false} TotalAppend(a: seq<TxOut>, b: seq<TxOut>)
    ensures Total(a + b) == Total(a) + Total(b)
  {
    if b == [] {
      assert a + b == a;
    } else {
      TotalAppend(a, b[..|b| - 1]);
      assert (a + b)[..|a + b| - 1] == a + b[..|b| - 1];
    }
  }

  /** A built transaction balances: inputs are outputs plus a fee that covers the size-based
      fee, and what it pays on top is zero or dust. */
  lemma BuiltTransactionBalances(outs: seq<TxOut>, sends: seq<TxOut>, input: int, required: nat, changeScript: Script,
                                 rules: Rules)
    requires input - Total(sends) - required >= 0
    requires KeepsSends(outs, sends, input - Total(sends) - required, changeScript, rules)
    ensures var fee := input - Total(outs);
            && fee >= required
            && (fee == required || 0 < fee - required < DustLimit(rules, changeScript))
            && multiset(sends) <= multiset(outs) && |outs| <= |sends| + 1
            && (|outs| == |sends| + 1 ==> fee == required)
  {
    var remainder := input - Total(sends) - required;
    if remainder != 0 && remainder >= DustLimit(rules, changeScript) {
      var extra := TxOut(remainder, changeScript);
      assert multiset(outs) == multiset(sends + [extra]);
      TotalIsMultisetSum(outs, sends + [extra]);
      assert (sends + [extra])[..|sends|] == sends;
      assert |outs| == |multiset(outs)| == |multiset(sends + [extra])| == |sends| + 1;
    }
  }

  /** When every maximum-amount destination names an address, more than one of them is always
      refused, and the remainder goes to the one there is. */
  lemma {:induction false} OneRecipient(dests: seq<Destination>, n: nat, rules: Rules)
    requires n <= |dests| && forall i :: 0 <= i < |dests| && dests[i].sendMax ==> dests[i].address != ""
    requires AcceptableUpTo(dests, n, rules)
    ensures Recipient(dests, n) == "" <==> forall i :: 0 <= i < n ==> !dests[i].sendMax
    ensures forall i, j :: 0 <= i < j < n ==> !(dests[i].sendMax && dests[j].sendMax)
  {
    if n > 0 {
      OneRecipient(dests, n - 1, rules);
      assert Acceptable(dests, n - 1, rules);
    }
  }
}
