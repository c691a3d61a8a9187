/** The unbiased generator of internal/uniformprng/prng.go.  Machine words are natural numbers;
    the keystream of the cipher is any byte sequence, and drawing past its end panics. */
module UniformPrng {
  datatype Option<+T> = None | Some(value: T)

  type Byte = x: int | 0 <= x < 256

  // ----- bit operations on unsigned words -----

  function Pow2(k: nat): (p: nat)
    ensures p > 0
  {
    if k == 0 then 1 else 2 * Pow2(k - 1)
  }

  function BitAnd(a: nat, b: nat): nat {
    if a == 0 || b == 0 then 0 else 2 * BitAnd(a / 2, b / 2) + (if a % 2 == 1 && b % 2 == 1 then 1 else 0)
  }

  function BitLen(n: nat): nat { if n == 0 then 0 else 1 + BitLen(n / 2) }

  /** bits.LeadingZeros of an n that fits in width bits. */
  function LeadingZeros(width: nat, n: nat): int { width - BitLen(n) }

  function ShiftRight(a: nat, k: nat): nat { if k == 0 then a else ShiftRight(a / 2, k - 1) }

  /** All ones, shifted right by the leading zeros of n. */
  function Mask(width: nat, n: nat): nat
    requires BitLen(n) <= width
  {
    ShiftRight(Pow2(width) - 1, LeadingZeros(width, n))
  }

  // ----- arithmetic -----

  lemma MulAtLeast(a: nat, q: nat)
    requires a >= 1
    ensures a * q >= q
  {
    assert a * q == q + (a - 1) * q;
    assert (a - 1) * q >= 0;
  }

  lemma DivIs(x: nat, d: nat, q: nat, r: nat)
    requires q > 0 && r < q && x == d * q + r
    ensures x / q == d && x % q == r
  {
    var e := x / q;
    assert x == e * q + x % q;
    assert (d - e) * q == x % q - r && (e - d) * q == r - x % q;
    if d > e {
      MulAtLeast(d - e, q);
    } else if e > d {
      MulAtLeast(e - d, q);
    }
  }

  lemma HalfMod(u: nat, p: nat)
    requires p > 0
    ensures u % (2 * p) == 2 * (u / 2 % p) + u % 2
  {
    var h := u / 2;
    var d, r := h / p, h % p;
    assert h == d * p + r && u == 2 * h + u % 2;
    assert d * (2 * p) == 2 * (d * p);
    DivIs(u, d, 2 * p, 2 * r + u % 2);
  }

  lemma AddMultiple(x: nat, c: nat, p: nat)
    requires p > 0
    ensures (x + c * p) % p == x % p
  {
    var d, r := x / p, x % p;
    assert x == d * p + r;
    assert (d + c) * p == d * p + c * p;
    DivIs(x + c * p, d + c, p, r);
  }

  lemma Regroup(a: nat, p: nat, q: nat)
    ensures a * (p * q) == (a * q) * p
  {
  }

  lemma ModMod(x: nat, p: nat, q: nat)
    requires p > 0 && q > 0
    ensures p * q > 0 && x % (p * q) % p == x % p
  {
    MulAtLeast(p, q);
    var big := p * q;
    var a, b := x / big, x % big;
    assert x == a * big + b;
    Regroup(a, p, q);
    AddMultiple(b, a * q, p);
  }

  lemma Majority(m: nat, n: nat, q: nat)
    requires 2 * n > m && q > 0
    ensures 2 * (n * q) > m * q
  {
    MulAtLeast(2 * n - m, q);
    assert 2 * (n * q) == (2 * n - m) * q + m * q;
  }

  lemma Double(x: nat, y: nat)
    ensures 2 * (x * y) == (2 * x) * y
  {
  }

  lemma {:induction false} Pow2Adds(a: nat, b: nat)
    ensures Pow2(a + b) == Pow2(a) * Pow2(b)
  {
    if a > 0 {
      Pow2Adds(a - 1, b);
      Double(Pow2(a - 1), Pow2(b));
    }
  }

  lemma {:induction false} BitLenBounds(n: nat)
    ensures n < Pow2(BitLen(n))
    ensures n > 0 ==> Pow2(BitLen(n)) <= 2 * n
  {
    if n > 0 {
      BitLenBounds(n / 2);
      assert n == 1 ==> BitLen(n) == 1 && Pow2(1) == 2;
    }
  }

  lemma {:induction false} BitLenFits(n: nat, width: nat)
    requires n < Pow2(width)
    ensures BitLen(n) <= width
  {
    if n > 0 {
      BitLenFits(n / 2, width - 1);
    }
  }

  lemma {:induction false} OnesShifted(width: nat, z: nat)
    requires z <= width
    ensures ShiftRight(Pow2(width) - 1, z) == Pow2(width - z) - 1
  {
    if z > 0 {
      OnesShifted(width - 1, z - 1);
      assert (2 * Pow2(width - 1) - 1) / 2 == Pow2(width - 1) - 1;
    }
  }

  /** The mask is the ones below the bit length of n. */
  lemma MaskIs(width: nat, n: nat)
    requires BitLen(n) <= width
    ensures Mask(width, n) == Pow2(BitLen(n)) - 1
  {
    OnesShifted(width, width - BitLen(n));
  }

  function LowPart(u: nat, k: nat): nat { if k == 0 then 0 else 2 * LowPart(u / 2, k - 1) + u % 2 }

  lemma {:induction false} LowPartIsRemainder(u: nat, k: nat)
    ensures LowPart(u, k) == u % Pow2(k)
  {
    if k > 0 {
      LowPartIsRemainder(u / 2, k - 1);
      HalfMod(u, Pow2(k - 1));
    }
  }

  lemma BitAndOdd(u: nat, p: nat)
    requires u > 0 && p > 0
    ensures BitAnd(u, 2 * p - 1) == 2 * BitAnd(u / 2, p - 1) + u % 2
  {
    assert (2 * p - 1) / 2 == p - 1 && (2 * p - 1) % 2 == 1;
  }

  lemma {:induction false} BitAndIsLowPart(u: nat, k: nat)
    ensures BitAnd(u, Pow2(k) - 1) == LowPart(u, k)
  {
    if k > 0 {
      BitAndIsLowPart(u / 2, k - 1);
      if u > 0 {
        BitAndOdd(u, Pow2(k - 1));
      }
    }
  }

  /** Keeping the low k bits is taking the remainder modulo 2^k. */
  lemma LowBits(u: nat, k: nat)
    ensures BitAnd(u, Pow2(k) - 1) == u % Pow2(k)
  {
    BitAndIsLowPart(u, k);
    LowPartIsRemainder(u, k);
  }

  // ----- uniformity -----

  /** The value a source word yields for bound n, and whether it is accepted. */
  function Masked(width: nat, n: nat, word: nat): nat
    requires n > 0 && BitLen(n - 1) <= width
  {
    BitAnd(word, Mask(width, n - 1))
  }

  predicate Accepts(width: nat, n: nat, word: nat)
    requires n > 0 && BitLen(n - 1) <= width
  {
    Masked(width, n, word) <= n - 1
  }

  /** The bits of a word up to the highest one of n - 1. */
  function LowBitsFor(n: nat, word: nat): nat
    requires n > 0
  {
    word % Pow2(BitLen(n - 1))
  }

  lemma MaskedIsRemainder(width: nat, n: nat, word: nat)
    requires n > 0 && BitLen(n - 1) <= width
    ensures Masked(width, n, word) == LowBitsFor(n, word)
  {
    MaskIs(width, n - 1);
    LowBits(word, BitLen(n - 1));
  }

  ghost function Residues(m: nat, top: nat, v: nat): set<nat>
    requires m > 0
  {
    set w: nat | w < top && w % m == v
  }

  /** The next m words hold exactly one with remainder v. */
  lemma OneMoreResidue(m: nat, base: nat, q: nat, v: nat)
    requires v < m && base == q * m
    ensures Residues(m, base + m, v) == Residues(m, base, v) + {base + v}
  {
    DivIs(base + v, q, m, v);
    forall w: nat | base <= w < base + m && w % m == v ensures w == base + v {
      DivIs(w, q, m, w - base);
    }
  }

  lemma {:induction false} ResiduesCount(m: nat, q: nat, v: nat)
    requires v < m
    ensures |Residues(m, q * m, v)| == q
  {
    if q == 0 {
      assert Residues(m, q * m, v) == {};
    } else {
      ResiduesCount(m, q - 1, v);
      var base := (q - 1) * m;
      assert q * m == base + m;
      OneMoreResidue(m, base, q - 1, v);
    }
  }

  ghost function AcceptedWords(width: nat, n: nat): set<nat>
    requires n > 0 && BitLen(n - 1) <= width
  {
    set w: nat | w < Pow2(width) && Accepts(width, n, w)
  }

  ghost function WordsFor(width: nat, n: nat, v: nat): set<nat>
    requires n > 0 && BitLen(n - 1) <= width
  {
    set w: nat | w < Pow2(width) && Accepts(width, n, w) && Masked(width, n, w) == v
  }

  /** No modulo bias: every value of [0, n) is produced by the same number of source words. */
  lemma EveryValueEquallyLikely(width: nat, n: nat, v: nat)
    requires 0 < n <= Pow2(width) && v < n
    ensures BitLen(n - 1) <= width
    ensures |WordsFor(width, n, v)| == Pow2(width - BitLen(n - 1))
  {
    BitLenFits(n - 1, width);
    var k := BitLen(n - 1);
    BitLenBounds(n - 1);
    Pow2Adds(width - k, k);
    forall w: nat ensures Masked(width, n, w) == w % Pow2(k) {
      MaskedIsRemainder(width, n, w);
    }
    assert WordsFor(width, n, v) == Residues(Pow2(k), Pow2(width), v);
    ResiduesCount(Pow2(k), Pow2(width - k), v);
  }

  ghost function Below(m: nat, top: nat, n: nat): set<nat>
    requires m > 0
  {
    set w: nat | w < top && w % m < n
  }

  lemma {:induction false} BelowCount(m: nat, q: nat, n: nat)
    requires 0 < m && n <= m
    ensures |Below(m, q * m, n)| == n * q
  {
    var top := q * m;
    if n == 0 {
      assert Below(m, top, n) == {};
    } else {
      BelowCount(m, q, n - 1);
      ResiduesCount(m, q, n - 1);
      assert Below(m, top, n) == Below(m, top, n - 1) + Residues(m, top, n - 1);
      assert Below(m, top, n - 1) !! Residues(m, top, n - 1);
      assert n * q == (n - 1) * q + q;
    }
  }

  /** The mask is the tightest power of two. */
  lemma TightPower(n: nat)
    requires n > 0
    ensures n <= Pow2(BitLen(n - 1)) < 2 * n
  {
    BitLenBounds(n - 1);
  }

  lemma AcceptedIsBelow(width: nat, n: nat)
    requires n > 0 && BitLen(n - 1) <= width
    ensures AcceptedWords(width, n) == Below(Pow2(BitLen(n - 1)), Pow2(width), n)
  {
    forall w: nat ensures Masked(width, n, w) == w % Pow2(BitLen(n - 1)) {
      MaskedIsRemainder(width, n, w);
    }
  }

  /** More than half of all source words are accepted. */
  lemma MostWordsAccepted(width: nat, n: nat)
    requires 0 < n <= Pow2(width)
    ensures BitLen(n - 1) <= width
    ensures 2 * |AcceptedWords(width, n)| > Pow2(width)
  {
    BitLenFits(n - 1, width);
    var k := BitLen(n - 1);
    TightPower(n);
    Pow2Adds(width - k, k);
    AcceptedIsBelow(width, n);
    BelowCount(Pow2(k), Pow2(width - k), n);
    MoreThanHalf(|AcceptedWords(width, n)|, Pow2(width), Pow2(k), n, Pow2(width - k));
  }

  lemma MoreThanHalf(part: nat, all: nat, m: nat, n: nat, q: nat)
    requires part == n * q && all == q * m && 2 * n > m && q > 0
    ensures 2 * part > all
  {
    Majority(m, n, q);
  }

  // ----- the source -----

  function LittleEndian(b: seq<Byte>): nat {
    if b == [] then 0 else b[0] + 256 * LittleEndian(b[1..])
  }

  lemma {:induction false} LittleEndianBound(b: seq<Byte>)
    ensures LittleEndian(b) < Pow2(8 * |b|)
  {
    if b != [] {
      LittleEndianBound(b[1..]);
      Pow2Adds(8, 8 * |b[1..]|);
      assert Pow2(8) == 256;
      assert 8 * |b| == 8 + 8 * |b[1..]|;
    }
  }

  // ----- words and byte blocks -----

  lemma DropByte(x: nat, p: nat)
    requires p > 0
    ensures x / (256 * p) == x / 256 / p
  {
    var y, t := x / 256, x % 256;
    var q, s := y / p, y % p;
    assert y == q * p + s;
    assert q * (256 * p) == 256 * (q * p);
    DivIs(x, q, 256 * p, 256 * s + t);
  }

  /** Byte i of a word, counted from the least significant one, is byte i of the block. */
  lemma {:induction false} ByteOfWord(b: seq<Byte>, i: nat)
    requires i < |b|
    ensures LittleEndian(b) / Pow2(8 * i) % 256 == b[i]
  {
    var rest := LittleEndian(b[1..]);
    DivIs(LittleEndian(b), rest, 256, b[0]);
    if i == 0 {
      assert LittleEndian(b) / Pow2(0) == LittleEndian(b);
    } else {
      ByteOfWord(b[1..], i - 1);
      Pow2Adds(8, 8 * (i - 1));
      assert Pow2(8) == 256 && 8 * i == 8 + 8 * (i - 1);
      DropByte(LittleEndian(b), Pow2(8 * (i - 1)));
    }
  }

  /** The block of a given size whose word is w. */
  function Bytes(w: nat, size: nat): (b: seq<Byte>)
    ensures |b| == size
  {
    if size == 0 then [] else [w % 256] + Bytes(w / 256, size - 1)
  }

  lemma {:induction false} BlockRoundTrip(b: seq<Byte>)
    ensures Bytes(LittleEndian(b), |b|) == b
  {
    if b != [] {
      DivIs(LittleEndian(b), LittleEndian(b[1..]), 256, b[0]);
      BlockRoundTrip(b[1..]);
    }
  }

  lemma {:induction false} WordRoundTrip(w: nat, size: nat)
    requires w < Pow2(8 * size)
    ensures LittleEndian(Bytes(w, size)) == w
  {
    if size > 0 {
      Pow2Adds(8, 8 * (size - 1));
      assert Pow2(8) == 256 && 8 * size == 8 + 8 * (size - 1);
      var b := Bytes(w, size);
      assert w / 256 < Pow2(8 * (size - 1));
      WordRoundTrip(w / 256, size - 1);
      assert b[1..] == Bytes(w / 256, size - 1);
    }
  }

  ghost function AllBlocks(size: nat): set<seq<Byte>> {
    set w: nat | w < Pow2(8 * size) :: Bytes(w, size)
  }

  lemma AllBlocksAre(b: seq<Byte>, size: nat)
    ensures b in AllBlocks(size) <==> |b| == size
  {
    if |b| == size {
      LittleEndianBound(b);
      BlockRoundTrip(b);
    }
  }

  /** The blocks that a draw with bound n turns into v. */
  ghost function BlocksFor(size: nat, n: nat, v: nat): set<seq<Byte>>
    requires n > 0
  {
    set b | b in AllBlocks(size) && LowBitsFor(n, LittleEndian(b)) == v
  }

  ghost function BlocksOf(words: set<nat>, size: nat): set<seq<Byte>> {
    set w | w in words :: Bytes(w, size)
  }

  lemma {:induction false} BlocksCount(words: set<nat>, size: nat)
    requires forall w :: w in words ==> w < Pow2(8 * size)
    ensures |BlocksOf(words, size)| == |words|
  {
    if words == {} {
      assert BlocksOf(words, size) == {};
    } else {
      var w := PickWord(words);
      var rest := words - {w};
      BlocksCount(rest, size);
      assert BlocksOf(words, size) == BlocksOf(rest, size) + {Bytes(w, size)};
      WordRoundTrip(w, size);
      forall x | x in rest ensures Bytes(x, size) != Bytes(w, size) {
        WordRoundTrip(x, size);
      }
    }
  }

  lemma PickWord<T>(words: set<T>) returns (w: T)
    requires words != {}
    ensures w in words
  {
    w :| w in words;
  }

  /** No modulo bias in the keystream: every value of [0, n) comes from equally many blocks. */
  lemma EveryValueFromEquallyManyBlocks(size: nat, n: nat, v: nat)
    requires 0 < n <= Pow2(8 * size) && v < n
    ensures BitLen(n - 1) <= 8 * size
    ensures |BlocksFor(size, n, v)| == Pow2(8 * size - BitLen(n - 1))
  {
    EveryValueEquallyLikely(8 * size, n, v);
    var words := WordsFor(8 * size, n, v);
    BlocksCount(words, size);
    forall w: nat | w < Pow2(8 * size) ensures w in words <==> LowBitsFor(n, w) == v {
      MaskedIsRemainder(8 * size, n, w);
    }
    forall b ensures b in BlocksFor(size, n, v) <==> b in BlocksOf(words, size) {
      if b in BlocksFor(size, n, v) {
        AllBlocksAre(b, size);
        LittleEndianBound(b);
        BlockRoundTrip(b);
      }
      if b in BlocksOf(words, size) {
        var w :| w in words && b == Bytes(w, size);
        WordRoundTrip(w, size);
      }
    }
    assert BlocksFor(size, n, v) == BlocksOf(words, size);
  }

  class Source {
    const keystream: seq<Byte>
    const buf: array<Byte>
    var pos: nat

    ghost predicate Valid()
      reads this
    {
      buf.Length == 8 && pos <= |keystream|
    }

    /** The unsigned word of this many bytes at an offset of the keystream. */
    ghost function WordAt(offset: nat, size: nat): nat
      requires offset + size <= |keystream|
    {
      LittleEndian(keystream[offset..offset + size])
    }

    constructor (keystream: seq<Byte>)
      ensures Valid() && fresh(buf) && this.keystream == keystream && pos == 0
    {
      this.keystream, pos, buf := keystream, 0, new Byte[8](_ => 0);
    }

    /** Zeroes the first size bytes of the buffer and encrypts them in place. */
    method Draw(size: nat) returns (word: Option<nat>)
      requires Valid() && size <= 8
      modifies this, buf
      ensures Valid()
      ensures old(pos) + size > |keystream| ==> word == None && pos == old(pos)
      ensures old(pos) + size <= |keystream| ==> word == Some(WordAt(old(pos), size)) && pos == old(pos) + size
      ensures word.Some? ==> word.value < Pow2(8 * size)
    {
      for i := 0 to size
        invariant Valid() && pos == old(pos)
        invariant forall j :: 0 <= j < i ==> buf[j] == 0
      {
        buf[i] := 0;
      }
      if pos + size > |keystream| {
        return None;
      }
      for i := 0 to size
        invariant Valid() && pos == old(pos)
        invariant forall j :: 0 <= j < i ==> buf[j] == keystream[pos + j]
        invariant forall j :: i <= j < size ==> buf[j] == 0
      {
        buf[i] := (buf[i] + keystream[pos + i]) % 256;  // exclusive or with a zero byte
      }
      assert buf[..size] == keystream[pos..pos + size];
      LittleEndianBound(buf[..size]);
      word := Some(LittleEndian(buf[..size]));
      pos := pos + size;
    }

    /** The first draw from offset `from` on that is accepted decides the result. */
    ghost predicate Rejected(width: nat, n: nat, from: nat, size: nat, count: nat)
      requires n > 0 && BitLen(n - 1) <= width && from + size * count <= |keystream|
    {
      forall i :: 0 <= i < count ==> !Accepts(width, n, WordAtDraw(from, size, i))
    }

    ghost function WordAtDraw(from: nat, size: nat, i: nat): nat {
      if from + size * i + size <= |keystream| then WordAt(from + size * i, size) else 0
    }

    /** Draws words until one is accepted for bound n. */
    method DrawBelow(width: nat, n: nat, size: nat) returns (r: Option<nat>, ghost draws: nat)
      requires Valid() && 0 < size <= 8 && n > 0 && BitLen(n - 1) <= width
      modifies this, buf
      ensures Valid()
      ensures old(pos) + size * draws <= |keystream| && Rejected(width, n, old(pos), size, draws)
      ensures r.Some? ==> && pos == old(pos) + size * (draws + 1)
                          && Accepts(width, n, WordAtDraw(old(pos), size, draws))
                          && r.value == Masked(width, n, WordAtDraw(old(pos), size, draws)) < n
      ensures r.None? ==> pos == old(pos) + size * draws && pos + size > |keystream|
    {
      var mask := Mask(width, n - 1);
      draws := 0;
      while true
        invariant Valid() && pos == old(pos) + size * draws
        invariant Rejected(width, n, old(pos), size, draws)
        decreases |keystream| - pos
      {
        var word := Draw(size);
        if word == None {
          return None, draws;
        }
        var u := BitAnd(word.value, mask);
        assert word.value == WordAtDraw(old(pos), size, draws);
        if u <= n - 1 {
          return Some(u), draws;
        }
        draws := draws + 1;
      }
    }

    /** The value is the low bits of the first word, from this offset on, in which they are
        below n. */
    ghost predicate FirstBelow(n: nat, from: nat, size: nat, draws: nat, value: nat)
      requires n > 0
    {
      && value == LowBitsFor(n, WordAtDraw(from, size, draws)) < n
      && forall i :: 0 <= i < draws ==> LowBitsFor(n, WordAtDraw(from, size, i)) >= n
    }

    lemma AcceptedIsFirstBelow(width: nat, n: nat, from: nat, size: nat, draws: nat)
      requires n > 0 && BitLen(n - 1) <= width && from + size * draws <= |keystream|
               && Rejected(width, n, from, size, draws)
      requires Accepts(width, n, WordAtDraw(from, size, draws))
      ensures FirstBelow(n, from, size, draws, Masked(width, n, WordAtDraw(from, size, draws)))
    {
      MaskedIsRemainder(width, n, WordAtDraw(from, size, draws));
      forall i | 0 <= i < draws ensures LowBitsFor(n, WordAtDraw(from, size, i)) >= n {
        assert !Accepts(width, n, WordAtDraw(from, size, i));
        MaskedIsRemainder(width, n, WordAtDraw(from, size, i));
      }
    }

    /** Returns a value in [0, n), except that 0 is returned for n = 0 as well. */
    method Uint32n(n: nat) returns (r: Option<nat>, ghost draws: nat)
      requires Valid() && n < Pow2(32)
      modifies this, buf
      ensures Valid()
      ensures r.Some? && n > 0 ==> r.value < n
      ensures n < 2 ==> r == Some(0) && pos == old(pos)
      ensures n >= 2 && r.Some? ==> pos == old(pos) + 4 * (draws + 1) && FirstBelow(n, old(pos), 4, draws, r.value)
      ensures r.None? ==> pos + 4 > |keystream|
    {
      if n < 2 {
        return Some(0), 0;
      }
      BitLenFits(n - 1, 32);
      r, draws := DrawBelow(32, n, 4);
      if r.Some? {
        AcceptedIsFirstBelow(32, n, old(pos), 4, draws);
      }
    }

    /** Int63n: a panic for n <= 0, and otherwise a value in [0, n). */
    method Int63n(n: int) returns (r: Option<nat>, ghost draws: nat)
      requires Valid() && n < Pow2(63)
      modifies this, buf
      ensures Valid()
      ensures n <= 0 ==> r == None
      ensures r.Some? ==> r.value < n
      ensures r.Some? ==> pos == old(pos) + 8 * (draws + 1) && FirstBelow(n, old(pos), 8, draws, r.value)
      ensures n > 0 && r.None? ==> pos + 8 > |keystream|
    {
      if n <= 0 {
        return None, 0;
      }
      BitLenFits(n - 1, 63);
      r, draws := DrawBelow(64, n, 8);
      if r.Some? {
        AcceptedIsFirstBelow(64, n, old(pos), 8, draws);
      }
    }
  }

  /** Int63 clears the top bit of the 64-bit word (top = 63) before Int63n masks it; the mask
      removes that bit anyway. */
  lemma TopBitIsMasked(width: nat, top: nat, n: nat, word: nat)
    requires 0 < n && BitLen(n - 1) <= top <= width
    ensures Masked(width, n, BitAnd(word, Pow2(top) - 1)) == Masked(width, n, word)
  {
    var k := BitLen(n - 1);
    LowBits(word, top);
    MaskedIsRemainder(width, n, word);
    MaskedIsRemainder(width, n, word % Pow2(top));
    Pow2Adds(k, top - k);
    ModMod(word, Pow2(k), Pow2(top - k));
  }
}
