/** A tree of nested buckets, and how badgerdb lays it out in one flat ordered store: the key
    of an entry is the concatenation of the names on its path, and its stored value starts
    with one byte holding the length of the enclosing bucket's prefix
    (badgerdb/bucket.go). */
module BucketTree {
  import opened ByteKeys

  datatype Option<+T> = None | Some(value: T)

  type Path = seq<Key>

  datatype Node = Leaf(data: seq<Byte>) | Dir

  type Tree = map<Path, Node>

  /** One entry of the flat store; `meta` marks buckets. */
  datatype Item = Item(meta: bool, value: seq<Byte>)

  type Store = map<Key, Item>

  function Flat(p: Path): Key {
    if p == [] then [] else Flat(p[..|p| - 1]) + p[|p| - 1]
  }

  function Parent(p: Path): Path
    requires p != []
  {
    p[..|p| - 1]
  }

  function Name(p: Path): Key
    requires p != []
  {
    p[|p| - 1]
  }

  /** The store itself is the bucket with the empty path. */
  predicate IsDir(t: Tree, p: Path) { p == [] || (p in t && t[p].Dir?) }

  ghost predicate EntryOk(t: Tree, p: Path)
    requires p in t
  {
    p != [] && Name(p) != [] && IsDir(t, Parent(p)) && (|p| == 1 ==> t[p].Dir?)
  }

  /** Entries hang below buckets, have non-empty names, and the top level holds buckets only. */
  ghost predicate WellFormed(t: Tree) {
    forall p {:trigger EntryOk(t, p)} :: p in t ==> EntryOk(t, p)
  }

  ghost predicate Apart(t: Tree, p: Path, q: Path)
    requires p in t && q in t
  {
    p != [] && q != [] && p != q && t[p].Dir? && Parent(p) == Parent(q) ==> !(Name(p) <= Name(q))
  }

  /** No bucket's name is a prefix of the name of another entry of the same bucket. */
  ghost predicate PrefixFree(t: Tree) {
    forall p, q {:trigger Apart(t, p, q)} :: p in t && q in t ==> Apart(t, p, q)
  }

  /** Every bucket's prefix fits the one byte recorded with its entries. */
  ghost predicate ShortPrefixes(t: Tree) {
    forall p :: p in t && t[p].Dir? ==> |Flat(p)| < 256
  }

  function LengthByte(n: nat): Byte { n % 256 }

  /** A top-level bucket records its own length, any other entry that of its parent. */
  function StoredItem(t: Tree, p: Path): Item
    requires p in t && p != []
  {
    var length := if |p| == 1 then |Flat(p)| else |Flat(Parent(p))|;
    Item(t[p].Dir?, [LengthByte(length)] + (if t[p].Dir? then [] else t[p].data))
  }

  ghost predicate EntryStored(s: Store, t: Tree, p: Path)
    requires p in t
  {
    p != [] && Flat(p) in s && s[Flat(p)] == StoredItem(t, p)
  }

  ghost predicate Decodes(t: Tree, k: Key) {
    exists p :: p in t && Flat(p) == k
  }

  /** The store holds exactly the entries of the tree. */
  ghost predicate Represents(s: Store, t: Tree) {
    && (forall p {:trigger EntryStored(s, t, p)} :: p in t ==> EntryStored(s, t, p))
    && (forall k {:trigger Decodes(t, k)} :: k in s ==> Decodes(t, k))
  }

  ghost predicate SameKeySamePath(a: Path, b: Path) { Flat(a) == Flat(b) ==> a == b }

  /** Different entries have different flat keys. */
  ghost predicate Injective(t: Tree) {
    forall a, b {:trigger SameKeySamePath(a, b)} :: a in t && b in t ==> SameKeySamePath(a, b)
  }

  /** The store is the layout of the tree, and every flat key belongs to one entry. */
  ghost predicate Faithful(s: Store, t: Tree) {
    WellFormed(t) && Injective(t) && Represents(s, t)
  }

  /** Buckets named so that flat keys are unique whatever is written into them. */
  ghost predicate Valid(s: Store, t: Tree) {
    WellFormed(t) && PrefixFree(t) && Represents(s, t)
  }

  // ----- flattening paths -----

  lemma {:induction false} FlatAppend(p: Path, r: Path)
    ensures Flat(p + r) == Flat(p) + Flat(r)
  {
    if r == [] {
      assert p + r == p;
    } else {
      FlatAppend(p, Parent(r));
      assert Parent(p + r) == p + Parent(r) && Name(p + r) == Name(r);
    }
  }

  lemma FlatPrefix(p: Path, n: nat)
    requires n <= |p|
    ensures Flat(p[..n]) <= Flat(p)
  {
    assert p == p[..n] + p[n..];
    FlatAppend(p[..n], p[n..]);
  }

  lemma {:induction false} AncestorIsDir(t: Tree, p: Path, n: nat)
    requires WellFormed(t) && (p in t || p == []) && n < |p|
    ensures IsDir(t, p[..n])
  {
    assert EntryOk(t, p);
    if n < |p| - 1 {
      AncestorIsDir(t, Parent(p), n);
      assert Parent(p)[..n] == p[..n];
    }
  }

  lemma Comparable(c: Key, a: Key, b: Key, k: Key)
    requires c + a <= k && c + b <= k && |a| <= |b|
    ensures a <= b
  {
    assert a == k[|c|..|c| + |a|];
    assert b == k[|c|..|c| + |b|];
  }

  /** Two names of the same bucket on the way to one flat key are equal, provided the first is
      a bucket and the second is one too or is no shorter. */
  lemma SameStep(t: Tree, a: Path, b: Path, k: Key)
    requires PrefixFree(t) && a in t && b in t && a != [] && b != [] && Parent(a) == Parent(b)
    requires Flat(a) <= k && Flat(b) <= k
    requires t[a].Dir? && (t[b].Dir? || |Flat(a)| <= |Flat(b)|)
    ensures a == b
  {
    var c := Parent(a);
    assert Apart(t, a, b) && Apart(t, b, a);
    assert a == c + [Name(a)] && b == c + [Name(b)];
    if |Name(a)| <= |Name(b)| {
      Comparable(Flat(c), Name(a), Name(b), k);
    } else {
      Comparable(Flat(c), Name(b), Name(a), k);
    }
  }

  /** Flat keys below a bucket belong to paths below it: an entry whose flat key extends the
      prefix of bucket p lies inside p. */
  lemma {:induction false} ExtendsBucket(t: Tree, p: Path, k: Key, q: Path, n: nat)
    requires WellFormed(t) && PrefixFree(t)
    requires IsDir(t, p) && q in t && k != [] && Flat(q) == Flat(p) + k
    requires n <= |p|
    ensures n < |q| && q[..n] == p[..n]
  {
    assert EntryOk(t, q);
    if n > 0 {
      ExtendsBucket(t, p, k, q, n - 1);
      var a, b := p[..n], q[..n];
      FlatPrefix(p, n);
      FlatPrefix(q, n);
      assert Parent(a) == p[..n - 1] && Parent(b) == q[..n - 1];
      if n < |p| { AncestorIsDir(t, p, n); } else { assert a == p; }
      if n < |q| { AncestorIsDir(t, q, n); } else { assert b == q; }
      SameStep(t, a, b, Flat(q));
    }
  }

  lemma FlatOne(x: Key)
    ensures Flat([x]) == x
  {
    assert Flat([]) + x == x;
  }

  lemma FlatStart(r: Path)
    requires r != [] && Name(r) != []
    ensures r[0] <= Flat(r)
    ensures |r| == 1 <==> r[0] == Flat(r)
  {
    FirstIsPrefix(r);
    if |r| == 1 {
      FlatOne(r[0]);
      assert r == [r[0]];
    } else {
      FirstIsPrefix(Parent(r));
    }
  }

  lemma {:induction false} FirstIsPrefix(r: Path)
    requires r != []
    ensures r[0] <= Flat(r)
  {
    if |r| > 1 {
      FirstIsPrefix(Parent(r));
    } else {
      FlatOne(r[0]);
      assert r == [r[0]];
    }
  }

  lemma BelowSplit(t: Tree, p: Path, k: Key, q: Path) returns (r: Path)
    requires WellFormed(t) && PrefixFree(t)
    requires IsDir(t, p) && q in t && k != [] && Flat(q) == Flat(p) + k
    ensures r != [] && q == p + r && Flat(r) == k
  {
    ExtendsBucket(t, p, k, q, |p|);
    r := q[|p|..];
    assert q == p + r;
    FlatAppend(p, r);
    assert Flat(r) == Flat(q)[|Flat(p)|..] == k;
  }

  /** An entry whose flat key is the prefix of bucket p plus k is the entry k of p, unless a
      bucket of p has a proper prefix of k as its name. */
  lemma Below(t: Tree, p: Path, k: Key, q: Path) returns (r: Path)
    requires WellFormed(t) && PrefixFree(t)
    requires IsDir(t, p) && q in t && k != [] && Flat(q) == Flat(p) + k
    ensures r != [] && q == p + r && Flat(r) == k
    ensures |r| == 1 ==> r[0] == k
    ensures |r| > 1 ==> IsDir(t, p + [r[0]]) && r[0] <= k && r[0] != k
  {
    r := BelowSplit(t, p, k, q);
    assert Name(r) == Name(q) && Name(q) != [] by { assert EntryOk(t, q); }
    FlatStart(r);
    if |r| > 1 {
      AncestorIsDir(t, q, |p| + 1);
      assert q[..|p| + 1] == p + [r[0]];
    }
  }

  lemma SiblingsApart(t: Tree, c: Path, a: Key, b: Key)
    requires PrefixFree(t) && c + [a] in t && c + [b] in t && IsDir(t, c + [a]) && a != b
    ensures !(a <= b)
  {
    assert Parent(c + [a]) == c == Parent(c + [b]);
    assert (c + [a])[|c|] == a && (c + [b])[|c|] == b;
    assert Apart(t, c + [a], c + [b]);
  }

  /** Unique decodability: two different paths of the tree never share a flat key. */
  lemma FlatIsInjective(t: Tree, p: Path, q: Path)
    requires WellFormed(t) && PrefixFree(t) && p in t && q in t
    requires Flat(p) == Flat(q)
    ensures p == q
  {
    assert EntryOk(t, p);
    var c, k := Parent(p), Name(p);
    assert p == c + [k];
    var r := Below(t, c, k, q);
    if |r| == 1 {
      assert r == [k];
    } else {
      SiblingsApart(t, c, r[0], k);
    }
  }

  // ----- changing the tree -----

  /** The name of q clashes with no other entry of its bucket. */
  ghost predicate Fits(t: Tree, q: Path, node: Node)
    requires q != []
  {
    forall a :: a in t && a != q && a != [] && Parent(a) == Parent(q) ==>
      && (t[a].Dir? ==> !(Name(a) <= Name(q)))
      && (node.Dir? ==> !(Name(q) <= Name(a)))
  }

  ghost predicate Insertable(t: Tree, q: Path, node: Node) {
    && q != [] && Name(q) != [] && IsDir(t, Parent(q))
    && (|q| == 1 || (q in t && t[q].Dir?) ==> node.Dir?)
    && Fits(t, q, node)
  }

  lemma InsertKeepsShape(t: Tree, q: Path, node: Node)
    requires WellFormed(t) && PrefixFree(t) && Insertable(t, q, node)
    ensures WellFormed(t[q := node]) && PrefixFree(t[q := node])
  {
    var u := t[q := node];
    forall p | p in u ensures EntryOk(u, p) {
      if p != q {
        assert EntryOk(t, p);
      }
    }
    forall a, b | a in u && b in u ensures Apart(u, a, b) {
      if a != q && b != q {
        assert Apart(t, a, b);
      }
    }
  }

  /** Writing one entry of the flat store writes one entry of the tree and leaves all others,
      in every bucket, as they were. */
  lemma InsertRefines(s: Store, t: Tree, q: Path, node: Node)
    requires Valid(s, t) && Insertable(t, q, node)
    ensures Valid(s[Flat(q) := StoredItem(t[q := node], q)], t[q := node])
  {
    var u := t[q := node];
    var v := s[Flat(q) := StoredItem(u, q)];
    InsertKeepsShape(t, q, node);
    forall p | p in u ensures EntryStored(v, u, p) {
      if p != q {
        assert EntryStored(s, t, p);
        if Flat(p) == Flat(q) {
          FlatIsInjective(u, p, q);
        }
      }
    }
    forall k | k in v ensures Decodes(u, k) {
      if k == Flat(q) {
        assert q in u;
      } else {
        assert Decodes(t, k);
        var p :| p in t && Flat(p) == k;
        assert p in u;
      }
    }
  }

  /** Deleting the flat key of a leaf deletes that leaf only. */
  lemma RemoveRefines(s: Store, t: Tree, q: Path)
    requires Valid(s, t) && q in t && t[q].Leaf?
    ensures Valid(s - {Flat(q)}, t - {q})
  {
    var u, v := t - {q}, s - {Flat(q)};
    forall p | p in u ensures EntryOk(u, p) && EntryStored(v, u, p) {
      assert EntryOk(t, p) && EntryStored(s, t, p);
      if Flat(p) == Flat(q) {
        FlatIsInjective(t, p, q);
      }
    }
    forall a, b | a in u && b in u ensures Apart(u, a, b) {
      assert Apart(t, a, b);
    }
    forall k | k in v ensures Decodes(u, k) {
      assert Decodes(t, k);
      var p :| p in t && Flat(p) == k;
      assert p in u;
    }
  }

  /** Writing keeps the names prefix-free exactly when the name clashes with none beside it. */
  lemma PrefixFreeIff(t: Tree, q: Path, node: Node)
    requires PrefixFree(t) && q != []
    ensures PrefixFree(t[q := node]) <==> Fits(t, q, node)
  {
    var u := t[q := node];
    if PrefixFree(u) {
      forall a | a in t && a != q && a != [] && Parent(a) == Parent(q)
        ensures (t[a].Dir? ==> !(Name(a) <= Name(q))) && (node.Dir? ==> !(Name(q) <= Name(a)))
      {
        assert Apart(u, a, q) && Apart(u, q, a);
      }
    }
    if Fits(t, q, node) {
      forall a, b | a in u && b in u ensures Apart(u, a, b) {
        if a != q && b != q {
          assert Apart(t, a, b);
        }
      }
    }
  }

  // ----- reading -----

  /** Some entry deeper below p has a path whose names concatenate to k. */
  ghost predicate Shadowed(t: Tree, p: Path, k: Key) {
    exists r :: |r| > 1 && p + r in t && Flat(r) == k
  }

  /** Another entry has the flat key of q. */
  ghost predicate Clashes(t: Tree, q: Path) {
    exists a :: a in t && a != q && Flat(a) == Flat(q)
  }

  /** Some entry lies directly in q. */
  ghost predicate HasEntries(t: Tree, q: Path) {
    exists a :: a in t && a != [] && Parent(a) == q
  }

  /** Unique decodability makes the layout of a prefix-free tree faithful. */
  lemma ValidIsFaithful(s: Store, t: Tree)
    requires Valid(s, t)
    ensures Faithful(s, t)
  {
    forall a, b | a in t && b in t ensures SameKeySamePath(a, b) {
      if Flat(a) == Flat(b) {
        FlatIsInjective(t, a, b);
      }
    }
  }

  /** In a prefix-free tree only a deeper entry of the same bucket can have the flat key of an
      entry or of a key looked for. */
  lemma ClashIsShadow(t: Tree, p: Path, k: Key)
    requires WellFormed(t) && PrefixFree(t) && IsDir(t, p) && k != []
    ensures Clashes(t, p + [k]) <==> Shadowed(t, p, k)
  {
    FlatAppend(p, [k]);
    FlatOne(k);
    if Shadowed(t, p, k) {
      var r :| |r| > 1 && p + r in t && Flat(r) == k;
      FlatAppend(p, r);
      assert |p + r| != |p + [k]|;
    }
    if Clashes(t, p + [k]) {
      var a :| a in t && a != p + [k] && Flat(a) == Flat(p + [k]);
      var r := Below(t, p, k, a);
      var first := [r[0]];
      assert |r| == 1 ==> r == first;
    }
  }

  /** What shadows k lies in a bucket whose name is a proper prefix of k. */
  lemma ShadowedDoesNotFit(t: Tree, p: Path, k: Key, node: Node)
    requires WellFormed(t) && PrefixFree(t) && IsDir(t, p) && k != [] && Shadowed(t, p, k)
    ensures !Fits(t, p + [k], node)
  {
    var r :| |r| > 1 && p + r in t && Flat(r) == k;
    FlatAppend(p, r);
    var c := Below(t, p, k, p + r);
    assert |c| == |r|;
    var a := p + [c[0]];
    assert Parent(a) == p == Parent(p + [k]) && Name(a) == c[0] && Name(p + [k]) == k;
    assert a in t && a != p + [k];
  }

  /** A name that clashes with none beside it shares its flat key with no entry anywhere. */
  lemma FittingNameIsFree(t: Tree, p: Path, k: Key, node: Node)
    requires WellFormed(t) && PrefixFree(t) && IsDir(t, p) && k != [] && Fits(t, p + [k], node)
    ensures !Clashes(t, p + [k])
  {
    ClashIsShadow(t, p, k);
    if Shadowed(t, p, k) {
      ShadowedDoesNotFit(t, p, k, node);
    }
  }

  /** A flat key is present for the entry itself or for one that clashes with it, never both. */
  lemma LookUp(s: Store, t: Tree, q: Path)
    requires Faithful(s, t)
    ensures q in t ==> EntryStored(s, t, q)
    ensures Flat(q) in s <==> q in t || Clashes(t, q)
    ensures !(q in t && Clashes(t, q))
    ensures forall a :: a in t && Flat(a) == Flat(q) ==> EntryStored(s, t, a)
  {
    forall a | a in t ensures EntryStored(s, t, a) { }
    forall a | a in t && q in t && Flat(a) == Flat(q) ensures a == q {
      assert SameKeySamePath(a, q);
    }
    if Flat(q) in s {
      assert Decodes(t, Flat(q));
    }
  }

  // ----- the exact effect of writing and deleting -----

  lemma WriteKeepsRepresentation(s: Store, t: Tree, q: Path, node: Node)
    requires Faithful(s, t) && q != [] && !Clashes(t, q)
    ensures Represents(s[Flat(q) := StoredItem(t[q := node], q)], t[q := node])
    ensures Injective(t[q := node])
  {
    var u := t[q := node];
    var v := s[Flat(q) := StoredItem(u, q)];
    forall p | p in u ensures EntryStored(v, u, p) {
      if p != q {
        assert EntryStored(s, t, p);
        assert Flat(p) != Flat(q);
      }
    }
    forall k | k in v ensures Decodes(u, k) {
      if k == Flat(q) {
        assert q in u;
      } else {
        assert Decodes(t, k);
        var p :| p in t && Flat(p) == k;
        assert p in u;
      }
    }
    forall a, b | a in u && b in u ensures SameKeySamePath(a, b) {
      if a != q && b != q {
        assert SameKeySamePath(a, b);
      }
    }
  }

  /** Writing an entry is the tree's write, and leaves the store faithful, exactly when no
      other entry has its flat key and no entries hang below a value. */
  lemma WriteIsFaithfulIff(s: Store, t: Tree, q: Path, node: Node)
    requires Faithful(s, t) && q != [] && Name(q) != [] && IsDir(t, Parent(q)) && (|q| == 1 ==> node.Dir?)
    ensures Faithful(s[Flat(q) := StoredItem(t[q := node], q)], t[q := node])
            <==> !Clashes(t, q) && (node.Leaf? ==> !HasEntries(t, q))
  {
    var u := t[q := node];
    if Clashes(t, q) {
      var a :| a in t && a != q && Flat(a) == Flat(q);
      assert a in u && q in u && !SameKeySamePath(a, q);
    } else if node.Leaf? && HasEntries(t, q) {
      var a :| a in t && a != [] && Parent(a) == q;
      assert a in u && !EntryOk(u, a);
    } else {
      WriteKeepsRepresentation(s, t, q, node);
      forall p | p in u ensures EntryOk(u, p) {
        if p != q {
          assert EntryOk(t, p);
        }
      }
    }
  }

  /** Entries below the top level with the same flat key and parents of the same length are one
      entry. */
  lemma SameLengthSamePath(t: Tree, a: Path, q: Path)
    requires Injective(t) && a != [] && q != [] && Parent(a) in t && Parent(q) in t
    requires Flat(a) == Flat(q) && |Flat(Parent(a))| == |Flat(Parent(q))|
    ensures a == q
  {
    var c, d := Parent(a), Parent(q);
    assert Flat(c) + Name(a) == Flat(d) + Name(q);
    assert Flat(c) == (Flat(c) + Name(a))[..|Flat(c)|] == Flat(d);
    assert SameKeySamePath(c, d);
    assert Name(a) == (Flat(c) + Name(a))[|Flat(c)|..];
    assert Name(q) == (Flat(d) + Name(q))[|Flat(d)|..];
    assert a == c + [Name(a)] && q == d + [Name(q)];
  }

  lemma SameName(a: Path, q: Path)
    requires |a| == |q| == 1 && Flat(a) == Flat(q)
    ensures a == q
  {
    FlatOne(a[0]);
    FlatOne(q[0]);
    assert a == [a[0]] && q == [q[0]];
  }

  /** The length recorded with an entry. */
  function RecordedLength(q: Path): nat
    requires q != []
  {
    if |q| == 1 then |Flat(q)| else |Flat(Parent(q))|
  }

  lemma ClashingLengthsDiffer(t: Tree, a: Path, q: Path)
    requires WellFormed(t) && Injective(t) && a in t && q != [] && Name(q) != [] && IsDir(t, Parent(q))
    requires a != q && Flat(a) == Flat(q)
    ensures a != [] && RecordedLength(a) != RecordedLength(q)
  {
    assert EntryOk(t, a);
    assert |Flat(Parent(a))| < |Flat(a)| && |Flat(Parent(q))| < |Flat(q)|;
    if |a| == 1 && |q| == 1 {
      SameName(a, q);
    } else if |a| > 1 && |q| > 1 && |Flat(Parent(a))| == |Flat(Parent(q))| {
      SameLengthSamePath(t, a, q);
    }
  }

  lemma ShortLength(t: Tree, q: Path)
    requires ShortPrefixes(t) && q in t && q != [] && (if |q| == 1 then t[q].Dir? else IsDir(t, Parent(q)))
    ensures StoredItem(t, q).value[0] == RecordedLength(q)
  {
    assert |q| > 1 ==> Parent(q) in t;
  }

  lemma ItemsDiffer(s: Store, t: Tree, a: Path, q: Path)
    requires a in t && a != [] && q in t && q != [] && Flat(a) == Flat(q)
    requires Flat(q) in s && s[Flat(q)] == StoredItem(t, q)
    requires StoredItem(t, a).value[0] != StoredItem(t, q).value[0]
    ensures !Represents(s, t)
  {
    assert !EntryStored(s, t, a);
  }

  /** What encloses an entry with the flat key of q is not q. */
  lemma BucketsStay(t: Tree, q: Path, node: Node, a: Path)
    requires WellFormed(t) && a in t && a != q && Flat(a) == Flat(q)
    ensures a != [] && if |a| == 1 then t[q := node][a].Dir? else IsDir(t[q := node], Parent(a))
  {
    assert EntryOk(t, a);
    assert |Flat(Parent(a))| < |Flat(a)|;
  }

  lemma ClashBreaksLayout(v: Store, t: Tree, q: Path, node: Node, a: Path)
    requires WellFormed(t) && Injective(t) && ShortPrefixes(t[q := node])
    requires q != [] && Name(q) != [] && IsDir(t, Parent(q)) && (|q| == 1 ==> node.Dir?)
    requires a in t && a != q && Flat(a) == Flat(q)
    requires Flat(q) in v && v[Flat(q)] == StoredItem(t[q := node], q)
    ensures !Represents(v, t[q := node])
  {
    var u := t[q := node];
    ClashingLengthsDiffer(t, a, q);
    BucketsStay(t, q, node, a);
    ShortLength(u, a);
    assert IsDir(u, Parent(q)) by { assert |Parent(q)| != |q|; }
    ShortLength(u, q);
    ItemsDiffer(v, u, a, q);
  }

  /** With short prefixes a write leaves the store the layout of the new tree if and only if no
      other entry has the flat key: a clashing write changes the other entry's item. */
  lemma WriteIsRepresentedIff(s: Store, t: Tree, q: Path, node: Node)
    requires Faithful(s, t) && q != [] && Name(q) != [] && IsDir(t, Parent(q)) && (|q| == 1 ==> node.Dir?)
    requires ShortPrefixes(t[q := node])
    ensures Represents(s[Flat(q) := StoredItem(t[q := node], q)], t[q := node]) <==> !Clashes(t, q)
  {
    if Clashes(t, q) {
      var a :| a in t && a != q && Flat(a) == Flat(q);
      ClashBreaksLayout(s[Flat(q) := StoredItem(t[q := node], q)], t, q, node, a);
    } else {
      WriteKeepsRepresentation(s, t, q, node);
    }
  }

  /** Deleting a flat key is the tree's delete exactly when no other entry has that key and no
      entries are left without their bucket. */
  lemma DeleteIsFaithfulIff(s: Store, t: Tree, q: Path)
    requires Faithful(s, t) && q != []
    ensures Faithful(s - {Flat(q)}, t - {q}) <==> !Clashes(t, q) && !HasEntries(t, q)
  {
    var u, v := t - {q}, s - {Flat(q)};
    if Clashes(t, q) {
      var a :| a in t && a != q && Flat(a) == Flat(q);
      assert a in u && !EntryStored(v, u, a);
    } else if HasEntries(t, q) {
      var a :| a in t && a != [] && Parent(a) == q;
      assert a in u && !EntryOk(u, a);
    } else {
      forall p | p in u ensures EntryOk(u, p) && EntryStored(v, u, p) {
        assert EntryOk(t, p) && EntryStored(s, t, p);
        assert Flat(p) != Flat(q);
      }
      forall a, b | a in u && b in u ensures SameKeySamePath(a, b) {
        assert SameKeySamePath(a, b);
      }
      forall k | k in v ensures Decodes(u, k) {
        assert Decodes(t, k);
        var p :| p in t && Flat(p) == k;
        assert p in u;
      }
    }
  }
}
