/** Bucket handles over a Badger transaction (badgerdb/bucket.go).  Each operation is related to
    the bucket tree that the flat store represents. */
module BadgerBucket {
  import opened ByteKeys
  import opened BucketTree
  import opened BucketListing

  const MAX_KEY_SIZE: nat := 65378

  /** The transaction's view of the store. */
  class Txn {
    var store: Store

    constructor ()
      ensures store == map[]
    {
      store := map[];
    }
  }

  datatype Opening = Opened(bucket: Bucket) | Exists | Invalid

  function TreeGet(t: Tree, p: Path, k: Key): Option<seq<Byte>> {
    if p + [k] !in t then None else Some(if t[p + [k]].Dir? then [] else t[p + [k]].data)
  }

  class Bucket {
    const prefix: Key
    const txn: Txn

    constructor (txn: Txn, prefix: Key)
      ensures this.txn == txn && this.prefix == prefix
    {
      this.txn, this.prefix := txn, prefix;
    }

    /** This handle refers to bucket p of the tree the store represents. */
    ghost predicate At(t: Tree, p: Path)
      reads txn
    {
      Faithful(txn.store, t) && p in t && t[p].Dir? && Flat(p) == prefix
    }

    /** Get agrees with the tree if and only if no other entry has the flat key. */
    method Get(key: Key, ghost t: Tree, ghost p: Path) returns (r: Option<seq<Byte>>)
      requires At(t, p)
      ensures key == [] || |key| > MAX_KEY_SIZE ==> r == None
      ensures 0 < |key| <= MAX_KEY_SIZE ==> (r == TreeGet(t, p, key) <==> !Clashes(t, p + [key]))
    {
      if |key| == 0 || |key| > MAX_KEY_SIZE {
        return None;
      }
      RepresentedStoreIsOk(txn.store, t);
      ChildPath(p, key);
      LookUp(txn.store, t, p + [key]);
      var k := prefix + key;
      if k !in txn.store {
        return None;
      }
      assert ItemOk(k, txn.store[k]);
      return Some(txn.store[k].value[1..]);
    }

    /** Put is the tree's put of one leaf, with every other entry kept, exactly when no other
        entry has the flat key and the key is not a bucket with entries. */
    method Put(key: Key, value: seq<Byte>, ghost t: Tree, ghost p: Path) returns (ok: bool)
      requires At(t, p)
      modifies txn
      ensures ok <==> 0 < |key| <= MAX_KEY_SIZE
      ensures !ok ==> txn.store == old(txn.store)
      ensures ok ==> txn.store == old(txn.store)[prefix + key := Item(false, [LengthByte(|prefix|)] + value)]
      ensures ok ==> (Faithful(txn.store, t[p + [key] := Leaf(value)])
                      <==> !Clashes(t, p + [key]) && !HasEntries(t, p + [key]))
      ensures ok && ShortPrefixes(t) ==>
                (Represents(txn.store, t[p + [key] := Leaf(value)]) <==> !Clashes(t, p + [key]))
    {
      if |key| == 0 || |key| > MAX_KEY_SIZE {
        return false;
      }
      if ShortPrefixes(t) {
        LeafWriteIsRepresentedIff(txn.store, t, p, key, value);
      }
      WriteRefines(txn.store, t, p, key, Leaf(value));
      txn.store := txn.store[prefix + key := Item(false, [LengthByte(|prefix|)] + value)];
      ok := true;
    }

    /** Delete is the tree's delete of one entry exactly when no other entry has the flat key
        and the key is not a bucket with entries, which would be left without their bucket. */
    method Delete(key: Key, ghost t: Tree, ghost p: Path) returns (ok: bool)
      requires At(t, p)
      modifies txn
      ensures ok <==> |key| <= MAX_KEY_SIZE
      ensures !ok || key == [] ==> txn.store == old(txn.store)
      ensures ok && key != [] ==> txn.store == old(txn.store) - {prefix + key}
      ensures ok && key != [] ==> (Faithful(txn.store, t - {p + [key]})
                                   <==> !Clashes(t, p + [key]) && !HasEntries(t, p + [key]))
    {
      if |key| == 0 {
        return true;
      }
      if |key| > MAX_KEY_SIZE {
        return false;
      }
      ChildPath(p, key);
      DeleteIsFaithfulIff(txn.store, t, p + [key]);
      txn.store := txn.store - {prefix + key};
      ok := true;
    }

    /** Creates or opens the nested bucket called key.  What has the flat key, be it the entry
        itself or another one, decides whether there is something to open. */
    method CreateBucket(key: Key, errorIfExists: bool, ghost t: Tree, ghost p: Path) returns (r: Opening)
      requires At(t, p)
      modifies txn
      ensures key == [] || |key| > MAX_KEY_SIZE ==> r.Invalid? && txn.store == old(txn.store)
      ensures r.Opened? ==> r.bucket.txn == txn && r.bucket.prefix == prefix + key
      ensures 0 < |key| <= MAX_KEY_SIZE ==> forall a :: a in t && Flat(a) == prefix + key ==>
                && txn.store == old(txn.store)
                && (r.Exists? <==> t[a].Dir? && errorIfExists)
                && (r.Invalid? <==> t[a].Leaf?)
      ensures 0 < |key| <= MAX_KEY_SIZE && p + [key] !in t ==>
                && (Faithful(txn.store, t[p + [key] := Dir]) <==> !Clashes(t, p + [key]))
                && (!Clashes(t, p + [key]) ==> r.Opened? && r.bucket.At(t[p + [key] := Dir], p + [key]))
    {
      if |key| == 0 || |key| > MAX_KEY_SIZE {
        return Invalid;
      }
      var k := prefix + key;
      ghost var q := p + [key];
      ChildPath(p, key);
      LookUp(txn.store, t, q);
      if k !in txn.store {
        WriteRefines(txn.store, t, p, key, Dir);
        assert [LengthByte(|prefix|)] + [] == [LengthByte(|prefix|)];
        txn.store := txn.store[k := Item(true, [LengthByte(|prefix|)])];
        var b := new Bucket(txn, k);
        return Opened(b);
      }
      if q !in t {
        ClashIsNotInjective(t, q, Dir);
      }
      if txn.store[k].meta {
        if errorIfExists {
          return Exists;
        }
        var b := new Bucket(txn, k);
        return Opened(b);
      }
      return Invalid;
    }

    /** Opens the nested bucket called key; the empty key opens this bucket again.  The handle
        refers to that bucket unless another entry has its flat key. */
    method NestedReadWriteBucket(key: Key, ghost t: Tree, ghost p: Path) returns (r: Option<Bucket>)
      requires At(t, p)
      ensures key == [] ==> r.Some? && r.value.At(t, p)
      ensures |key| > MAX_KEY_SIZE ==> r.None?
      ensures 0 < |key| <= MAX_KEY_SIZE && !Clashes(t, p + [key]) ==>
                && (r.Some? <==> IsDir(t, p + [key]))
                && (r.Some? ==> r.value.At(t, p + [key]))
      ensures 0 < |key| <= MAX_KEY_SIZE ==> forall a :: a in t && Flat(a) == prefix + key ==>
                (r.Some? <==> t[a].Dir?) && (r.Some? ==> r.value.At(t, a))
    {
      if |key| > MAX_KEY_SIZE {
        return None;
      }
      var k := prefix + key;
      if key == [] {
        assert k == prefix && EntryStored(txn.store, t, p);
      } else {
        ChildPath(p, key);
        LookUp(txn.store, t, p + [key]);
      }
      if k !in txn.store || !txn.store[k].meta {
        return None;
      }
      var b := new Bucket(txn, k);
      return Some(b);
    }

    /** Calls back for every listed entry until a callback fails. */
    method ForEach(ghost t: Tree, ghost p: Path) returns (ok: bool, entries: seq<Entry>)
      requires At(t, p)
      ensures StoreOk(txn.store) && IsSnapshot(SortedKeys(txn.store.Keys), txn.store)
      ensures var all := Entries(txn.store, prefix, SortedKeys(txn.store.Keys), 0);
              entries <= all && (ok ==> entries == all)
      ensures ok ==> (IsListing(entries, t, p) <==> LengthsTell(t, p))
    {
      RepresentedStoreIsOk(txn.store, t);
      SortedKeysAreSnapshot(txn.store);
      var keys := SortedKeys(txn.store.Keys);
      ListingIsExactIff(txn.store, t, p, keys);
      ok, entries := Iterate(txn.store, prefix, keys);
    }
  }

  /** The iterator loop of forEach: seek the prefix, then visit keys while they have it. */
  method Iterate(s: Store, prefix: Key, keys: seq<Key>) returns (ok: bool, entries: seq<Entry>)
    requires StoreOk(s) && IsSnapshot(keys, s)
    ensures var all := Entries(s, prefix, keys, 0);
            entries <= all && (ok ==> entries == all)
  {
    var i := SeekPos(keys, prefix);
    entries := [];
    ghost var all := Entries(s, prefix, keys, 0);
    assert all == Entries(s, prefix, keys, i) by { SkippedKeysHaveNoEntries(s, prefix, keys); }
    while i < |keys| && prefix <= keys[i]
      invariant SeekPos(keys, prefix) <= i <= |keys|
      invariant all == entries + Entries(s, prefix, keys, i)
    {
      var k := keys[i];
      assert ItemOk(k, s[k]);
      if k != prefix && Marked(s, prefix, k) {
        ghost var rest := Entries(s, prefix, keys, i + 1);
        assert entries + ([EntryAt(s, k)] + rest) == (entries + [EntryAt(s, k)]) + rest;
        entries := entries + [EntryAt(s, k)];
        if * {
          return false, entries;  // the callback failed
        }
      }
      i := i + 1;
    }
    assert Entries(s, prefix, keys, i) == [] by {
      OutsideHasNoPrefix(keys, prefix, i);
      NoEntriesFrom(s, prefix, keys, i);
    }
    ok := true;
  }

  /** CreateTopLevelBucket.  A key that is present is opened whatever it holds. */
  method NewBucket(txn: Txn, key: Key, ghost t: Tree) returns (r: Opening)
    requires Faithful(txn.store, t)
    modifies txn
    ensures key == [] ==> r.Invalid?
    ensures key != [] ==> r.Opened? && r.bucket.txn == txn && r.bucket.prefix == key
    ensures key == [] || key in old(txn.store) ==> txn.store == old(txn.store)
    ensures key != [] && [key] in t ==> r.bucket.At(t, [key])
    ensures key != [] && [key] !in t ==>
              && (Faithful(txn.store, t[[key] := Dir]) <==> !Clashes(t, [key]))
              && (!Clashes(t, [key]) ==> r.bucket.At(t[[key] := Dir], [key]))
  {
    if key == [] {
      return Invalid;
    }
    ghost var q: Path := [key];
    FlatOne(key);
    LookUp(txn.store, t, q);
    if key !in txn.store {
      TopLevelRefines(txn.store, t, key);
      txn.store := txn.store[key := Item(true, [LengthByte(|key|)])];
    } else if q !in t {
      ClashIsNotInjective(t, q, Dir);
    } else {
      assert EntryOk(t, q);
    }
    var b := new Bucket(txn, key);
    r := Opened(b);
  }

  // ----- the operations on values -----

  lemma ChildPath(p: Path, key: Key)
    ensures Parent(p + [key]) == p && Name(p + [key]) == key && Flat(p + [key]) == Flat(p) + key
  {
    FlatAppend(p, [key]);
    FlatOne(key);
  }

  lemma ClashIsNotInjective(t: Tree, q: Path, node: Node)
    ensures Clashes(t, q) ==> !Injective(t[q := node])
  {
    if Clashes(t, q) {
      var a :| a in t && a != q && Flat(a) == Flat(q);
      assert !SameKeySamePath(a, q);
    }
  }

  /** A write into bucket p is the tree's write exactly when no other entry has the flat key
      and, for a value, no entries hang below it. */
  lemma WriteRefines(s: Store, t: Tree, p: Path, key: Key, node: Node)
    requires Faithful(s, t) && p in t && t[p].Dir? && key != []
    ensures var item := Item(node.Dir?, [LengthByte(|Flat(p)|)] + (if node.Dir? then [] else node.data));
            Faithful(s[Flat(p) + key := item], t[p + [key] := node])
            <==> !Clashes(t, p + [key]) && (node.Leaf? ==> !HasEntries(t, p + [key]))
  {
    assert EntryOk(t, p);
    ChildPath(p, key);
    WriteIsFaithfulIff(s, t, p + [key], node);
  }

  lemma LeafWriteIsRepresentedIff(s: Store, t: Tree, p: Path, key: Key, value: seq<Byte>)
    requires Faithful(s, t) && p in t && t[p].Dir? && key != [] && ShortPrefixes(t)
    ensures Represents(s[Flat(p) + key := Item(false, [LengthByte(|Flat(p)|)] + value)], t[p + [key] := Leaf(value)])
            <==> !Clashes(t, p + [key])
  {
    assert EntryOk(t, p);
    ChildPath(p, key);
    assert ShortPrefixes(t[p + [key] := Leaf(value)]);
    WriteIsRepresentedIff(s, t, p + [key], Leaf(value));
  }

  /** A new top-level bucket is the tree's exactly when no other entry has its flat key. */
  lemma TopLevelRefines(s: Store, t: Tree, key: Key)
    requires Faithful(s, t) && key != []
    ensures Faithful(s[key := Item(true, [LengthByte(|key|)])], t[[key] := Dir]) <==> !Clashes(t, [key])
  {
    var q: Path := [key];
    assert Parent(q) == [] && Name(q) == key;
    FlatOne(key);
    assert [LengthByte(|key|)] + [] == [LengthByte(|key|)];
    WriteIsFaithfulIff(s, t, q, Dir);
  }

  /** A bucket and an empty bucket in it. */
  function TwoBuckets(top: Key, inner: Key): Tree { map[[top] := Dir, [top, inner] := Dir] }

  lemma TwoBucketsAreWellFormed(top: Key, inner: Key)
    requires top != [] && inner != []
    ensures WellFormed(TwoBuckets(top, inner)) && PrefixFree(TwoBuckets(top, inner))
  {
    var t, d := TwoBuckets(top, inner), [top] + [inner];
    ChildPath([top], inner);
    assert d == [top, inner];
    forall p | p in t ensures EntryOk(t, p) {
      assert p == [top] || p == d;
    }
    forall p, q | p in t && q in t ensures Apart(t, p, q) {
      assert |p| != |q| || p == q;
    }
  }

  lemma NothingClashes(top: Key, inner: Key, name: Key)
    requires inner != [] && name != inner && name != []
    ensures var t, q := TwoBuckets(top, inner), [top] + [name]; !Clashes(t, q) && !HasEntries(t, q)
  {
    var t, q, d := TwoBuckets(top, inner), [top] + [name], [top] + [inner];
    ChildPath([top], inner);
    ChildPath([top], name);
    FlatOne(top);
    assert d == [top, inner];
    assert Flat(q)[|top|..] == name && Flat(d)[|top|..] == inner;
    forall a | a in t ensures Flat(a) != Flat(q) && Parent(a) != q {
      assert a == [top] || a == d;
    }
  }

  /** With buckets A and A/a and nothing in a, putting a key that extends the name a into A
      ends prefix-freedom, yet the store stays faithful: what is put into a later on could
      clash. */
  lemma UnfittingNameCanBeFaithful(s: Store, top: Key, inner: Key, name: Key, value: seq<Byte>)
    requires top != [] && inner != [] && inner <= name && name != inner && Represents(s, TwoBuckets(top, inner))
    ensures var t, q := TwoBuckets(top, inner), [top] + [name];
            && Valid(s, t)
            && !Fits(t, q, Leaf(value)) && !PrefixFree(t[q := Leaf(value)])
            && Faithful(s[Flat(q) := StoredItem(t[q := Leaf(value)], q)], t[q := Leaf(value)])
  {
    var t, q, d := TwoBuckets(top, inner), [top] + [name], [top] + [inner];
    TwoBucketsAreWellFormed(top, inner);
    NothingClashes(top, inner, name);
    ChildPath([top], inner);
    ChildPath([top], name);
    assert d == [top, inner] && d in t;
    PrefixFreeIff(t, q, Leaf(value));
    ValidIsFaithful(s, t);
    WriteIsFaithfulIff(s, t, q, Leaf(value));
  }

  lemma SkippedKeysHaveNoEntries(s: Store, prefix: Key, keys: seq<Key>)
    requires StoreOk(s) && KeysOf(keys, s)
    ensures Entries(s, prefix, keys, 0) == Entries(s, prefix, keys, SeekPos(keys, prefix))
  {
    var from := SeekPos(keys, prefix);
    forall j | 0 <= j < from ensures !(prefix <= keys[j]) {
      if prefix <= keys[j] {
        PrefixIsLeast(prefix, keys[j]);
      }
    }
    NoEntriesBefore(s, prefix, keys, from);
  }
}
