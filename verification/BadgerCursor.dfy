/** Forward movement of a cursor over one bucket (First, Next and Seek of badgerdb/db.go). */
module BadgerCursor {
  import opened ByteKeys
  import opened BucketTree
  import opened BucketListing
  import opened BadgerBucket

  /** A cursor iterates a snapshot of the store; the bucket's own entry is in it. */
  class Cursor {
    const store: Store
    const keys: seq<Key>
    const prefix: Key
    var pos: nat
    var ck: Option<Key>

    constructor (store: Store, prefix: Key)
      requires StoreOk(store) && prefix in store
      ensures Ready() && this.store == store && this.prefix == prefix && ck == None
    {
      this.store, this.prefix := store, prefix;
      keys, pos, ck := SortedKeys(store.Keys), 0, None;
      SortedKeysAreSnapshot(store);
    }

    ghost predicate Ready()
      reads this
    {
      && StoreOk(store) && IsSnapshot(keys, store) && prefix in store && pos <= |keys|
      && (ck.Some? ==> SeekPos(keys, prefix) <= pos)
    }

    /** The movement ended at the first listed entry at or after position start, or there is
        none. */
    ghost predicate Lands(r: Option<Entry>, start: nat)
      requires Ready()
      reads this
    {
      && start <= |keys|
      && (r.None? ==> Entries(store, prefix, keys, start) == [])
      && (r.Some? ==> && start <= pos < |keys| && ck == Some(keys[pos])
                      && Entries(store, prefix, keys, start) == [r.value] + Entries(store, prefix, keys, pos + 1))
    }

    /** Reports the entry the iterator is at, or moves on to the next one listed. */
    method Take() returns (r: Option<Entry>)
      requires Ready() && SeekPos(keys, prefix) < pos
      modifies this
      ensures Ready() && Lands(r, old(pos))
      decreases 2 * (|keys| - pos)
    {
      if pos == |keys| || !(prefix <= keys[pos]) {
        NothingFrom(store, prefix, keys, pos);
        return None;
      }
      ck := Some(keys[pos]);
      OwnEntry(store, prefix, keys);
      assert ItemOk(keys[pos], store[keys[pos]]);
      if Marked(store, prefix, keys[pos]) {
        return Some(EntryAt(store, keys[pos]));
      }
      r := Next();
    }

    /** Moves on from the current entry, or starts like First.  Past the last key of the store
        there is nothing more. */
    method Next() returns (r: Option<Entry>)
      requires Ready()
      modifies this
      ensures Ready()
      ensures old(ck).None? ==> Lands(r, SeekPos(keys, prefix) + 1)
      ensures old(ck).Some? ==> Lands(r, if old(pos) < |keys| then old(pos) + 1 else |keys|)
      decreases if ck.None? then 2 * |keys| + 1 else if pos < |keys| then 2 * (|keys| - pos) - 1 else 1
    {
      OwnEntry(store, prefix, keys);
      if ck == None {
        pos := SeekPos(keys, prefix);
        if keys[pos] == prefix {
          pos := pos + 1;
        }
      } else if pos < |keys| {
        pos := pos + 1;
      }
      r := Take();
    }

    method First() returns (r: Option<Entry>)
      requires Ready()
      modifies this
      ensures Ready() && Lands(r, SeekPos(keys, prefix) + 1)
    {
      OwnEntry(store, prefix, keys);
      pos := SeekPos(keys, prefix);
      if keys[pos] == prefix {
        pos := pos + 1;
      }
      r := Take();
    }

    /** Seeking a non-empty key lands on the first listed entry not before it.  Seeking the
        empty key reports the bucket's own entry when that entry is marked for itself. */
    method Seek(seek: Option<Key>) returns (r: Option<Entry>)
      requires Ready()
      modifies this
      ensures Ready()
      ensures seek.None? ==> Lands(r, SeekPos(keys, prefix) + 1)
      ensures seek.Some? && |seek.value| > MAX_KEY_SIZE ==> r == None
      ensures seek.Some? && 0 < |seek.value| <= MAX_KEY_SIZE ==> Lands(r, SeekPos(keys, prefix + seek.value))
      ensures seek == Some([]) && !Marked(store, prefix, prefix) ==> Lands(r, SeekPos(keys, prefix) + 1)
      ensures seek == Some([]) && Marked(store, prefix, prefix) ==>
                r == Some(EntryAt(store, prefix)) && r.value.name == []
    {
      if seek == None {
        r := First();
        return;
      }
      if |seek.value| > MAX_KEY_SIZE {
        return None;
      }
      OwnEntry(store, prefix, keys);
      pos := SeekPos(keys, prefix + seek.value);
      if seek.value == [] {
        assert prefix + seek.value == prefix;
        ck := Some(keys[pos]);
        if Marked(store, prefix, keys[pos]) {
          return Some(EntryAt(store, keys[pos]));
        }
        r := Next();
      } else {
        SeekIsAfterOwn(store, prefix, keys, seek.value);
        r := Take();
      }
    }

    /** Walking a bucket from First with Next visits what forEach visits, in the same order. */
    method Walk() returns (entries: seq<Entry>)
      requires Ready()
      modifies this
      ensures Ready() && entries == Entries(store, prefix, keys, 0)
    {
      FirstStart(store, prefix, keys);
      var r := First();
      entries := [];
      while r.Some?
        invariant Ready()
        invariant r.None? ==> entries == Entries(store, prefix, keys, 0)
        invariant r.Some? ==> && SeekPos(keys, prefix) <= pos < |keys| && ck.Some?
                              && entries + ([r.value] + Entries(store, prefix, keys, pos + 1)) ==
                                 Entries(store, prefix, keys, 0)
        decreases r.Some?, |keys| - pos
      {
        ghost var rest := Entries(store, prefix, keys, pos + 1);
        assert entries + ([r.value] + rest) == (entries + [r.value]) + rest;
        entries := entries + [r.value];
        r := Next();
      }
    }
  }

  lemma OwnEntry(s: Store, prefix: Key, keys: seq<Key>)
    requires IsSnapshot(keys, s) && prefix in s
    ensures SeekPos(keys, prefix) < |keys| && keys[SeekPos(keys, prefix)] == prefix
    ensures forall i :: SeekPos(keys, prefix) < i < |keys| ==> keys[i] != prefix
  {
    var i := SeekPos(keys, prefix);
    assert HasKey(keys, prefix);
    var j :| 0 <= j < |keys| && keys[j] == prefix;
    LessIsTotal(prefix, prefix);
    forall n | i < n < |keys| ensures keys[n] != prefix {
      assert Less(keys[i], keys[n]);
    }
  }

  lemma NothingFrom(s: Store, prefix: Key, keys: seq<Key>, i: nat)
    requires StoreOk(s) && IsSnapshot(keys, s) && SeekPos(keys, prefix) <= i <= |keys|
    requires i < |keys| ==> !(prefix <= keys[i])
    ensures Entries(s, prefix, keys, i) == []
  {
    OutsideHasNoPrefix(keys, prefix, i);
    NoEntriesFrom(s, prefix, keys, i);
  }

  lemma FirstStart(s: Store, prefix: Key, keys: seq<Key>)
    requires StoreOk(s) && IsSnapshot(keys, s) && prefix in s
    ensures SeekPos(keys, prefix) < |keys|
    ensures Entries(s, prefix, keys, 0) == Entries(s, prefix, keys, SeekPos(keys, prefix) + 1)
  {
    OwnEntry(s, prefix, keys);
    SkippedKeysHaveNoEntries(s, prefix, keys);
  }

  lemma SeekIsAfterOwn(s: Store, prefix: Key, keys: seq<Key>, k: Key)
    requires IsSnapshot(keys, s) && prefix in s && k != []
    ensures SeekPos(keys, prefix) < SeekPos(keys, prefix + k)
  {
    OwnEntry(s, prefix, keys);
    var i, j := SeekPos(keys, prefix), SeekPos(keys, prefix + k);
    assert Less(prefix + [], prefix + k) by { CommonPrefixKeepsOrder(prefix, [], k); }
    assert prefix + [] == prefix;
    if j < i {
      assert Less(keys[j], prefix);
      LessIsTransitive(keys[j], prefix, prefix + k);
    }
  }

  /** What a cursor reports after seeking k: the least entry of the bucket that is not before
      k, and nothing only when there is none. */
  lemma SeekLandsOnLeast(s: Store, t: Tree, p: Path, k: Key, keys: seq<Key>)
    requires Faithful(s, t) && StoreOk(s) && LengthsTell(t, p) && p in t && t[p].Dir? && IsSnapshot(keys, s)
    ensures var es := Entries(s, Flat(p), keys, SeekPos(keys, Flat(p) + k));
            && (es == [] ==> forall name :: p + [name] in t ==> Less(name, k))
            && (es != [] ==> && p + [es[0].name] in t && es[0] == ChildEntry(t, p, es[0].name) && !Less(es[0].name, k)
                             && forall name :: p + [name] in t && !Less(name, k) ==> !Less(name, es[0].name))
  {
    var i := SeekPos(keys, Flat(p) + k);
    EntriesAreChildren(s, t, p, keys, i);
    var es := Entries(s, Flat(p), keys, i);
    forall name | p + [name] in t && !Less(name, k) ensures ChildEntry(t, p, name) in es {
      ChildIsListedAfter(s, t, p, k, name, es, keys);
    }
    if es != [] {
      assert IsChildAfter(es[0], t, p, keys, i);
      FirstIsNotBefore(keys, p, k, es[0].name, i);
      forall name | p + [name] in t && !Less(name, k) ensures !Less(name, es[0].name) {
        FirstIsLeast(es, t, p, name);
      }
    }
  }

  lemma FirstIsNotBefore(keys: seq<Key>, p: Path, k: Key, name: Key, i: nat)
    requires StrictlySorted(keys) && i == SeekPos(keys, Flat(p) + k)
    requires exists j :: i <= j < |keys| && keys[j] == Flat(p) + name
    ensures !Less(name, k)
  {
    var j :| i <= j < |keys| && keys[j] == Flat(p) + name;
    SortedFrom(keys, Flat(p) + k, j);
    CommonPrefixKeepsOrder(Flat(p), name, k);
  }

  lemma FirstIsLeast(es: seq<Entry>, t: Tree, p: Path, name: Key)
    requires p + [name] in t && ChildEntry(t, p, name) in es
    requires forall m, n {:trigger Less(es[m].name, es[n].name)} :: 0 <= m < n < |es| ==> Less(es[m].name, es[n].name)
    ensures !Less(name, es[0].name)
  {
    var n :| 0 <= n < |es| && es[n] == ChildEntry(t, p, name);
    LessIsTotal(name, es[0].name);
    LessIsTotal(name, name);
    assert n > 0 ==> Less(es[0].name, es[n].name);
  }

  lemma ChildIsListedAfter(s: Store, t: Tree, p: Path, k: Key, name: Key, es: seq<Entry>, keys: seq<Key>)
    requires Faithful(s, t) && p in t && t[p].Dir? && p + [name] in t && !Less(name, k)
    requires IsSnapshot(keys, s) && ChildrenFrom(es, t, p, keys, SeekPos(keys, Flat(p) + k))
    ensures ChildEntry(t, p, name) in es
  {
    assert HasKey(keys, Flat(p) + name) by { ChildHasKey(s, t, p, name); }
    ChildHasKey(s, t, p, name);
    CommonPrefixKeepsOrder(Flat(p), name, k);
    var n :| 0 <= n < |keys| && keys[n] == Flat(p) + name;
    assert n >= SeekPos(keys, Flat(p) + k);
    assert ChildAtIsListed(es, t, p, keys[n]);
  }

  /** The own entry of a bucket is marked for itself exactly at the top level, where its
      length byte has not overflowed. */
  lemma OwnEntryMarkedIff(s: Store, t: Tree, p: Path)
    requires Faithful(s, t) && StoreOk(s) && p in t && t[p].Dir?
    ensures Flat(p) in s
    ensures Marked(s, Flat(p), Flat(p)) <==> |p| == 1 && |Flat(p)| < 256
  {
    assert EntryStored(s, t, p) && EntryOk(t, p);
    assert Flat(p)[..|Flat(p)|] == Flat(p);
  }
}
