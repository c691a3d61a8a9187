/** What the flat store lists for one bucket, and that this is exactly the bucket's own
    entries in name order (forEach of badgerdb/bucket.go). */
module BucketListing {
  import opened ByteKeys
  import opened BucketTree

  /** A key and value handed to a caller; nested buckets have no value. */
  datatype Entry = Entry(name: Key, value: Option<seq<Byte>>)

  ghost predicate ItemOk(k: Key, item: Item) {
    |item.value| > 0 && item.value[0] <= |k|
  }

  ghost predicate StoreOk(s: Store) {
    forall k :: k in s ==> ItemOk(k, s[k])
  }

  lemma RepresentedStoreIsOk(s: Store, t: Tree)
    requires Faithful(s, t)
    ensures StoreOk(s)
  {
    forall k | k in s ensures ItemOk(k, s[k]) {
      assert Decodes(t, k);
      var p :| p in t && Flat(p) == k;
      assert EntryStored(s, t, p);
    }
  }

  /** The recorded prefix length marks k as an entry of the bucket with this prefix. */
  predicate Marked(s: Store, prefix: Key, k: Key)
    requires k in s && ItemOk(k, s[k])
  {
    prefix <= k && k[..s[k].value[0]] == prefix
  }

  function EntryAt(s: Store, k: Key): Entry
    requires k in s && ItemOk(k, s[k])
  {
    Entry(k[s[k].value[0]..], if s[k].meta then None else Some(s[k].value[1..]))
  }

  ghost predicate KeysOf(keys: seq<Key>, s: Store) {
    forall i :: 0 <= i < |keys| ==> keys[i] in s
  }

  ghost predicate HasKey(keys: seq<Key>, k: Key) {
    exists j :: 0 <= j < |keys| && keys[j] == k
  }

  /** What an iterator over s visits: its keys in order. */
  ghost predicate IsSnapshot(keys: seq<Key>, s: Store) {
    && StrictlySorted(keys)
    && KeysOf(keys, s)
    && (forall k {:trigger HasKey(keys, k)} :: k in s ==> HasKey(keys, k))
  }

  lemma SortedKeysAreSnapshot(s: Store)
    ensures IsSnapshot(SortedKeys(s.Keys), s)
  {
    var keys := SortedKeys(s.Keys);
    forall k | k in s ensures HasKey(keys, k) {
      assert k in keys;
    }
  }

  /** The entries at positions i and up that are marked for the bucket; its own entry is
      skipped. */
  function Entries(s: Store, prefix: Key, keys: seq<Key>, i: nat): seq<Entry>
    requires StoreOk(s) && KeysOf(keys, s) && i <= |keys|
    decreases |keys| - i
  {
    if i == |keys| then []
    else if keys[i] != prefix && Marked(s, prefix, keys[i])
    then [EntryAt(s, keys[i])] + Entries(s, prefix, keys, i + 1)
    else Entries(s, prefix, keys, i + 1)
  }

  lemma {:induction false} NoEntriesFrom(s: Store, prefix: Key, keys: seq<Key>, i: nat)
    requires StoreOk(s) && KeysOf(keys, s) && i <= |keys|
    requires forall j :: i <= j < |keys| ==> !(prefix <= keys[j])
    ensures Entries(s, prefix, keys, i) == []
    decreases |keys| - i
  {
    if i < |keys| {
      NoEntriesFrom(s, prefix, keys, i + 1);
    }
  }

  lemma {:induction false} NoEntriesBefore(s: Store, prefix: Key, keys: seq<Key>, i: nat)
    requires StoreOk(s) && KeysOf(keys, s) && i <= |keys|
    requires forall j :: 0 <= j < i ==> keys[j] == prefix || !(prefix <= keys[j])
    ensures Entries(s, prefix, keys, 0) == Entries(s, prefix, keys, i)
  {
    if i > 0 {
      NoEntriesBefore(s, prefix, keys, i - 1);
    }
  }

  /** Where an iterator lands when it seeks k: the first key not before it. */
  function SeekFrom(keys: seq<Key>, k: Key, from: nat): (i: nat)
    requires from <= |keys| && forall j :: 0 <= j < from ==> Less(keys[j], k)
    ensures i <= |keys| && forall j :: 0 <= j < i ==> Less(keys[j], k)
    ensures i < |keys| ==> !Less(keys[i], k)
    decreases |keys| - from
  {
    if from < |keys| && Less(keys[from], k) then SeekFrom(keys, k, from + 1) else from
  }

  function SeekPos(keys: seq<Key>, k: Key): (i: nat)
    ensures i <= |keys| && forall j :: 0 <= j < i ==> Less(keys[j], k)
    ensures i < |keys| ==> !Less(keys[i], k)
  {
    SeekFrom(keys, k, 0)
  }

  lemma SortedFrom(keys: seq<Key>, k: Key, j: nat)
    requires StrictlySorted(keys) && SeekPos(keys, k) <= j < |keys|
    ensures !Less(keys[j], k)
  {
    var i := SeekPos(keys, k);
    if i < j {
      assert Less(keys[i], keys[j]);
      LessIsTotal(keys[j], k);
      if Less(keys[j], k) {
        LessIsTransitive(keys[i], keys[j], k);
      }
    }
  }

  /** An iterator that seeks the prefix and stops at the first key without it has passed every
      key of the snapshot that has the prefix. */
  lemma OutsideHasNoPrefix(keys: seq<Key>, prefix: Key, i: nat)
    requires StrictlySorted(keys)
    requires SeekPos(keys, prefix) <= i <= |keys| && (i < |keys| ==> !(prefix <= keys[i]))
    ensures forall j :: 0 <= j < SeekPos(keys, prefix) ==> !(prefix <= keys[j])
    ensures forall j :: i <= j < |keys| ==> !(prefix <= keys[j])
  {
    forall j | 0 <= j < SeekPos(keys, prefix) ensures !(prefix <= keys[j]) {
      if prefix <= keys[j] {
        PrefixIsLeast(prefix, keys[j]);
      }
    }
    forall j | i <= j < |keys| ensures !(prefix <= keys[j]) {
      SortedFrom(keys, prefix, i);
      if prefix <= keys[j] {
        PrefixIsContiguous(prefix, keys[i], keys[j]);
      }
    }
  }

  // ----- the listing is the bucket -----

  function ChildEntry(t: Tree, p: Path, name: Key): Entry
    requires p + [name] in t
  {
    Entry(name, if t[p + [name]].Dir? then None else Some(t[p + [name]].data))
  }

  /** The recorded length byte tells whether q, whose flat key extends p's, is a direct entry
      of p. */
  ghost predicate LengthTells(t: Tree, p: Path, q: Path)
    requires q in t
  {
    q != [] && q != p && Flat(p) <= Flat(q) ==> (StoredItem(t, q).value[0] == |Flat(p)| <==> Parent(q) == p)
  }

  ghost predicate LengthsTell(t: Tree, p: Path) {
    forall q {:trigger LengthTells(t, p, q)} :: q in t ==> LengthTells(t, p, q)
  }

  /** A key that extends a bucket's prefix is marked for the bucket exactly when its length
      byte says so. */
  lemma MarkedIffLength(s: Store, t: Tree, p: Path, q: Path)
    requires Faithful(s, t) && StoreOk(s) && q in t && Flat(p) <= Flat(q)
    ensures EntryStored(s, t, q)
    ensures Marked(s, Flat(p), Flat(q)) <==> StoredItem(t, q).value[0] == |Flat(p)|
  {
    assert EntryStored(s, t, q);
    assert Flat(q)[..|Flat(p)|] == Flat(p);
  }

  lemma DirectEntry(t: Tree, p: Path, q: Path)
    requires Injective(t) && q in t && q != [] && Flat(p) <= Flat(q)
    ensures Parent(q) == p <==> p + [Flat(q)[|Flat(p)|..]] in t
    ensures Parent(q) == p ==> q == p + [Flat(q)[|Flat(p)|..]]
  {
    var name := Flat(q)[|Flat(p)|..];
    assert Flat(q) == Flat(p) + name;
    if Parent(q) == p {
      assert q == p + [Name(q)] && Name(q) == name;
    }
    if p + [name] in t {
      assert Parent(p + [name]) == p && Name(p + [name]) == name;
      assert SameKeySamePath(p + [name], q);
    }
  }

  /** A key is marked for p exactly when it is a direct entry of p. */
  lemma MarkedIffDirect(s: Store, t: Tree, p: Path, k: Key)
    requires Faithful(s, t) && StoreOk(s) && LengthsTell(t, p)
    requires p in t && t[p].Dir? && k in s && k != Flat(p)
    ensures Marked(s, Flat(p), k) <==> Flat(p) <= k && p + [k[|Flat(p)|..]] in t
    ensures Marked(s, Flat(p), k) ==> EntryAt(s, k) == ChildEntry(t, p, k[|Flat(p)|..])
  {
    if Flat(p) <= k {
      assert Decodes(t, k);
      var q :| q in t && Flat(q) == k;
      MarkedIffLength(s, t, p, q);
      DirectEntry(t, p, q);
      assert LengthTells(t, p, q);
      assert EntryOk(t, p);
    }
  }

  /** The entries from position i on are direct entries of p, in name order, and all those
      whose flat key is at position i or later. */
  ghost predicate ChildrenFrom(es: seq<Entry>, t: Tree, p: Path, keys: seq<Key>, i: nat) {
    && (forall n :: 0 <= n < |es| ==> IsChildAfter(es[n], t, p, keys, i))
    && (forall m, n {:trigger Less(es[m].name, es[n].name)} :: 0 <= m < n < |es| ==> Less(es[m].name, es[n].name))
    && (forall j {:trigger keys[j]} :: i <= j < |keys| ==> ChildAtIsListed(es, t, p, keys[j]))
  }

  ghost predicate IsChildAfter(e: Entry, t: Tree, p: Path, keys: seq<Key>, i: nat) {
    && p + [e.name] in t && e == ChildEntry(t, p, e.name)
    && exists j :: i <= j < |keys| && keys[j] == Flat(p) + e.name
  }

  ghost predicate ChildAtIsListed(es: seq<Entry>, t: Tree, p: Path, k: Key) {
    Flat(p) <= k && k != Flat(p) && p + [k[|Flat(p)|..]] in t ==> ChildEntry(t, p, k[|Flat(p)|..]) in es
  }

  lemma {:induction false} EntriesAreChildren(s: Store, t: Tree, p: Path, keys: seq<Key>, i: nat)
    requires Faithful(s, t) && StoreOk(s) && LengthsTell(t, p) && p in t && t[p].Dir?
    requires StrictlySorted(keys) && KeysOf(keys, s) && i <= |keys|
    ensures ChildrenFrom(Entries(s, Flat(p), keys, i), t, p, keys, i)
    decreases |keys| - i
  {
    if i < |keys| {
      EntriesAreChildren(s, t, p, keys, i + 1);
      var more := Entries(s, Flat(p), keys, i + 1);
      if keys[i] != Flat(p) {
        MarkedIffDirect(s, t, p, keys[i]);
      }
      if keys[i] != Flat(p) && Marked(s, Flat(p), keys[i]) {
        OneMoreChild(t, p, keys, i, more);
      } else {
        NoMoreChild(t, p, keys, i, more);
      }
    }
  }

  lemma NoMoreChild(t: Tree, p: Path, keys: seq<Key>, i: nat, more: seq<Entry>)
    requires i < |keys| && ChildrenFrom(more, t, p, keys, i + 1)
    requires keys[i] == Flat(p) || !(Flat(p) <= keys[i] && p + [keys[i][|Flat(p)|..]] in t)
    ensures ChildrenFrom(more, t, p, keys, i)
  {
    forall n | 0 <= n < |more| ensures IsChildAfter(more[n], t, p, keys, i) {
      assert IsChildAfter(more[n], t, p, keys, i + 1);
    }
    forall j | i <= j < |keys| ensures ChildAtIsListed(more, t, p, keys[j]) { }
  }

  lemma OneMoreChild(t: Tree, p: Path, keys: seq<Key>, i: nat, more: seq<Entry>)
    requires StrictlySorted(keys) && i < |keys| && ChildrenFrom(more, t, p, keys, i + 1)
    requires Flat(p) <= keys[i] && p + [keys[i][|Flat(p)|..]] in t
    ensures ChildrenFrom([ChildEntry(t, p, keys[i][|Flat(p)|..])] + more, t, p, keys, i)
  {
    var name := keys[i][|Flat(p)|..];
    var e := ChildEntry(t, p, name);
    var es := [e] + more;
    assert keys[i] == Flat(p) + name;
    assert IsChildAfter(e, t, p, keys, i);
    forall n | 0 <= n < |more| ensures Less(name, more[n].name) && IsChildAfter(more[n], t, p, keys, i) {
      assert IsChildAfter(more[n], t, p, keys, i + 1);
      var j :| i + 1 <= j < |keys| && keys[j] == Flat(p) + more[n].name;
      assert Less(keys[i], keys[j]);
      CommonPrefixKeepsOrder(Flat(p), name, more[n].name);
    }
    forall j | i <= j < |keys| ensures ChildAtIsListed(es, t, p, keys[j]) {
      if j == i {
        assert es[0] == e;
      } else {
        assert ChildAtIsListed(more, t, p, keys[j]);
      }
    }
  }

  /** The bucket at p, as a caller sees it: all its direct entries, once each, in name order. */
  ghost predicate IsListing(es: seq<Entry>, t: Tree, p: Path) {
    && (forall i :: 0 <= i < |es| ==> p + [es[i].name] in t && es[i] == ChildEntry(t, p, es[i].name))
    && (forall i, j {:trigger Less(es[i].name, es[j].name)} :: 0 <= i < j < |es| ==> Less(es[i].name, es[j].name))
    && (forall name :: p + [name] in t ==> ChildEntry(t, p, name) in es)
  }

  /** The flat key of a direct entry of p is among the keys of the store. */
  lemma ChildHasKey(s: Store, t: Tree, p: Path, name: Key)
    requires Faithful(s, t) && p in t && t[p].Dir? && p + [name] in t
    ensures name != [] && Flat(p) + name in s
    ensures (Flat(p) + name)[|Flat(p)|..] == name && Flat(p) <= Flat(p) + name != Flat(p)
  {
    assert EntryOk(t, p + [name]);
    assert (p + [name])[|p|] == name;
    assert Parent(p + [name]) == p && Name(p + [name]) == name;
    LookUp(s, t, p + [name]);
  }

  lemma ListingWhenLengthsTell(s: Store, t: Tree, p: Path, keys: seq<Key>)
    requires Faithful(s, t) && StoreOk(s) && LengthsTell(t, p) && p in t && t[p].Dir? && IsSnapshot(keys, s)
    ensures IsListing(Entries(s, Flat(p), keys, 0), t, p)
  {
    var es := Entries(s, Flat(p), keys, 0);
    EntriesAreChildren(s, t, p, keys, 0);
    forall i | 0 <= i < |es| ensures p + [es[i].name] in t && es[i] == ChildEntry(t, p, es[i].name) {
      assert IsChildAfter(es[i], t, p, keys, 0);
    }
    forall name | p + [name] in t ensures ChildEntry(t, p, name) in es {
      ChildHasKey(s, t, p, name);
      assert HasKey(keys, Flat(p) + name);
      var j :| 0 <= j < |keys| && keys[j] == Flat(p) + name;
      assert ChildAtIsListed(es, t, p, keys[j]);
    }
  }

  lemma ShortPrefixesTell(t: Tree, p: Path)
    requires WellFormed(t) && Injective(t) && ShortPrefixes(t) && p in t && t[p].Dir?
    ensures LengthsTell(t, p)
  {
    forall q | q in t ensures LengthTells(t, p, q) {
      if q != p && Flat(p) <= Flat(q) {
        assert EntryOk(t, q) && EntryOk(t, p);
        var c := if |q| == 1 then q else Parent(q);
        assert c in t && t[c].Dir? && Flat(c) <= Flat(q);
        assert SameKeySamePath(c, p);
        if |Flat(c)| == |Flat(p)| {
          assert Flat(c) == Flat(q)[..|Flat(c)|] == Flat(p);
        }
      }
    }
  }

  /** Listing a bucket of a faithful store with short prefixes yields exactly its direct
      entries, with nothing from nested or merely prefix-sharing buckets. */
  lemma ListingIsExact(s: Store, t: Tree, p: Path, keys: seq<Key>)
    requires Faithful(s, t) && ShortPrefixes(t) && StoreOk(s) && p in t && t[p].Dir? && IsSnapshot(keys, s)
    ensures IsListing(Entries(s, Flat(p), keys, 0), t, p)
  {
    ShortPrefixesTell(t, p);
    ListingWhenLengthsTell(s, t, p, keys);
  }

  lemma {:induction false} EntriesCollectsMarked(s: Store, prefix: Key, keys: seq<Key>, i: nat)
    requires StoreOk(s) && KeysOf(keys, s) && i <= |keys|
    ensures forall j :: i <= j < |keys| && keys[j] != prefix && Marked(s, prefix, keys[j]) ==>
              EntryAt(s, keys[j]) in Entries(s, prefix, keys, i)
    ensures |prefix| >= 256 ==> Entries(s, prefix, keys, i) == []
    decreases |keys| - i
  {
    if i < |keys| {
      EntriesCollectsMarked(s, prefix, keys, i + 1);
    }
  }

  /** An entry of another bucket whose length byte equals the length of p's prefix is listed
      under p. */
  lemma ForeignEntryIsListed(s: Store, t: Tree, p: Path, q: Path, keys: seq<Key>)
    requires Faithful(s, t) && StoreOk(s) && p in t && KeysOf(keys, s) && Flat(q) in keys
    requires q in t && q != p && Flat(p) <= Flat(q) && q != [] && Parent(q) != p
             && StoredItem(t, q).value[0] == |Flat(p)|
    ensures exists i :: && 0 <= i < |Entries(s, Flat(p), keys, 0)|
                        && Entries(s, Flat(p), keys, 0)[i].name == Flat(q)[|Flat(p)|..]
    ensures p + [Flat(q)[|Flat(p)|..]] !in t
  {
    MarkedIffLength(s, t, p, q);
    DirectEntry(t, p, q);
    assert SameKeySamePath(p, q);
    EntriesCollectsMarked(s, Flat(p), keys, 0);
    assert EntryAt(s, Flat(q)) in Entries(s, Flat(p), keys, 0);
  }

  lemma ListingContradicted(es: seq<Entry>, t: Tree, p: Path, name: Key)
    requires (es == [] && p + [name] in t) || (p + [name] !in t && exists i :: 0 <= i < |es| && es[i].name == name)
    ensures !IsListing(es, t, p)
  {
  }

  lemma DirectEntryIsMissed(s: Store, t: Tree, p: Path, q: Path, keys: seq<Key>)
    requires Faithful(s, t) && StoreOk(s) && q in t && q != [] && Parent(q) == p && |Flat(p)| >= 256 && KeysOf(keys, s)
    ensures !IsListing(Entries(s, Flat(p), keys, 0), t, p)
  {
    EntriesCollectsMarked(s, Flat(p), keys, 0);
    assert q == p + [Name(q)];
    ListingContradicted(Entries(s, Flat(p), keys, 0), t, p, Name(q));
  }

  lemma MisleadingLength(s: Store, t: Tree, p: Path, q: Path, keys: seq<Key>)
    requires Faithful(s, t) && StoreOk(s) && p in t && t[p].Dir? && q in t && !LengthTells(t, p, q)
             && IsSnapshot(keys, s)
    ensures !IsListing(Entries(s, Flat(p), keys, 0), t, p)
  {
    assert EntryOk(t, p);
    if Parent(q) == p {
      DirectEntryIsMissed(s, t, p, q, keys);
    } else {
      assert EntryStored(s, t, q) && HasKey(keys, Flat(q));
      ForeignEntryIsListed(s, t, p, q, keys);
      ListingContradicted(Entries(s, Flat(p), keys, 0), t, p, Flat(q)[|Flat(p)|..]);
    }
  }

  /** Prefixes of 256 bytes or more overflow the length byte.  Listing a bucket is exact if
      and only if that byte still tells its direct entries from all others. */
  lemma ListingIsExactIff(s: Store, t: Tree, p: Path, keys: seq<Key>)
    requires Faithful(s, t) && StoreOk(s) && p in t && t[p].Dir? && IsSnapshot(keys, s)
    ensures IsListing(Entries(s, Flat(p), keys, 0), t, p) <==> LengthsTell(t, p)
  {
    if LengthsTell(t, p) {
      ListingWhenLengthsTell(s, t, p, keys);
    } else {
      var q :| q in t && !LengthTells(t, p, q);
      MisleadingLength(s, t, p, q, keys);
    }
  }
}
