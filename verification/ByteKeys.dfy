/** Byte-string keys in the order a Badger iterator visits them. */
module ByteKeys {
  type Byte = x: int | 0 <= x < 256
  type Key = seq<Byte>

  /** Byte-wise lexicographic order. */
  predicate Less(a: Key, b: Key) {
    if b == [] then false
    else if a == [] then true
    else if a[0] != b[0] then a[0] < b[0]
    else Less(a[1..], b[1..])
  }

  /** The first byte that differs decides, and a proper prefix comes first. */
  lemma {:induction false} FirstDifferenceDecides(a: Key, b: Key)
    ensures Less(a, b) <==>
              || (a <= b && a != b)
              || exists i :: 0 <= i < |a| && i < |b| && a[..i] == b[..i] && a[i] < b[i]
  {
    if a != [] && b != [] && a[0] == b[0] {
      FirstDifferenceDecides(a[1..], b[1..]);
      assert a == [a[0]] + a[1..] && b == [b[0]] + b[1..];
      if i :| 0 <= i < |a[1..]| && i < |b[1..]| && a[1..][..i] == b[1..][..i] && a[1..][i] < b[1..][i] {
        assert a[..i + 1] == [a[0]] + a[1..][..i] && b[..i + 1] == [b[0]] + b[1..][..i];
        assert a[i + 1] < b[i + 1];
      }
      if i :| 0 < i < |a| && i < |b| && a[..i] == b[..i] && a[i] < b[i] {
        assert a[..i][1..] == a[1..][..i - 1] && b[..i][1..] == b[1..][..i - 1];
        assert a[1..][i - 1] < b[1..][i - 1];
      }
    } else if a != [] && b != [] {
      assert a[..0] == b[..0];
      forall i | 0 < i < |a| && i < |b| ensures a[..i] != b[..i] {
        assert a[..i][0] != b[..i][0];
      }
    }
  }

  lemma {:induction false} LessIsTotal(a: Key, b: Key)
    ensures Less(a, b) || a == b || Less(b, a)
    ensures !(Less(a, b) && Less(b, a))
    ensures !Less(a, a)
  {
    if a != [] && b != [] {
      LessIsTotal(a[1..], b[1..]);
      LessIsTotal(a[1..], a[1..]);
      if a[0] == b[0] && a[1..] == b[1..] {
        assert a == [a[0]] + a[1..] == b;
      }
    } else if a != [] {
      LessIsTotal(a[1..], a[1..]);
    }
  }

  lemma {:induction false} LessIsTransitive(a: Key, b: Key, c: Key)
    requires Less(a, b) && Less(b, c)
    ensures Less(a, c)
  {
    if a != [] && a[0] == b[0] == c[0] {
      LessIsTransitive(a[1..], b[1..], c[1..]);
    }
  }

  lemma {:induction false} CommonPrefixKeepsOrder(p: Key, a: Key, b: Key)
    ensures Less(p + a, p + b) <==> Less(a, b)
  {
    if p == [] {
      assert p + a == a && p + b == b;
    } else {
      CommonPrefixKeepsOrder(p[1..], a, b);
      assert (p + a)[1..] == p[1..] + a && (p + b)[1..] == p[1..] + b;
    }
  }

  /** Keys that share a prefix are contiguous: between the prefix itself and any key that has
      it there is no key without it. */
  lemma {:induction false} PrefixIsContiguous(p: Key, b: Key, c: Key)
    requires p <= c && !Less(b, p) && (b == c || Less(b, c))
    ensures p <= b
  {
    if p != [] && b != [] && b[0] == p[0] {
      assert p[1..] <= c[1..];
      PrefixIsContiguous(p[1..], b[1..], c[1..]);
      assert p == [p[0]] + p[1..] && b == [b[0]] + b[1..];
    }
  }

  lemma {:induction false} PrefixIsLeast(p: Key, c: Key)
    requires p <= c
    ensures !Less(c, p)
  {
    if p != [] {
      PrefixIsLeast(p[1..], c[1..]);
    }
  }

  predicate StrictlySorted(keys: seq<Key>) {
    forall i, j {:trigger Less(keys[i], keys[j])} :: 0 <= i < j < |keys| ==> Less(keys[i], keys[j])
  }

  predicate IsLeast(s: set<Key>, m: Key) {
    m in s && forall k :: k in s ==> !Less(k, m)
  }

  lemma LeastExists(s: set<Key>)
    requires s != {}
    ensures exists m :: IsLeast(s, m)
  {
    var m :| m in s;
    LessIsTotal(m, m);
    var rest := s - {m};
    if rest == {} {
      assert s == {m};
      assert IsLeast(s, m);
    } else {
      LeastExists(rest);
      var n :| IsLeast(rest, n);
      LessIsTotal(m, n);
      if Less(n, m) {
        assert IsLeast(s, n);
      } else {
        forall k | k in s ensures !Less(k, m) {
          if Less(k, m) && n != m {
            LessIsTransitive(k, m, n);
          }
        }
        assert IsLeast(s, m);
      }
    }
  }

  lemma LeastIsUnique(s: set<Key>, m: Key, n: Key)
    requires IsLeast(s, m) && IsLeast(s, n)
    ensures m == n
  {
    LessIsTotal(m, n);
  }

  function Least(s: set<Key>): (m: Key)
    requires s != {}
    ensures IsLeast(s, m)
  {
    LeastExists(s);
    assert forall m, n :: IsLeast(s, m) && IsLeast(s, n) ==> m == n by {
      forall m, n | IsLeast(s, m) && IsLeast(s, n) ensures m == n {
        LeastIsUnique(s, m, n);
      }
    }
    var m :| m in s && IsLeast(s, m);
    m
  }

  /** The keys of a snapshot in iteration order. */
  function SortedKeys(s: set<Key>): (keys: seq<Key>)
    ensures StrictlySorted(keys)
    ensures forall k :: k in keys <==> k in s
  {
    if s == {} then []
    else
      var m := Least(s);
      var rest := SortedKeys(s - {m});
      assert forall k :: k in rest ==> Less(m, k) by {
        forall k | k in rest ensures Less(m, k) {
          LessIsTotal(m, k);
        }
      }
      [m] + rest
  }
}
