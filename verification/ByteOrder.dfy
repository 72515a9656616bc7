/** The byte order of strings, and the sorted list of a set of keys. */
module ByteOrder {
  import opened Bytes

  predicate Less(a: ByteString, b: ByteString)
    decreases |a|
  {
    b != [] && (a == [] || a[0] < b[0] || (a[0] == b[0] && Less(a[1..], b[1..])))
  }

  lemma {:induction false} LessTotal(a: ByteString, b: ByteString)
    ensures a == b || Less(a, b) || Less(b, a)
    ensures !(Less(a, b) && Less(b, a)) && !Less(a, a)
    decreases |a|
  {
    if a != [] && b != [] && a[0] == b[0] {
      LessTotal(a[1..], b[1..]);
      LessTotal(a[1..], a[1..]);
      assert a == [a[0]] + a[1..] && b == [b[0]] + b[1..];
    } else if a != [] {
      LessTotal(a[1..], a[1..]);
    }
  }

  lemma {:induction false} LessTransitive(a: ByteString, b: ByteString, c: ByteString)
    requires Less(a, b) && Less(b, c)
    ensures Less(a, c)
    decreases |a|
  {
    if a != [] && a[0] == b[0] == c[0] {
      LessTransitive(a[1..], b[1..], c[1..]);
    }
  }

  predicate Least(k: ByteString, keys: set<ByteString>) {
    k in keys && forall j :: j in keys ==> j == k || Less(k, j)
  }

  lemma {:induction false} LeastExists(keys: set<ByteString>)
    requires keys != {}
    ensures exists k :: Least(k, keys)
    decreases |keys|
  {
    var k :| k in keys;
    var rest := keys - {k};
    if rest == {} {
      assert forall j :: j in keys ==> j == k || j in rest;
      assert Least(k, keys);
    } else {
      LeastExists(rest);
      var m :| Least(m, rest);
      LessTotal(k, m);
      if Less(m, k) {
        assert Least(m, keys);
      } else {
        forall j | j in keys ensures j == k || Less(k, j) {
          if j != k && j != m {
            LessTransitive(k, m, j);
          }
        }
        assert Least(k, keys);
      }
    }
  }

  lemma LeastUnique(k: ByteString, j: ByteString, keys: set<ByteString>)
    requires Least(k, keys) && Least(j, keys)
    ensures k == j
  {
    LessTotal(k, j);
  }

  /** The keys in ascending byte order. */
  function Sorted(keys: set<ByteString>): (s: seq<ByteString>)
    ensures forall k :: k in s <==> k in keys
    ensures |s| == |keys|
    decreases |keys|
  {
    if keys == {} then []
    else
      LeastExists(keys);
      assert forall k, j :: Least(k, keys) && Least(j, keys) ==> k == j by {
        forall k, j | Least(k, keys) && Least(j, keys) ensures k == j {
          LeastUnique(k, j, keys);
        }
      }
      var k :| Least(k, keys);
      [k] + Sorted(keys - {k})
  }

  predicate Ascending(s: seq<ByteString>) {
    forall i, j :: 0 <= i < j < |s| ==> Less(s[i], s[j])
  }

  lemma {:induction false} SortedAscends(keys: set<ByteString>)
    ensures Ascending(Sorted(keys))
    decreases |keys|
  {
    if keys != {} {
      var s := Sorted(keys);
      var k := s[0];
      assert Least(k, keys) && s[1..] == Sorted(keys - {k});
      SortedAscends(keys - {k});
      forall i, j | 0 <= i < j < |s| ensures Less(s[i], s[j]) {
        assert s[j] == s[1..][j - 1];
        assert s[j] in keys - {k};
        if i > 0 {
          assert s[i] == s[1..][i - 1];
        }
      }
    }
  }

  /** Any ascending list of the keys is the sorted one. */
  lemma {:induction false} SortedUnique(s: seq<ByteString>, keys: set<ByteString>)
    requires Ascending(s) && forall k :: k in s <==> k in keys
    ensures s == Sorted(keys)
    decreases |s|
  {
    if s == [] {
      assert keys == {};
    } else {
      assert s[0] in keys;
      forall j | j in keys ensures j == s[0] || Less(s[0], j) {
        assert j in s;
      }
      assert Least(s[0], keys);
      LeastUnique(s[0], Sorted(keys)[0], keys);
      var rest := keys - {s[0]};
      forall k ensures k in s[1..] <==> k in rest {
        if k in s[1..] {
          var i :| 0 <= i < |s[1..]| && s[1..][i] == k;
          assert s[i + 1] == k;
          LessTotal(s[0], k);
        }
      }
      SortedUnique(s[1..], rest);
    }
  }
}
