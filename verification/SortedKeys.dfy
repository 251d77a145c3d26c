/** The keys of an ordered map, kept in ascending order. */
module SortedKeys {
  predicate Ascending(keys: seq<int>) {
    forall i, j :: 0 <= i < j < |keys| ==> keys[i] < keys[j]
  }

  function WithKey(keys: seq<int>, c: int): seq<int> {
    if keys == [] || c < keys[0] then [c] + keys
    else if keys[0] == c then keys
    else [keys[0]] + WithKey(keys[1..], c)
  }

  lemma AscendsFrom(k: int, keys: seq<int>)
    requires Ascending(keys) && forall x :: x in keys ==> k < x
    ensures Ascending([k] + keys)
  {
    forall i, j | 0 <= i < j < |[k] + keys|
      ensures ([k] + keys)[i] < ([k] + keys)[j]
    {
      assert ([k] + keys)[j] == keys[j - 1] && keys[j - 1] in keys;
    }
  }

  lemma {:induction false} WithKeyHas(keys: seq<int>, c: int)
    requires Ascending(keys)
    ensures forall x :: x in WithKey(keys, c) <==> x == c || x in keys
    ensures Ascending(WithKey(keys, c))
  {
    if keys == [] || c < keys[0] {
      AscendsFrom(c, keys);
    } else if c > keys[0] {
      var rest := WithKey(keys[1..], c);
      WithKeyHas(keys[1..], c);
      assert keys == [keys[0]] + keys[1..];
      forall x | x in rest
        ensures keys[0] < x
      {
        if x != c {
          var k :| 0 <= k < |keys[1..]| && keys[1..][k] == x;
          assert keys[k + 1] == x;
        }
      }
      AscendsFrom(keys[0], rest);
    }
  }

  /** Keys in ascending order are different, so there are no more than of those they are taken from. */
  lemma {:induction false} FewKeys(keys: seq<int>, ids: set<int>)
    requires Ascending(keys) && forall x :: x in keys ==> x in ids
    ensures |keys| <= |ids|
    decreases |keys|
  {
    if keys != [] {
      var last := |keys| - 1;
      var c := keys[last];
      forall x | x in keys[..last]
        ensures x in ids - {c}
      {
        var k :| 0 <= k < last && keys[k] == x;
        assert keys[k] < keys[last];
      }
      FewKeys(keys[..last], ids - {c});
      assert c in keys;
      assert |ids| == |ids - {c}| + 1;
    }
  }
}
