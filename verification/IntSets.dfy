/** Picking from finite sets of ids. */
module IntSets {

  predicate IsLeast(k: int, keys: set<int>)
  {
    k in keys && forall j | j in keys :: k <= j
  }

  lemma Pick<K>(keys: set<K>) returns (k: K)
    requires keys != {}
    ensures k in keys
  {
    k :| k in keys;
  }

  lemma KeyOf<K, V>(m: map<K, V>, v: V) returns (k: K)
    requires v in m.Values
    ensures k in m && m[k] == v
  {
    k :| k in m && m[k] == v;
  }

  lemma {:induction false} LeastExists(keys: set<int>)
    requires keys != {}
    ensures exists k :: IsLeast(k, keys)
    decreases |keys|
  {
    var pick := Pick(keys);
    var rest := keys - {pick};
    assert keys == rest + {pick};
    if rest == {} {
      assert IsLeast(pick, keys);
    } else {
      LeastExists(rest);
      var least :| IsLeast(least, rest);
      assert IsLeast(if pick < least then pick else least, keys);
    }
  }

  function Least(keys: set<int>): (k: int)
    requires keys != {}
    ensures IsLeast(k, keys)
  {
    LeastExists(keys);
    var k :| IsLeast(k, keys);
    k
  }
}
