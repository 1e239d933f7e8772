/** Go string order and the sorted listings built on it. */
module Ordering {
  import opened Bytes

  /** Byte-lexicographic order, as Go's < on strings. */
  predicate Less(a: Text, b: Text)
  {
    b != [] && (a == [] || a[0] < b[0] || (a[0] == b[0] && Less(a[1..], b[1..])))
  }

  lemma {:induction false} Trichotomy(a: Text, b: Text)
    ensures Less(a, b) || a == b || Less(b, a)
    ensures !(Less(a, b) && Less(b, a)) && !Less(a, a)
  {
    if a != [] && b != [] && a[0] == b[0] {
      Trichotomy(a[1..], b[1..]);
      assert a == [a[0]] + a[1..] && b == [b[0]] + b[1..];
    }
    if a != [] {
      Trichotomy(a[1..], a[1..]);
    }
  }

  lemma {:induction false} Transitive(a: Text, b: Text, c: Text)
    requires Less(a, b) && Less(b, c)
    ensures Less(a, c)
  {
    if a != [] && a[0] == b[0] && b[0] == c[0] {
      Transitive(a[1..], b[1..], c[1..]);
    }
  }

  /** Different keys print differently, so the order is total on `keys`. */
  ghost predicate Distinct<K(!new)>(keys: set<K>, print_: K -> Text)
  {
    forall a, b | a in keys && b in keys && a != b :: print_(a) != print_(b)
  }

  predicate IsLeast<K(==, !new)>(k: K, keys: set<K>, print_: K -> Text)
  {
    k in keys && forall other | other in keys && other != k :: Less(print_(k), print_(other))
  }

  lemma {:induction false} LeastExists<K(!new)>(keys: set<K>, print_: K -> Text)
    requires keys != {} && Distinct(keys, print_)
    ensures exists k :: IsLeast(k, keys, print_)
    ensures forall j, k | IsLeast(j, keys, print_) && IsLeast(k, keys, print_) :: j == k
    decreases |keys|
  {
    var pick :| pick in keys;
    var rest := keys - {pick};
    if rest == {} {
      assert keys == {pick};
      assert IsLeast(pick, keys, print_);
    } else {
      LeastExists(rest, print_);
      var least :| IsLeast(least, rest, print_);
      Trichotomy(print_(pick), print_(least));
      if Less(print_(pick), print_(least)) {
        forall other | other in keys && other != pick
          ensures Less(print_(pick), print_(other))
        {
          if other != least {
            assert other in rest;
            Transitive(print_(pick), print_(least), print_(other));
          }
        }
        assert IsLeast(pick, keys, print_);
      } else {
        assert IsLeast(least, keys, print_);
      }
    }
    forall j, k | IsLeast(j, keys, print_) && IsLeast(k, keys, print_)
      ensures j == k
    {
      Trichotomy(print_(j), print_(k));
    }
  }

  /** sort.Strings and sort.Slice over the keys of a Go map. */
  function Sorted<K(==, !new)>(keys: set<K>, print_: K -> Text): (listing: seq<K>)
    requires Distinct(keys, print_)
    ensures |listing| == |keys| && forall k :: k in listing <==> k in keys
    ensures Increasing(listing, print_)
  {
    if keys == {} then []
    else
      LeastExists(keys, print_);
      var least :| IsLeast(least, keys, print_);
      [least] + Sorted(keys - {least}, print_)
  }

  ghost predicate Increasing<K(!new)>(listing: seq<K>, print_: K -> Text)
  {
    forall i, j | 0 <= i < j < |listing| :: Less(print_(listing[i]), print_(listing[j]))
  }

  /** The listing is the only increasing one: what a sort returns is determined by the key set. */
  lemma {:induction false} SortedIsUnique<K(!new)>(listing: seq<K>, keys: set<K>, print_: K -> Text)
    requires Distinct(keys, print_)
    requires forall k :: k in listing <==> k in keys
    requires Increasing(listing, print_)
    ensures listing == Sorted(keys, print_)
  {
    if listing != [] {
      assert listing[0] in keys;
      var head, tail := listing[0], listing[1..];
      forall other | other in keys && other != head
        ensures Less(print_(head), print_(other))
      {
        assert other in listing;
        var i :| 0 <= i < |listing| && listing[i] == other;
      }
      LeastExists(keys, print_);
      assert IsLeast(head, keys, print_);
      forall k | k in tail
        ensures k in keys - {head}
      {
        var i :| 0 <= i < |tail| && tail[i] == k;
        assert listing[i + 1] == k;
        Trichotomy(print_(head), print_(head));
      }
      forall k | k in keys - {head}
        ensures k in tail
      {
        assert k in listing;
      }
      SortedIsUnique(tail, keys - {head}, print_);
      assert listing == [head] + tail;
    }
  }
}
