/** Go's order on strings, and the ascending list of a set of keys. */
module ByteOrder {
  predicate Less(a: string, b: string) {
    b != [] && (a == [] || a[0] < b[0] || (a[0] == b[0] && Less(a[1..], b[1..])))
  }

  ghost predicate Ascending(ks: seq<string>) {
    forall i, j :: 0 <= i < j < |ks| ==> Less(ks[i], ks[j])
  }

  lemma {:induction false} LessTotal(a: string, b: string)
    ensures a == b || Less(a, b) || Less(b, a)
    ensures !(Less(a, b) && Less(b, a)) && !Less(a, a)
    decreases |a|
  {
    if a != [] && b != [] {
      LessTotal(a[1..], b[1..]);
      LessTotal(a[1..], a[1..]);
      assert a[0] == b[0] && a[1..] == b[1..] ==> a == [a[0]] + a[1..] == b;
    } else if a != [] {
      LessTotal(a[1..], a[1..]);
    }
  }

  lemma {:induction false} LessTransitive(a: string, b: string, c: string)
    requires Less(a, b) && Less(b, c)
    ensures Less(a, c)
    decreases |a|
  {
    if a != [] && a[0] == b[0] == c[0] { LessTransitive(a[1..], b[1..], c[1..]); }
  }

  ghost predicate IsLeast(k: string, ks: set<string>) {
    k in ks && forall k' :: k' in ks && k' != k ==> Less(k, k')
  }

  lemma {:induction false} LeastExists(ks: set<string>)
    requires ks != {}
    ensures exists k :: IsLeast(k, ks)
    decreases |ks|
  {
    var x :| x in ks;
    var rest := ks - {x};
    assert forall k :: k in ks && k != x ==> k in rest;
    if rest == {} {
      assert IsLeast(x, ks);
    } else {
      LeastExists(rest);
      var k :| IsLeast(k, rest);
      LessTotal(x, k);
      if Less(x, k) {
        forall k' | k' in ks && k' != x ensures Less(x, k') {
          if k' != k { LessTransitive(x, k, k'); }
        }
        assert IsLeast(x, ks);
      } else {
        assert IsLeast(k, ks);
      }
    }
  }

  /** The keys in ascending byte order. */
  ghost function Sorted(ks: set<string>): (r: seq<string>)
    ensures Ascending(r) && forall k :: k in r <==> k in ks
    decreases |ks|
  {
    if ks == {} then []
    else
      LeastExists(ks);
      var k :| IsLeast(k, ks);
      var tail := Sorted(ks - {k});
      assert forall i :: 0 <= i < |tail| ==> tail[i] in tail;
      [k] + tail
  }

  lemma AscendingDistinct(ks: seq<string>)
    requires Ascending(ks)
    ensures forall i, j :: 0 <= i < j < |ks| ==> ks[i] != ks[j]
  {
    forall i, j | 0 <= i < j < |ks| ensures ks[i] != ks[j] { LessTotal(ks[i], ks[j]); }
  }

  /** Ascending lists of the same keys are equal, so the order is determined. */
  lemma {:induction false} AscendingUnique(a: seq<string>, b: seq<string>)
    requires Ascending(a) && Ascending(b) && forall k :: k in a <==> k in b
    ensures a == b
    decreases |a|
  {
    assert b != [] ==> b[0] in b;
    if a != [] {
      assert a[0] in a && a[0] in b;
      assert b[0] in b && b[0] in a;
      LessTotal(a[0], b[0]);
      AscendingDistinct(a);
      AscendingDistinct(b);
      assert a[0] == b[0];
      forall k ensures k in a[1..] <==> k in b[1..] {
        assert k in a[1..] ==> k in a && k != a[0];
        assert k in b[1..] ==> k in b && k != b[0];
      }
      AscendingUnique(a[1..], b[1..]);
    }
  }
}
