/**
 Strict lexicographic order on strings, and strictly sorted enumerations.
 A key/value store iterates its keys in this order; text timestamps compare by it.
 */
module Lex {

  predicate Less(a: string, b: string) {
    b != [] && (a == [] || a[0] < b[0] || (a[0] == b[0] && Less(a[1..], b[1..])))
  }

  lemma {:induction false} LessIrreflexive(a: string)
    ensures !Less(a, a)
  {
    if a != [] { LessIrreflexive(a[1..]); }
  }

  lemma {:induction false} LessTransitive(a: string, b: string, c: string)
    requires Less(a, b) && Less(b, c)
    ensures Less(a, c)
  {
    if a != [] && a[0] == b[0] && b[0] == c[0] { LessTransitive(a[1..], b[1..], c[1..]); }
  }

  lemma LessAsymmetric(a: string, b: string)
    requires Less(a, b)
    ensures !Less(b, a)
  {
    if Less(b, a) {
      LessTransitive(a, b, a);
      LessIrreflexive(a);
    }
  }

  lemma {:induction false} LessTotal(a: string, b: string)
    ensures a == b || Less(a, b) || Less(b, a)
  {
    if a != [] && b != [] && a[0] == b[0] {
      LessTotal(a[1..], b[1..]);
      assert a == [a[0]] + a[1..] && b == [b[0]] + b[1..];
    }
  }

  lemma LessTail(a: string, b: string)
    requires a != [] && b != [] && a[0] == b[0]
    ensures Less(a, b) <==> Less(a[1..], b[1..])
  {
  }

  lemma DropConcat(p: string, a: string)
    requires p != []
    ensures (p + a)[0] == p[0] && (p + a)[1..] == p[1..] + a
  {
  }

  /** A common prefix does not influence the order. */
  lemma {:induction false} LessCommonPrefix(p: string, a: string, b: string)
    ensures Less(p + a, p + b) <==> Less(a, b)
  {
    if p == [] {
      assert p + a == a && p + b == b;
    } else {
      LessCommonPrefix(p[1..], a, b);
      DropConcat(p, a);
      DropConcat(p, b);
      LessTail(p + a, p + b);
    }
  }

  /** Between strings of one length the first difference decides, whatever follows. */
  lemma {:induction false} LessExtends(a: string, b: string, x: string, y: string)
    requires Less(a, b) && |a| == |b|
    ensures Less(a + x, b + y)
  {
    assert (a + x)[0] == a[0] && (b + y)[0] == b[0];
    if a[0] == b[0] {
      LessExtends(a[1..], b[1..], x, y);
      assert (a + x)[1..] == a[1..] + x && (b + y)[1..] == b[1..] + y;
    }
  }

  ghost predicate SortedBy<T(!new)>(less: (T, T) -> bool, s: seq<T>) {
    forall i, j :: 0 <= i < j < |s| ==> less(s[i], s[j])
  }

  ghost predicate SameElements<T(!new)>(s: seq<T>, t: seq<T>) {
    forall x :: x in s <==> x in t
  }

  /** A strict order leaves one way to list a collection. */
  lemma {:induction false} SortedUnique<T(!new)>(less: (T, T) -> bool, s: seq<T>, t: seq<T>)
    requires forall x, y :: less(x, y) ==> !less(y, x)
    requires SortedBy(less, s) && SortedBy(less, t) && SameElements(s, t)
    ensures s == t
  {
    FirstIsLeast(less, s);
    FirstIsLeast(less, t);
    if s != [] && t != [] {
      assert s[0] == t[0];
      TailElements(less, s);
      TailElements(less, t);
      SortedUnique(less, s[1..], t[1..]);
      assert s == [s[0]] + s[1..] && t == [t[0]] + t[1..];
    }
  }

  lemma FirstIsLeast<T(!new)>(less: (T, T) -> bool, s: seq<T>)
    requires SortedBy(less, s)
    ensures s != [] ==> s[0] in s
    ensures forall x :: x in s ==> x == s[0] || less(s[0], x)
  {
  }

  lemma TailElements<T(!new)>(less: (T, T) -> bool, s: seq<T>)
    requires forall x, y :: less(x, y) ==> !less(y, x)
    requires s != [] && SortedBy(less, s)
    ensures forall x :: x in s[1..] <==> x in s && x != s[0]
  {
    forall x | x in s[1..] ensures less(s[0], x) {
      var i :| 0 <= i < |s[1..]| && s[1..][i] == x;
      assert x == s[i + 1];
    }
    assert s == [s[0]] + s[1..];
  }

  predicate IsLeast(k: string, keys: set<string>) {
    k in keys && forall other :: other in keys && other != k ==> Less(k, other)
  }

  lemma {:induction false} LeastExists(keys: set<string>)
    requires keys != {}
    ensures exists k :: IsLeast(k, keys)
    decreases |keys|
  {
    var x :| x in keys;
    if keys == {x} {
      assert IsLeast(x, keys);
    } else {
      LeastExists(keys - {x});
      var k :| IsLeast(k, keys - {x});
      LessTotal(k, x);
      if Less(x, k) {
        forall other | other in keys && other != x ensures Less(x, other) {
          if other != k { LessTransitive(x, k, other); }
        }
        assert IsLeast(x, keys);
      } else {
        assert IsLeast(k, keys);
      }
    }
  }

  lemma LeastUnique(keys: set<string>)
    ensures forall a, b :: IsLeast(a, keys) && IsLeast(b, keys) ==> a == b
  {
    forall a, b | IsLeast(a, keys) && IsLeast(b, keys) ensures a == b {
      if a != b { LessAsymmetric(a, b); }
    }
  }

  function Least(keys: set<string>): (k: string)
    requires keys != {}
    ensures IsLeast(k, keys)
  {
    LeastExists(keys);
    LeastUnique(keys);
    var k :| k in keys && IsLeast(k, keys);
    k
  }

  /** The keys in ascending order: what an iterator over an ordered store yields. */
  function Ascending(keys: set<string>): (s: seq<string>)
    ensures SortedBy(Less, s)
    ensures forall k :: k in s <==> k in keys
    decreases |keys|
  {
    if keys == {} then []
    else
      var k := Least(keys);
      var rest := Ascending(keys - {k});
      SortedCons(k, rest);
      [k] + rest
  }

  lemma SortedCons(k: string, rest: seq<string>)
    requires SortedBy(Less, rest) && forall x :: x in rest ==> Less(k, x)
    ensures SortedBy(Less, [k] + rest)
  {
  }
}
