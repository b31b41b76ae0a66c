/**
 Composite keys of a Fabric chaincode stub: components in one string, each ended
 by U+0000. A component may contain neither U+0000 nor U+10FFFF.
 */
module CompositeKey {
  import opened Lex
  import opened Wrappers

  const MIN_RUNE: char := '\0'
  const MAX_RUNE: char := '\U{10FFFF}'

  predicate ValidPart(part: string) {
    MIN_RUNE !in part && MAX_RUNE !in part
  }

  predicate ValidParts(parts: seq<string>) {
    forall part :: part in parts ==> ValidPart(part)
  }

  function Join(parts: seq<string>): string {
    if parts == [] then [] else parts[0] + [MIN_RUNE] + Join(parts[1..])
  }

  function KeyOf(parts: seq<string>): string {
    [MIN_RUNE] + Join(parts)
  }

  function CreateCompositeKey(objectType: string, attributes: seq<string>): (r: Result<string>)
    ensures r.Ok? <==> ValidParts([objectType] + attributes)
  {
    if ValidParts([objectType] + attributes) then Ok(KeyOf([objectType] + attributes))
    else Err("input contains unicode U+0000 or U+10FFFF, which composite keys do not allow")
  }

  /** Up to the first U+0000 the two strings agree, so their first components do. */
  lemma {:induction false} PartCancel(a: string, b: string, x: string, y: string)
    requires ValidPart(a) && ValidPart(b)
    requires a + [MIN_RUNE] + x == b + [MIN_RUNE] + y
    ensures a == b && x == y
  {
    var left, right := a + [MIN_RUNE] + x, b + [MIN_RUNE] + y;
    if a == [] || b == [] {
      assert left[0] == right[0];
      assert a == [] && b == [];
      assert x == left[1..] && y == right[1..];
    } else {
      assert a[0] == left[0] == right[0] == b[0];
      assert a[1..] + [MIN_RUNE] + x == left[1..] == right[1..] == b[1..] + [MIN_RUNE] + y;
      PartCancel(a[1..], b[1..], x, y);
      assert a == [a[0]] + a[1..] && b == [b[0]] + b[1..];
    }
  }

  /** Equally many leading components can be read off a key in one way only. */
  lemma {:induction false} JoinCancel(p: seq<string>, q: seq<string>, x: string, y: string)
    requires |p| == |q| && ValidParts(p) && ValidParts(q)
    requires Join(p) + x == Join(q) + y
    ensures p == q && x == y
  {
    if p == [] {
      assert Join(p) + x == x && Join(q) + y == y;
    } else {
      var px, qy := Join(p[1..]) + x, Join(q[1..]) + y;
      assert p[0] + [MIN_RUNE] + px == Join(p) + x;
      assert q[0] + [MIN_RUNE] + qy == Join(q) + y;
      PartCancel(p[0], q[0], px, qy);
      JoinCancel(p[1..], q[1..], x, y);
      assert p == [p[0]] + p[1..] && q == [q[0]] + q[1..];
    }
  }

  lemma {:induction false} JoinAppend(p: seq<string>, q: seq<string>)
    ensures Join(p + q) == Join(p) + Join(q)
  {
    if p == [] {
      assert p + q == q;
    } else {
      JoinAppend(p[1..], q);
      assert (p + q)[1..] == p[1..] + q;
    }
  }

  // ---- Scans by a partial key --------------------------------------------

  /** Fabric scans the half-open key range from the partial key to the partial key followed by U+10FFFF. */
  predicate InScan(partial: string, key: string) {
    !Less(key, partial) && Less(key, partial + [MAX_RUNE])
  }

  /** The range holds exactly the keys that continue the partial key, U+10FFFF excepted. */
  lemma {:induction false} ScanIsPrefix(partial: string, key: string)
    ensures InScan(partial, key) <==>
      partial <= key && (key == partial || key[|partial|] < MAX_RUNE)
  {
    if partial == [] {
      assert partial + [MAX_RUNE] == [MAX_RUNE];
    } else if key != [] && key[0] == partial[0] {
      ScanIsPrefix(partial[1..], key[1..]);
      assert (partial + [MAX_RUNE])[1..] == partial[1..] + [MAX_RUNE];
      assert key == [key[0]] + key[1..] && partial == [partial[0]] + partial[1..];
      assert partial <= key <==> partial[1..] <= key[1..];
    } else {
      assert (partial + [MAX_RUNE])[0] == partial[0];
    }
  }

  lemma JoinStartsBelowMax(parts: seq<string>)
    requires parts != [] && ValidParts(parts)
    ensures Join(parts) != [] && Join(parts)[0] < MAX_RUNE
  {
    assert ValidPart(parts[0]);
    if parts[0] != [] { assert parts[0][0] in parts[0]; }
  }

  lemma PrefixByLeadingParts(asked: seq<string>, leading: seq<string>, tail: string)
    requires |asked| == |leading| && ValidParts(asked) && ValidParts(leading)
    ensures KeyOf(asked) <= KeyOf(leading) + tail <==> asked == leading
  {
    var partial, key := KeyOf(asked), KeyOf(leading) + tail;
    if partial <= key {
      var rest := key[|partial|..];
      assert key == partial + rest;
      assert key[1..] == Join(leading) + tail && key[1..] == Join(asked) + rest;
      JoinCancel(asked, leading, rest, tail);
    }
  }

  lemma ScanContinues(partial: string, tail: string)
    requires tail != [] && tail[0] < MAX_RUNE
    ensures InScan(partial, partial + tail)
  {
    ScanIsPrefix(partial, partial + tail);
    assert (partial + tail)[|partial|] == tail[0];
  }

  /** A longer composite key is scanned exactly when its leading components are those asked for. */
  lemma ScanSelectsByLeadingParts(asked: seq<string>, leading: seq<string>, rest: seq<string>)
    requires |asked| == |leading| && rest != []
    requires ValidParts(asked) && ValidParts(leading) && ValidParts(rest)
    ensures InScan(KeyOf(asked), KeyOf(leading + rest)) <==> asked == leading
  {
    var partial, tail := KeyOf(asked), Join(rest);
    JoinAppend(leading, rest);
    var key := KeyOf(leading) + tail;
    assert KeyOf(leading + rest) == key;
    JoinStartsBelowMax(rest);
    if asked == leading {
      ScanContinues(partial, tail);
    } else {
      PrefixByLeadingParts(asked, leading, tail);
      ScanIsPrefix(partial, key);
    }
  }

  /** Keys of one arity are equal only when all their components are. */
  lemma KeyInjective(p: seq<string>, q: seq<string>)
    requires |p| == |q| && ValidParts(p) && ValidParts(q)
    requires KeyOf(p) == KeyOf(q)
    ensures p == q
  {
    assert Join(p) == KeyOf(p)[1..] == KeyOf(q)[1..] == Join(q);
    assert Join(p) + [] == Join(q) + [];
    JoinCancel(p, q, [], []);
  }

  lemma TextsApart(a: string, b: string, x: string, y: string)
    requires ValidPart(a) && ValidPart(b) && a != b
    ensures !(a + [MIN_RUNE] + x <= b + [MIN_RUNE] + y)
  {
    var left, right := a + [MIN_RUNE] + x, b + [MIN_RUNE] + y;
    if left <= right {
      var tail := right[|left|..];
      assert right == left + tail == a + [MIN_RUNE] + (x + tail);
      PartCancel(a, b, x + tail, y);
    }
  }

  /** A key of one object type is never the beginning of a key of another, whatever the arities. */
  lemma NamespacesApart(p: seq<string>, q: seq<string>)
    requires p != [] && q != [] && p[0] != q[0]
    requires ValidPart(p[0]) && ValidPart(q[0])
    ensures !(KeyOf(p) <= KeyOf(q))
  {
    if KeyOf(p) <= KeyOf(q) {
      assert Join(p) == KeyOf(p)[1..] <= KeyOf(q)[1..] == Join(q);
      TextsApart(p[0], q[0], Join(p[1..]), Join(q[1..]));
    }
  }
}
