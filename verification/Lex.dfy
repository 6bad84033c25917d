/** Lexicographic comparison of vectors, as std::vector and std::string compare. */
module Lex {

  predicate Less(a: seq<int>, b: seq<int>) {
    if b == [] then false
    else if a == [] then true
    else a[0] < b[0] || (a[0] == b[0] && Less(a[1..], b[1..]))
  }

  predicate AtMost(a: seq<int>, b: seq<int>) {
    !Less(b, a)
  }

  /** The order is decided at the first difference; a proper prefix comes first. */
  ghost predicate FirstDiff(a: seq<int>, b: seq<int>, k: nat) {
    && k <= |a| && k <= |b| && a[..k] == b[..k]
    && (k < |a| && k < |b| ==> a[k] != b[k])
  }

  lemma {:induction false} DiffExists(a: seq<int>, b: seq<int>) returns (k: nat)
    ensures FirstDiff(a, b, k) && (k == |a| || k == |b| || a[k] != b[k])
  {
    if a == [] || b == [] || a[0] != b[0] {
      k := 0;
    } else {
      var m := DiffExists(a[1..], b[1..]);
      k := m + 1;
      assert a[..k] == [a[0]] + a[1..][..m] && b[..k] == [b[0]] + b[1..][..m];
    }
  }

  lemma {:induction false} LessAt(a: seq<int>, b: seq<int>, k: nat)
    requires FirstDiff(a, b, k)
    ensures Less(a, b) <==> k < |b| && (k == |a| || a[k] < b[k])
  {
    if k > 0 {
      assert a[0] == a[..k][0] && b[0] == b[..k][0];
      assert a[1..][..k - 1] == a[..k][1..] && b[1..][..k - 1] == b[..k][1..];
      LessAt(a[1..], b[1..], k - 1);
    }
  }

  lemma {:induction false} Irreflexive(a: seq<int>)
    ensures !Less(a, a)
  {
    if a != [] {
      Irreflexive(a[1..]);
    }
  }

  lemma {:induction false} Transitive(a: seq<int>, b: seq<int>, c: seq<int>)
    requires Less(a, b) && Less(b, c)
    ensures Less(a, c)
  {
    if a != [] && a[0] == b[0] && b[0] == c[0] {
      Transitive(a[1..], b[1..], c[1..]);
    }
  }

  lemma {:induction false} Total(a: seq<int>, b: seq<int>)
    ensures Less(a, b) || a == b || Less(b, a)
    ensures !(Less(a, b) && Less(b, a))
  {
    if a != [] && b != [] && a[0] == b[0] {
      Total(a[1..], b[1..]);
      assert a == [a[0]] + a[1..] && b == [b[0]] + b[1..];
    }
  }

  lemma {:induction false} AtMostTransitive(a: seq<int>, b: seq<int>, c: seq<int>)
    requires AtMost(a, b) && AtMost(b, c)
    ensures AtMost(a, c)
    ensures Less(a, b) || Less(b, c) ==> Less(a, c)
  {
    Total(a, b);
    Total(b, c);
    Total(a, c);
    if Less(a, b) && Less(b, c) {
      Transitive(a, b, c);
    }
  }
}
