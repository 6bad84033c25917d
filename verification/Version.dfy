/** Version numbers of the property sheet (src/core/PropertySheet.cc and
    include/runos/PropertySheet.hpp): parsing, the normal form without trailing zeros,
    comparison, and interval checks. */
module Version {
  import Lex

  // ---------------------------------------------------------------------------
  // The normal form
  // ---------------------------------------------------------------------------

  function Strip(parts: seq<int>): (r: seq<int>)
    ensures parts != [] ==> r != []
  {
    if |parts| > 1 && parts[|parts| - 1] == 0 then Strip(parts[..|parts| - 1]) else parts
  }

  /** Part i of a version continued by zeros for ever. */
  function At(a: seq<int>, i: nat): int {
    if i < |a| then a[i] else 0
  }

  ghost predicate Agree(a: seq<int>, b: seq<int>, k: nat) {
    forall i: nat :: i < k ==> At(a, i) == At(b, i)
  }

  /** The order of versions as infinite sequences. */
  ghost predicate PaddedLess(a: seq<int>, b: seq<int>) {
    exists k: nat :: Agree(a, b, k) && At(a, k) < At(b, k)
  }

  ghost predicate PaddedEqual(a: seq<int>, b: seq<int>) {
    forall i: nat :: At(a, i) == At(b, i)
  }

  ghost predicate NonNegative(a: seq<int>) {
    forall i :: 0 <= i < |a| ==> a[i] >= 0
  }

  lemma {:induction false} StripPadded(a: seq<int>)
    ensures forall i: nat :: At(Strip(a), i) == At(a, i)
    ensures |Strip(a)| > 1 ==> Strip(a)[|Strip(a)| - 1] != 0
    ensures NonNegative(a) ==> NonNegative(Strip(a))
  {
    if |a| > 1 && a[|a| - 1] == 0 {
      StripPadded(a[..|a| - 1]);
      assert forall i: nat :: At(a[..|a| - 1], i) == At(a, i);
    }
  }

  /** Appending ".0" changes nothing. */
  lemma {:induction false} StripAppendZero(a: seq<int>)
    requires a != []
    ensures Strip(a + [0]) == Strip(a)
  {
    assert (a + [0])[..|a|] == a;
  }

  /** b goes on after a, and its first further part that is not zero is negative. */
  ghost predicate NegativeTail(a: seq<int>, b: seq<int>) {
    && |a| < |b| && b[..|a|] == a
    && exists k :: |a| <= k < |b| && b[k] < 0 && forall i :: |a| <= i < k ==> b[i] == 0
  }

  // Two padded sequences compare by their first difference.
  lemma {:induction false} PaddedAt(a: seq<int>, b: seq<int>, k: nat)
    requires Agree(a, b, k) && At(a, k) != At(b, k)
    ensures PaddedLess(a, b) <==> At(a, k) < At(b, k)
  {
    if PaddedLess(a, b) {
      var m: nat :| Agree(a, b, m) && At(a, m) < At(b, m);
      assert m == k;
    }
  }

  lemma {:induction false} FirstNonZero(b: seq<int>, from: nat) returns (k: nat)
    requires from < |b| && b[|b| - 1] != 0
    ensures from <= k < |b| && b[k] != 0 && forall i :: from <= i < k ==> b[i] == 0
    decreases |b| - from
  {
    if b[from] != 0 {
      k := from;
    } else {
      k := FirstNonZero(b, from + 1);
    }
  }

  // The prefix case: vectors say "less"; padded they compare by the first part that counts.
  lemma {:induction false} PrefixCase(a: seq<int>, b: seq<int>)
    requires a != [] && |a| < |b| && b[..|a|] == a && b[|b| - 1] != 0
    ensures Lex.Less(a, b) && !Lex.Less(b, a)
    ensures PaddedLess(a, b) <==> !NegativeTail(a, b)
    ensures PaddedLess(b, a) <==> NegativeTail(a, b)
  {
    assert Lex.FirstDiff(a, b, |a|) && Lex.FirstDiff(b, a, |a|);
    Lex.LessAt(a, b, |a|);
    Lex.LessAt(b, a, |a|);
    var k := FirstNonZero(b, |a|);
    forall i: nat | i < k ensures At(a, i) == At(b, i) {
      assert i < |a| ==> b[..|a|][i] == b[i];
    }
    assert Agree(a, b, k) && Agree(b, a, k);
    PaddedAt(a, b, k);
    PaddedAt(b, a, k);
  }

  // The other case: both orders look at the same difference.
  lemma {:induction false} DiffCase(a: seq<int>, b: seq<int>, k: nat)
    requires Lex.FirstDiff(a, b, k) && k < |a| && k < |b|
    ensures Lex.Less(a, b) <==> PaddedLess(a, b)
    ensures !NegativeTail(a, b) && !NegativeTail(b, a)
  {
    Lex.LessAt(a, b, k);
    forall i: nat | i < k ensures At(a, i) == At(b, i) {
      assert a[..k][i] == b[..k][i];
    }
    assert Agree(a, b, k);
    PaddedAt(a, b, k);
    assert |a| < |b| ==> b[..|a|][k] == b[k];
    assert |b| < |a| ==> a[..|b|][k] == a[k];
  }

  lemma {:induction false} SamePadded(a: seq<int>, b: seq<int>, c: seq<int>, d: seq<int>)
    requires PaddedEqual(a, c) && PaddedEqual(b, d)
    ensures PaddedLess(a, b) <==> PaddedLess(c, d)
  {
    forall k: nat ensures Agree(a, b, k) <==> Agree(c, d, k) {
      if Agree(a, b, k) {
        forall i: nat | i < k ensures At(c, i) == At(d, i) { assert At(a, i) == At(b, i); }
      }
      if Agree(c, d, k) {
        forall i: nat | i < k ensures At(a, i) == At(b, i) { assert At(c, i) == At(d, i); }
      }
    }
    if k: nat :| Agree(a, b, k) && At(a, k) < At(b, k) {
      assert Agree(c, d, k) && At(c, k) < At(d, k);
    }
    if k: nat :| Agree(c, d, k) && At(c, k) < At(d, k) {
      assert Agree(a, b, k) && At(a, k) < At(b, k);
    }
  }

  /** Comparing the stripped vectors is comparing the padded sequences, except exactly when
      one goes on after the other with a negative part (which std::stoll lets through). */
  lemma {:induction false} OrderExactly(a: seq<int>, b: seq<int>)
    requires a != [] && b != []
    ensures (Lex.Less(Strip(a), Strip(b)) <==> PaddedLess(a, b)) <==>
            !NegativeTail(Strip(a), Strip(b)) && !NegativeTail(Strip(b), Strip(a))
  {
    var s, t := Strip(a), Strip(b);
    StripPadded(a);
    StripPadded(b);
    SamePadded(s, t, a, b);
    var k := Lex.DiffExists(s, t);
    if k < |s| && k < |t| {
      DiffCase(s, t, k);
    } else if |s| < |t| {
      assert t[..|s|] == s;
      PrefixCase(s, t);
    } else if |t| < |s| {
      assert s[..|t|] == t;
      PrefixCase(t, s);
    } else {
      assert s == t;
      Lex.Irreflexive(s);
    }
  }

  /** "1" comes before "1.-1" as vectors, and after it once both are padded with zeros. */
  lemma {:induction false} NegativePartMisorders()
    ensures Lex.Less(Strip([1]), Strip([1, -1])) && PaddedLess([1, -1], [1]) && !PaddedLess([1], [1, -1])
  {
    assert Strip([1]) == [1] && Strip([1, -1]) == [1, -1];
    assert [1, -1][..1] == [1];
    PrefixCase([1], [1, -1]);
    assert NegativeTail([1], [1, -1]) by { assert [1, -1][1] < 0; }
  }

  lemma {:induction false} NonNegativeTail(a: seq<int>, b: seq<int>)
    requires NonNegative(a) && NonNegative(b)
    ensures !NegativeTail(a, b)
  {
  }

  /** For ordinary versions the order is the padded one, equality is padded equality, and
      exactly one of less, equal and greater holds. */
  lemma {:induction false} OrderIsPadded(a: seq<int>, b: seq<int>)
    requires a != [] && b != [] && NonNegative(a) && NonNegative(b)
    ensures Lex.Less(Strip(a), Strip(b)) <==> PaddedLess(a, b)
    ensures Strip(a) == Strip(b) <==> PaddedEqual(a, b)
    ensures PaddedLess(a, b) || PaddedEqual(a, b) || PaddedLess(b, a)
    ensures !(PaddedLess(a, b) && PaddedLess(b, a))
  {
    StripPadded(a);
    StripPadded(b);
    NonNegativeTail(Strip(a), Strip(b));
    NonNegativeTail(Strip(b), Strip(a));
    OrderExactly(a, b);
    OrderExactly(b, a);
    Lex.Total(Strip(a), Strip(b));
    if PaddedEqual(a, b) {
      assert !PaddedLess(a, b) && !PaddedLess(b, a);
    }
  }

  // ---------------------------------------------------------------------------
  // Interval checks
  // ---------------------------------------------------------------------------

  // An empty bound is absent.
  datatype Checker = Checker(low: seq<int>, lowStrict: bool, high: seq<int>, highStrict: bool)

  /** The check on normal forms, with the comparisons of vectors. */
  function Check(c: Checker, v: seq<int>): bool {
    if v == [] then true
    else
      var lowOk := c.low == [] || (if c.lowStrict then Lex.Less(c.low, v) else !Lex.Less(v, c.low));
      var highOk := c.high == [] || (if c.highStrict then Lex.Less(v, c.high) else !Lex.Less(c.high, v));
      lowOk && highOk
  }

  /** It decides the interval of padded versions. */
  lemma {:induction false} CheckDecides(low: seq<int>, lowStrict: bool, high: seq<int>, highStrict: bool, v: seq<int>)
    requires v != [] && NonNegative(v) && NonNegative(low) && NonNegative(high)
    ensures Check(Checker(Strip(low), lowStrict, Strip(high), highStrict), Strip(v)) <==>
            && (low == [] || PaddedLess(low, v) || (!lowStrict && PaddedEqual(low, v)))
            && (high == [] || PaddedLess(v, high) || (!highStrict && PaddedEqual(v, high)))
  {
    if low != [] {
      OrderIsPadded(low, v);
      OrderIsPadded(v, low);
      Lex.Total(Strip(low), Strip(v));
    }
    if high != [] {
      OrderIsPadded(high, v);
      OrderIsPadded(v, high);
      Lex.Total(Strip(high), Strip(v));
    }
  }

  // ---------------------------------------------------------------------------
  // Parsing
  // ---------------------------------------------------------------------------

  function IndexOf(s: string, c: char): (i: nat)
    ensures i <= |s| && (i < |s| ==> s[i] == c)
    ensures forall j :: 0 <= j < i ==> s[j] != c
  {
    if s == [] || s[0] == c then 0 else 1 + IndexOf(s[1..], c)
  }

  predicate NoDot(s: string) {
    forall i :: 0 <= i < |s| ==> s[i] != '.'
  }

  /** The pieces between dots; nothing follows a final dot. */
  function Split(s: string): seq<string>
    decreases |s|
  {
    if s == [] then []
    else
      var dot := IndexOf(s, '.');
      if dot == |s| then [s] else [s[..dot]] + Split(s[dot + 1..])
  }

  function Join(parts: seq<string>): string {
    if parts == [] then []
    else if |parts| == 1 then parts[0]
    else parts[0] + ['.'] + Join(parts[1..])
  }

  lemma {:induction false} SplitFirst(part: string, rest: string)
    requires NoDot(part)
    ensures Split(part + ['.'] + rest) == [part] + Split(rest)
  {
    var s := part + ['.'] + rest;
    assert s[..|part|] == part && s[|part|] == '.' && s[|part| + 1..] == rest;
    assert IndexOf(s, '.') == |part|;
  }

  lemma {:induction false} SplitWhole(part: string)
    requires NoDot(part) && part != []
    ensures Split(part) == [part]
  {
    assert IndexOf(part, '.') == |part|;
  }

  /** Splitting undoes joining, as long as no piece has a dot and the last is not empty. */
  lemma {:induction false} SplitJoin(parts: seq<string>)
    requires parts != [] && parts[|parts| - 1] != [] && forall i :: 0 <= i < |parts| ==> NoDot(parts[i])
    ensures Split(Join(parts)) == parts
    decreases |parts|
  {
    if |parts| == 1 {
      SplitWhole(parts[0]);
    } else {
      SplitJoin(parts[1..]);
      SplitFirst(parts[0], Join(parts[1..]));
      assert parts == [parts[0]] + parts[1..];
    }
  }

  lemma {:induction false} SplitAtDot(s: string)
    ensures s != [] ==>
              var dot := IndexOf(s, '.');
              if dot == |s| then NoDot(s) && Split(s) == [s]
              else s == s[..dot] + ['.'] + s[dot + 1..] && Split(s) == [s[..dot]] + Split(s[dot + 1..])
  {
    assert s[..|s|] == s;
  }

  lemma {:induction false} SplitAppendMore(part: string, rest: string, last: string)
    requires NoDot(part) && Split(rest + ['.'] + last) == Split(rest) + [last]
    ensures Split(part + ['.'] + rest + ['.'] + last) == Split(part + ['.'] + rest) + [last]
  {
    var x := rest + ['.'] + last;
    assert part + ['.'] + rest + ['.'] + last == part + ['.'] + x;
    SplitFirst(part, x);
    SplitFirst(part, rest);
    assert [part] + (Split(rest) + [last]) == [part] + Split(rest) + [last];
  }

  /** A text that does not end in a dot, continued by a dot and one more piece. */
  lemma {:induction false} SplitAppend(s: string, last: string)
    requires s != [] && s[|s| - 1] != '.' && last != [] && NoDot(last)
    ensures Split(s + ['.'] + last) == Split(s) + [last]
    decreases |s|
  {
    var dot := IndexOf(s, '.');
    if dot == |s| {
      SplitWhole(last);
      SplitWhole(s);
      SplitFirst(s, last);
    } else {
      var part, rest := s[..dot], s[dot + 1..];
      assert s == part + ['.'] + rest;
      assert rest != [] && rest[|rest| - 1] == s[|s| - 1];
      SplitAppend(rest, last);
      SplitAppendMore(part, rest, last);
    }
  }

  // The number a piece stands for; None where std::stoll throws.
  datatype Number = None | Some(value: int)

  datatype Parsed = Invalid | Parts(parts: seq<int>)

  function Numbers(pieces: seq<string>, stoll: string -> Number): Parsed {
    if pieces == [] then Parts([])
    else
      var n := |pieces| - 1;
      match Numbers(pieces[..n], stoll)
      case Invalid => Invalid
      case Parts(ps) =>
        match stoll(pieces[n])
        case None => Invalid
        case Some(x) => Parts(ps + [x])
  }

  function Parse(s: string, stoll: string -> Number): Parsed {
    match Numbers(Split(s), stoll)
    case Invalid => Invalid
    case Parts(ps) => Parts(Strip(ps))
  }

  lemma {:induction false} NumbersLength(pieces: seq<string>, stoll: string -> Number)
    ensures Numbers(pieces, stoll).Parts? ==> |Numbers(pieces, stoll).parts| == |pieces|
  {
    if pieces != [] {
      NumbersLength(pieces[..|pieces| - 1], stoll);
    }
  }

  /** A text is rejected iff some piece is no number, and otherwise read piece by piece. */
  lemma {:induction false} NumbersExactly(pieces: seq<string>, stoll: string -> Number)
    ensures Numbers(pieces, stoll).Parts? <==> forall i :: 0 <= i < |pieces| ==> stoll(pieces[i]).Some?
    ensures Numbers(pieces, stoll).Parts? ==>
              && |Numbers(pieces, stoll).parts| == |pieces|
              && forall i :: 0 <= i < |pieces| ==> stoll(pieces[i]) == Some(Numbers(pieces, stoll).parts[i])
  {
    if pieces != [] {
      NumbersExactly(pieces[..|pieces| - 1], stoll);
    }
  }

  /** "2.3" and "2.3.0" parse to the same version, or are both rejected. */
  lemma {:induction false} ParseAppendZero(s: string, stoll: string -> Number)
    requires s != [] && s[|s| - 1] != '.' && stoll("0") == Some(0)
    ensures Parse(s + ['.'] + "0", stoll) == Parse(s, stoll)
  {
    SplitAppend(s, "0");
    var pieces := Split(s);
    assert (pieces + ["0"])[..|pieces|] == pieces;
    NumbersLength(pieces, stoll);
    if Numbers(pieces, stoll).Parts? {
      StripAppendZero(Numbers(pieces, stoll).parts);
    }
  }

  // The first piece of a text and what follows its dot.
  function FirstPiece(s: string): string {
    s[..IndexOf(s, '.')]
  }

  function AfterPiece(s: string): string {
    var dot := IndexOf(s, '.');
    if dot < |s| then s[dot + 1..] else []
  }

  lemma {:induction false} SplitPiece(s: string)
    requires s != []
    ensures Split(s) == [FirstPiece(s)] + Split(AfterPiece(s)) && |AfterPiece(s)| < |s|
  {
    SplitAtDot(s);
    if IndexOf(s, '.') == |s| {
      assert FirstPiece(s) == s && Split([]) == [];
    }
  }

  // The pieces seen so far, read as parts, and the text still to split.
  ghost predicate Reading(text: string, seen: seq<string>, s: string, parts: seq<int>, stoll: string -> Number) {
    seen + Split(s) == Split(text) && Numbers(seen, stoll) == Parts(parts)
  }

  lemma {:induction false} ReadPiece(text: string, seen: seq<string>, s: string, parts: seq<int>, stoll: string -> Number)
    requires Reading(text, seen, s, parts, stoll) && s != []
    ensures match stoll(FirstPiece(s))
            case None => Numbers(Split(text), stoll) == Invalid
            case Some(x) => Reading(text, seen + [FirstPiece(s)], AfterPiece(s), parts + [x], stoll)
  {
    hide Split, Numbers, FirstPiece, AfterPiece;
    var part, rest := FirstPiece(s), AfterPiece(s);
    SplitPiece(s);
    assert seen + ([part] + Split(rest)) == seen + [part] + Split(rest);
    NumbersSnoc(seen, part, stoll);
    if stoll(part).None? {
      InvalidStays(seen + [part], Split(rest), stoll);
    }
  }

  /** The constructor's first loop: take pieces off the front of the text. */
  method ParsePieces(text: string, stoll: string -> Number) returns (r: Parsed)
    ensures r == Numbers(Split(text), stoll)
  {
    hide Split, Numbers;
    var s := text;
    var parts: seq<int> := [];
    ghost var seen: seq<string> := [];
    StartReading(text, stoll);
    while s != []
      invariant Reading(text, seen, s, parts, stoll)
      decreases |s|
    {
      hide Reading;
      ReadPiece(text, seen, s, parts, stoll);
      SplitPiece(s);
      var dot := IndexOf(s, '.');
      var part := s[..dot];
      seen := seen + [part];
      s := if dot < |s| then s[dot + 1..] else [];
      match stoll(part) {
        case None => return Invalid;
        case Some(x) => parts := parts + [x];
      }
    }
    StopReading(text, seen, parts, stoll);
    r := Parts(parts);
  }

  lemma {:induction false} StartReading(text: string, stoll: string -> Number)
    ensures Reading(text, [], text, [], stoll)
  {
    assert [] + Split(text) == Split(text);
  }

  lemma {:induction false} StopReading(text: string, seen: seq<string>, parts: seq<int>, stoll: string -> Number)
    requires Reading(text, seen, [], parts, stoll)
    ensures Numbers(Split(text), stoll) == Parts(parts)
  {
    assert seen + [] == seen;
  }

  lemma {:induction false} NumbersSnoc(seen: seq<string>, part: string, stoll: string -> Number)
    requires Numbers(seen, stoll).Parts?
    ensures Numbers(seen + [part], stoll) ==
            match stoll(part)
            case None => Invalid
            case Some(x) => Parts(Numbers(seen, stoll).parts + [x])
  {
    assert (seen + [part])[..|seen|] == seen;
  }

  /** The constructor: parse, then take zeros off the back. */
  method NewVersion(text: string, stoll: string -> Number) returns (r: Parsed)
    ensures r == Parse(text, stoll)
  {
    r := ParsePieces(text, stoll);
    if r.Invalid? {
      return;
    }
    var parts := r.parts;
    while |parts| > 1 && parts[|parts| - 1] == 0
      invariant Strip(parts) == Strip(r.parts)
      decreases |parts|
    {
      parts := parts[..|parts| - 1];
    }
    r := Parts(parts);
  }

  lemma {:induction false} InvalidStays(a: seq<string>, b: seq<string>, stoll: string -> Number)
    requires Numbers(a, stoll) == Invalid
    ensures Numbers(a + b, stoll) == Invalid
  {
    if b == [] {
      assert a + b == a;
    } else {
      InvalidStays(a, b[..|b| - 1], stoll);
      assert (a + b)[..|a + b| - 1] == a + b[..|b| - 1];
    }
  }
}
