/** The interval-list identifier allocator (include/runos/IdGen.hpp, src/core/IdGen.cc).

    The pool is a sequence of half-open segments.  Everything is stated against the
    set of identifiers the segments denote, never against the segments themselves. */
module IdGen {

  const U64: int := 0x1_0000_0000_0000_0000

  type uint64 = x: int | 0 <= x < 0x1_0000_0000_0000_0000

  datatype Order = Forward | Backward

  datatype Segment = Segment(first: uint64, last: uint64)

  datatype Error = InvalidArgument | PoolIsEmpty | DoubleRelease | TooMany | OutOfRange | AlreadyUsed

  datatype Grant = Granted(id: uint64) | Denied(error: Error)

  datatype Outcome = Done | Failed(error: Error)

  // Unsigned 64-bit arithmetic wraps around.
  function Plus(a: uint64, b: uint64): uint64 {
    if a + b < U64 then a + b else a + b - U64
  }

  function Minus(a: uint64, b: uint64): uint64 {
    if a >= b then a - b else a - b + U64
  }

  // ---------------------------------------------------------------------------
  // What a pool denotes
  // ---------------------------------------------------------------------------

  ghost predicate Holds(p: seq<Segment>, x: int) {
    exists i :: 0 <= i < |p| && p[i].first <= x < p[i].last
  }

  ghost function Ids(p: seq<Segment>): set<int> {
    set x: int | 0 <= x < U64 && Holds(p, x)
  }

  ghost predicate Between(a: int, x: int, b: int) {
    a <= x < b
  }

  ghost function Range(a: int, b: int): set<int> {
    set x: int | a <= x < b && Between(a, x, b)
  }

  /** Sorted, with a gap of at least one identifier between neighbours. */
  ghost predicate Separated(p: seq<Segment>) {
    && (forall i :: 0 <= i < |p| ==> p[i].first <= p[i].last)
    && (forall i, j :: 0 <= i < j < |p| ==> p[i].last < p[j].first)
  }

  ghost predicate NonEmpty(p: seq<Segment>) {
    forall i :: 0 <= i < |p| ==> p[i].first < p[i].last
  }

  ghost predicate Within(p: seq<Segment>, lo: int, hi: int) {
    forall i :: 0 <= i < |p| ==> lo <= p[i].first < hi && p[i].last <= hi
  }

  lemma IdsConcat(a: seq<Segment>, b: seq<Segment>)
    ensures Ids(a + b) == Ids(a) + Ids(b)
  {
    forall x ensures Holds(a + b, x) <==> Holds(a, x) || Holds(b, x) {
      if i :| 0 <= i < |a| && a[i].first <= x < a[i].last {
        assert (a + b)[i] == a[i];
      }
      if i :| 0 <= i < |b| && b[i].first <= x < b[i].last {
        assert (a + b)[|a| + i] == b[i];
      }
    }
  }

  lemma IdsSingle(s: Segment)
    ensures Ids([s]) == Range(s.first, s.last)
  {
    forall x ensures Holds([s], x) <==> Between(s.first, x, s.last) {
      if s.first <= x < s.last {
        assert [s][0].first <= x < [s][0].last;
      }
    }
  }

  lemma IdsPair(s: Segment, t: Segment)
    ensures Ids([s, t]) == Range(s.first, s.last) + Range(t.first, t.last)
  {
    assert [s, t] == [s] + [t];
    IdsConcat([s], [t]);
    IdsSingle(s);
    IdsSingle(t);
  }

  lemma IdsNone()
    ensures Ids([]) == {}
  {
  }

  lemma RangeSize(a: int, b: int)
    requires a <= b
    ensures |Range(a, b)| == b - a
    decreases b - a
  {
    if a < b {
      RangeSize(a, b - 1);
      assert Range(a, b) == Range(a, b - 1) + {b - 1};
    } else {
      assert Range(a, b) == {};
    }
  }

  function Total(p: seq<Segment>): int {
    if p == [] then 0 else Total(p[..|p| - 1]) + (p[|p| - 1].last - p[|p| - 1].first)
  }

  lemma {:induction false} LastApart(p: seq<Segment>)
    requires Separated(p) && p != []
    ensures var q, s := p[..|p| - 1], p[|p| - 1];
            Separated(q) && s.first <= s.last && Ids(q) !! Range(s.first, s.last)
  {
  }

  /** The sum of the segment lengths counts the identifiers. */
  lemma {:induction false} TotalCountsIds(p: seq<Segment>)
    requires Separated(p)
    ensures Total(p) == |Ids(p)|
  {
    if p == [] {
      IdsNone();
    } else {
      var k := |p| - 1;
      var q, s := p[..k], p[k];
      LastApart(p);
      hide Ids, Separated, Range;
      TotalCountsIds(q);
      assert p == q + [s];
      IdsConcat(q, [s]);
      IdsSingle(s);
      RangeSize(s.first, s.last);
    }
  }

  lemma IdsWithin(p: seq<Segment>, lo: int, hi: int)
    requires Within(p, lo, hi)
    ensures Ids(p) <= Range(lo, hi)
  {
    forall x | Holds(p, x) ensures Between(lo, x, hi) {}
  }

  // ---------------------------------------------------------------------------
  // Every edit of the pool replaces a stretch p[k..m] by a new piece
  // ---------------------------------------------------------------------------

  function Edit(p: seq<Segment>, k: nat, m: nat, piece: seq<Segment>): seq<Segment>
    requires k <= m <= |p|
  {
    p[..k] + piece + p[m..]
  }

  // The piece is itself separated and leaves a gap to both neighbours.
  ghost predicate Fits(p: seq<Segment>, k: nat, m: nat, piece: seq<Segment>)
    requires k <= m <= |p|
  {
    && Separated(piece)
    && (k > 0 ==> forall j :: 0 <= j < |piece| ==> p[k - 1].last < piece[j].first)
    && (m < |p| ==> forall j :: 0 <= j < |piece| ==> piece[j].last < p[m].first)
  }

  ghost predicate Cross(a: seq<Segment>, b: seq<Segment>) {
    forall i, j :: 0 <= i < |a| && 0 <= j < |b| ==> a[i].last < b[j].first
  }

  lemma SeparatedConcat(a: seq<Segment>, b: seq<Segment>)
    requires Separated(a) && Separated(b) && Cross(a, b)
    ensures Separated(a + b)
  {
  }

  lemma WithinConcat(a: seq<Segment>, b: seq<Segment>, lo: int, hi: int)
    requires Within(a, lo, hi) && Within(b, lo, hi)
    ensures Within(a + b, lo, hi)
  {
  }

  // The parts of a separated pool on either side of a stretch, and the piece between.
  lemma Surroundings(p: seq<Segment>, k: nat, m: nat, piece: seq<Segment>)
    requires k <= m <= |p| && Separated(p) && Fits(p, k, m, piece)
    ensures Separated(p[..k]) && Separated(p[m..]) && Cross(p[..k], p[m..])
    ensures Cross(p[..k], piece) && Cross(piece, p[m..])
  {
    var a, c := p[..k], p[m..];
    forall i, j | 0 <= i < |a| && 0 <= j < |piece| ensures a[i].last < piece[j].first {
      assert i < k - 1 ==> p[i].last < p[k - 1].first;
    }
    forall i, j | 0 <= i < |piece| && 0 <= j < |c| ensures piece[i].last < c[j].first {
      assert m < m + j ==> p[m].last < p[m + j].first;
    }
  }

  lemma EditKeepsSeparated(p: seq<Segment>, k: nat, m: nat, piece: seq<Segment>, lo: int, hi: int)
    requires k <= m <= |p| && Separated(p) && Fits(p, k, m, piece)
    requires Within(p, lo, hi) && Within(piece, lo, hi)
    ensures Separated(Edit(p, k, m, piece)) && Within(Edit(p, k, m, piece), lo, hi)
  {
    var a, c := p[..k], p[m..];
    Surroundings(p, k, m, piece);
    SeparatedConcat(a, piece);
    CrossConcat(a, piece, c);
    SeparatedConcat(a + piece, c);
    WithinConcat(a, piece, lo, hi);
    WithinConcat(a + piece, c, lo, hi);
  }

  lemma CrossConcat(a: seq<Segment>, b: seq<Segment>, c: seq<Segment>)
    requires Cross(a, c) && Cross(b, c)
    ensures Cross(a + b, c)
  {
  }

  lemma EditNonEmpty(p: seq<Segment>, k: nat, m: nat, piece: seq<Segment>)
    requires k <= m <= |p|
    ensures NonEmpty(Edit(p, k, m, piece)) <==> NonEmpty(p[..k]) && NonEmpty(piece) && NonEmpty(p[m..])
    ensures NonEmpty(p) <==> NonEmpty(p[..k]) && NonEmpty(p[k..m]) && NonEmpty(p[m..])
  {
    NonEmptyConcat(p[..k] + piece, p[m..]);
    NonEmptyConcat(p[..k], piece);
    assert p == p[..k] + p[k..m] + p[m..];
    NonEmptyConcat(p[..k] + p[k..m], p[m..]);
    NonEmptyConcat(p[..k], p[k..m]);
  }

  lemma NonEmptyConcat(a: seq<Segment>, b: seq<Segment>)
    ensures NonEmpty(a + b) <==> NonEmpty(a) && NonEmpty(b)
  {
    if NonEmpty(a + b) {
      forall i | 0 <= i < |a| ensures a[i].first < a[i].last { assert (a + b)[i] == a[i]; }
      forall i | 0 <= i < |b| ensures b[i].first < b[i].last { assert (a + b)[|a| + i] == b[i]; }
    }
  }

  lemma EditIds(p: seq<Segment>, k: nat, m: nat, piece: seq<Segment>)
    requires k <= m <= |p|
    ensures Ids(Edit(p, k, m, piece)) == Ids(p[..k]) + Ids(piece) + Ids(p[m..])
    ensures Ids(p) == Ids(p[..k]) + Ids(p[k..m]) + Ids(p[m..])
  {
    IdsConcat(p[..k] + piece, p[m..]);
    IdsConcat(p[..k], piece);
    assert p == p[..k] + p[k..m] + p[m..];
    IdsConcat(p[..k] + p[k..m], p[m..]);
    IdsConcat(p[..k], p[k..m]);
  }

  lemma EditAdds(p: seq<Segment>, k: nat, m: nat, piece: seq<Segment>, id: int)
    requires k <= m <= |p| && Ids(piece) == Ids(p[k..m]) + {id}
    ensures Ids(Edit(p, k, m, piece)) == Ids(p) + {id}
  {
    EditIds(p, k, m, piece);
  }

  lemma EditRemoves(p: seq<Segment>, k: nat, piece: seq<Segment>, id: int)
    requires k < |p| && Separated(p) && p[k].first <= id < p[k].last
    requires Ids(piece) == Range(p[k].first, p[k].last) - {id}
    ensures Ids(Edit(p, k, k + 1, piece)) == Ids(p) - {id}
  {
    EditIds(p, k, k + 1, piece);
    assert p[k..k + 1] == [p[k]];
    IdsSingle(p[k]);
    assert !Holds(p[..k], id);
    assert !Holds(p[k + 1..], id);
  }

  // The first segment of a separated pool starts at the least identifier and the last one
  // ends at the greatest, unless that segment is empty.
  lemma Extremes(p: seq<Segment>)
    requires Separated(p) && p != []
    ensures p[0].first < p[0].last ==> IsLeast(p[0].first, Ids(p))
    ensures p[|p| - 1].first < p[|p| - 1].last ==> IsGreatest(p[|p| - 1].last - 1, Ids(p))
    ensures p[0].first == p[0].last ==> p[0].first !in Ids(p)
    ensures p[|p| - 1].first == p[|p| - 1].last ==> Minus(p[|p| - 1].last, 1) !in Ids(p)
  {
    if p[0].first < p[0].last {
      assert Holds(p, p[0].first);
    }
    var n := |p| - 1;
    if p[n].first < p[n].last {
      assert Holds(p, p[n].last - 1);
    }
  }

  // A shrunk segment is erased once it is empty.
  function Trim(s: Segment): seq<Segment> {
    if s.first == s.last then [] else [s]
  }

  lemma TrimIds(s: Segment)
    ensures Ids(Trim(s)) == Range(s.first, s.last)
  {
    IdsNone();
    IdsSingle(s);
  }

  // Shrinking segment k by the identifier at one of its ends.
  lemma Shrink(p: seq<Segment>, k: nat, s: Segment, id: int, lo: int, hi: int)
    requires k < |p| && Separated(p) && Within(p, lo, hi)
    requires p[k].first <= s.first <= s.last <= p[k].last
    requires p[k].first <= id < p[k].last && Range(s.first, s.last) == Range(p[k].first, p[k].last) - {id}
    ensures var q := Edit(p, k, k + 1, Trim(s));
            && Ids(q) == Ids(p) - {id} && Separated(q) && Within(q, lo, hi)
            && (NonEmpty(p) <==> NonEmpty(q))
  {
    TrimIds(s);
    EditRemoves(p, k, Trim(s), id);
    EditKeepsSeparated(p, k, k + 1, Trim(s), lo, hi);
    EditNonEmpty(p, k, k + 1, Trim(s));
  }

  /** What acquire does to a non-empty pool, in wrapping arithmetic. */
  function Take(p: seq<Segment>, order: Order): (uint64, seq<Segment>)
    requires p != []
  {
    var n := |p| - 1;
    match order
    case Backward =>
      var back := p[n].(last := Minus(p[n].last, 1));
      (back.last, Edit(p, n, n + 1, Trim(back)))
    case Forward =>
      var front := p[0].(first := Plus(p[0].first, 1));
      (p[0].first, Edit(p, 0, 1, Trim(front)))
  }

  predicate EdgeUsable(p: seq<Segment>, order: Order) {
    p != [] &&
    match order
    case Forward => p[0].first < p[0].last
    case Backward => p[|p| - 1].first < p[|p| - 1].last
  }

  ghost predicate IsExtreme(x: int, s: set<int>, order: Order) {
    if order.Forward? then IsLeast(x, s) else IsGreatest(x, s)
  }

  /** The identifier taken was free exactly when the edge segment was not empty. */
  lemma TakesFreeId(p: seq<Segment>, order: Order)
    requires p != [] && Separated(p)
    ensures Take(p, order).0 in Ids(p) <==> EdgeUsable(p, order)
    ensures EdgeUsable(p, order) ==> IsExtreme(Take(p, order).0, Ids(p), order)
  {
    Extremes(p);
  }

  lemma RangeEnds(a: int, b: int)
    requires a < b
    ensures Range(a + 1, b) == Range(a, b) - {a} && Range(a, b - 1) == Range(a, b) - {b - 1}
  {
  }

  /** From a usable edge it takes that identifier and nothing else. */
  lemma TakeRemovesId(p: seq<Segment>, order: Order, lo: int, hi: int)
    requires EdgeUsable(p, order) && Separated(p) && Within(p, lo, hi)
    ensures var (id, q) := Take(p, order);
            && Ids(q) == Ids(p) - {id}
            && Separated(q) && Within(q, lo, hi) && (NonEmpty(p) <==> NonEmpty(q))
  {
    var k := if order.Forward? then 0 else |p| - 1;
    var s := if order.Forward? then p[0].(first := p[0].first + 1) else p[k].(last := p[k].last - 1);
    RangeEnds(p[k].first, p[k].last);
    Shrink(p, k, s, Take(p, order).0, lo, hi);
  }

  ghost predicate IsLeast(x: int, s: set<int>) {
    x in s && forall y :: y in s ==> x <= y
  }

  ghost predicate IsGreatest(x: int, s: set<int>) {
    x in s && forall y :: y in s ==> y <= x
  }

  /** Whether n acquires in a row hand out only identifiers that are free at that moment. */
  ghost predicate OnlyFree(p: seq<Segment>, order: Order, n: nat)
    decreases n
  {
    n == 0 || p == [] || (Take(p, order).0 in Ids(p) && OnlyFree(Take(p, order).1, order, n - 1))
  }

  ghost predicate Pool(p: seq<Segment>, lo: int, hi: int) {
    Separated(p) && Within(p, lo, hi)
  }

  // What an acquire does, in terms of the set denoted.
  ghost predicate Granting(p: seq<Segment>, id: uint64, q: seq<Segment>, lo: int, hi: int) {
    if id in Ids(p) then Pool(q, lo, hi) && (NonEmpty(p) <==> NonEmpty(q)) && |Ids(q)| < |Ids(p)|
    else !NonEmpty(p)
  }

  lemma {:induction false} TakeGrants(p: seq<Segment>, order: Order, lo: int, hi: int)
    requires p != [] && Pool(p, lo, hi)
    ensures Granting(p, Take(p, order).0, Take(p, order).1, lo, hi)
  {
    assert NonEmpty(p) ==> EdgeUsable(p, order);
    TakesFreeId(p, order);
    hide Ids, Separated, Within, NonEmpty, Take, EdgeUsable, IsExtreme;
    if EdgeUsable(p, order) {
      TakeRemovesId(p, order, lo, hi);
      SubsetSmaller(Ids(Take(p, order).1), Ids(p));
    }
  }

  lemma {:induction false} OnlyFreeIfNonEmpty(p: seq<Segment>, order: Order, lo: int, hi: int, n: nat)
    requires Pool(p, lo, hi) && NonEmpty(p)
    ensures OnlyFree(p, order, n)
    decreases n
  {
    hide Ids, Pool, NonEmpty, Take;
    if n > 0 && p != [] {
      TakeGrants(p, order, lo, hi);
      OnlyFreeIfNonEmpty(Take(p, order).1, order, lo, hi, n - 1);
    }
  }

  // Acquires eat up the usable segments and come to an empty one.
  lemma {:induction false} BadGrantAhead(p: seq<Segment>, order: Order, lo: int, hi: int) returns (n: nat)
    requires Pool(p, lo, hi) && !NonEmpty(p)
    ensures !OnlyFree(p, order, n)
    decreases |Ids(p)|
  {
    EmptyPool();
    hide Ids, Pool, NonEmpty, Take;
    TakeGrants(p, order, lo, hi);
    n := 0;
    if Take(p, order).0 in Ids(p) {
      n := BadGrantAhead(Take(p, order).1, order, lo, hi);
    }
    n := n + 1;
  }

  lemma {:induction false} EmptyPool()
    ensures NonEmpty([])
  {
  }

  lemma {:induction false} SubsetSmaller(a: set<int>, b: set<int>)
    requires a < b
    ensures |a| < |b|
  {
    SubsetSize(b - a, b);
    assert b == a + (b - a) && a !! b - a;
    assert b - a != {};
  }

  /** Acquires never hand out an identifier in use iff no segment is empty. */
  lemma {:induction false} OnlyFreeExactly(p: seq<Segment>, order: Order, lo: int, hi: int)
    requires Separated(p) && Within(p, lo, hi)
    ensures (forall n: nat :: OnlyFree(p, order, n)) <==> NonEmpty(p)
  {
    hide OnlyFree, Separated, Within, NonEmpty;
    assert Pool(p, lo, hi);
    if NonEmpty(p) {
      forall n: nat ensures OnlyFree(p, order, n) {
        OnlyFreeIfNonEmpty(p, order, lo, hi, n);
      }
    } else {
      var n := BadGrantAhead(p, order, lo, hi);
    }
  }

  // ---------------------------------------------------------------------------
  // Taking one identifier out of the middle of a segment (recovery)
  // ---------------------------------------------------------------------------

  // What is left of a segment of which one identifier is booked: the code drops a
  // singleton, shortens the segment, or splits it.
  function Remainder(s: Segment, id: uint64): seq<Segment>
    requires s.first <= id < s.last
  {
    if s.first + 1 == s.last then []
    else if id + 1 != s.last then [Segment(s.first, id), Segment(id + 1, s.last)]
    else [Segment(s.first, id)]
  }

  function Book(p: seq<Segment>, k: nat, id: uint64): seq<Segment>
    requires k < |p| && p[k].first <= id < p[k].last
  {
    Edit(p, k, k + 1, Remainder(p[k], id))
  }

  lemma RemainderIds(s: Segment, id: uint64)
    requires s.first <= id < s.last
    ensures Ids(Remainder(s, id)) == Range(s.first, s.last) - {id}
  {
    if s.first + 1 == s.last {
      IdsNone();
    } else if id + 1 != s.last {
      IdsPair(Segment(s.first, id), Segment(id + 1, s.last));
    } else {
      IdsSingle(Segment(s.first, id));
    }
  }

  lemma BookRemovesId(p: seq<Segment>, k: nat, id: uint64)
    requires Separated(p) && k < |p| && p[k].first <= id < p[k].last
    ensures Ids(Book(p, k, id)) == Ids(p) - {id}
  {
    RemainderIds(p[k], id);
    EditRemoves(p, k, Remainder(p[k], id), id);
  }

  lemma BookKeepsSeparated(p: seq<Segment>, k: nat, id: uint64, lo: int, hi: int)
    requires Separated(p) && Within(p, lo, hi) && k < |p| && p[k].first <= id < p[k].last
    ensures Separated(Book(p, k, id)) && Within(Book(p, k, id), lo, hi)
  {
    EditKeepsSeparated(p, k, k + 1, Remainder(p[k], id), lo, hi);
  }

  lemma BookNonEmpty(p: seq<Segment>, k: nat, id: uint64)
    requires Separated(p) && k < |p| && p[k].first <= id < p[k].last
    ensures NonEmpty(Book(p, k, id)) <==>
            NonEmpty(p) && !(id == p[k].first && p[k].first + 1 != p[k].last)
  {
    var piece := Remainder(p[k], id);
    EditNonEmpty(p, k, k + 1, piece);
    assert p[k..k + 1] == [p[k]];
    assert NonEmpty(piece) <==> !(id == p[k].first && p[k].first + 1 != p[k].last) by {
      if id == p[k].first && p[k].first + 1 != p[k].last {
        assert piece[0].first == piece[0].last;
      }
    }
  }

  // Whether id is the lowest, and whether it is the only, member of its segment can be
  // read off the denoted set.
  lemma SegmentNeighbours(p: seq<Segment>, k: nat, id: uint64)
    requires Separated(p) && k < |p| && p[k].first <= id < p[k].last
    ensures id == p[k].first <==> id - 1 !in Ids(p)
    ensures id + 1 == p[k].last <==> id + 1 !in Ids(p)
  {
    if p[k].first < id {
      assert Holds(p, id - 1);
    }
    if id + 1 < p[k].last {
      assert Holds(p, id + 1);
    }
  }

  ghost function Elements(s: seq<uint64>): set<int> {
    set x: int | x in s
  }

  ghost predicate Distinct(s: seq<uint64>) {
    forall i, j :: 0 <= i < j < |s| ==> s[i] != s[j]
  }

  ghost predicate AllInside(s: seq<uint64>, first: uint64, capacity: uint64) {
    forall i :: 0 <= i < |s| ==> first <= s[i] < first + capacity
  }

  /** At its turn, booked id i is the lowest of a free block longer than one. */
  ghost predicate CutsLowEdge(booked: seq<uint64>, i: nat, first: uint64, capacity: uint64)
    requires i < |booked|
  {
    var id: int, before := booked[i], Elements(booked[..i]);
    && (id == first || id - 1 in before)
    && id + 1 < first + capacity && id + 1 !in before
  }

  /** The caller-checkable condition under which `recovery` leaves no empty segment. */
  ghost predicate SafeOrder(booked: seq<uint64>, first: uint64, capacity: uint64) {
    forall i :: 0 <= i < |booked| ==> !CutsLowEdge(booked, i, first, capacity)
  }

  lemma SafeOrderGrows(booked: seq<uint64>, n: nat, first: uint64, capacity: uint64)
    requires n < |booked|
    ensures SafeOrder(booked[..n + 1], first, capacity) <==>
            SafeOrder(booked[..n], first, capacity) && !CutsLowEdge(booked, n, first, capacity)
  {
    var b, c := booked[..n], booked[..n + 1];
    assert c[..n] == b;
    assert CutsLowEdge(c, n, first, capacity) <==> CutsLowEdge(booked, n, first, capacity);
    forall i | 0 <= i < n ensures CutsLowEdge(c, i, first, capacity) <==> CutsLowEdge(b, i, first, capacity) {
      assert c[..i] == b[..i];
    }
  }

  lemma DistinctCount(s: seq<uint64>)
    requires Distinct(s)
    ensures |Elements(s)| == |s|
  {
    if s != [] {
      var n := |s| - 1;
      DistinctCount(s[..n]);
      assert Elements(s) == Elements(s[..n]) + {s[n]};
      assert s[n] !in Elements(s[..n]);
    }
  }

  lemma SubsetSize(a: set<int>, b: set<int>)
    requires a <= b
    ensures |a| <= |b|
  {
    assert b == a + (b - a);
  }

  // Too many ids cannot be distinct and in range.
  lemma Pigeonhole(s: seq<uint64>, first: uint64, capacity: uint64)
    requires Distinct(s) && AllInside(s, first, capacity)
    ensures |s| <= capacity
  {
    DistinctCount(s);
    RangeSize(first, first + capacity);
    SubsetSize(Elements(s), Range(first, first + capacity));
  }

  // ---------------------------------------------------------------------------
  // Putting one identifier back (release)
  // ---------------------------------------------------------------------------

  // The facts the search loop establishes: k is the first segment that starts above id,
  // and the one before it ends at or below id.
  ghost predicate Slot(p: seq<Segment>, k: nat, id: uint64) {
    && p != [] && k <= |p| && Separated(p) && id + 1 < U64
    && (k < |p| ==> p[k].first > id)
    && (k > 0 ==> p[k - 1].last <= id)
  }

  // Only the segment before the slot can hold id.
  lemma SlotDecides(p: seq<Segment>, k: nat, id: uint64)
    requires Separated(p) && k <= |p|
    requires k < |p| ==> p[k].first > id
    requires k > 0 ==> p[k - 1].first <= id
    ensures id in Ids(p) <==> k > 0 && p[k - 1].last > id
  {
    if k > 0 && p[k - 1].last > id {
      assert Holds(p, id);
    }
  }

  datatype Patch = Patch(from: nat, to: nat, segment: Segment)

  /** Which stretch `release` replaces, and by what, chosen by the source's own tests: a
      missing left neighbour counts as last = UINT64_MAX, a missing right one as
      first = 0, and subtraction wraps. */
  ghost function PatchFor(p: seq<Segment>, k: nat, id: uint64): (t: Patch)
    requires Slot(p, k, id)
    ensures t.from <= t.to <= |p|
  {
    var prevLast: uint64 := if k > 0 then p[k - 1].last else U64 - 1;
    var nextFirst: uint64 := if k < |p| then p[k].first else 0;
    if prevLast == Minus(nextFirst, 1) then
      Patch(k - 1, k + 1, Segment(p[k - 1].first, p[k].last))
    else if prevLast == id then
      Patch(k - 1, k, Segment(p[k - 1].first, p[k - 1].last + 1))
    else if id == Minus(nextFirst, 1) then
      Patch(k, k + 1, Segment(p[k].first - 1, p[k].last))
    else
      Patch(k, k, Segment(id, id + 1))
  }

  ghost function Insert(p: seq<Segment>, k: nat, id: uint64): seq<Segment>
    requires Slot(p, k, id)
  {
    var t := PatchFor(p, k, id);
    Edit(p, t.from, t.to, [t.segment])
  }

  lemma PatchFits(p: seq<Segment>, k: nat, id: uint64)
    requires Slot(p, k, id)
    ensures var t := PatchFor(p, k, id);
            Fits(p, t.from, t.to, [t.segment]) && t.segment.first < t.segment.last
  {
  }

  lemma PatchCovers(p: seq<Segment>, k: nat, id: uint64)
    requires Slot(p, k, id)
    ensures var t := PatchFor(p, k, id);
            Range(t.segment.first, t.segment.last) == Ids(p[t.from..t.to]) + {id}
  {
    var t := PatchFor(p, k, id);
    if t.to == t.from + 2 {
      assert p[t.from..t.to] == [p[k - 1], p[k]];
      IdsPair(p[k - 1], p[k]);
    } else if t.to == t.from + 1 {
      assert p[t.from..t.to] == [p[t.from]];
      IdsSingle(p[t.from]);
    } else {
      assert p[t.from..t.to] == [];
      IdsNone();
    }
  }

  /** Whatever branch the sentinels select, it is the right one: the new segment covers
      what it replaces and id, no more, and keeps a gap to its neighbours. */
  lemma PatchIsRight(p: seq<Segment>, k: nat, id: uint64)
    requires Slot(p, k, id)
    ensures var t := PatchFor(p, k, id);
            && Ids([t.segment]) == Ids(p[t.from..t.to]) + {id}
            && Fits(p, t.from, t.to, [t.segment])
            && t.segment.first < t.segment.last
  {
    hide PatchFor, Ids, Fits, Separated, Range;
    PatchFits(p, k, id);
    PatchCovers(p, k, id);
    IdsSingle(PatchFor(p, k, id).segment);
  }

  lemma PatchWithin(p: seq<Segment>, k: nat, id: uint64, lo: int, hi: int)
    requires Slot(p, k, id) && Within(p, lo, hi) && lo <= id < hi
    ensures lo <= PatchFor(p, k, id).segment.first && PatchFor(p, k, id).segment.last <= hi
  {
  }

  lemma InsertAddsId(p: seq<Segment>, k: nat, id: uint64, lo: int, hi: int)
    requires Slot(p, k, id) && Within(p, lo, hi) && lo <= id < hi
    ensures Ids(Insert(p, k, id)) == Ids(p) + {id}
    ensures Separated(Insert(p, k, id)) && Within(Insert(p, k, id), lo, hi)
    ensures NonEmpty(p) ==> NonEmpty(Insert(p, k, id))
  {
    hide PatchFor, Ids, Fits, Within, NonEmpty, Separated, Edit;
    var t := PatchFor(p, k, id);
    PatchIsRight(p, k, id);
    PatchWithin(p, k, id, lo, hi);
    EditAdds(p, t.from, t.to, [t.segment], id);
    EditKept(p, t.from, t.to, t.segment, lo, hi);
  }

  lemma EditKept(p: seq<Segment>, k: nat, m: nat, s: Segment, lo: int, hi: int)
    requires k <= m <= |p| && Separated(p) && Fits(p, k, m, [s])
    requires Within(p, lo, hi) && lo <= s.first < s.last <= hi
    ensures Separated(Edit(p, k, m, [s])) && Within(Edit(p, k, m, [s]), lo, hi)
    ensures NonEmpty(p) ==> NonEmpty(Edit(p, k, m, [s]))
  {
    EditKeepsSeparated(p, k, m, [s], lo, hi);
    EditNonEmpty(p, k, m, [s]);
  }

  lemma SingleId(id: uint64, lo: int, hi: int)
    requires lo <= id < hi < U64
    ensures Ids([]) == {} && Ids([Segment(id, id + 1)]) == {id}
    ensures Separated([Segment(id, id + 1)]) && Within([Segment(id, id + 1)], lo, hi) && NonEmpty([Segment(id, id + 1)])
  {
    IdsNone();
    IdsSingle(Segment(id, id + 1));
    assert Range(id, id + 1) == {id};
  }

  // ---------------------------------------------------------------------------
  // The generator
  // ---------------------------------------------------------------------------

  class Generator {
    const first: uint64
    const capacity: uint64
    const order: Order
    var pool: seq<Segment>

    constructor (first: uint64, capacity: uint64, order: Order)
      requires capacity != 0 && first + capacity < U64
      ensures this.first == first && this.capacity == capacity && this.order == order
      ensures Strong() && Held() == {}
    {
      this.first := first;
      this.capacity := capacity;
      this.order := order;
      pool := [Segment(first, first + capacity)];
      new;
      IdsSingle(pool[0]);
    }

    /** Construction with the source's check, made in wrapping arithmetic. */
    static method Create(first: uint64, capacity: uint64, order: Order) returns (g: Generator?)
      ensures g == null <==> capacity == 0 || first + capacity >= U64
      ensures g != null ==>
                && fresh(g) && g.first == first && g.capacity == capacity && g.order == order
                && g.Strong() && g.Held() == {}
    {
      if capacity == 0 || Plus(first, capacity) < first {
        return null;
      }
      g := new Generator(first, capacity, order);
    }

    ghost predicate RangeOk() {
      capacity != 0 && first + capacity < U64
    }

    /** The weak invariant: sorted and fully coalesced, but segments may be empty. */
    ghost predicate Valid()
      reads this
    {
      RangeOk() && Separated(pool) && Within(pool, first, first + capacity)
    }

    /** The strong invariant: no segment is empty either. */
    ghost predicate Strong()
      reads this
    {
      Valid() && NonEmpty(pool)
    }

    ghost function All(): set<int> {
      Range(first, first + capacity)
    }

    ghost function Free(): set<int>
      reads this
    {
      Ids(pool)
    }

    ghost function Held(): set<int>
      reads this
    {
      All() - Ids(pool)
    }

    method Acquire() returns (r: Grant)
      requires Valid()
      modifies this`pool
      ensures r.Denied? <==> old(pool) == []
      ensures r.Denied? ==> r.error == PoolIsEmpty && pool == old(pool)
      // The identifier handed out was free exactly when the edge segment was not empty.
      ensures r.Granted? ==> (r.id in old(Free()) <==> EdgeUsable(old(pool), order))
      // It is in the range, or one below it.
      ensures r.Granted? ==> r.id in All() || (order == Backward && r.id == Minus(first, 1))
      ensures EdgeUsable(old(pool), order) ==>
                && Valid() && IsExtreme(r.id, old(Free()), order)
                && Free() == old(Free()) - {r.id}
                && r.id !in old(Held()) && Held() == old(Held()) + {r.id}
      ensures old(Strong()) ==> Strong() && (r.Denied? <==> old(Free()) == {})
      ensures old(Strong()) && r.Granted? ==> EdgeUsable(old(pool), order)
    {
      ghost var p := pool;
      IdsWithin(p, first, first + capacity);
      if pool == [] {
        IdsNone();
        return Denied(PoolIsEmpty);
      }
      TakesFreeId(p, order);
      if EdgeUsable(p, order) {
        TakeRemovesId(p, order, first, first + capacity);
      }
      var (id, rest) := Take(pool, order);
      pool := rest;
      r := Granted(id);
    }

    method Release(id: uint64) returns (r: Outcome)
      requires Valid()
      modifies this`pool
      ensures Valid() && (old(Strong()) ==> Strong())
      ensures r == Failed(InvalidArgument) <==> id !in All()
      ensures r == Failed(DoubleRelease) <==> id in old(Free())
      ensures r.Failed? ==> (r.error == InvalidArgument || r.error == DoubleRelease) && pool == old(pool)
      ensures r.Done? ==> id in old(Held()) && Held() == old(Held()) - {id} && Free() == old(Free()) + {id}
    {
      IdsWithin(pool, first, first + capacity);
      InAll(id);
      hide Ids, Insert, Separated, Within, NonEmpty, Range;
      if id < first || id >= first + capacity {
        return Failed(InvalidArgument);
      }
      if pool == [] {
        SingleId(id, first, first + capacity);
        pool := [Segment(id, id + 1)];
        Regained(old(pool), pool, id);
        return Done;
      }
      var k := FindSlot(pool, id);
      SlotDecides(pool, k, id);
      if k > 0 && pool[k - 1].last > id {
        return Failed(DoubleRelease);
      }
      InsertAddsId(pool, k, id, first, first + capacity);
      pool := Coalesce(pool, k, id);
      Regained(old(pool), pool, id);
      r := Done;
    }

    lemma Regained(p: seq<Segment>, q: seq<Segment>, id: uint64)
      requires id in All() && id !in Ids(p) && Ids(q) == Ids(p) + {id}
      ensures id in All() - Ids(p) && All() - Ids(q) == All() - Ids(p) - {id}
    {
      hide Ids, Range;
    }

    lemma InAll(id: uint64)
      ensures id in All() <==> first <= id < first + capacity
    {
    }

    static method FindSlot(p: seq<Segment>, id: uint64) returns (k: nat)
      ensures k <= |p| && (k > 0 ==> p[k - 1].first <= id) && (k < |p| ==> id < p[k].first)
    {
      k := 0;
      while k < |p| && p[k].first <= id
        invariant 0 <= k <= |p|
        invariant k > 0 ==> p[k - 1].first <= id
      {
        k := k + 1;
      }
    }

    static method Coalesce(p: seq<Segment>, k: nat, id: uint64) returns (q: seq<Segment>)
      requires Slot(p, k, id)
      ensures q == Insert(p, k, id)
    {
      var prevLast: uint64, nextFirst: uint64 := U64 - 1, 0;
      if k > 0 { prevLast := p[k - 1].last; }
      if k < |p| { nextFirst := p[k].first; }
      if prevLast == Minus(nextFirst, 1) {
        q := Edit(p, k - 1, k + 1, [Segment(p[k - 1].first, p[k].last)]);
      } else if prevLast == id {
        q := Edit(p, k - 1, k, [Segment(p[k - 1].first, p[k - 1].last + 1)]);
      } else if id == Minus(nextFirst, 1) {
        q := Edit(p, k, k + 1, [Segment(p[k].first - 1, p[k].last)]);
      } else {
        q := Edit(p, k, k, [Segment(id, id + 1)]);
      }
    }

    /** The state of p after the first n ids of the list have been booked. */
    ghost predicate Booked(p: seq<Segment>, booked: seq<uint64>, n: nat)
      requires n <= |booked|
    {
      && RangeOk() && Separated(p) && Within(p, first, first + capacity)
      && All() - Ids(p) == Elements(booked[..n])
      && Distinct(booked[..n]) && AllInside(booked[..n], first, capacity)
      && (NonEmpty(p) <==> SafeOrder(booked[..n], first, capacity))
    }

    /** Id k of the list is out of range or was booked before; the ids before it are booked. */
    ghost predicate StoppedAt(p: seq<Segment>, booked: seq<uint64>, k: nat, error: Error)
      requires k < |booked|
    {
      && Separated(p) && Within(p, first, first + capacity) && All() - Ids(p) == Elements(booked[..k])
      && error == (if booked[k] !in All() then OutOfRange else AlreadyUsed)
      && (booked[k] in All() ==> booked[k] in booked[..k])
    }

    method Recovery(booked: seq<uint64>) returns (r: Outcome)
      requires RangeOk()
      modifies this`pool
      ensures r.Done? <==> Distinct(booked) && AllInside(booked, first, capacity)
      ensures r.Done? ==> Valid() && Held() == Elements(booked)
      ensures r.Done? ==> (Strong() <==> SafeOrder(booked, first, capacity))
      // Later acquires hand out only free ids exactly if the order of the list was safe.
      ensures r.Done? ==> ((forall n: nat :: OnlyFree(pool, order, n)) <==> SafeOrder(booked, first, capacity))
      // A failure part-way leaves the ids before the offending one booked.
      ensures r == Failed(TooMany) <==> |booked| > capacity
      ensures r == Failed(TooMany) ==> pool == old(pool)
      ensures r.Failed? && r.error != TooMany ==> exists k :: 0 <= k < |booked| && StoppedAt(pool, booked, k, r.error)
    {
      if |booked| > capacity {
        if Distinct(booked) && AllInside(booked, first, capacity) {
          Pigeonhole(booked, first, capacity);
        }
        return Failed(TooMany);
      }
      hide Booked, StoppedAt, Distinct, AllInside, Ids, OnlyFree;
      pool := [Segment(first, first + capacity)];
      NoneBooked(booked);
      for n := 0 to |booked|
        invariant Booked(pool, booked, n)
      {
        var id := booked[n];
        InAll(id);
        if id < first || id >= first + capacity {
          Offends(pool, booked, n);
          return Failed(OutOfRange);
        }
        var k := FindSegment(pool, id);
        if k == |pool| {
          Offends(pool, booked, n);
          return Failed(AlreadyUsed);
        }
        BookOne(pool, k, booked, n);
        pool := Book(pool, k, id);
      }
      AllBooked(pool, booked);
      r := Done;
    }

    lemma NoneBooked(booked: seq<uint64>)
      requires RangeOk()
      ensures Booked([Segment(first, first + capacity)], booked, 0)
    {
      IdsSingle(Segment(first, first + capacity));
    }

    lemma Offends(p: seq<Segment>, booked: seq<uint64>, n: nat)
      requires n < |booked| && Booked(p, booked, n) && booked[n] !in Ids(p)
      ensures !(Distinct(booked) && AllInside(booked, first, capacity))
      ensures StoppedAt(p, booked, n, if first <= booked[n] < first + capacity then AlreadyUsed else OutOfRange)
    {
      InAll(booked[n]);
      hide Ids, Separated, Within, NonEmpty, SafeOrder, Range;
      if booked[n] in All() {
        assert booked[n] in Elements(booked[..n]);
        var i :| 0 <= i < n && booked[..n][i] == booked[n];
        assert booked[i] == booked[n];
      }
    }

    lemma AllBooked(p: seq<Segment>, booked: seq<uint64>)
      requires Booked(p, booked, |booked|)
      ensures Separated(p) && Within(p, first, first + capacity) && All() - Ids(p) == Elements(booked)
      ensures Distinct(booked) && AllInside(booked, first, capacity)
      ensures NonEmpty(p) <==> SafeOrder(booked, first, capacity)
      ensures (forall n: nat :: OnlyFree(p, order, n)) <==> SafeOrder(booked, first, capacity)
    {
      hide OnlyFree, Ids, SafeOrder, NonEmpty, Distinct, AllInside;
      assert booked[..|booked|] == booked;
      OnlyFreeExactly(p, order, first, first + capacity);
    }

    static method FindSegment(p: seq<Segment>, id: uint64) returns (k: nat)
      ensures k <= |p| && (k < |p| ==> p[k].first <= id < p[k].last)
      ensures k < |p| <==> id in Ids(p)
    {
      k := 0;
      while k < |p| && !(p[k].first <= id < p[k].last)
        invariant 0 <= k <= |p|
        invariant forall i :: 0 <= i < k ==> !(p[i].first <= id < p[i].last)
      {
        k := k + 1;
      }
      assert k < |p| ==> Holds(p, id);
    }

    // One turn of the recovery loop.
    lemma BookOne(p: seq<Segment>, k: nat, booked: seq<uint64>, n: nat)
      requires n < |booked| && Booked(p, booked, n)
      requires k < |p| && p[k].first <= booked[n] < p[k].last
      ensures Booked(Book(p, k, booked[n]), booked, n + 1)
    {
      BookedSets(p, k, booked, n);
      var id := booked[n];
      BookKeepsSeparated(p, k, id, first, first + capacity);
      BookNonEmpty(p, k, id);
      SafeOrderGrows(booked, n, first, capacity);
      LowEdgeSeen(p, k, booked, n);
      hide Ids, Separated, Within, NonEmpty, SafeOrder, Book, CutsLowEdge, Elements;
    }

    lemma BookedSets(p: seq<Segment>, k: nat, booked: seq<uint64>, n: nat)
      requires n < |booked| && Booked(p, booked, n)
      requires k < |p| && p[k].first <= booked[n] < p[k].last
      ensures All() - Ids(Book(p, k, booked[n])) == Elements(booked[..n + 1])
      ensures Distinct(booked[..n + 1]) && AllInside(booked[..n + 1], first, capacity)
    {
      var id := booked[n];
      var b, c := booked[..n], booked[..n + 1];
      assert c == b + [id] && c[..n] == b;
      IdsWithin(p, first, first + capacity);
      assert id in Ids(p) by { assert Holds(p, id); }
      BookRemovesId(p, k, id);
      hide Ids, Separated, Within, NonEmpty, SafeOrder, Book;
      assert Elements(c) == Elements(b) + {id as int};
      assert id !in Elements(b);
      InAll(id);
    }

    // Whether the booked id cuts the low edge of its segment can be read off the ids
    // booked before it.
    lemma LowEdgeSeen(p: seq<Segment>, k: nat, booked: seq<uint64>, n: nat)
      requires RangeOk() && n < |booked|
      requires Separated(p) && Within(p, first, first + capacity)
      requires All() - Ids(p) == Elements(booked[..n])
      requires k < |p| && p[k].first <= booked[n] < p[k].last
      ensures CutsLowEdge(booked, n, first, capacity) <==>
              booked[n] == p[k].first && p[k].first + 1 != p[k].last
    {
      SegmentNeighbours(p, k, booked[n]);
      IdsWithin(p, first, first + capacity);
    }

    method Unused() returns (n: uint64)
      requires Valid()
      ensures n == |Free()| == capacity - |Held()|
    {
      n := 0;
      FreePlusHeld();
      hide Total, Separated, Within, Ids;
      TotalNone();
      for i := 0 to |pool|
        invariant n == Total(pool[..i])
      {
        PartialTotal(pool, i);
        n := Plus(n, Minus(pool[i].last, pool[i].first));
      }
      assert pool[..|pool|] == pool;
    }

    method Used() returns (n: uint64)
      requires Valid()
      ensures n == |Held()|
    {
      var u := Unused();
      n := Minus(capacity, u);
    }

    lemma TotalsBounded(p: seq<Segment>)
      requires RangeOk() && Separated(p) && Within(p, first, first + capacity)
      ensures Total(p) == |Ids(p)| && 0 <= Total(p) <= capacity
    {
      TotalCountsIds(p);
      IdsWithin(p, first, first + capacity);
      SubsetSize(Ids(p), All());
      RangeSize(first, first + capacity);
    }

    lemma TotalNone()
      ensures Total([]) == 0
    {
    }

    // No partial sum overflows.
    lemma PartialTotal(p: seq<Segment>, i: nat)
      requires RangeOk() && Separated(p) && Within(p, first, first + capacity) && i < |p|
      ensures p[i].first <= p[i].last
      ensures Total(p[..i + 1]) == Total(p[..i]) + (p[i].last - p[i].first) <= capacity
    {
      assert p[..i + 1][..i] == p[..i];
      TotalsBounded(p[..i + 1]);
    }

    lemma FreePlusHeld()
      requires Valid()
      ensures |Free()| + |Held()| == capacity && Total(pool) == |Free()|
    {
      TotalsBounded(pool);
      IdsWithin(pool, first, first + capacity);
      RangeSize(first, first + capacity);
      hide Ids, Total, Separated;
      assert All() == Free() + Held() && Free() !! Held();
    }
  }

  // ---------------------------------------------------------------------------
  // Whole runs
  // ---------------------------------------------------------------------------

  datatype Op = DoAcquire | DoRelease(id: uint64)

  datatype Event = Acquired(id: uint64) | Exhausted | Released(id: uint64) | Rejected(id: uint64, error: Error)

  /** What a client who only sees the log believes is still outstanding, starting from held. */
  ghost function Outstanding(held: set<int>, log: seq<Event>): set<int> {
    if log == [] then held
    else
      var before := Outstanding(held, log[..|log| - 1]);
      match log[|log| - 1]
      case Acquired(id) => before + {id}
      case Released(id) => before - {id}
      case _ => before
  }

  /** The log of a correct allocator over [lo, hi): every grant is the extreme identifier
      not outstanding, refusals happen only when nothing is left, and releases are refused
      exactly for what is not outstanding. */
  ghost predicate Lawful(held: set<int>, log: seq<Event>, lo: int, hi: int, order: Order) {
    log == [] ||
    (var now := Outstanding(held, log[..|log| - 1]);
     var free := Range(lo, hi) - now;
     Lawful(held, log[..|log| - 1], lo, hi, order) &&
     match log[|log| - 1]
     case Acquired(id) => if order.Forward? then IsLeast(id, free) else IsGreatest(id, free)
     case Exhausted => free == {}
     case Released(id) => id in now
     case Rejected(id, e) =>
       id !in now && (e == InvalidArgument <==> id !in Range(lo, hi)) && (e == DoubleRelease <==> id in free))
  }

  /** Every run of acquire and release from construction, with the ids of a safe list recovered
      first (none, for a new generator): the log is lawful, the strong invariant holds at the
      end, and the generator's idea of what is held is the client's. */
  method Run(first: uint64, capacity: uint64, order: Order, booked: seq<uint64>, ops: seq<Op>)
    returns (g: Generator, log: seq<Event>)
    requires capacity != 0 && first + capacity < U64
    requires Distinct(booked) && AllInside(booked, first, capacity) && SafeOrder(booked, first, capacity)
    ensures |log| == |ops| && Lawful(Elements(booked), log, first, first + capacity, order)
    ensures g.Strong() && g.first == first && g.capacity == capacity && g.Held() == Outstanding(Elements(booked), log)
  {
    hide SafeOrder, OnlyFree, Separated, Within, NonEmpty;
    g := new Generator(first, capacity, order);
    var recovered := g.Recovery(booked);
    ghost var held := Elements(booked);
    log := [];
    for i := 0 to |ops|
      invariant fresh(g) && g.first == first && g.capacity == capacity && g.order == order
      invariant |log| == i && Lawful(held, log, first, first + capacity, order)
      invariant g.Strong() && g.Held() == Outstanding(held, log)
    {
      IdsWithin(g.pool, first, first + capacity);
      assert g.Free() == Range(first, first + capacity) - Outstanding(held, log);
      ghost var before := log;
      match ops[i] {
        case DoAcquire =>
          var r := g.Acquire();
          log := log + [if r.Granted? then Acquired(r.id) else Exhausted];
        case DoRelease(id) =>
          var r := g.Release(id);
          log := log + [if r.Done? then Released(id) else Rejected(id, r.error)];
      }
      assert log[..|log| - 1] == before;
    }
  }

  /** Recovering the whole range in an order that is not safe (ascending order, say, with a
      capacity above one) leaves nothing free, and yet the next acquire is not refused: it
      hands out an id that is booked, or, backward, possibly the one below the range. */
  method GrantWithNothingFree(g: Generator, booked: seq<uint64>) returns (r: Grant)
    requires g.RangeOk()
    requires Distinct(booked) && Elements(booked) == g.All()
    requires !SafeOrder(booked, g.first, g.capacity)
    modifies g
    ensures r.Granted?
    ensures r.id in booked || (g.order == Backward && r.id == Minus(g.first, 1))
  {
    forall i | 0 <= i < |booked| ensures booked[i] in g.All() {
      assert booked[i] in Elements(booked);
    }
    hide SafeOrder, OnlyFree;
    var done := g.Recovery(booked);
    assert done.Done? && g.Held() == g.All();
    r := g.Acquire();
  }
}
