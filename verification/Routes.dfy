/** The paths of a route, their ids and the path in use (struct Route and the path methods of
    Topology in src/core/Topology.cc). */
module Routes {

  type uint8 = x: int | 0 <= x < 256

  /** The id of the path at an index: ids are 8 bits wide. */
  function IdOf(i: nat): uint8 {
    i % 256
  }

  lemma {:induction false} IdOfPrevious(i: nat)
    requires i > 0
    ensures IdOf(i - 1) == if IdOf(i) == 0 then 255 else IdOf(i) - 1
  {
  }

  lemma {:induction false} IdOfAtMost(i: nat)
    ensures IdOf(i) <= i
  {
  }

  // ---------------------------------------------------------------------------
  // Removing and moving one element of a sequence
  // ---------------------------------------------------------------------------

  function Without<T>(s: seq<T>, k: nat): seq<T>
    requires k < |s|
  {
    s[..k] + s[k + 1..]
  }

  /** Erase at k, then insert at n in what is left. */
  function Moved<T>(s: seq<T>, k: nat, n: nat): seq<T>
    requires k < |s| && n < |s|
  {
    var rest := Without(s, k);
    rest[..n] + [s[k]] + rest[n..]
  }

  // Where the element at an index of the shortened sequence came from.
  function Skip(j: nat, k: nat): nat {
    if j < k then j else j + 1
  }

  /** Where `movePath` sends the index of the path in use. */
  function UsedAfterMove(u: nat, k: nat, n: nat): nat {
    if u == k then n
    else if n > k && u > k && u <= n then u - 1
    else if n < k && u >= n && u < k then u + 1
    else u
  }

  lemma {:induction false} WithoutAt<T>(s: seq<T>, k: nat)
    requires k < |s|
    ensures |Without(s, k)| == |s| - 1
    ensures forall j :: 0 <= j < |s| - 1 ==> Without(s, k)[j] == s[Skip(j, k)]
  {
  }

  // The element at j of the moved sequence came from where a move back would send j.
  lemma {:induction false} MovedAt<T>(s: seq<T>, k: nat, n: nat, j: nat)
    requires k < |s| && n < |s| && j < |s|
    ensures |Moved(s, k, n)| == |s| && UsedAfterMove(j, n, k) < |s|
    ensures Moved(s, k, n)[j] == s[UsedAfterMove(j, n, k)]
  {
    var rest := Without(s, k);
    WithoutAt(s, k);
    assert Moved(s, k, n)[j] == if j < n then rest[j] else if j == n then s[k] else rest[j - 1];
  }

  /** The moved element arrives, the others keep their relative order, and every index in
      range is sent to the new place of its element. */
  lemma {:induction false} MoveFollowsElements<T>(s: seq<T>, k: nat, n: nat, u: nat)
    requires k < |s| && n < |s|
    ensures |Moved(s, k, n)| == |s| && Moved(s, k, n)[n] == s[k]
    ensures Without(Moved(s, k, n), n) == Without(s, k)
    ensures u < |s| ==> UsedAfterMove(u, k, n) < |s| && Moved(s, k, n)[UsedAfterMove(u, k, n)] == s[u]
    ensures u >= |s| ==> UsedAfterMove(u, k, n) == u
  {
    var rest := Without(s, k);
    assert rest[..n] + rest[n..] == rest;
    if u < |s| {
      MovedAt(s, k, n, UsedAfterMove(u, k, n));
    }
  }

  lemma {:induction false} MovePermutes<T>(s: seq<T>, k: nat, n: nat)
    requires k < |s| && n < |s|
    ensures multiset(Moved(s, k, n)) == multiset(s)
  {
    var rest := Without(s, k);
    assert s == s[..k] + [s[k]] + s[k + 1..];
    assert multiset(s) == multiset(rest) + multiset{s[k]};
    assert rest == rest[..n] + rest[n..];
    assert multiset(rest) == multiset(rest[..n]) + multiset(rest[n..]);
  }

  /** Moving back undoes a move. */
  lemma {:induction false} MoveBack<T>(s: seq<T>, k: nat, n: nat, u: nat)
    requires k < |s| && n < |s|
    ensures |Moved(s, k, n)| == |s| && Moved(Moved(s, k, n), n, k) == s
    ensures UsedAfterMove(UsedAfterMove(u, k, n), n, k) == u
  {
    MoveFollowsElements(s, k, n, u);
    var rest := Without(s, k);
    assert rest[..k] == s[..k] && rest[k..] == s[k + 1..];
    assert s == s[..k] + [s[k]] + s[k + 1..];
  }

  // ---------------------------------------------------------------------------
  // The route object
  // ---------------------------------------------------------------------------

  // A path object: which object it is, and the id it carries.
  datatype Path = Path(key: nat, id: uint8)

  ghost predicate Numbered(paths: seq<Path>) {
    forall i {:trigger paths[i]} :: 0 <= i < |paths| ==> paths[i].id == IdOf(i)
  }

  /** The same objects, in the same order. */
  ghost predicate SameObjects(now: seq<Path>, before: seq<Path>) {
    |now| == |before| && forall j :: 0 <= j < |now| ==> now[j].key == before[j].key
  }

  class Route {
    var paths: seq<Path>
    var usedPath: uint8

    constructor ()
      ensures Valid() && paths == [] && usedPath == 0
    {
      paths, usedPath := [], 0;
    }

    /** Every path carries its index as its id. */
    ghost predicate Valid()
      reads this
    {
      Numbered(paths)
    }

    /** The object the index in use denotes is the one it denoted before. */
    twostate predicate SameInUse()
      reads this
    {
      old(usedPath) < |old(paths)| ==> usedPath < |paths| && paths[usedPath].key == old(paths[usedPath].key)
    }

    method AttachPath(key: nat) returns (p: Path)
      requires Valid()
      modifies this`paths
      ensures Valid() && p.key == key && paths == old(paths) + [p]
    {
      p := Path(key, IdOf(|paths|));
      paths := paths + [p];
    }

    method DetachPath(k: uint8)
      requires Valid()
      modifies this
      ensures Valid()
      ensures k < |old(paths)| ==> SameObjects(paths, Without(old(paths), k))
      ensures k >= |old(paths)| ==> paths == old(paths) && usedPath == old(usedPath)
      ensures old(usedPath) != k ==> SameInUse()
      // An index that denotes no path, or the one removed, follows the same rule.
      ensures k < |old(paths)| ==> old(usedPath) == if usedPath < k || old(usedPath) == k then usedPath else usedPath + 1
    {
      if |paths| <= k {
        return;
      }
      hide Without, IdOf;
      WithoutAt(paths, k);
      ShiftIds(k);
      if usedPath > k {
        usedPath := usedPath - 1;
      }
      WithoutAt(paths, k);
      paths := Without(paths, k);
    }

    /** Every id behind k goes down by one. */
    method ShiftIds(k: uint8)
      requires Valid() && k < |paths|
      modifies this`paths
      ensures SameObjects(paths, old(paths))
      ensures forall j {:trigger paths[j]} :: 0 <= j < |paths| ==> paths[j].id == IdOf(if j > k then j - 1 else j)
    {
      hide IdOf;
      for i := k + 1 to |paths|
        invariant SameObjects(paths, old(paths))
        invariant forall j {:trigger paths[j]} :: 0 <= j < |paths| ==> paths[j].id == IdOf(if k < j < i then j - 1 else j)
      {
        IdOfPrevious(i);
        var id := paths[i].id;
        paths := paths[i := paths[i].(id := if id == 0 then 255 else id - 1)];
      }
    }

    /** A path is deleted unless it is in use, unknown, or the only one. */
    method DeletePath(k: uint8) returns (ok: bool)
      requires Valid()
      modifies this
      ensures Valid() && SameInUse()
      ensures ok <==> |old(paths)| > 1 && old(usedPath) != k && k < |old(paths)|
      ensures ok ==> SameObjects(paths, Without(old(paths), k))
      ensures ok ==> old(usedPath) == Skip(usedPath, k)
      ensures !ok ==> paths == old(paths) && usedPath == old(usedPath)
    {
      if |paths| > 1 && usedPath != k && |paths| > k {
        DetachPath(k);
        ok := true;
      } else {
        ok := false;
      }
    }

    method MovePath(k: uint8, n: uint8) returns (ok: bool)
      requires Valid()
      modifies this
      ensures Valid() && SameInUse()
      // The number of paths is read as 8 bits too.
      ensures ok <==> k != n && k < IdOf(|old(paths)|) && n < IdOf(|old(paths)|)
      ensures ok ==> k < |old(paths)| && n < |old(paths)| && SameObjects(paths, Moved(old(paths), k, n))
      ensures ok ==> usedPath == UsedAfterMove(old(usedPath), k, n)
      ensures !ok ==> paths == old(paths) && usedPath == old(usedPath)
    {
      hide IdOf;
      IdOfAtMost(|paths|);
      var size := IdOf(|paths|);
      if k == n || k >= size || n >= size {
        return false;
      }
      MoveFollowsElements(paths, k, n, usedPath);
      hide Moved;
      paths := Moved(paths, k, n);
      if k == usedPath {
        usedPath := n;
      } else if n > k && usedPath > k && usedPath <= n {
        usedPath := usedPath - 1;
      } else if n < k && usedPath >= n && usedPath < k {
        usedPath := usedPath + 1;
      }
      Renumber();
      ok := true;
    }

    method Renumber()
      modifies this`paths
      ensures Valid() && SameObjects(paths, old(paths))
    {
      hide IdOf;
      for i := 0 to |paths|
        invariant SameObjects(paths, old(paths))
        invariant forall j {:trigger paths[j]} :: 0 <= j < i ==> paths[j].id == IdOf(j)
      {
        paths := paths[i := paths[i].(id := IdOf(i))];
      }
    }
  }
}
