/** The property-sheet query (src/core/PropertySheet.cc and include/runos/PropertySheet.hpp):
    one pass over the entries that keeps, for each property name, the value of the best
    match so far. */
module PropertySheet {
  import Lex

  // A regular-expression matcher is known by a number; an oracle says what it accepts.
  datatype Match = Any | Exact(value: string) | Fuzzy(matcher: nat)

  datatype Value = Str(s: string) | Num(n: int) | Bool(b: bool)

  datatype Property = Property(name: string, value: Value)

  datatype Entry = Entry(selector: seq<Match>, props: seq<Property>)

  type Score = seq<int>

  type Oracle = (nat, string) -> bool

  datatype MaybeScore = NoMatch | Scored(score: Score)

  // A property of a matching entry, with the entry's score.
  datatype Candidate = Candidate(prop: Property, score: Score)

  function DoMatch(m: Match, s: string, fuzzy: Oracle): int {
    match m
    case Any => 1
    case Exact(v) => if v == s then 3 else 0
    case Fuzzy(k) => if fuzzy(k, s) then 2 else 0
  }

  function Scores(selector: seq<Match>, fields: seq<string>, fuzzy: Oracle): Score
    requires |selector| == |fields|
  {
    seq(|selector|, i requires 0 <= i < |selector| => DoMatch(selector[i], fields[i], fuzzy))
  }

  /** An entry matches iff every column does, and then scores column by column. */
  function MatchEntry(selector: seq<Match>, fields: seq<string>, fuzzy: Oracle): MaybeScore
    requires |selector| == |fields|
  {
    if 0 in Scores(selector, fields, fuzzy) then NoMatch else Scored(Scores(selector, fields, fuzzy))
  }

  /** A column accepts any field, exactly its own string, or what its expression accepts. */
  ghost predicate Accepts(m: Match, s: string, fuzzy: Oracle) {
    (m.Exact? ==> s == m.value) && (m.Fuzzy? ==> fuzzy(m.matcher, s))
  }

  /** An entry matches iff every column accepts its field. */
  lemma {:induction false} MatchesExactly(selector: seq<Match>, fields: seq<string>, fuzzy: Oracle)
    requires |selector| == |fields|
    ensures MatchEntry(selector, fields, fuzzy).Scored? <==>
            forall i :: 0 <= i < |selector| ==> Accepts(selector[i], fields[i], fuzzy)
    ensures MatchEntry(selector, fields, fuzzy).Scored? ==> |MatchEntry(selector, fields, fuzzy).score| == |selector|
  {
    var s := Scores(selector, fields, fuzzy);
    forall i | 0 <= i < |selector| ensures s[i] == 0 <==> !Accepts(selector[i], fields[i], fuzzy) {}
    if i :| 0 <= i < |selector| && !Accepts(selector[i], fields[i], fuzzy) {
      assert s[i] in s;
    }
  }

  function Specificity(m: Match): int {
    match m
    case Any => 0
    case Fuzzy(_) => 1
    case Exact(_) => 2
  }

  /** Of two matching entries that are equally specific up to a column, the one more specific
      there wins: an exact match over a fuzzy one over any. */
  lemma {:induction false} MoreSpecificWins(a: seq<Match>, b: seq<Match>, fields: seq<string>, fuzzy: Oracle, k: nat)
    requires |a| == |b| == |fields| && k < |a|
    requires MatchEntry(a, fields, fuzzy).Scored? && MatchEntry(b, fields, fuzzy).Scored?
    requires forall i :: 0 <= i < k ==> Specificity(a[i]) == Specificity(b[i])
    requires Specificity(a[k]) < Specificity(b[k])
    ensures Lex.Less(MatchEntry(a, fields, fuzzy).score, MatchEntry(b, fields, fuzzy).score)
  {
    var s, t := Scores(a, fields, fuzzy), Scores(b, fields, fuzzy);
    forall i | 0 <= i < |a| ensures s[i] != 0 && t[i] != 0 {
      assert s[i] in s && t[i] in t;
    }
    assert s[..k] == t[..k];
    Lex.LessAt(s, t, k);
  }

  function Offers(props: seq<Property>, score: Score): seq<Candidate> {
    seq(|props|, i requires 0 <= i < |props| => Candidate(props[i], score))
  }

  function EntryCandidates(e: Entry, fields: seq<string>, fuzzy: Oracle): seq<Candidate>
    requires |e.selector| == |fields|
  {
    match MatchEntry(e.selector, fields, fuzzy)
    case NoMatch => []
    case Scored(score) => Offers(e.props, score)
  }

  ghost predicate Shaped(entries: seq<Entry>, columns: nat) {
    forall i :: 0 <= i < |entries| ==> |entries[i].selector| == columns
  }

  /** All properties of all matching entries, in order. */
  function Candidates(entries: seq<Entry>, fields: seq<string>, fuzzy: Oracle): seq<Candidate>
    requires forall i :: 0 <= i < |entries| ==> |entries[i].selector| == |fields|
  {
    if entries == [] then []
    else
      var n := |entries| - 1;
      Candidates(entries[..n], fields, fuzzy) + EntryCandidates(entries[n], fields, fuzzy)
  }

  /** An entry offers all its properties, in order, with its column-by-column score, iff every
      column accepts its field, and nothing otherwise. */
  lemma {:induction false} EntryOffers(e: Entry, fields: seq<string>, fuzzy: Oracle)
    requires |e.selector| == |fields|
    ensures var cs := EntryCandidates(e, fields, fuzzy);
            if forall i :: 0 <= i < |fields| ==> Accepts(e.selector[i], fields[i], fuzzy) then
              && |cs| == |e.props|
              && forall k :: 0 <= k < |cs| ==> cs[k].prop == e.props[k] && Rates(cs[k].score, e.selector)
            else cs == []
  {
    MatchesExactly(e.selector, fields, fuzzy);
    if MatchEntry(e.selector, fields, fuzzy).Scored? {
      var s := Scores(e.selector, fields, fuzzy);
      forall i | 0 <= i < |fields| ensures s[i] != 0 {
        assert s[i] in s;
      }
    }
  }

  /** The score of a matching selector: three for an exact column, two for a fuzzy one, one for any. */
  ghost predicate Rates(score: Score, selector: seq<Match>) {
    && |score| == |selector|
    && forall i :: 0 <= i < |selector| ==>
         && (selector[i].Exact? ==> score[i] == 3)
         && (selector[i].Fuzzy? ==> score[i] == 2)
         && (selector[i].Any? ==> score[i] == 1)
  }

  /** The candidates of a list of entries are those of each entry, one after the other. */
  lemma {:induction false} CandidatesInOrder(a: seq<Entry>, e: Entry, b: seq<Entry>, fields: seq<string>, fuzzy: Oracle)
    requires Shaped(a, |fields|) && Shaped(b, |fields|) && |e.selector| == |fields|
    ensures Shaped(a + [e] + b, |fields|) && Candidates([], fields, fuzzy) == []
    ensures Candidates(a + [e] + b, fields, fuzzy) ==
            Candidates(a, fields, fuzzy) + EntryCandidates(e, fields, fuzzy) + Candidates(b, fields, fuzzy)
    decreases |b|
  {
    hide EntryCandidates;
    if b == [] {
      assert a + [e] + b == a + [e] && (a + [e])[..|a|] == a;
    } else {
      var n := |b| - 1;
      var all := a + [e] + b;
      CandidatesInOrder(a, e, b[..n], fields, fuzzy);
      assert all[..|all| - 1] == a + [e] + b[..n] && all[|all| - 1] == b[n];
      var x, y := Candidates(a, fields, fuzzy) + EntryCandidates(e, fields, fuzzy), Candidates(b[..n], fields, fuzzy);
      var z := EntryCandidates(b[n], fields, fuzzy);
      assert x + y + z == x + (y + z);
    }
  }

  /** Candidate i is the answer for its name: no candidate of that name scores higher, and
      every later one scores lower. */
  ghost predicate IsBest(cs: seq<Candidate>, i: nat, name: string) {
    && i < |cs| && cs[i].prop.name == name
    && forall j :: 0 <= j < |cs| && cs[j].prop.name == name ==>
         Lex.AtMost(cs[j].score, cs[i].score) && (j > i ==> Lex.Less(cs[j].score, cs[i].score))
  }

  ghost predicate Named(cs: seq<Candidate>, name: string) {
    exists i :: 0 <= i < |cs| && cs[i].prop.name == name
  }

  /** There is at most one answer. */
  lemma {:induction false} BestUnique(cs: seq<Candidate>, i: nat, j: nat, name: string)
    requires IsBest(cs, i, name) && IsBest(cs, j, name)
    ensures i == j
  {
  }

  // ---------------------------------------------------------------------------
  // The one-pass table
  // ---------------------------------------------------------------------------

  type Table = map<string, Candidate>

  /** One property offered to the table: it replaces an entry of no higher score. */
  function Accept(t: Table, c: Candidate): Table {
    if c.prop.name in t && !Lex.AtMost(t[c.prop.name].score, c.score) then t else t[c.prop.name := c]
  }

  ghost predicate Answers(t: Table, cs: seq<Candidate>) {
    && (forall name :: name in t <==> Named(cs, name))
    && (forall name :: name in t ==> exists i: nat :: IsBest(cs, i, name) && t[name] == cs[i])
  }

  lemma {:induction false} BestKept(cs: seq<Candidate>, i: nat, c: Candidate, name: string)
    requires IsBest(cs, i, name) && (c.prop.name == name ==> Lex.Less(c.score, cs[i].score))
    ensures IsBest(cs + [c], i, name)
  {
    var ds := cs + [c];
    forall j | 0 <= j < |ds| && ds[j].prop.name == name
      ensures Lex.AtMost(ds[j].score, ds[i].score) && (j > i ==> Lex.Less(ds[j].score, ds[i].score))
    {
      if j == |cs| {
        Lex.Total(c.score, cs[i].score);
      } else {
        assert ds[j] == cs[j];
      }
    }
  }

  lemma {:induction false} BestReplaced(cs: seq<Candidate>, c: Candidate)
    requires forall j :: 0 <= j < |cs| && cs[j].prop.name == c.prop.name ==> Lex.AtMost(cs[j].score, c.score)
    ensures IsBest(cs + [c], |cs|, c.prop.name)
  {
    Lex.Irreflexive(c.score);
  }

  lemma {:induction false} AcceptAnswers(t: Table, cs: seq<Candidate>, c: Candidate)
    requires Answers(t, cs)
    ensures Answers(Accept(t, c), cs + [c])
  {
    var ds, t' := cs + [c], Accept(t, c);
    NamedGrows(cs, c);
    forall name | name in t' ensures exists i: nat :: IsBest(ds, i, name) && t'[name] == ds[i] {
      if name == c.prop.name && t'[name] == c && !(name in t && !Lex.AtMost(t[name].score, c.score)) {
        assert forall j :: 0 <= j < |cs| && cs[j].prop.name == name ==> Lex.AtMost(cs[j].score, c.score) by {
          AllAtMost(t, cs, c);
        }
        BestReplaced(cs, c);
        assert ds[|cs|] == c;
      } else {
        var i: nat :| IsBest(cs, i, name) && t[name] == cs[i];
        BestKept(cs, i, c, name);
        assert ds[i] == cs[i];
      }
    }
  }

  lemma {:induction false} NamedGrows(cs: seq<Candidate>, c: Candidate)
    ensures forall name :: Named(cs + [c], name) <==> Named(cs, name) || name == c.prop.name
  {
    var ds := cs + [c];
    assert ds[|cs|] == c;
    forall name | Named(cs, name) ensures Named(ds, name) {
      var i :| 0 <= i < |cs| && cs[i].prop.name == name;
      assert ds[i].prop.name == name;
    }
  }

  // If the table's entry gives way, so do all candidates of that name.
  lemma {:induction false} AllAtMost(t: Table, cs: seq<Candidate>, c: Candidate)
    requires Answers(t, cs) && (c.prop.name in t ==> Lex.AtMost(t[c.prop.name].score, c.score))
    ensures forall j :: 0 <= j < |cs| && cs[j].prop.name == c.prop.name ==> Lex.AtMost(cs[j].score, c.score)
  {
    forall j | 0 <= j < |cs| && cs[j].prop.name == c.prop.name ensures Lex.AtMost(cs[j].score, c.score) {
      assert Named(cs, c.prop.name);
      var i: nat :| IsBest(cs, i, c.prop.name) && t[c.prop.name] == cs[i];
      Lex.AtMostTransitive(cs[j].score, cs[i].score, c.score);
    }
  }

  // ---------------------------------------------------------------------------
  // Names in order
  // ---------------------------------------------------------------------------

  function Codes(s: string): seq<int> {
    seq(|s|, i requires 0 <= i < |s| => s[i] as int)
  }

  predicate NameLess(a: string, b: string) {
    Lex.Less(Codes(a), Codes(b))
  }

  lemma {:induction false} NameTotal(a: string, b: string)
    ensures NameLess(a, b) || a == b || NameLess(b, a)
  {
    Lex.Total(Codes(a), Codes(b));
    if Codes(a) == Codes(b) {
      assert |a| == |Codes(a)| && |b| == |Codes(b)|;
      forall i | 0 <= i < |a| ensures a[i] == b[i] {
        assert Codes(a)[i] == a[i] as int && Codes(b)[i] == b[i] as int;
      }
    }
  }

  ghost predicate Least(name: string, names: set<string>) {
    name in names && forall other :: other in names && other != name ==> NameLess(name, other)
  }

  ghost predicate NamesAscend(out: seq<Property>) {
    forall i, j :: 0 <= i < j < |out| ==> NameLess(out[i].name, out[j].name)
  }

  /** The least name, found by going through the names once. */
  method LeastName(names: set<string>) returns (least: string)
    requires names != {}
    ensures Least(least, names)
  {
    least :| least in names;
    var rest := names - {least};
    while rest != {}
      invariant least in names && least !in rest && rest <= names
      invariant forall other :: other in names - rest && other != least ==> NameLess(least, other)
      decreases rest
    {
      var name :| name in rest;
      NameTotal(name, least);
      if NameLess(name, least) {
        forall other | other in names - (rest - {name}) && other != name ensures NameLess(name, other) {
          if other != least {
            assert other in names - rest;
            Lex.Transitive(Codes(name), Codes(least), Codes(other));
          }
        }
        least := name;
      }
      rest := rest - {name};
    }
  }

  ghost predicate Listed(out: seq<Property>, name: string) {
    exists i :: 0 <= i < |out| && out[i].name == name
  }

  lemma {:induction false} ListedGrows(out: seq<Property>, p: Property)
    ensures forall name :: Listed(out + [p], name) <==> Listed(out, name) || name == p.name
  {
    var all := out + [p];
    assert all[|out|] == p;
    forall name | Listed(out, name) ensures Listed(all, name) {
      var i :| 0 <= i < |out| && out[i].name == name;
      assert all[i].name == name;
    }
  }

  ghost predicate FromTable(out: seq<Property>, t: Table) {
    forall i :: 0 <= i < |out| ==> out[i].name in t && out[i] == t[out[i].name].prop
  }

  /** The properties of a table in the order of their names. */
  method InOrder(t: Table) returns (out: seq<Property>)
    requires forall name :: name in t ==> t[name].prop.name == name
    ensures NamesAscend(out) && FromTable(out, t)
    ensures forall name :: name in t <==> Listed(out, name)
  {
    out := [];
    var left := t.Keys;
    while left != {}
      invariant left <= t.Keys
      invariant NamesAscend(out) && FromTable(out, t)
      invariant forall name :: name in t.Keys - left <==> Listed(out, name)
      invariant forall i, name :: 0 <= i < |out| && name in left ==> NameLess(out[i].name, name)
      decreases left
    {
      var name := LeastName(left);
      ListedGrows(out, t[name].prop);
      out := out + [t[name].prop];
      left := left - {name};
    }
  }

  /** The property is that of the best candidate of its name. */
  ghost predicate BestOf(cs: seq<Candidate>, p: Property) {
    exists i: nat :: IsBest(cs, i, p.name) && p == cs[i].prop
  }

  lemma {:induction false} TableNames(t: Table, cs: seq<Candidate>)
    requires Answers(t, cs)
    ensures forall name :: name in t ==> t[name].prop.name == name
  {
    forall name | name in t ensures t[name].prop.name == name {
      var i: nat :| IsBest(cs, i, name) && t[name] == cs[i];
    }
  }

  lemma {:induction false} TableBest(t: Table, cs: seq<Candidate>, out: seq<Property>)
    requires Answers(t, cs) && FromTable(out, t)
    ensures forall k :: 0 <= k < |out| ==> BestOf(cs, out[k])
  {
    forall k | 0 <= k < |out| ensures BestOf(cs, out[k]) {
      var i: nat :| IsBest(cs, i, out[k].name) && t[out[k].name] == cs[i];
    }
  }

  // ---------------------------------------------------------------------------
  // The sheet
  // ---------------------------------------------------------------------------

  class Sheet {
    const columns: nat
    var entries: seq<Entry>

    constructor (columns: nat)
      ensures this.columns == columns && entries == [] && Valid()
    {
      this.columns := columns;
      entries := [];
    }

    ghost predicate Valid()
      reads this
    {
      Shaped(entries, columns)
    }

    method Append(e: Entry)
      requires Valid() && |e.selector| == columns
      modifies this
      ensures Valid() && entries == old(entries) + [e]
    {
      entries := entries + [e];
    }

    method MatchSelector(selector: seq<Match>, fields: seq<string>, fuzzy: Oracle) returns (r: MaybeScore)
      requires |selector| == |fields| == columns
      ensures r == MatchEntry(selector, fields, fuzzy)
    {
      var score: Score := [];
      for i := 0 to columns
        invariant |score| == i && score == Scores(selector, fields, fuzzy)[..i] && 0 !in score
      {
        var x := DoMatch(selector[i], fields[i], fuzzy);
        assert x == Scores(selector, fields, fuzzy)[i];
        if x == 0 {
          return NoMatch;
        }
        score := score + [x];
      }
      assert Scores(selector, fields, fuzzy)[..columns] == Scores(selector, fields, fuzzy);
      r := Scored(score);
    }

    static method Offer(t: Table, c: Candidate) returns (t': Table)
      ensures t' == Accept(t, c)
    {
      var name := c.prop.name;
      t' := t;
      if name in t {
        if Lex.AtMost(t[name].score, c.score) {
          t' := t[name := c];
        }
      } else {
        t' := t[name := c];
      }
    }

    /** Offer the properties of one matching entry. */
    static method AcceptProps(props: seq<Property>, score: Score, t: Table, ghost cs: seq<Candidate>) returns (t': Table)
      requires Answers(t, cs)
      ensures Answers(t', cs + Offers(props, score))
    {
      t' := t;
      ghost var ds := cs;
      for i := 0 to |props|
        invariant Answers(t', ds)
        invariant ds == cs + Offers(props, score)[..i]
      {
        var c := Candidate(props[i], score);
        AcceptAnswers(t', ds, c);
        t' := Offer(t', c);
        ds := ds + [c];
        assert c == Offers(props, score)[i];
      }
      assert Offers(props, score)[..|props|] == Offers(props, score);
    }

    /** The pass over all entries. */
    method Collect(fields: seq<string>, fuzzy: Oracle) returns (t: Table)
      requires Valid() && |fields| == columns
      ensures Answers(t, Candidates(entries, fields, fuzzy))
    {
      t := map[];
      assert Answers(t, []);
      for n := 0 to |entries|
        invariant Answers(t, Candidates(entries[..n], fields, fuzzy))
      {
        var e := entries[n];
        ghost var cs := Candidates(entries[..n], fields, fuzzy);
        assert entries[..n + 1][..n] == entries[..n];
        var m := MatchSelector(e.selector, fields, fuzzy);
        if m.Scored? {
          t := AcceptProps(e.props, m.score, t, cs);
        } else {
          assert cs + [] == cs;
        }
      }
      assert entries[..|entries|] == entries;
    }

    /** For every name offered by some matching entry, and for no other, exactly one property
        comes out: that of the lexicographically greatest score, the latest among equals.
        They come out in the order of their names. */
    method Query(fields: seq<string>, fuzzy: Oracle) returns (out: seq<Property>)
      requires Valid() && |fields| == columns
      ensures NamesAscend(out)
      ensures var cs := Candidates(entries, fields, fuzzy);
              && (forall name :: Named(cs, name) <==> Listed(out, name))
              && (forall k :: 0 <= k < |out| ==> BestOf(cs, out[k]))
    {
      var t := Collect(fields, fuzzy);
      ghost var cs := Candidates(entries, fields, fuzzy);
      TableNames(t, cs);
      out := InOrder(t);
      TableBest(t, cs, out);
    }
  }
}
