/**
 * The shapes of the store's `findMany` results: rows of a table in key
 * order, filtering, and ordering newest-first by a timestamp.
 */
module Listing {
  import opened Records

  /** The entries of `m` with a key below `bound`, each once, in ascending key order. */
  function Rows<T(!new)>(m: map<Id, T>, bound: nat): (r: seq<(Id, T)>)
    ensures forall p :: p in r <==> p.0 < bound && p.0 in m && m[p.0] == p.1
    ensures forall p :: multiset(r)[p] <= 1
  {
    if bound == 0 then []
    else
      var k := bound - 1;
      var before := Rows(m, k);
      if k in m then
        var row := (k, m[k]);
        assert row !in before;
        assert multiset(before + [row]) == multiset(before) + multiset{row};
        before + [row]
      else
        before
  }

  /** `findMany({ where })` over a table: the rows below `bound` that satisfy `keep`, each once. */
  function RowsWhere<T(!new)>(m: map<Id, T>, bound: nat, keep: ((Id, T)) -> bool): (r: seq<(Id, T)>)
    ensures forall p :: p in r <==> p.0 < bound && p.0 in m && m[p.0] == p.1 && keep(p)
    ensures forall p :: multiset(r)[p] <= 1
  {
    var rows := Rows(m, bound);
    var r := Where(rows, keep);
    assert forall p :: p in r <==> p in multiset(r);
    assert forall p :: p in rows <==> p in multiset(rows);
    r
  }

  /** The keys below `bound` whose entries satisfy `keep`, in ascending order. */
  function KeysWhere<T(!new)>(m: map<Id, T>, bound: nat, keep: T -> bool): (r: seq<Id>)
    ensures forall k :: k in r <==> k < bound && k in m && keep(m[k])
    ensures forall i, j :: 0 <= i < j < |r| ==> r[i] < r[j]
  {
    if bound == 0 then []
    else
      var k := bound - 1;
      var before := KeysWhere(m, k, keep);
      if k in m && keep(m[k]) then
        assert forall i :: 0 <= i < |before| ==> before[i] in before;
        before + [k]
      else before
  }

  /** The ids of a sequence, as a set. */
  function Elements(s: seq<Id>): (r: set<Id>)
    ensures forall k :: k in r <==> k in s
  {
    set k | k in s
  }

  /** No id occurs twice. */
  predicate Distinct(s: seq<Id>) {
    forall i :: 0 <= i < |s| ==> s[i] !in s[..i]
  }

  /** Ids in strictly ascending order are distinct. */
  lemma AscendingDistinct(s: seq<Id>)
    requires forall i, j :: 0 <= i < j < |s| ==> s[i] < s[j]
    ensures Distinct(s)
  {
    forall i | 0 <= i < |s|
      ensures s[i] !in s[..i]
    {
      assert forall j :: 0 <= j < i ==> s[..i][j] < s[i];
    }
  }

  /** Extending a prefix by the next element. */
  lemma PrefixStep<T>(s: seq<T>, i: nat)
    requires i < |s|
    ensures s[..i + 1] == s[..i] + [s[i]]
  {
  }

  /** What occurs in `s + [x]`. */
  lemma AppendMembership<T>(s: seq<T>, x: T)
    ensures forall k :: k in s + [x] <==> k in s || k == x
  {
  }

  /** `createMany`: the rows `items` stored under consecutive fresh ids from `first`, in order. */
  function Numbered<T>(items: seq<T>, first: Id): (r: map<Id, T>)
    ensures forall k :: k in r <==> first <= k < first + |items|
    ensures forall k :: k in r ==> r[k] == items[k - first]
    decreases |items|
  {
    if items == [] then map[]
    else
      var last := |items| - 1;
      Numbered(items[..last], first)[first + last := items[last]]
  }

  /** The elements of `s` that satisfy `keep`, each as often as in `s`, in the order of `s`. */
  function Where<T(!new)>(s: seq<T>, keep: T -> bool): (r: seq<T>)
    ensures forall x :: multiset(r)[x] == if keep(x) then multiset(s)[x] else 0
  {
    if s == [] then []
    else
      assert s == [s[0]] + s[1..];
      (if keep(s[0]) then [s[0]] else []) + Where(s[1..], keep)
  }

  /** `orderBy: { createdAt: "desc" }`: no element is older than a later one. */
  predicate NewestFirst<T>(s: seq<T>, stamp: T -> Millis) {
    forall i, j :: 0 <= i < j < |s| ==> stamp(s[i]) >= stamp(s[j])
  }

  function InsertNewestFirst<T>(x: T, s: seq<T>, stamp: T -> Millis): (r: seq<T>)
    requires NewestFirst(s, stamp)
    ensures NewestFirst(r, stamp)
    ensures multiset(r) == multiset(s) + multiset{x}
    ensures |r| == |s| + 1 && (r[0] == x || (s != [] && r[0] == s[0]))
  {
    if s == [] || stamp(x) >= stamp(s[0]) then [x] + s
    else
      var rest := InsertNewestFirst(x, s[1..], stamp);
      assert s == [s[0]] + s[1..];
      assert stamp(s[0]) >= stamp(rest[0]);
      [s[0]] + rest
  }

  /** `s` ordered newest-first; elements with equal stamps keep their order. */
  function SortNewestFirst<T>(s: seq<T>, stamp: T -> Millis): (r: seq<T>)
    ensures NewestFirst(r, stamp)
    ensures multiset(r) == multiset(s)
  {
    if s == [] then []
    else
      assert s == [s[0]] + s[1..];
      InsertNewestFirst(s[0], SortNewestFirst(s[1..], stamp), stamp)
  }
}
