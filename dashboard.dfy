/**
 * The list logic of frontend/src/App.js: the search filter, the sort-header
 * toggle (`handleSort`) and the filtered, sorted list the table shows.
 */
module Dashboard {
  import opened Common
  import opened Strings
  import opened Sorting
  import opened MockProcesses

  /** The sortable columns of the process table. */
  datatype Field = User | Pid | Cpu | Mem | Rss | Time

  datatype Order = Asc | Desc

  /** The `sortBy` / `sortOrder` pair of component state. */
  datatype SortState = SortState(sortBy: Field, sortOrder: Order)

  const InitialSort := SortState(Pid, Asc)

  /** `handleSort(field)`: the same column flips the order, a new column starts ascending. */
  function HandleSort(st: SortState, field: Field): (r: SortState)
    ensures r.sortBy == field
    ensures st.sortBy == field ==> r.sortOrder != st.sortOrder
    ensures st.sortBy != field ==> r.sortOrder == Asc
  {
    if st.sortBy == field then SortState(field, if st.sortOrder == Asc then Desc else Asc)
    else SortState(field, Asc)
  }

  /** Clicking the current column twice restores the state; a new column then the same one gives descending. */
  lemma HandleSortToggles(st: SortState, field: Field)
    ensures HandleSort(HandleSort(st, st.sortBy), st.sortBy) == st
    ensures HandleSort(HandleSort(st, field), field).sortOrder ==
              (if st.sortBy == field then st.sortOrder else Desc)
  {
  }

  /** From the initial state, the first click on pid sorts descending; any other column sorts ascending. */
  lemma FirstClickFromInitial(field: Field)
    ensures field == InitialSort.sortBy ==> HandleSort(InitialSort, field) == SortState(Pid, Desc)
    ensures field != InitialSort.sortBy ==> HandleSort(InitialSort, field) == SortState(field, Asc)
  {
  }

  /** The filter callback: command, pid digits or user contain the term (text fields case-insensitively). */
  predicate Matches(p: Proc, term: string)
  {
    || Includes(Lower(p.command), Lower(term))
    || Includes(DecimalString(p.pid), term)
    || Includes(Lower(p.user), Lower(term))
  }

  /** `processes.filter(...)`: keeps the matching records, each as often as in the input. */
  function Filter(ps: seq<Proc>, term: string): (r: seq<Proc>)
    ensures forall x :: multiset(r)[x] == if Matches(x, term) then multiset(ps)[x] else 0
    ensures |r| <= |ps|
    ensures forall i :: 0 <= i < |r| ==> Matches(r[i], term)
    ensures forall i :: 0 <= i < |ps| ==> (ps[i] in r <==> Matches(ps[i], term))
    ensures multiset(r) <= multiset(ps)
  {
    var r := Keep(ps, (p: Proc) => Matches(p, term));
    assert forall i :: 0 <= i < |ps| ==> ps[i] in multiset(ps);
    assert forall i :: 0 <= i < |r| ==> r[i] in multiset(r);
    r
  }

  /** An empty search term keeps every record, in order. */
  lemma FilterEmptyTermKeepsAll(ps: seq<Proc>)
    ensures Filter(ps, "") == ps
  {
    assert Lower("") == "";
    forall i | 0 <= i < |ps| ensures Matches(ps[i], "") {
      IncludesEmptyAndSelf(Lower(ps[i].command));
    }
  }

  /** Searching for a record's own pid, or for a substring of it, keeps that record. */
  lemma SearchByPidKeeps(p: Proc, term: string)
    requires exists i :: OccursAt(DecimalString(p.pid), term, i)
    ensures Matches(p, term)
  {
    IncludesIff(DecimalString(p.pid), term);
  }

  /** The comparator's key: the field's value, lower-cased when it is a string. */
  function FieldKey(p: Proc, field: Field): Key
  {
    match field
    case User => Str(Lower(p.user))
    case Pid => Num(p.pid)
    case Cpu => Num(p.cpu)
    case Mem => Num(p.mem)
    case Rss => Num(p.rss)
    case Time => Str(Lower(p.time))
  }

  function KeyOf(field: Field): Proc -> Key
  {
    (p: Proc) => FieldKey(p, field)
  }

  /**
   * The list the table shows: the filtered records, sorted on the chosen
   * field; a permutation of the filter's result, ordered by the comparator.
   */
  function Displayed(ps: seq<Proc>, term: string, st: SortState): (r: seq<Proc>)
    ensures multiset(r) == multiset(Filter(ps, term))
    ensures forall i :: 0 <= i < |r| ==> Matches(r[i], term)
    ensures forall i, j :: 0 <= i < j < |r| ==>
      InOrder(FieldKey(r[i], st.sortBy), FieldKey(r[j], st.sortBy), st.sortOrder == Desc)
  {
    var filtered := Filter(ps, term);
    var r := SortBy(filtered, KeyOf(st.sortBy), st.sortOrder == Desc);
    SortBySorted(filtered, KeyOf(st.sortBy), st.sortOrder == Desc);
    assert forall i :: 0 <= i < |r| ==> r[i] in multiset(filtered);
    r
  }

  /** An element occurring at two positions occurs at least twice in the multiset. */
  lemma TwoPositionsCount<T>(s: seq<T>, i: int, j: int)
    requires 0 <= i < j < |s| && s[i] == s[j]
    ensures multiset(s)[s[i]] >= 2
  {
    assert s == s[..j] + s[j..];
    assert s[i] == s[..j][i];
    assert s[j] == s[j..][0];
  }

  /** An element counted twice in the multiset sits at two distinct positions. */
  lemma {:induction false} CountTwoPositions<T>(s: seq<T>, x: T)
    requires multiset(s)[x] >= 2
    ensures exists a, b :: 0 <= a < b < |s| && s[a] == x && s[b] == x
    decreases |s|
  {
    assert s == [s[0]] + s[1..];
    if s[0] == x {
      assert x in multiset(s[1..]);
      var k :| 0 <= k < |s[1..]| && s[1..][k] == x;
      assert s[k + 1] == x;
    } else {
      CountTwoPositions(s[1..], x);
      var a, b :| 0 <= a < b < |s[1..]| && s[1..][a] == x && s[1..][b] == x;
      assert s[a + 1] == x && s[b + 1] == x;
    }
  }

  /** With pairwise distinct keys among the matching records, ascending is strictly increasing and descending strictly decreasing. */
  lemma DisplayedStrict(ps: seq<Proc>, term: string, st: SortState)
    requires forall i, j :: 0 <= i < j < |Filter(ps, term)| ==>
      FieldKey(Filter(ps, term)[i], st.sortBy) != FieldKey(Filter(ps, term)[j], st.sortBy)
    ensures forall i, j :: 0 <= i < j < |Displayed(ps, term, st)| ==>
      if st.sortOrder == Asc
      then KeyLess(FieldKey(Displayed(ps, term, st)[i], st.sortBy), FieldKey(Displayed(ps, term, st)[j], st.sortBy))
      else KeyLess(FieldKey(Displayed(ps, term, st)[j], st.sortBy), FieldKey(Displayed(ps, term, st)[i], st.sortBy))
  {
    var f := Filter(ps, term);
    var r := Displayed(ps, term, st);
    var key := KeyOf(st.sortBy);
    forall i, j | 0 <= i < j < |r| ensures key(r[i]) != key(r[j]) {
      assert r[i] in multiset(f) && r[j] in multiset(f);
      if r[i] == r[j] {
        TwoPositionsCount(r, i, j);
        CountTwoPositions(f, r[i]);
      } else {
        var a :| 0 <= a < |f| && f[a] == r[i];
        var b :| 0 <= b < |f| && f[b] == r[j];
        assert a != b;
        if a > b {
          assert key(f[b]) != key(f[a]);
        }
      }
    }
    assert Sorted(r, key, st.sortOrder == Desc);
    SortedDistinctStrict(r, key, st.sortOrder == Desc);
  }
}
