/**
 * The meaning of the grouping calculateAverageSalaries performs with a
 * JavaScript `Map` keyed by employee name: which rows fall in the month
 * range, how many rows and how much pay each name has among them, and the
 * order in which the names first appear (a `Map` iterates its keys in
 * insertion order). All recursions take rows off the END of a sequence, the
 * way the loop that builds the `Map` extends its prefix.
 */
module Aggregation {
  import opened Types

  predicate InRange(row: Salary, startMonth: int, endMonth: int) {
    startMonth <= row.yearmonth <= endMonth
  }

  /** `salaries.filter(s => s.yearmonth >= startMonth && s.yearmonth <= endMonth)`. */
  function FilterInRange(salaries: seq<Salary>, startMonth: int, endMonth: int): (rows: seq<Salary>)
    ensures forall k :: 0 <= k < |rows| ==> InRange(rows[k], startMonth, endMonth)
  {
    if salaries == [] then []
    else
      var last := salaries[|salaries| - 1];
      FilterInRange(salaries[..|salaries| - 1], startMonth, endMonth) + (if InRange(last, startMonth, endMonth) then [last] else [])
  }

  /** The filter keeps every row inside the range, as often as it occurs in
      the input, and no row outside it. */
  lemma {:induction false} FilterInRangeKeeps(salaries: seq<Salary>, startMonth: int, endMonth: int)
    ensures forall x :: multiset(FilterInRange(salaries, startMonth, endMonth))[x] ==
                         if InRange(x, startMonth, endMonth) then multiset(salaries)[x] else 0
  {
    if salaries != [] {
      var prefix, last := salaries[..|salaries| - 1], salaries[|salaries| - 1];
      assert salaries == prefix + [last];
      FilterInRangeKeeps(prefix, startMonth, endMonth);
    }
  }

  /** The filter returns its input unchanged exactly when every row is in
      the range. */
  lemma {:induction false} FilterInRangeIdentity(salaries: seq<Salary>, startMonth: int, endMonth: int)
    ensures FilterInRange(salaries, startMonth, endMonth) == salaries <==>
            forall k :: 0 <= k < |salaries| ==> InRange(salaries[k], startMonth, endMonth)
  {
    if salaries != [] {
      FilterInRangeIdentity(salaries[..|salaries| - 1], startMonth, endMonth);
    }
  }

  /** Filtering twice is filtering once. */
  lemma FilterInRangeIdempotent(salaries: seq<Salary>, startMonth: int, endMonth: int)
    ensures var rows := FilterInRange(salaries, startMonth, endMonth);
            FilterInRange(rows, startMonth, endMonth) == rows
  {
    FilterInRangeIdentity(FilterInRange(salaries, startMonth, endMonth), startMonth, endMonth);
  }

  /** A row is among the filtered rows exactly when it is an input row inside the range. */
  lemma FilterInRangeMembership(salaries: seq<Salary>, startMonth: int, endMonth: int, x: Salary)
    ensures x in FilterInRange(salaries, startMonth, endMonth) <==> x in salaries && InRange(x, startMonth, endMonth)
  {
    FilterInRangeKeeps(salaries, startMonth, endMonth);
    assert x in FilterInRange(salaries, startMonth, endMonth) <==> multiset(FilterInRange(salaries, startMonth, endMonth))[x] > 0;
  }

  /** The number of rows carrying exactly this employee name. */
  function Count(rows: seq<Salary>, name: string): (n: nat)
    ensures n <= |rows|
  {
    if rows == [] then 0
    else Count(rows[..|rows| - 1], name) + (if rows[|rows| - 1].employeeName == name then 1 else 0)
  }

  /** The sum of the salary amounts of the rows carrying exactly this name. */
  function Total(rows: seq<Salary>, name: string): (total: real)
    ensures Count(rows, name) == 0 ==> total == 0.0
  {
    if rows == [] then 0.0
    else Total(rows[..|rows| - 1], name) + (if rows[|rows| - 1].employeeName == name then rows[|rows| - 1].salaryAmount else 0.0)
  }

  /** The keys of the `Map` after inserting the rows' names in order: each
      name once, in the order of its first appearance. */
  function Names(rows: seq<Salary>): (names: seq<string>)
    ensures forall i, j :: 0 <= i < j < |names| ==> names[i] != names[j]
    ensures forall name :: name in names <==> Count(rows, name) > 0
  {
    if rows == [] then []
    else
      var previous := Names(rows[..|rows| - 1]);
      var name := rows[|rows| - 1].employeeName;
      if name in previous then previous else previous + [name]
  }

  /** The position of the first row carrying this name (|rows| when none does). */
  function FirstOccurrence(rows: seq<Salary>, name: string): (k: nat)
    ensures k <= |rows|
    ensures k < |rows| ==> rows[k].employeeName == name
    ensures forall i :: 0 <= i < k ==> rows[i].employeeName != name
  {
    if rows == [] then 0
    else if rows[0].employeeName == name then 0
    else 1 + FirstOccurrence(rows[1..], name)
  }

  /** A name has a positive count exactly when some row carries it. */
  lemma {:induction false} CountPositive(rows: seq<Salary>, name: string)
    ensures Count(rows, name) > 0 <==> exists k :: 0 <= k < |rows| && rows[k].employeeName == name
  {
    if rows != [] {
      var prefix := rows[..|rows| - 1];
      CountPositive(prefix, name);
      if Count(prefix, name) > 0 {
        var k :| 0 <= k < |prefix| && prefix[k].employeeName == name;
        assert rows[k].employeeName == name;
      }
      if exists k :: 0 <= k < |rows| && rows[k].employeeName == name {
        var k :| 0 <= k < |rows| && rows[k].employeeName == name;
        if k < |prefix| {
          assert prefix[k].employeeName == name;
        }
      }
    }
  }

  /** Count and Total of a concatenation add up. */
  lemma {:induction false} CountTotalAppend(u: seq<Salary>, v: seq<Salary>, name: string)
    ensures Count(u + v, name) == Count(u, name) + Count(v, name)
    ensures Total(u + v, name) == Total(u, name) + Total(v, name)
    decreases |v|
  {
    if v == [] {
      assert u + v == u;
    } else {
      var v' := v[..|v| - 1];
      CountTotalAppend(u, v', name);
      assert (u + v)[..|u + v| - 1] == u + v';
    }
  }

  /** Count and Total depend only on the multiset of rows, not on their order. */
  lemma {:induction false} CountTotalPermutation(u: seq<Salary>, v: seq<Salary>, name: string)
    requires multiset(u) == multiset(v)
    ensures Count(u, name) == Count(v, name)
    ensures Total(u, name) == Total(v, name)
    decreases |u|
  {
    if u == [] {
      assert |v| == |multiset(v)| == 0;
    } else {
      var u', x := u[..|u| - 1], u[|u| - 1];
      assert u == u' + [x];
      assert x in multiset(v);
      var j :| 0 <= j < |v| && v[j] == x;
      var v' := v[..j] + v[j + 1..];
      RemoveAt(v, j, name);
      assert multiset(u') == multiset(u) - multiset{x};
      CountTotalPermutation(u', v', name);
    }
  }

  /** Taking the row at position j out of v removes exactly its own share of
      the count and the total, and one copy of it from the multiset. */
  lemma RemoveAt(v: seq<Salary>, j: nat, name: string)
    requires j < |v|
    ensures var v' := v[..j] + v[j + 1..];
            && multiset(v') == multiset(v) - multiset{v[j]}
            && Count(v, name) == Count(v', name) + (if v[j].employeeName == name then 1 else 0)
            && Total(v, name) == Total(v', name) + (if v[j].employeeName == name then v[j].salaryAmount else 0.0)
  {
    assert v == v[..j] + [v[j]] + v[j + 1..];
    CountTotalAppend(v[..j], [v[j]], name);
    CountTotalAppend(v[..j] + [v[j]], v[j + 1..], name);
    CountTotalAppend(v[..j], v[j + 1..], name);
    assert [v[j]][..0] == [];
  }

  /** Filtering a concatenation filters each part. */
  lemma {:induction false} FilterAppend(u: seq<Salary>, v: seq<Salary>, startMonth: int, endMonth: int)
    ensures FilterInRange(u + v, startMonth, endMonth) == FilterInRange(u, startMonth, endMonth) + FilterInRange(v, startMonth, endMonth)
    decreases |v|
  {
    if v == [] {
      assert u + v == u;
    } else {
      var v', x := v[..|v| - 1], v[|v| - 1];
      FilterAppend(u, v', startMonth, endMonth);
      assert (u + v)[..|u + v| - 1] == u + v';
      var tail := if InRange(x, startMonth, endMonth) then [x] else [];
      var fu, fv' := FilterInRange(u, startMonth, endMonth), FilterInRange(v', startMonth, endMonth);
      calc {
        FilterInRange(u + v, startMonth, endMonth);
        FilterInRange(u + v', startMonth, endMonth) + tail;
        (fu + fv') + tail;
        fu + (fv' + tail);
        fu + FilterInRange(v, startMonth, endMonth);
      }
    }
  }

  /** The names come out in the order of their first appearance among the rows. */
  lemma {:induction false} NamesInFirstAppearanceOrder(rows: seq<Salary>)
    ensures forall i :: 0 <= i < |Names(rows)| ==> FirstOccurrence(rows, Names(rows)[i]) < |rows|
    ensures forall i, j :: 0 <= i < j < |Names(rows)| ==>
              FirstOccurrence(rows, Names(rows)[i]) < FirstOccurrence(rows, Names(rows)[j])
  {
    if rows != [] {
      var prefix := rows[..|rows| - 1];
      var x := rows[|rows| - 1];
      NamesInFirstAppearanceOrder(prefix);
      var previous, names := Names(prefix), Names(rows);
      forall i | 0 <= i < |previous|
        ensures FirstOccurrence(rows, previous[i]) == FirstOccurrence(prefix, previous[i])
      {
        FirstOccurrenceUnique(rows, previous[i], FirstOccurrence(prefix, previous[i]));
      }
      if x.employeeName in previous {
        assert names == previous;
      } else {
        assert names == previous + [x.employeeName];
        CountPositive(prefix, x.employeeName);
        FirstOccurrenceUnique(rows, x.employeeName, |prefix|);
      }
    }
  }

  /** Rows that all carry one name leave one key in the `Map`, and every row
      counts towards it. */
  lemma {:induction false} SingleName(rows: seq<Salary>, name: string)
    requires rows != []
    requires forall i :: 0 <= i < |rows| ==> rows[i].employeeName == name
    ensures Names(rows) == [name]
    ensures Count(rows, name) == |rows|
  {
    var prefix := rows[..|rows| - 1];
    if prefix != [] {
      SingleName(prefix, name);
    }
  }

  /** The first occurrence is the only position with the name and no earlier one. */
  lemma FirstOccurrenceUnique(rows: seq<Salary>, name: string, k: nat)
    requires k < |rows| && rows[k].employeeName == name
    requires forall i :: 0 <= i < k ==> rows[i].employeeName != name
    ensures FirstOccurrence(rows, name) == k
  {
  }
}
