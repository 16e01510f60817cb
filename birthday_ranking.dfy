/**
 * The birthday ranking behind `findAll`: two subqueries split the table on
 * today's (month, day), each one sorted by (month, day), joined with
 * `UNION ALL`. Today is the pivot `(m, d)`, which the query reads from `Now()`.
 */
module BirthdayRanking {
  import opened Clients

  /** WHERE clause of the first subquery (`aniversariosAfazer`), as written; AND binds tighter than OR. */
  predicate UpcomingWhere(c: Client, m: int, d: int)
  {
    (Day(c) >= d && Month(c) >= m) || (Day(c) <= d && Month(c) > m)
  }

  /** WHERE clause of the second subquery (`aniversariosFeitos`), as written. */
  predicate PassedWhere(c: Client, m: int, d: int)
  {
    (Month(c) <= m && Day(c) < d) || Month(c) < m
  }

  /** `(month, day) >= (m, d)`, comparing months first and days second. */
  predicate OnOrAfter(month: int, day: int, m: int, d: int)
  {
    month > m || (month == m && day >= d)
  }

  /** The first WHERE clause is the lexical test: a birthday today is included. */
  lemma UpcomingWhereIsOnOrAfter(c: Client, m: int, d: int)
    ensures UpcomingWhere(c, m, d) <==> OnOrAfter(Month(c), Day(c), m, d)
  {
  }

  /** The second WHERE clause is the exact negation of the first one. */
  lemma PassedWhereIsComplement(c: Client, m: int, d: int)
    ensures PassedWhere(c, m, d) <==> !UpcomingWhere(c, m, d)
  {
  }

  /** The two subqueries joined by `UNION ALL`. */
  datatype Subquery = Upcoming | Passed

  predicate Matches(q: Subquery, c: Client, m: int, d: int)
  {
    match q
    case Upcoming => UpcomingWhere(c, m, d)
    case Passed => PassedWhere(c, m, d)
  }

  /** `Select * From clients Where ...`: the rows that match, in scan order. */
  function Where(table: seq<Client>, q: Subquery, m: int, d: int): (r: seq<Client>)
    ensures forall i :: 0 <= i < |r| ==> Matches(q, r[i], m, d)
  {
    if table == [] then []
    else
      var rest := Where(table[1..], q, m, d);
      if Matches(q, table[0], m, d) then [table[0]] + rest else rest
  }

  /** A selection holds each matching row as often as the table does, and no other row. */
  lemma {:induction false} WhereCounts(table: seq<Client>, q: Subquery, m: int, d: int, c: Client)
    ensures multiset(Where(table, q, m, d))[c] == if Matches(q, c, m, d) then multiset(table)[c] else 0
  {
    if table != [] {
      WhereCounts(table[1..], q, m, d, c);
      assert table == [table[0]] + table[1..];
    }
  }

  /** Every row matches exactly one of the two WHERE clauses, so the selections split the table. */
  lemma {:induction false} WhereSplitsTable(table: seq<Client>, m: int, d: int)
    ensures multiset(Where(table, Upcoming, m, d)) + multiset(Where(table, Passed, m, d)) == multiset(table)
  {
    if table != [] {
      WhereSplitsTable(table[1..], m, d);
      PassedWhereIsComplement(table[0], m, d);
      assert table == [table[0]] + table[1..];
    }
  }

  /** `ORDER BY Extract(MONTH ...), Extract(DAY ...) ASC`. */
  predicate BirthdayLeq(a: Client, b: Client)
  {
    Month(a) < Month(b) || (Month(a) == Month(b) && Day(a) <= Day(b))
  }

  predicate SortedByBirthday(s: seq<Client>)
  {
    forall i, j :: 0 <= i < j < |s| ==> BirthdayLeq(s[i], s[j])
  }

  /** Prepending a birthday no later than any in a sorted sequence keeps it sorted. */
  lemma SortedCons(x: Client, s: seq<Client>)
    requires SortedByBirthday(s)
    requires forall i :: 0 <= i < |s| ==> BirthdayLeq(x, s[i])
    ensures SortedByBirthday([x] + s)
  {
  }

  /** Puts `x` before the first element whose birthday is not earlier, so equal birthdays keep their order. */
  function InsertByBirthday(x: Client, s: seq<Client>): (r: seq<Client>)
    requires SortedByBirthday(s)
    ensures SortedByBirthday(r)
    ensures multiset(r) == multiset(s) + multiset{x}
  {
    if s == [] || BirthdayLeq(x, s[0]) then
      SortedCons(x, s);
      [x] + s
    else
      var tail := s[1..];
      assert s == [s[0]] + tail;
      var rest := InsertByBirthday(x, tail);
      assert forall i :: 0 <= i < |rest| ==> BirthdayLeq(s[0], rest[i]) by {
        forall i | 0 <= i < |rest| ensures BirthdayLeq(s[0], rest[i]) {
          assert rest[i] in multiset(rest);
          if rest[i] != x {
            assert rest[i] in multiset(tail);
            var k :| 0 <= k < |tail| && tail[k] == rest[i];
            assert s[k + 1] == rest[i];
          }
        }
      }
      SortedCons(s[0], rest);
      [s[0]] + rest
  }

  /** A stable insertion sort on (month, day); ties stay in scan order. */
  function SortByBirthday(s: seq<Client>): (r: seq<Client>)
    ensures SortedByBirthday(r)
    ensures multiset(r) == multiset(s)
  {
    if s == [] then []
    else
      assert s == [s[0]] + s[1..];
      InsertByBirthday(s[0], SortByBirthday(s[1..]))
  }

  /** One subquery: its WHERE clause, then its ORDER BY. */
  function Select(table: seq<Client>, q: Subquery, m: int, d: int): (r: seq<Client>)
    ensures SortedByBirthday(r)
    ensures forall i :: 0 <= i < |r| ==> Matches(q, r[i], m, d)
    ensures multiset(r) == multiset(Where(table, q, m, d))
  {
    var w := Where(table, q, m, d);
    var r := SortByBirthday(w);
    assert forall i :: 0 <= i < |r| ==> r[i] in multiset(w);
    r
  }

  /** Upcoming rows sorted, then passed rows sorted: no upcoming row follows a passed one, and each side is in order. */
  lemma ConcatBlocks(upcoming: seq<Client>, passed: seq<Client>, m: int, d: int)
    requires SortedByBirthday(upcoming) && SortedByBirthday(passed)
    requires forall i :: 0 <= i < |upcoming| ==> UpcomingWhere(upcoming[i], m, d)
    requires forall i :: 0 <= i < |passed| ==> !UpcomingWhere(passed[i], m, d)
    ensures var r := upcoming + passed;
      forall i, j :: 0 <= i < j < |r| && UpcomingWhere(r[j], m, d) ==> UpcomingWhere(r[i], m, d)
    ensures var r := upcoming + passed;
      forall i, j :: 0 <= i < j < |r| && UpcomingWhere(r[i], m, d) == UpcomingWhere(r[j], m, d) ==> BirthdayLeq(r[i], r[j])
  {
  }

  /**
   * The whole `UNION ALL` before `LIMIT`/`OFFSET`: upcoming birthdays, then
   * passed ones. It lists every row once; no upcoming row follows a passed
   * one; rows on the same side of the pivot are in (month, day) order.
   */
  function Rank(table: seq<Client>, m: int, d: int): (r: seq<Client>)
    ensures multiset(r) == multiset(table)
    ensures |r| == |table|
    ensures forall i, j :: 0 <= i < j < |r| && UpcomingWhere(r[j], m, d) ==> UpcomingWhere(r[i], m, d)
    ensures forall i, j :: 0 <= i < j < |r| && UpcomingWhere(r[i], m, d) == UpcomingWhere(r[j], m, d) ==> BirthdayLeq(r[i], r[j])
  {
    var upcoming := Select(table, Upcoming, m, d);
    var passed := Select(table, Passed, m, d);
    WhereSplitsTable(table, m, d);
    assert forall i :: 0 <= i < |passed| ==> !UpcomingWhere(passed[i], m, d) by {
      forall i | 0 <= i < |passed| ensures !UpcomingWhere(passed[i], m, d) {
        assert Matches(Passed, passed[i], m, d);
        PassedWhereIsComplement(passed[i], m, d);
      }
    }
    assert forall i :: 0 <= i < |upcoming| ==> UpcomingWhere(upcoming[i], m, d) by {
      forall i | 0 <= i < |upcoming| ensures UpcomingWhere(upcoming[i], m, d) {
        assert Matches(Upcoming, upcoming[i], m, d);
      }
    }
    ConcatBlocks(upcoming, passed, m, d);
    var r := upcoming + passed;
    assert multiset(r) == multiset(table);
    assert |r| == |multiset(r)|;
    r
  }

  /** A birthday today ranks first: the head of the ranking then has today's month and day. */
  lemma TodayRanksFirst(table: seq<Client>, m: int, d: int, c: Client)
    requires c in table && Month(c) == m && Day(c) == d
    ensures |Rank(table, m, d)| > 0
    ensures Month(Rank(table, m, d)[0]) == m && Day(Rank(table, m, d)[0]) == d
  {
    var r := Rank(table, m, d);
    assert c in multiset(r);
    var j :| 0 <= j < |r| && r[j] == c;
    if j > 0 {
      assert UpcomingWhere(r[j], m, d);
      assert UpcomingWhere(r[0], m, d);
      assert BirthdayLeq(r[0], r[j]);
    }
  }
  // An independent reading of the same order: the distance from today to the
  // birthday, going forward round the year.

  /** Day slots per month in the numbering of (month, day); every day of a month fits. */
  const MonthSlots := 32

  /** Thirteen months of slots: more than the gap between any two valid birthdays. */
  const YearSlots := 13 * MonthSlots

  function Ordinal(month: int, day: int): (o: int)
  {
    month * MonthSlots + day
  }

  /** `(birthday - today) mod year`, on the slot numbering. */
  function CyclicDistance(c: Client, m: int, d: int): (dist: int)
  {
    (Ordinal(Month(c), Day(c)) - Ordinal(m, d)) % YearSlots
  }

  /** The distance is the plain difference for an upcoming birthday and wraps by a year for a passed one. */
  lemma CyclicDistanceValue(c: Client, m: int, d: int)
    requires ValidBirthday(c) && ValidMonthDay(m, d)
    ensures UpcomingWhere(c, m, d) ==> CyclicDistance(c, m, d) == Ordinal(Month(c), Day(c)) - Ordinal(m, d)
    ensures !UpcomingWhere(c, m, d) ==> CyclicDistance(c, m, d) == Ordinal(Month(c), Day(c)) - Ordinal(m, d) + YearSlots
  {
  }

  /** Two valid birthdays at the same distance from today are the same (month, day). */
  lemma DistanceDeterminesBirthday(a: Client, b: Client, m: int, d: int)
    requires ValidBirthday(a) && ValidBirthday(b) && ValidMonthDay(m, d)
    requires CyclicDistance(a, m, d) == CyclicDistance(b, m, d)
    ensures Month(a) == Month(b) && Day(a) == Day(b)
  {
  }

  /** Comparing distances from today is exactly the order of the union: upcoming first, then (month, day) within a side. */
  lemma CyclicOrderIsUnionOrder(a: Client, b: Client, m: int, d: int)
    requires ValidBirthday(a) && ValidBirthday(b) && ValidMonthDay(m, d)
    ensures CyclicDistance(a, m, d) <= CyclicDistance(b, m, d) <==>
      (UpcomingWhere(a, m, d) && !UpcomingWhere(b, m, d)) ||
      (UpcomingWhere(a, m, d) == UpcomingWhere(b, m, d) && BirthdayLeq(a, b))
  {
    CyclicDistanceValue(a, m, d);
    CyclicDistanceValue(b, m, d);
  }

  predicate CyclicallySorted(s: seq<Client>, m: int, d: int)
  {
    forall i, j :: 0 <= i < j < |s| ==> CyclicDistance(s[i], m, d) <= CyclicDistance(s[j], m, d)
  }

  /** The ranking lists the table by increasing distance from today. */
  lemma RankIsCyclicallySorted(table: seq<Client>, m: int, d: int)
    requires forall c :: c in table ==> ValidBirthday(c)
    requires ValidMonthDay(m, d)
    ensures CyclicallySorted(Rank(table, m, d), m, d)
  {
    var r := Rank(table, m, d);
    forall i, j | 0 <= i < j < |r| ensures CyclicDistance(r[i], m, d) <= CyclicDistance(r[j], m, d) {
      assert r[i] in multiset(table) && r[j] in multiset(table);
      CyclicOrderIsUnionOrder(r[i], r[j], m, d);
    }
  }

  function Distances(s: seq<Client>, m: int, d: int): (ds: seq<int>)
  {
    seq(|s|, i requires 0 <= i < |s| => CyclicDistance(s[i], m, d))
  }

  /** Removing the same element from two equal multisets leaves equal multisets. */
  lemma MultisetCancel<T>(p: multiset<T>, q: multiset<T>, x: T)
    requires p + multiset{x} == q + multiset{x}
    ensures p == q
  {
    forall y ensures p[y] == q[y] {
      assert (p + multiset{x})[y] == (q + multiset{x})[y];
    }
  }

  lemma DistancesOfConcat(s: seq<Client>, t: seq<Client>, m: int, d: int)
    ensures Distances(s + t, m, d) == Distances(s, m, d) + Distances(t, m, d)
  {
  }

  /** Rearranging rows rearranges their distances. */
  lemma {:induction false} DistancesOfPermutation(s: seq<Client>, t: seq<Client>, m: int, d: int)
    requires multiset(s) == multiset(t)
    ensures multiset(Distances(s, m, d)) == multiset(Distances(t, m, d))
  {
    if s != [] {
      var x := s[0];
      assert x in multiset(t);
      var j :| 0 <= j < |t| && t[j] == x;
      var front, back := t[..j], t[j + 1..];
      var rest := front + back;
      assert t == front + ([x] + back);
      assert s == [x] + s[1..];
      calc {
        multiset(rest) + multiset{x};
        multiset(front) + multiset(back) + multiset{x};
        multiset(front) + (multiset([x]) + multiset(back));
        multiset(front) + multiset([x] + back);
        multiset(t);
      }
      assert multiset(s[1..]) + multiset{x} == multiset(s);
      MultisetCancel(multiset(s[1..]), multiset(rest), x);
      DistancesOfPermutation(s[1..], rest, m, d);
      var dx := [CyclicDistance(x, m, d)];
      DistancesOfConcat([x], s[1..], m, d);
      DistancesOfConcat(front, [x] + back, m, d);
      DistancesOfConcat([x], back, m, d);
      DistancesOfConcat(front, back, m, d);
      assert Distances([x], m, d) == dx;
    }
  }

  predicate Ascending(a: seq<int>)
  {
    forall i, j :: 0 <= i < j < |a| ==> a[i] <= a[j]
  }

  /** An ascending sequence starts with its least element. */
  lemma AscendingHeadIsLeast(a: seq<int>, v: int)
    requires Ascending(a) && v in multiset(a)
    ensures a[0] <= v
  {
  }

  /** Two ascending integer sequences with the same elements are equal. */
  lemma {:induction false} SortedPermutationsEqual(a: seq<int>, b: seq<int>)
    requires multiset(a) == multiset(b)
    requires Ascending(a) && Ascending(b)
    ensures a == b
  {
    assert |a| == |multiset(a)| == |multiset(b)| == |b|;
    if a != [] {
      AscendingHeadIsLeast(b, a[0]);
      AscendingHeadIsLeast(a, b[0]);
      var x := a[0];
      assert a == [x] + a[1..];
      assert b == [x] + b[1..];
      assert multiset(a[1..]) + multiset{x} == multiset(a);
      assert multiset(b[1..]) + multiset{x} == multiset(b);
      MultisetCancel(multiset(a[1..]), multiset(b[1..]), x);
      SortedPermutationsEqual(a[1..], b[1..]);
    }
  }

  /**
   * The ranking is the cyclic order up to ties: any listing of the table by
   * increasing distance from today has the ranking's birthday at every position.
   */
  lemma RankIsUniqueUpToTies(table: seq<Client>, r: seq<Client>, m: int, d: int)
    requires forall c :: c in table ==> ValidBirthday(c)
    requires ValidMonthDay(m, d)
    requires multiset(r) == multiset(table)
    requires CyclicallySorted(r, m, d)
    ensures |r| == |Rank(table, m, d)|
    ensures forall i :: 0 <= i < |r| ==>
      Month(r[i]) == Month(Rank(table, m, d)[i]) && Day(r[i]) == Day(Rank(table, m, d)[i])
  {
    var ranked := Rank(table, m, d);
    RankIsCyclicallySorted(table, m, d);
    DistancesOfPermutation(r, ranked, m, d);
    assert Ascending(Distances(r, m, d)) && Ascending(Distances(ranked, m, d));
    SortedPermutationsEqual(Distances(r, m, d), Distances(ranked, m, d));
    assert |r| == |multiset(r)|;
    forall i | 0 <= i < |r|
      ensures Month(r[i]) == Month(ranked[i]) && Day(r[i]) == Day(ranked[i])
    {
      assert Distances(r, m, d)[i] == Distances(ranked, m, d)[i];
      assert r[i] in multiset(table) && ranked[i] in multiset(table);
      DistanceDeterminesBirthday(r[i], ranked[i], m, d);
    }
  }
}
