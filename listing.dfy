/**
 * `findAll(page, clientsPerPage)`: one page of the birthday ranking, plus the
 * number of clients from a separate `count()`.
 */
module Listing {
  import opened Clients
  import opened BirthdayRanking
  import opened Paging

  /** The `AllClientsDTO` that `findAll` returns. */
  datatype AllClients = AllClients(totalClients: nat, clients: seq<Client>)

  /**
   * `count()` goes through the ORM, which leaves out soft-deleted rows; it
   * reaches every row exactly when no row is soft-deleted.
   */
  function CountLive(table: seq<Client>): (n: nat)
    ensures n <= |table|
    ensures n == |table| <==> forall i :: 0 <= i < |table| ==> !table[i].deleted
  {
    if table == [] then 0
    else (if table[0].deleted then 0 else 1) + CountLive(table[1..])
  }

  /**
   * The page `page` of the ranking for today `(m, d)`, with the total. The raw
   * query reads the whole table, soft-deleted rows included.
   */
  function FindAll(table: seq<Client>, m: int, d: int, page: int, clientsPerPage: int): (r: AllClients)
    requires ValidMonthDay(m, d)
    requires page >= 1 && clientsPerPage >= 1
    ensures r.totalClients == CountLive(table)
    ensures |r.clients| <= clientsPerPage
    ensures multiset(r.clients) <= multiset(table)
    ensures Offset(page, clientsPerPage) >= |table| ==> r.clients == []
    ensures Offset(page, clientsPerPage) < |table| ==>
      |r.clients| == Min(clientsPerPage, |table| - Offset(page, clientsPerPage))
    ensures forall i :: 0 <= i < |r.clients| ==>
      Offset(page, clientsPerPage) + i < |table| &&
      r.clients[i] == Rank(table, m, d)[Offset(page, clientsPerPage) + i]
  {
    PageIsSubMultiset(Rank(table, m, d), page, clientsPerPage);
    AllClients(CountLive(table), Page(Rank(table, m, d), page, clientsPerPage))
  }

  /** The total depends on the table alone, not on which page is asked for. */
  lemma TotalIgnoresPaging(table: seq<Client>, m: int, d: int, page1: int, perPage1: int, page2: int, perPage2: int)
    requires ValidMonthDay(m, d)
    requires page1 >= 1 && perPage1 >= 1 && page2 >= 1 && perPage2 >= 1
    ensures FindAll(table, m, d, page1, perPage1).totalClients == FindAll(table, m, d, page2, perPage2).totalClients
  {
  }

  /** The rows on page `page` are that page of the ranking. */
  lemma PageOfRanking(table: seq<Client>, m: int, d: int, page: int, clientsPerPage: int)
    requires ValidMonthDay(m, d)
    requires page >= 1 && clientsPerPage >= 1
    ensures FindAll(table, m, d, page, clientsPerPage).clients == Page(Rank(table, m, d), page, clientsPerPage)
  {
  }

  /**
   * Pages 1 to `k` of one size, joined in order, give back the whole ranking
   * once they reach the end of the table, so every row is listed exactly once.
   */
  lemma EveryClientListedOnce(table: seq<Client>, m: int, d: int, k: nat, clientsPerPage: int)
    requires ValidMonthDay(m, d)
    requires clientsPerPage >= 1
    requires k * clientsPerPage >= |table|
    ensures PagesUpTo(Rank(table, m, d), k, clientsPerPage) == Rank(table, m, d)
    ensures multiset(PagesUpTo(Rank(table, m, d), k, clientsPerPage)) == multiset(table)
  {
    PagesCoverAll(Rank(table, m, d), k, clientsPerPage);
  }

  /**
   * The ranking covers soft-deleted rows and the total does not, so the ranking
   * is longer than the total exactly when some row is soft-deleted.
   */
  lemma RankedRowsVersusTotal(table: seq<Client>, m: int, d: int)
    ensures CountLive(table) <= |Rank(table, m, d)|
    ensures CountLive(table) == |Rank(table, m, d)| <==> forall i :: 0 <= i < |table| ==> !table[i].deleted
  {
  }
  /** A soft-deleted row still appears in the listing, while the total leaves it out. */
  lemma SoftDeletedRowIsListed(c: Client, m: int, d: int)
    requires ValidMonthDay(m, d)
    requires c.deleted
    ensures FindAll([c], m, d, 1, 1) == AllClients(0, [c])
  {
  }

  /** The WHERE clause on a row followed by more rows. */
  lemma WhereCons(x: Client, rest: seq<Client>, q: Subquery, m: int, d: int)
    ensures Where([x] + rest, q, m, d) == (if Matches(q, x, m, d) then [x] else []) + Where(rest, q, m, d)
  {
  }

  /** On 12 March, 15 March and 1 December are still to come. */
  lemma WrapAroundUpcoming(a: Client, b: Client, c: Client)
    requires a.birthday == Date(1990, 3, 15) && b.birthday == Date(1985, 3, 10) && c.birthday == Date(2000, 12, 1)
    ensures Where([a, b, c], Upcoming, 3, 12) == [a, c]
  {
    WhereCons(c, [], Upcoming, 3, 12);
    WhereCons(b, [c], Upcoming, 3, 12);
    WhereCons(a, [b, c], Upcoming, 3, 12);
    assert [a, b, c] == [a] + [b, c] && [b, c] == [b] + [c] && [c] == [c] + [];
  }

  /** On 12 March, 10 March has passed. */
  lemma WrapAroundPassed(a: Client, b: Client, c: Client)
    requires a.birthday == Date(1990, 3, 15) && b.birthday == Date(1985, 3, 10) && c.birthday == Date(2000, 12, 1)
    ensures Where([a, b, c], Passed, 3, 12) == [b]
  {
    WhereCons(c, [], Passed, 3, 12);
    WhereCons(b, [c], Passed, 3, 12);
    WhereCons(a, [b, c], Passed, 3, 12);
    assert [a, b, c] == [a] + [b, c] && [b, c] == [b] + [c] && [c] == [c] + [];
  }

  /** Both subqueries of the example, each sorted. */
  lemma WrapAroundSubqueries(a: Client, b: Client, c: Client)
    requires a.birthday == Date(1990, 3, 15) && b.birthday == Date(1985, 3, 10) && c.birthday == Date(2000, 12, 1)
    ensures Select([a, b, c], Upcoming, 3, 12) == [a, c]
    ensures Select([a, b, c], Passed, 3, 12) == [b]
  {
    WrapAroundUpcoming(a, b, c);
    WrapAroundPassed(a, b, c);
    assert [a, c][1..] == [c] && [c][1..] == [] && [b][1..] == [];
    assert SortByBirthday([c]) == [c];
  }

  /**
   * Today is 12 March; birthdays on 15 March, 10 March and 1 December. The
   * December birthday is still to come this year, so it ranks second, and the
   * one on 10 March, already past, ranks last.
   */
  lemma WrapAroundRanking(a: Client, b: Client, c: Client)
    requires a.birthday == Date(1990, 3, 15) && b.birthday == Date(1985, 3, 10) && c.birthday == Date(2000, 12, 1)
    ensures Rank([a, b, c], 3, 12) == [a, c, b]
  {
    WrapAroundSubqueries(a, b, c);
  }

  lemma WrapAroundTotal(a: Client, b: Client, c: Client)
    requires !a.deleted && !b.deleted && !c.deleted
    ensures CountLive([a, b, c]) == 3
  {
  }

  lemma TwoPagesOfThree(x: Client, y: Client, z: Client)
    ensures Page([x, y, z], 1, 2) == [x, y]
    ensures Page([x, y, z], 2, 2) == [z]
  {
  }

  /** The same table, two clients per page: page 1 holds 15 March and 1 December, page 2 holds 10 March. */
  lemma WrapAroundPages(a: Client, b: Client, c: Client)
    requires a.birthday == Date(1990, 3, 15) && b.birthday == Date(1985, 3, 10) && c.birthday == Date(2000, 12, 1)
    requires !a.deleted && !b.deleted && !c.deleted
    ensures FindAll([a, b, c], 3, 12, 1, 2) == AllClients(3, [a, c])
    ensures FindAll([a, b, c], 3, 12, 2, 2) == AllClients(3, [b])
  {
    WrapAroundRanking(a, b, c);
    WrapAroundTotal(a, b, c);
    TwoPagesOfThree(a, c, b);
    PageOfRanking([a, b, c], 3, 12, 1, 2);
    PageOfRanking([a, b, c], 3, 12, 2, 2);
  }
}
