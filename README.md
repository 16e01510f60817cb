# Clients repository: birthday ranking and points ledger

This is a Dafny model of the data-access core of a loyalty-program backend,
the `ClientsRepository` class in
`src/modules/clients/infra/typeorm/repositories/ClientsRepository.ts`. It
covers two pieces of that class.

- **`findAll(page, clientsPerPage)`**: a raw SQL query splits the `clients`
  table on today's (month, day). The first subquery takes the birthdays still
  to come this year, today included. The second takes the birthdays already
  past. Each subquery is ordered by (month, day). `UNION ALL` joins them, and
  `LIMIT`/`OFFSET` cuts out one page. A separate `count()` gives
  `totalClients`.
- **`addPoints` / `decreasePoints`**: each looks a client up by id and throws
  `AppError('Client não encontrado.', 401)` when there is none. Otherwise it
  adds the amount to `points`, or subtracts it, and saves the record.

Files and modules:

- `wrappers.dfy` (`Wrappers`): `Option`, `Result` and `Outcome`. These stand
  for the values that the source returns or throws.
- `clients.dfy` (`Clients`): the `Client` row and its `birthday` date.
- `birthday_ranking.dfy` (`BirthdayRanking`): the two WHERE clauses exactly as
  written, the (month, day) sort, and the union (`Rank`). It also gives an
  independent reading of the same order: the distance from today to the
  birthday, going forward round the year (`CyclicDistance`). Lemmas connect
  the two readings.
- `paging.dfy` (`Paging`): `LIMIT`/`OFFSET` over any ordered result.
- `listing.dfy` (`Listing`): `findAll` itself, `count()`, and worked examples.
- `points_ledger.dfy` (`PointsLedger`): lookup, save and the points adjustment,
  as functions on the id-keyed rows, with the properties of the adjustment.
- `clients_repository.dfy` (`Repository`): the class `ClientsRepository`.
  It holds the rows in a mutable `map` field. Its methods `FindById`, `Save`,
  `AddPoints` and `DecreasePoints` are proved against `PointsLedger`.

Decisions about what the code does:

- SQL gives `AND` precedence over `OR`. Read that way, the first WHERE clause
  (lines 71-73) is exactly "(month, day) is on or after today", and the second
  (lines 76-78) is exactly its negation. Every row therefore falls in exactly
  one subquery.
- A birthday in December counts as still to come when today is 12 March,
  because month 12 is greater than month 3. The table (15 March, 10 March,
  1 December) therefore ranks as 15 March, 1 December, 10 March. Page 1 of
  size 2 holds the first two (`WrapAroundRanking`, `WrapAroundPages`).
- The raw query has no `deletedAt` condition, so it ranks soft-deleted rows
  too. `count()` and `findOne` go through the ORM, which skips rows that
  `softDelete` (line 96) has marked. The model follows the code: the ranking
  covers every row, while `totalClients` and `findById` cover only live rows.
  So a soft-deleted client can appear in the listing, and the ranking is
  longer than `totalClients` exactly when some row is soft-deleted
  (`RankedRowsVersusTotal`, `SoftDeletedRowIsListed`). A design that excludes
  soft-deleted clients from the listing would differ from this code.
- The code adds the amount without checking its sign, and it never clamps
  the new balance. A debit of 50 from 30 points leaves -20 (`NoLowerBound`).
- Nothing breaks ties between equal (month, day). The model sorts stably, so
  ties come out in scan order; the database promises no such order. Its specification (`RankIsUniqueUpToTies`)
  fixes the birthday at every position and leaves the order among ties open.
- `Now()` becomes the parameters `m` and `d`. The table's scan order becomes
  the order of the `seq<Client>` given to `FindAll`.

## Model

| member | source | states |
|---|---|---|
| BirthdayRanking.UpcomingWhere | src/modules/clients/infra/typeorm/repositories/ClientsRepository.ts:71-73 | the first WHERE clause exactly as the source writes it, AND binding tighter than OR |
| BirthdayRanking.PassedWhere | src/modules/clients/infra/typeorm/repositories/ClientsRepository.ts:76-78 | the second WHERE clause exactly as the source writes it |
| BirthdayRanking.BirthdayLeq | src/modules/clients/infra/typeorm/repositories/ClientsRepository.ts:74-79 | the ORDER BY of both subqueries exactly as written: month first, then day, ascending |
| PointsLedger.ClientNotFound | src/modules/clients/infra/typeorm/repositories/ClientsRepository.ts:106 | the error both ledger operations throw, with the source's message and status code 401 |
| BirthdayRanking.UpcomingWhereIsOnOrAfter | src/modules/clients/infra/typeorm/repositories/ClientsRepository.ts:71-73 | the first WHERE clause, with AND over OR, holds iff (month, day) >= today lexically; a birthday today is included |
| BirthdayRanking.PassedWhereIsComplement | src/modules/clients/infra/typeorm/repositories/ClientsRepository.ts:71-78 | the second WHERE clause holds iff the first one does not |
| BirthdayRanking.Where | src/modules/clients/infra/typeorm/repositories/ClientsRepository.ts:70-78 | every row a selection returns matches its WHERE clause |
| BirthdayRanking.WhereCounts | src/modules/clients/infra/typeorm/repositories/ClientsRepository.ts:70-78 | a selection holds each matching row exactly as often as the table does, and no other row |
| BirthdayRanking.WhereSplitsTable | src/modules/clients/infra/typeorm/repositories/ClientsRepository.ts:69-79 | the two selections together hold every row of the table exactly once |
| BirthdayRanking.InsertByBirthday | src/modules/clients/infra/typeorm/repositories/ClientsRepository.ts:74 | inserting into a (month, day)-sorted sequence keeps it sorted and adds exactly that row |
| BirthdayRanking.SortByBirthday | src/modules/clients/infra/typeorm/repositories/ClientsRepository.ts:74-79 | ORDER BY month, day gives a sorted permutation of its input |
| BirthdayRanking.Select | src/modules/clients/infra/typeorm/repositories/ClientsRepository.ts:70-79 | each subquery is sorted by (month, day), holds only rows matching its WHERE clause, and holds all of them |
| BirthdayRanking.ConcatBlocks | src/modules/clients/infra/typeorm/repositories/ClientsRepository.ts:75 | sorted upcoming rows followed by sorted passed rows put every upcoming row before every passed one, each side in order |
| BirthdayRanking.Rank | src/modules/clients/infra/typeorm/repositories/ClientsRepository.ts:69-79 | the UNION ALL is a permutation of the table; no upcoming row follows a passed one; rows on the same side are in (month, day) order |
| BirthdayRanking.TodayRanksFirst | src/modules/clients/infra/typeorm/repositories/ClientsRepository.ts:71-74 | if any client has a birthday today, the ranking starts with a birthday today |
| BirthdayRanking.CyclicDistanceValue | src/modules/clients/infra/typeorm/repositories/ClientsRepository.ts:71-78 | the distance to an upcoming birthday is the plain difference; to a passed one it wraps by a year |
| BirthdayRanking.DistanceDeterminesBirthday | src/modules/clients/infra/typeorm/repositories/ClientsRepository.ts:74-79 | two valid birthdays at the same distance from today have the same month and day |
| BirthdayRanking.CyclicOrderIsUnionOrder | src/modules/clients/infra/typeorm/repositories/ClientsRepository.ts:69-79 | comparing distances from today is, in both directions, the union's order: upcoming before passed, then (month, day) |
| BirthdayRanking.RankIsCyclicallySorted | src/modules/clients/infra/typeorm/repositories/ClientsRepository.ts:69-79 | the ranking lists the table by non-decreasing distance from today, wrapping at the year end |
| BirthdayRanking.DistancesOfPermutation | src/modules/clients/infra/typeorm/repositories/ClientsRepository.ts:69-79 | a permutation of the rows is a permutation of their distances |
| BirthdayRanking.SortedPermutationsEqual | src/modules/clients/infra/typeorm/repositories/ClientsRepository.ts:74-79 | two ascending sequences with the same elements are equal |
| BirthdayRanking.RankIsUniqueUpToTies | src/modules/clients/infra/typeorm/repositories/ClientsRepository.ts:74-79 | any listing of the table by distance from today has the ranking's birthday at every position, so only ties are free |
| Paging.Offset | src/modules/clients/infra/typeorm/repositories/ClientsRepository.ts:80-82 | the offset (page - 1) * clientsPerPage is never negative and is 0 on page 1 |
| Paging.Page | src/modules/clients/infra/typeorm/repositories/ClientsRepository.ts:80-82 | a page has at most clientsPerPage rows, is empty at or past the end, has exactly min(limit, rows left) rows otherwise, and its i-th row is row offset + i |
| Paging.PagesTile | src/modules/clients/infra/typeorm/repositories/ClientsRepository.ts:80-82 | pages 1 to k joined are exactly the first k * clientsPerPage rows |
| Paging.PagesCoverAll | src/modules/clients/infra/typeorm/repositories/ClientsRepository.ts:80-82 | enough pages joined give back the whole sequence |
| Paging.PageIsSubMultiset | src/modules/clients/infra/typeorm/repositories/ClientsRepository.ts:80-82 | a page holds no row more often than the sequence does |
| Listing.CountLive | src/modules/clients/infra/typeorm/repositories/ClientsRepository.ts:86 | count() is at most the table size, and equals it iff no row is soft-deleted |
| Listing.FindAll | src/modules/clients/infra/typeorm/repositories/ClientsRepository.ts:63-89 | the total is count(); the page has at most clientsPerPage rows, all from the table; it is empty past the end and otherwise has exactly min(clientsPerPage, rows left) rows, the ranking from the offset on |
| Listing.TotalIgnoresPaging | src/modules/clients/infra/typeorm/repositories/ClientsRepository.ts:86-88 | totalClients is the same for every page and page size |
| Listing.EveryClientListedOnce | src/modules/clients/infra/typeorm/repositories/ClientsRepository.ts:67-82 | pages 1 to k that reach the end, joined, give the whole ranking, which lists every row exactly once |
| Listing.RankedRowsVersusTotal | src/modules/clients/infra/typeorm/repositories/ClientsRepository.ts:67-88 | the ranking is never shorter than totalClients, and is equal in length iff no row is soft-deleted |
| Listing.SoftDeletedRowIsListed | src/modules/clients/infra/typeorm/repositories/ClientsRepository.ts:67-88 | a table of one soft-deleted row lists that row with totalClients 0 |
| Listing.WrapAroundUpcoming | src/modules/clients/infra/typeorm/repositories/ClientsRepository.ts:71-73 | on 12 March the first WHERE clause keeps 15 March and 1 December, in scan order |
| Listing.WrapAroundPassed | src/modules/clients/infra/typeorm/repositories/ClientsRepository.ts:76-78 | on 12 March the second WHERE clause keeps only 10 March |
| Listing.WrapAroundSubqueries | src/modules/clients/infra/typeorm/repositories/ClientsRepository.ts:69-79 | the example's subqueries are [15 March, 1 December] and [10 March] |
| Listing.WrapAroundRanking | src/modules/clients/infra/typeorm/repositories/ClientsRepository.ts:69-79 | on 12 March the ranking of 15 March, 10 March, 1 December is 15 March, 1 December, 10 March |
| Listing.WrapAroundTotal | src/modules/clients/infra/typeorm/repositories/ClientsRepository.ts:86 | three live rows count 3 |
| Listing.TwoPagesOfThree | src/modules/clients/infra/typeorm/repositories/ClientsRepository.ts:80-82 | three rows at two per page: page 1 holds the first two, page 2 the last |
| Listing.WrapAroundPages | src/modules/clients/infra/typeorm/repositories/ClientsRepository.ts:63-89 | the example at two per page: page 1 is 15 March and 1 December, page 2 is 10 March, total 3 on both |
| PointsLedger.Lookup | src/modules/clients/infra/typeorm/repositories/ClientsRepository.ts:39-45 | findById finds a row iff one with that id exists and is not soft-deleted, and returns that row |
| PointsLedger.Save | src/modules/clients/infra/typeorm/repositories/ClientsRepository.ts:91-93 | save stores the record under its id and leaves every other row alone |
| PointsLedger.Adjust | src/modules/clients/infra/typeorm/repositories/ClientsRepository.ts:99-127 | fails with ClientNotFound iff findById finds nothing; otherwise only the target's points change, to old + delta, with no bound |
| PointsLedger.AddThenDecreaseRestores | src/modules/clients/infra/typeorm/repositories/ClientsRepository.ts:99-127 | adding n and then decreasing by n gives back the rows exactly; both fail on a missing client |
| PointsLedger.AdjustmentsAdd | src/modules/clients/infra/typeorm/repositories/ClientsRepository.ts:109-124 | two adjustments of one client equal one adjustment by their sum |
| PointsLedger.NoLowerBound | src/modules/clients/infra/typeorm/repositories/ClientsRepository.ts:124 | decreasing 30 points by 50 succeeds and leaves -20 |
| Repository.ClientsRepository.constructor | src/modules/clients/infra/typeorm/repositories/ClientsRepository.ts:11-13 | the repository starts over the given rows |
| Repository.ClientsRepository.FindById | src/modules/clients/infra/typeorm/repositories/ClientsRepository.ts:39-45 | returns the live row with that id, or nothing |
| Repository.ClientsRepository.Save | src/modules/clients/infra/typeorm/repositories/ClientsRepository.ts:91-93 | the rows become the old rows with the record stored under its id; keys still match ids |
| Repository.ClientsRepository.AddPoints | src/modules/clients/infra/typeorm/repositories/ClientsRepository.ts:99-112 | on a missing client returns ClientNotFound and writes nothing; otherwise the rows become Adjust(old rows, id, +points) |
| Repository.ClientsRepository.DecreasePoints | src/modules/clients/infra/typeorm/repositories/ClientsRepository.ts:114-127 | on a missing client returns ClientNotFound and writes nothing; otherwise the rows become Adjust(old rows, id, -points) |
| Repository.CreditThenDebit | src/modules/clients/infra/typeorm/repositories/ClientsRepository.ts:99-127 | addPoints(n) then decreasePoints(n) with no write between leaves every row unchanged |

## Left out

- `findByUsername`, `findByEmail`, `findByMobilePhone`, `findByCpf`, `create`, `delete` and `findAllByName` (lines 15-37, 47-61, 95-97, 129-137): thin calls into the ORM, whose behaviour is not visible. Only `findById` and `save` are modelled, as map lookup and update.
- The ORM's scoping of `count()` and `findOne` to rows with no `deletedAt` is taken as given. The `Client` entity that declares the delete-date column is not part of this model.
- `async`/`await`, and the lost update when two calls to `addPoints`/`decreasePoints` on one client interleave between the read (line 103) and the write (line 111). The model is sequential.
- `Now()` and real calendar dates: month and day are plain integers (1..12 and 1..31 where a lemma needs valid dates), with no month lengths and no leap years. `CyclicDistance` numbers each (month, day) on a grid of 32 slots per month, so its values are slot counts, not days.
- Whether the DBMS keeps a subquery's `ORDER BY` through `UNION ALL`: the model takes the intended order, two sorted blocks in sequence.
- The SQL string interpolation of `clientsPerPage` and `page`. A `page` below 1 would give a negative `OFFSET` and a negative `clientsPerPage` a negative `LIMIT`, both of which the database rejects; `clientsPerPage = 0` is accepted by the source and gives `LIMIT 0`, an empty page with the total. `FindAll` requires `page >= 1` and `clientsPerPage >= 1`, so none of these three cases is modelled.
- EveryClientListedOnce: it holds for pages cut from one fixed ranking. Each page of `findAll` is a separate query with its own `LIMIT`/`OFFSET`, no tie-breaker between equal (month, day) and no `ORDER BY` on the outer query, so across requests the database may order ties differently (a tied client on two pages, another on none), and the table may change between requests. The model promises neither of those away.
- A NULL `birthday`: the model's `birthday` is always present, as if the column were NOT NULL. A NULL birthday makes both WHERE clauses unknown under SQL's three-valued logic, so such a row would be in neither subquery and the listing would not be a permutation of the table.
- Storage failures and retries: the store here cannot fail.
- `points` is a JavaScript number (a double); the model uses unbounded integers, without precision loss beyond 2^53.
- SortByBirthday: the model sorts stably, but no contract states that equal birthdays keep scan order, because SQL promises no order among ties.
- `src/modules/products/infra/typeorm/entities/Product.ts`: ORM entity mapping and an image URL built from environment configuration.
