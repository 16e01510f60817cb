/**
 * `ClientsRepository`: the ledger operations as read-modify-write steps over
 * the stored rows.
 */
module Repository {
  import opened Wrappers
  import opened Clients
  import opened PointsLedger

  class ClientsRepository {
    /** The `clients` rows the ORM repository reaches, by id. */
    var rows: Store

    ghost predicate Valid()
      reads this
    {
      KeyedById(rows)
    }

    constructor (initial: Store)
      requires KeyedById(initial)
      ensures Valid() && rows == initial
    {
      rows := initial;
    }

    /** `findById`: the row with this id, unless there is none or it is soft-deleted. */
    method FindById(id: Id) returns (client: Option<Client>)
      ensures client == Lookup(rows, id)
    {
      if id in rows && !rows[id].deleted {
        client := Some(rows[id]);
      } else {
        client := None;
      }
    }

    /** `save`: inserts the record or replaces the row with its id. */
    method Save(client: Client)
      requires Valid()
      modifies this
      ensures Valid()
      ensures rows == PointsLedger.Save(old(rows), client)
    {
      rows := rows[client.id := client];
    }

    /** `addPoints`: fails with `ClientNotFound` and writes nothing, or adds `points` to the client's balance. */
    method AddPoints(id: Id, points: int) returns (outcome: Outcome<AppError>)
      requires Valid()
      modifies this
      ensures Valid()
      ensures Adjust(old(rows), id, points).Failure? ==> outcome == Fail(ClientNotFound) && rows == old(rows)
      ensures Adjust(old(rows), id, points).Success? ==> outcome == Pass && rows == Adjust(old(rows), id, points).value
    {
      var found := FindById(id);
      if found.None? {
        return Fail(ClientNotFound);
      }
      var client := found.value;
      client := client.(points := client.points + points);
      Save(client);
      outcome := Pass;
    }

    /** `decreasePoints`: fails with `ClientNotFound` and writes nothing, or takes `points` off the balance. */
    method DecreasePoints(id: Id, points: int) returns (outcome: Outcome<AppError>)
      requires Valid()
      modifies this
      ensures Valid()
      ensures Adjust(old(rows), id, -points).Failure? ==> outcome == Fail(ClientNotFound) && rows == old(rows)
      ensures Adjust(old(rows), id, -points).Success? ==> outcome == Pass && rows == Adjust(old(rows), id, -points).value
    {
      var found := FindById(id);
      if found.None? {
        return Fail(ClientNotFound);
      }
      var client := found.value;
      client := client.(points := client.points - points);
      Save(client);
      outcome := Pass;
    }
  }

  /** Crediting and then debiting the same amount, with no write between, leaves every row as it was. */
  method CreditThenDebit(repo: ClientsRepository, id: Id, n: int)
    requires repo.Valid()
    modifies repo
    ensures repo.Valid() && repo.rows == old(repo.rows)
  {
    AddThenDecreaseRestores(repo.rows, id, n);
    var credited := repo.AddPoints(id, n);
    var debited := repo.DecreasePoints(id, n);
  }
}
