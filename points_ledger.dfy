/**
 * The points balance of a client, adjusted by `addPoints` and
 * `decreasePoints`: look the client up, change `points`, save the record.
 */
module PointsLedger {
  import opened Wrappers
  import opened Clients

  /** The error the repository throws: a message and an HTTP status code. */
  datatype AppError = AppError(message: string, statusCode: int)

  /** Thrown by `addPoints` and `decreasePoints` when `findById` finds nothing. */
  const ClientNotFound := AppError("Client não encontrado.", 401)

  /** The rows of `clients`, by primary key. */
  type Store = map<Id, Client>

  /** Each row sits under its own id. */
  predicate KeyedById(store: Store)
  {
    forall k :: k in store ==> store[k].id == k
  }

  /** `findById`: the ORM's `findOne` skips soft-deleted rows. */
  function Lookup(store: Store, id: Id): (r: Option<Client>)
    ensures r.Some? <==> id in store && !store[id].deleted
    ensures r.Some? ==> r.value == store[id]
  {
    if id in store && !store[id].deleted then Some(store[id]) else None
  }

  /** `save`: writes the record under its id, inserting or replacing. */
  function Save(store: Store, client: Client): (r: Store)
    ensures r.Keys == store.Keys + {client.id}
    ensures r[client.id] == client
    ensures forall k :: k in store && k != client.id ==> r[k] == store[k]
  {
    store[client.id := client]
  }

  /**
   * Look up `id`, add `delta` to its points, save. `addPoints` adds `+n` and
   * `decreasePoints` adds `-n`; neither the amount nor the new balance is checked.
   */
  function Adjust(store: Store, id: Id, delta: int): (r: Result<Store, AppError>)
    requires KeyedById(store)
    ensures r.Failure? <==> Lookup(store, id).None?
    ensures r.Failure? ==> r.error == ClientNotFound
    ensures r.Success? ==> KeyedById(r.value) && r.value.Keys == store.Keys
    ensures r.Success? ==> r.value[id] == store[id].(points := store[id].points + delta)
    ensures r.Success? ==> forall k :: k in store && k != id ==> r.value[k] == store[k]
  {
    match Lookup(store, id)
    case None => Failure(ClientNotFound)
    case Some(client) => Success(Save(store, client.(points := client.points + delta)))
  }

  /** Adding `n` and then taking `n` away gives back the store as it was, and fails on both steps together. */
  lemma AddThenDecreaseRestores(store: Store, id: Id, n: int)
    requires KeyedById(store)
    ensures Adjust(store, id, n).Failure? ==> Adjust(store, id, -n).Failure?
    ensures Adjust(store, id, n).Success? ==> Adjust(Adjust(store, id, n).value, id, -n) == Success(store)
  {
    var first := Adjust(store, id, n);
    if first.Success? {
      var after := first.value;
      var back := Adjust(after, id, -n);
      assert Lookup(after, id).Some?;
      assert back.value == store by {
        assert back.value.Keys == store.Keys;
        forall k | k in store ensures back.value[k] == store[k] {
        }
      }
    }
  }

  /** Two adjustments of one client add up to one adjustment by the sum. */
  lemma AdjustmentsAdd(store: Store, id: Id, a: int, b: int)
    requires KeyedById(store)
    ensures Adjust(store, id, a).Success? ==>
      Adjust(Adjust(store, id, a).value, id, b) == Adjust(store, id, a + b)
  {
    var first := Adjust(store, id, a);
    if first.Success? {
      var twice := Adjust(first.value, id, b);
      var once := Adjust(store, id, a + b);
      assert Lookup(first.value, id).Some?;
      assert twice.value == once.value by {
        assert twice.value.Keys == once.value.Keys;
        forall k | k in store ensures twice.value[k] == once.value[k] {
        }
      }
    }
  }

  /** A debit larger than the balance goes below zero: 30 points less 50 is -20. */
  lemma NoLowerBound(client: Client)
    requires !client.deleted && client.points == 30
    ensures var store := map[client.id := client];
      Adjust(store, client.id, -50).Success? &&
      Adjust(store, client.id, -50).value[client.id].points == -20
  {
  }
}
