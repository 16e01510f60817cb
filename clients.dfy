/** The `clients` table: one record per loyalty-program member. */
module Clients {

  type Id = string

  /** A value of the `birthday` date column. Only month and day take part in the ranking. */
  datatype Date = Date(year: int, month: int, day: int)

  /**
   * A row of `clients`. `deleted` stands for a set `deletedAt` column, which
   * `softDelete` writes instead of removing the row.
   */
  datatype Client = Client(
    id: Id,
    name: string,
    username: string,
    email: string,
    mobilePhone: string,
    cpf: string,
    birthday: Date,
    points: int,
    deleted: bool)

  function Month(c: Client): int { c.birthday.month }

  function Day(c: Client): int { c.birthday.day }

  /** The ranges that `Extract(MONTH ...)` and `Extract(DAY ...)` return for a date. */
  predicate ValidMonthDay(month: int, day: int)
  {
    1 <= month <= 12 && 1 <= day <= 31
  }

  predicate ValidBirthday(c: Client)
  {
    ValidMonthDay(Month(c), Day(c))
  }
}
