/** The transaction record as the services store and return it. The
    transaction schema file is not part of this model: `kind` (the `type`
    field) and `category` are plain strings, as in the requests. */
module TransactionModel {
  import opened Common
  import opened Dates

  datatype Transaction = Transaction(
    id: Id,
    user: UserId,
    amount: int,
    kind: string,
    category: string,
    description: Option<string>,
    date: Date)

  function TransactionId(t: Transaction): Id
  {
    t.id
  }
}
