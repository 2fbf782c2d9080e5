/** The two collections side by side, as the API serves them. */
module Backend {
  import opened Common
  import opened CategoryService
  import opened TransactionService

  /** `deleteCategory` removes only that category: transactions that name
      it keep their category string and stay stored. */
  method DeleteCategory(categories: CategoryStore, transactions: TransactionStore, requester: UserId, id: Id)
    returns (r: Result<()>)
    requires categories.Valid()
    modifies categories
    ensures categories.Valid()
    ensures r.Ok? <==> id in old(categories.cats) && old(categories.cats)[id].user == requester
    ensures r.Ok? ==> categories.cats == old(categories.cats) - {id}
    ensures transactions.txs == old(transactions.txs) && transactions.nextId == old(transactions.nextId)
  {
    r := categories.Delete(requester, id);
  }
}
