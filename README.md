# Personal finance tracker: a verified model of its core

The system is a personal finance tracker. It has an Express/MongoDB back
end and a React front end. Users register, verify their email, log in, and
then keep income and expense transactions and named income or expense
categories. The server answers for one user only. The client shows:

- a filtered transaction list;
- a dashboard with totals and an expense breakdown;
- a category manager.

This project models the parts of that core that decide what is stored and
what is shown, and proves what they promise.

- **Transaction service** (`TransactionService`, `MonthlySummary`): the
  filter that `getTransactions` builds, the newest-first listing, creation
  with a date that falls back to the current time, and ownership-checked
  delete and partial update. The update's two presence rules are kept
  apart. `amount` and `description` are taken whenever the body has them;
  `type`, `category` and `date` only when they are truthy. The monthly
  summary pipeline (`$group` by year and month with conditional sums,
  `$project` with `netSavings`, `$sort` newest month first) is a set of pure
  functions, proved against independent definitions of its result.
- **Category service** (`CategoryModel`, `CategoryService`): the schema as
  a datatype with a validity predicate. Input checks happen in the
  controller's order. The store offers a name-sorted listing, creation with
  a trimmed name, update and delete.
- **Auth service** (`AuthService`): registration with a one-hour
  verification token, login that checks credentials before the verified
  flag, and verification by token with a strictly unexpired expiry.
- **Client pages** (`TransactionsPage`, `DashboardPage`, `CategoriesPage`,
  `ListUpdates`): the client-side filter predicate, the totals and the
  expense-by-category fold, and the list updates after each successful
  request.

The collections are classes over maps from ids to records, with `modifies`
frames. The requests that change them are methods. Every JavaScript
`filter`, `map` and `reduce` the pages compute is a function.

Conventions of the model:

- Ids are natural numbers drawn from a counter.
- The record field `type` is called `kind`, because `type` is a Dafny
  keyword.
- Amounts are integers.
- A date is an abstract calendar instant `(year, month, day, millis)`
  ordered chronologically. A date string reaching the server or a
  `new Date(...)` on the client is the instant it parses to.
- A request field is an `Option<string>`: `None` is an absent field, and
  "truthy" means present and non-empty.
- `trim` removes the ECMAScript white space and line terminators.
- String order is code-point order.

The user and transaction schema files are not part of this model. The
transaction record's fields are therefore the ones the controller reads
and writes. User emails are taken to be unique, which is what
`registerUser`'s duplicate check maintains.

How the model reads the source where a reader might expect otherwise:

- A category name made only of white space passes the controller's
  truthiness check. It then trims to `""`, and the schema's `required`
  validator rejects the save, so the answer is 500. It is not 400.
- `updateCategory` validates the body before it looks up the id, so bad
  input on a missing id answers 400, not 404.
- `registerUser` saves the user before it sends the email. A failed
  delivery answers 500 with the user already stored.
- `verifyEmail` clears two fields that are not the ones the token was
  stored under. The token and its expiry stay, so verifying again before
  the expiry succeeds again. See "Findings".
- The client's date bounds compare whole instants: `new Date(t.date) <=
  new Date(endDate)` is inclusive only up to the bound's exact instant. The
  model's `Le` on full instants keeps that.

## Model

| member | source | states |
|---|---|---|
| Common.StatusCode | backend/controllers/categoryController.js:45-56 | every error response carries a status between 400 and 500; 400 exactly for missing category fields, an invalid category type, a known email and an invalid or expired token; 401 exactly for an ownership mismatch, bad credentials and an unverified email; 404 exactly for a missing record; 500 exactly for a server error |
| Text.TrimSpec | backend/controllers/categoryController.js:29 | `trim` cuts a run of white space off each end of the string and nothing else, and leaves no white space at either end |
| Text.TrimIdempotent | backend/models/Category.js:12 | trimming an already trimmed name changes nothing, so the schema's `trim` setter leaves the controller's trimmed name as it is |
| Text.TrimEmptyIffAllSpace | backend/models/Category.js:11 | a name trims to the empty string exactly when it is all white space |
| Text.ToLowerIdempotent | frontend/src/pages/Transactions.jsx:47-48 | lower-casing a lower-cased string changes nothing |
| Text.ContainsIffOccurs | frontend/src/pages/Transactions.jsx:47-48 | `includes` holds exactly when some slice of the string equals the searched text |
| Text.StrLeTotal | backend/controllers/categoryController.js:6 | any two names are ordered one way or the other by the `sort('name')` string order |
| Text.StrLeTransitive | backend/controllers/categoryController.js:6 | the name order is transitive |
| Seqs.InsertionSortSpec | backend/controllers/transactionController.js:140 | sorting by a total preorder yields an ordered sequence, and keys that were distinct stay distinct |
| CategoryModel.ParseType | backend/models/Category.js:14-18 | a `type` string is a category type exactly when it is in the schema's enum, and reading it preserves the string |
| CategoryModel.TypeNameRoundTrip | backend/models/Category.js:16 | every category type is named in the enum, and reading its name gives the type back |
| CategoryModel.CastValid | backend/models/Category.js:9-13 | a cast document that passes `required` has a non-empty, trimmed name |
| CategoryService.AcceptedTypesAreSchemaEnum | backend/controllers/categoryController.js:22 | the controller's accepted types are exactly the schema's enum |
| CategoryService.CheckInput | backend/controllers/categoryController.js:18-24 | a missing or empty name or type answers "required"; otherwise a type outside {income, expense} answers "invalid type"; otherwise the input is accepted and the parsed type has the given name |
| CategoryService.ByNameTotalPreorder | backend/controllers/categoryController.js:6 | ordering categories by name is a total preorder |
| CategoryService.CategoryStore.List | backend/controllers/categoryController.js:4-12 | the result holds exactly the requester's stored categories, each once, in ascending name order |
| CategoryService.CategoryStore.Create | backend/controllers/categoryController.js:15-39 | input errors come first and store nothing; a white-space-only name answers 500 and stores nothing; otherwise a new id is stored, owned by the requester, with the trimmed name and the given type, and nothing else changes |
| CategoryService.CategoryStore.Update | backend/controllers/categoryController.js:42-67 | errors in the order input, not found, not authorized, and each leaves the store unchanged; it succeeds exactly when the input is valid, the id exists, the requester owns it and the name is not blank; on success only that record changes, with exactly its name (trimmed) and type rewritten |
| CategoryService.CategoryStore.Delete | backend/controllers/categoryController.js:70-82 | a missing id answers 404 and another user's id answers 401, both leaving the store unchanged; otherwise exactly that category is removed |
| Backend.DeleteCategory | backend/controllers/categoryController.js:76 | deleting a category leaves every stored transaction as it was, including the ones that name it |
| TransactionService.BuildFilter | backend/controllers/transactionController.js:8-27 | the filter admits a document exactly when it is the requester's, matches a given type and a given category exactly, and lies within each given date bound, inclusive |
| TransactionService.NewerFirstTotalPreorder | backend/controllers/transactionController.js:30 | newest-first is a total preorder on transactions |
| TransactionService.TransactionStore.Find | backend/controllers/transactionController.js:30 | the result is exactly the stored documents the filter admits, each once, newest first |
| TransactionService.TransactionStore.List | backend/controllers/transactionController.js:5-36 | the listing is exactly the stored transactions the query admits, each once, newest first |
| TransactionService.TransactionStore.Add | backend/controllers/transactionController.js:41-57 | a new id is stored, owned by the requester, with the given fields and the given date or else the current time, and no other record changes |
| TransactionService.TransactionStore.Delete | backend/controllers/transactionController.js:60-74 | not found and not authorized leave the store unchanged; success removes exactly that record |
| TransactionService.TransactionStore.Update | backend/controllers/transactionController.js:77-101 | not found and not authorized leave the store unchanged; success replaces only that record, by the patched record |
| TransactionService.PatchKeepsIdentity | backend/controllers/transactionController.js:90-94 | an update never changes a record's id or owner |
| TransactionService.PatchIdempotent | backend/controllers/transactionController.js:90-94 | applying the same update body twice is applying it once |
| TransactionService.EmptyPatchIsIdentity | backend/controllers/transactionController.js:90-94 | a body without any of the fields leaves the record unchanged |
| TransactionService.DescriptionOnlyPatch | backend/controllers/transactionController.js:93 | a body holding only a description changes only the description |
| TransactionService.FalsyValuesInPatch | backend/controllers/transactionController.js:90-94 | a zero amount and an empty description are written, while an empty type or category is ignored |
| TransactionService.TransactionStore.MonthlySummaryOf | backend/controllers/transactionController.js:105-148 | the summary covers exactly the requester's transactions: one record per month present, with that month's income and expense sums, their difference, newest month first |
| MonthlySummary.SummarizeSpec | backend/controllers/transactionController.js:110-141 | one record per (year, month) present and no other; the income and expense are that month's conditional sums; `netSavings` is income minus expense; records strictly descend by year, then month |
| MonthlySummary.SummarizeTotals | backend/controllers/transactionController.js:113-129 | the records' incomes and expenses add up to the income and expense totals over all transactions |
| MonthlySummary.MarchExample | backend/controllers/transactionController.js:110-141 | an income of 100 and an expense of 40 in March 2024 summarise to the single record (2024, 3, 100, 40, 60) |
| AuthService.UserStore.Register | backend/controllers/authController.js:16-53 | "already exists" is the answer exactly when the email is known, and then no user is added; otherwise one unverified user is added with the hashed password, the token and an expiry of now + 3 600 000 ms; a failed email delivery answers 500 with the user stored |
| AuthService.UserStore.Login | backend/controllers/authController.js:64-86 | "invalid credentials" exactly when no user has that email and a matching password; "verify your email" exactly when such a user is unverified; a signed token only for an existing, verified user whose password matches |
| AuthService.UserStore.VerifyEmail | backend/controllers/authController.js:90-114 | succeeds exactly when some user holds the token with an expiry strictly after now; only that user's `isVerified` becomes true; the token and expiry stay; a failure answers 400 and changes nothing |
| AuthService.VerifyTwice | backend/controllers/authController.js:105-110 | verifying at one instant and again at a later instant still before the expiry succeeds both times |
| AuthService.UserStore.VerifyEmailClearing | backend/controllers/authController.js:103-106 | the corrected handler verifies the same user and clears its token and expiry, after which the token verifies no one |
| AuthService.VerifyOnce | backend/controllers/authController.js:103-106 | with the corrected handler, repeating a verification is refused with 400 |
| ListUpdates.RemoveByIdSpec | frontend/src/pages/Transactions.jsx:70 | removal by id keeps exactly the elements with another id, in their order |
| ListUpdates.RemoveByIdCounts | frontend/src/pages/Transactions.jsx:70 | every element with another id keeps all its copies, and none with the id remains |
| ListUpdates.ReplaceById | frontend/src/pages/Transactions.jsx:100-104 | replacement by id keeps the length, puts the new element at each position holding its id, and keeps every other element |
| ListUpdates.ReplaceByIdIdempotent | frontend/src/pages/Transactions.jsx:100-104 | repeating a save-edit with the same record changes nothing more |
| ListUpdates.RemoveAfterReplace | frontend/src/pages/Transactions.jsx:70 | deleting an id after editing it is the same as deleting it outright |
| TransactionsPage.Visible | frontend/src/pages/Transactions.jsx:43-52 | the filtered list is no longer than the full list and every shown transaction passes the filter predicate |
| TransactionsPage.VisibleSpec | frontend/src/pages/Transactions.jsx:43-52 | a transaction is shown exactly when it is loaded and passes the predicate, and the shown list is an order-preserving subsequence of the loaded one |
| TransactionsPage.VisibleCounts | frontend/src/pages/Transactions.jsx:43-52 | a transaction that passes the predicate is shown as many times as it is loaded, and one that fails it not at all |
| TransactionsPage.VisibleAppend | frontend/src/pages/Transactions.jsx:43-52 | filtering a concatenation filters each part |
| TransactionsPage.TypeRule | frontend/src/pages/Transactions.jsx:45-46 | with a type other than `'all'` selected, a transaction of another type is hidden |
| TransactionsPage.NeutralFilterShowsAll | frontend/src/pages/Transactions.jsx:45-51 | with `'all'`, an empty search and no dates, every transaction is shown, in order: every type passes `'all'`, the empty search matches everything, and an empty date bound constrains nothing |
| TransactionsPage.SearchIgnoresCase | frontend/src/pages/Transactions.jsx:47-48 | the search text matters only through its lower-cased form |
| TransactionsPage.AfterDelete | frontend/src/pages/Transactions.jsx:70 | after a delete no entry has the deleted id |
| TransactionsPage.AfterDeleteSpec | frontend/src/pages/Transactions.jsx:70 | after a delete every entry with another id remains, in its order |
| TransactionsPage.AfterSaveEdit | frontend/src/pages/Transactions.jsx:100-104 | after a save-edit the length is unchanged, entries with the edited id are the updated record, and all others are identical |
| DashboardPage.OfType | frontend/src/pages/Dashboard.jsx:37 | the filter keeps only transactions of the requested type |
| DashboardPage.OfTypeElements | frontend/src/pages/Dashboard.jsx:37 | the filter keeps every transaction of the requested type |
| DashboardPage.TotalsAgreeWithSummary | frontend/src/pages/Dashboard.jsx:36-42 | income and expense are the sums of the amounts of the income and expense transactions; the monthly summary's records add up to the same totals; balance is their difference |
| DashboardPage.ExpenseByCategorySpec | frontend/src/pages/Dashboard.jsx:45-50 | the breakdown's keys are exactly the categories of expense transactions, each once; each key's value is the sum of that category's expenses; the values sum to the expense total |
| DashboardPage.ExpenseByCategorySnoc | frontend/src/pages/Dashboard.jsx:45-50 | one more expense bumps its category; an income or other transaction leaves the breakdown unchanged |
| CategoriesPage.Save | frontend/src/pages/Categories.jsx:30-52 | with an empty name or type the save is a no-op, so the list and the form are unchanged |
| CategoriesPage.Delete | frontend/src/pages/Categories.jsx:55-63 | a delete never touches the form |
| CategoriesPage.Edit | frontend/src/pages/Categories.jsx:66-70 | editing fills the form with the category's own id, name and type, shows the form, clears the error, and leaves the list alone |
| CategoriesPage.Toggle | frontend/src/pages/Categories.jsx:78-82 | the add/cancel button flips the form's visibility, empties the form and clears the error, leaving the list alone |
| CategoriesPage.SaveFailure | frontend/src/pages/Categories.jsx:49-51 | a failed request leaves the list and the form as they were and reports "Error saving category" |
| CategoriesPage.SaveCreate | frontend/src/pages/Categories.jsx:43-47 | creating appends the returned category at the end, keeps the rest, and resets the form to name `''` and type `'income'` |
| CategoriesPage.SaveUpdate | frontend/src/pages/Categories.jsx:36-47 | updating replaces the entries whose id is the returned id, keeps the length and all other entries, and resets the form |
| CategoriesPage.DeleteSpec | frontend/src/pages/Categories.jsx:55-62 | a successful delete keeps exactly the entries with another id, in order, and clears the error; a failed one only reports "Failed to delete category" |
| CategoriesPage.SaveKeepsIdsDistinct | frontend/src/pages/Categories.jsx:40-44 | no save makes two entries share an id, given that a created category comes back with a new id |
| CategoriesPage.DeleteKeepsIdsDistinct | frontend/src/pages/Categories.jsx:58 | no delete makes two entries share an id |
| CategoriesPage.EditThenSave | frontend/src/pages/Categories.jsx:36-40 | editing a listed category and saving the server's answer puts the answer in that entry's place and changes no other entry |

## Findings

| source | as written | input that shows it | evidently intended | confidence | as-written member | corrected member |
|---|---|---|---|---|---|---|
| backend/controllers/authController.js:105-106 | the handler clears `emailVerificationToken` and `emailVerificationTokenExpiration`, but the token is stored in `verificationToken` and `verificationTokenExpires` (lines 29-30), so the stored token is never cleared | register a user with token T at time 0; verify with T at time 1 (succeeds); verify with T again at time 2 (succeeds again) | the verified user's token and expiry are cleared, so a verification link works once (the comments say "Clear the token") | medium, not executed (the user schema is not part of this model; a strict schema ignores the undeclared fields) | AuthService.UserStore.VerifyEmail, AuthService.VerifyTwice | AuthService.UserStore.VerifyEmailClearing, AuthService.VerifyOnce |

The rest of the model keeps the handler as written, because the server
behaves that way. The corrected handler stands beside it with its
single-use property proved.

## Left out

- Request validation by `express-validator` in the auth routes (field presence, email format, a minimum password length): these are middleware outside the controllers. The handlers are modelled from the point where validation has passed.
- Sending the verification email (nodemailer) is I/O. Its outcome is the `delivered` parameter of `Register`.
- `crypto.randomBytes`, `Date.now`, bcrypt's password hashing and comparison, and JWT signing are foreign calls. The token and the current time are parameters. Hashing, matching and signing are functions fixed when the user store is built.
- Database failures, and the 500 answers they cause, other than the save-time validation of a category name are left out.
- TransactionService.TransactionStore.Add: a save the transaction schema would reject (500) is not modelled, because the transaction schema is not part of this model. Every add succeeds.
- TransactionService.TransactionStore.Update: for the same reason, a `transaction.save()` that the schema rejects after patching (500) is not modelled. Every owned update of an existing id succeeds.
- JSON `null` in an update body is not modelled. `amount: null` would pass the `!== undefined` test and write `null`; a `Patch` field is either absent or a value.
- Non-string request values, such as a numeric category name on which `trim` throws, are not modelled: request fields are strings.
- Invalid date strings (`new Date('x')` is an invalid date that compares false with everything) are not modelled. Dates are already parsed instants.
- Time zones: `$year` and `$month` are read off the abstract date directly.
- Amounts are JavaScript floating-point numbers; the model uses integers, so rounding and `toFixed` formatting are not modelled.
- DashboardPage.ExpenseByCategory: JavaScript lists integer-like object keys (such as `"42"`) in ascending numeric order, ahead of the other keys. The model keeps every key in insertion order.
- DashboardPage.ExpenseByCategory: the accumulator is a `{}` literal, so a category named like an inherited `Object.prototype` member does not behave as the model says. For `"constructor"` or `"toString"`, `acc[c] || 0` reads the inherited function and the sum becomes a string. For `"__proto__"`, the assignment never creates a key. The model treats every category name as an ordinary key.
- DashboardPage.ExpenseByCategorySpec: its statements (keys exactly the expense categories, per-category sums, the total) hold in JavaScript only for category names that are not `Object.prototype` members, such as `"__proto__"`, `"constructor"`, `"toString"`, `"valueOf"` or `"hasOwnProperty"`.
- Text.ToLower: folds ASCII letters only. JavaScript's `toLowerCase` also folds other cased letters, so in the source a search for `"É"` matches a category `"é"`.
- TransactionsPage.Shows: because of `Text.ToLower`, the case-insensitive search is modelled for ASCII letters only; non-ASCII letters that differ only in case count as different.
- The order of transactions with equal dates, and of categories with equal names, is whatever the database returns. The contracts constrain only the sort keys.
- UI state of the pages is not modelled: loading flags, the transactions page's error text and alerts, rendering, and the chart's colours. `CategoriesPage` keeps its error text because the handlers set it.
- The HTTP calls of the pages: a request is reduced to its outcome, either the record the server sent back or a failure.
- Concurrency between requests: each request runs to completion before the next starts.

