# Back-office validation and model queries

This project models the two pieces of the catalogue back-office (admins,
items, categories) whose behaviour its unit tests pin down:

1. **Form validation.** Each request class declares, per field, "required,
   between 1 and N characters". The validator passes a submitted form exactly
   when every declared field is present, non-empty and no longer than its
   bound. Length is counted in characters, so a 50-character hiragana string
   passes a 50-character bound. The rule sets are:
   admin `userId` 1..50 and `userName` 1..10; item `name` 1..10 and
   `description` 1..50; category `name` 1..20. No other field is required:
   a form holding only the declared fields can pass. The rule sets are taken
   to declare only these fields, so in the model any other field plays no
   part.
2. **Model queries.** `checkUnique(candidate)` returns false exactly when a
   stored row already has the candidate's natural key: `email` for admins,
   `name` for items and categories. `findById(id)` returns the stored row
   unchanged, or the distinct NotFound outcome when no row has that id.

Modules, one per concern:

- `Validation` (validation.dfy): the generic rule engine. `Check` evaluates
  one field's rule, `Violations` lists every failing rule, `Passes` is the
  verdict.
- `AdminRequest`, `ItemRequest`, `CategoryRequest`: the three rule sets, the
  verdict of each as an explicit conjunction of field bounds, and the forms
  the tests submit.
- `Table` (table.dfy): a stored table as a sequence of rows (primary key,
  attributes, timestamps), with the generic `FindById` and `CheckUnique`.
- `Admins`, `Items`, `Categories`: the entity attributes, the per-entity
  queries on their natural keys, and row 1 of each seeded table.
- `Common`: the nullable `Option` type.

The seeders are not part of this model. Only row 1 of each seeded table is
visible through the tests. So the seeded-table lemmas hold for any table whose
ids are distinct and at least 1 and which contains that row. The "fresh key is
unique" cases are stated on the one-row table.

The item-form case labelled "10-character name, empty description" in
tests/Unit/Item/ItemRequestTest.php:83-89 actually submits an 11-character
name. `ItemRequest.RejectedForms` states that form with its true length, and
also states the labelled form. Both are rejected.

## Model

| member | source | states |
|---|---|---|
| Validation.Check | tests/Unit/Admin/AdminRequestTest.php:69-110 | a field's rule holds iff the field is present with 1..max characters; a missing or empty field is reported as Required, an over-long one as TooLong |
| Validation.Violations | tests/Unit/Admin/AdminRequestTest.php:25-35 | every listed violation is the check result of some rule, every failing rule's violation is listed, and there are at most as many violations as rules |
| Validation.ViolationCount | tests/Unit/Admin/AdminRequestTest.php:25-35 | the number of violations equals the number of failing rules |
| Validation.Passes | tests/Unit/Admin/AdminRequestTest.php:29-34 | the validator passes iff every declared rule holds |
| Validation.UndeclaredFieldIgnored | tests/Unit/Admin/AdminRequestTest.php:41-47 | setting a field no rule declares leaves the violations unchanged |
| AdminRequest.Passes | tests/Unit/Admin/AdminRequestTest.php:41-110 | an admin form passes iff userId has 1..50 characters and userName has 1..10, both present |
| AdminRequest.OtherFieldsIgnored | tests/Unit/Admin/AdminRequestTest.php:41-47 | under the rule set declaring only userId and userName, no other field affects the verdict; in particular none is required |
| AdminRequest.AcceptedForms | tests/Unit/Admin/AdminRequestTest.php:41-68 | (10,1), (50,10), (50,1) and (10,10) hiragana characters pass |
| AdminRequest.RejectedForms | tests/Unit/Admin/AdminRequestTest.php:69-110 | (0,0), (51,11), (50,0), (0,10), (50,11) and (51,10) characters fail |
| ItemRequest.Passes | tests/Unit/Item/ItemRequestTest.php:41-110 | an item form passes iff name has 1..10 characters and description has 1..50, both present |
| ItemRequest.OtherFieldsIgnored | tests/Unit/Item/ItemRequestTest.php:41-47 | under the rule set declaring only name and description, no other field affects the verdict; in particular price, brand and category are not required |
| ItemRequest.AcceptedForms | tests/Unit/Item/ItemRequestTest.php:41-68 | (1,1), (10,50), (10,1) and (1,50) characters pass |
| ItemRequest.RejectedForms | tests/Unit/Item/ItemRequestTest.php:69-110 | (0,0), (11,51), (11,0), (10,0), (0,50), (10,51) and (11,50) characters fail |
| CategoryRequest.Passes | tests/Unit/Category/CategoryRequestTest.php:23-92 | a category form passes iff name is present with 1..20 characters |
| CategoryRequest.NameOnlyPasses | tests/Unit/Category/CategoryRequestTest.php:23-92 | a form holding only a name passes iff 1 <= length <= 20 |
| CategoryRequest.Boundaries | tests/Unit/Category/CategoryRequestTest.php:23-92 | 1 and 20 characters pass, 0 and 21 fail |
| Table.FindById | tests/Unit/Admin/AdminTest.php:68-97 | NotFound(id) iff no row has the id; otherwise a stored row whose id is the requested one |
| Table.FindByIdStored | tests/Unit/Admin/AdminTest.php:80-97 | with distinct primary keys, looking up a stored row's id returns exactly that row |
| Table.CheckUnique | tests/Unit/Admin/AdminTest.php:38-61 | true iff no stored row's key equals the candidate's key |
| Table.CheckUniqueGuardsKeys | tests/Unit/Admin/AdminTest.php:38-61 | on a table with distinct keys, adding the candidate keeps keys distinct iff checkUnique accepted it |
| Admins.CheckUnique | tests/Unit/Admin/AdminTest.php:38-61 | false iff some stored admin has the candidate's email |
| Admins.CheckUniqueByEmailOnly | tests/Unit/Admin/AdminTest.php:55-60 | candidates with the same email get the same answer: email alone is the key |
| Admins.FindById | tests/Unit/Admin/AdminTest.php:68-97 | NotFound(id) iff no admin has the id; a found row is stored and carries the requested id |
| Admins.SeededQueries | tests/Unit/Admin/AdminTest.php:53-97 | on a seeded table id 0 is NotFound, id 1 returns the seeded row field for field, admin@example.com collides |
| Admins.FreshEmailIsUnique | tests/Unit/Admin/AdminTest.php:38-46 | admin999@example.com is unique |
| Items.CheckUnique | tests/Unit/Item/ItemTest.php:38-61 | false iff some stored item has the candidate's name |
| Items.FindById | tests/Unit/Item/ItemTest.php:68-98 | NotFound(id) iff no item has the id; a found row is stored and carries the requested id |
| Items.SeededQueries | tests/Unit/Item/ItemTest.php:53-98 | on a seeded table id 0 is NotFound, id 1 returns the seeded row with price, brand, category and null deletedAt, 商品A collides |
| Items.FreshNameIsUnique | tests/Unit/Item/ItemTest.php:38-46 | あいうえお is unique |
| Categories.CheckUnique | tests/Unit/Category/CategoryTest.php:38-61 | false iff some stored category has the candidate's name |
| Categories.FindById | tests/Unit/Category/CategoryTest.php:68-92 | NotFound(id) iff no category has the id; a found row is stored and carries the requested id |
| Categories.SeededQueries | tests/Unit/Category/CategoryTest.php:53-92 | on a seeded table id 0 is NotFound, id 1 returns the seeded row with null deletedAt, カテゴリーA collides |
| Categories.FreshNameIsUnique | tests/Unit/Category/CategoryTest.php:38-46 | あいうえお is unique |

## Left out

- The source of the request classes and of the Admin, Item and Category models is not available. Their rules and queries are reconstructed here from the behaviour their unit tests assert.
- AdminRequest.OtherFieldsIgnored, ItemRequest.OtherFieldsIgnored: hold for rule sets that declare only the fields the tests exercise. An optional rule on another field, such as a type rule on an item's price, is not modelled; the tests show only that no other field is required.
- Validation.Violations: the order of the violations is not stated, only which ones are listed and how many.
- Controllers, routing, views, redirects and authentication (tests/Feature/*): presentation plumbing whose model calls are all stubbed.
- Create, edit and delete, and role and permission association replacement: they appear only as stubbed return values, so nothing states how they behave.
- Listing, search and pagination: framework wrappers, stubbed in the controller tests.
- Soft-delete filtering: `deletedAt` is carried as an opaque column; no test shows a soft-deleted row being skipped by `findById` or `checkUnique`.
- Admins.CheckUnique: does not exclude the candidate's own row on edit, because no test shows a candidate with an id; the same holds for Items.CheckUnique and Categories.CheckUnique.
- Validation.Check: "required" is modelled as present and non-empty. A whitespace-only string, a null and a non-string value are not modelled, because forms are maps of strings and no test submits such values.
- Validation messages: only the kind of violation (Required, TooLong) is modelled, not the message text.
- Password hashing, timestamp formats and remember tokens: opaque strings carried through `FindById` unchanged.
- Seeded rows other than row 1 of each table: the seeders are not part of this model.
- Database access, transactions and the race between checkUnique and a write: I/O outside the model.
