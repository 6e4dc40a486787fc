/** The Admin model's queries: uniqueness on email and lookup by id. */
module Admins {

  import opened Common
  import T = Table

  /** An admin's attributes. The password is an opaque hash, never interpreted. */
  datatype Admin = Admin(name: string, email: string, password: string, avatar: Option<string>, rememberToken: Option<string>)

  /** The natural key. */
  function Email(a: Admin): string {
    a.email
  }

  /** An unsaved admin with only its email filled in; unset attributes are empty. */
  function WithEmail(email: string): (a: Admin)
    ensures a.email == email
  {
    Admin("", email, "", None, None)
  }

  /** Admin::checkUnique: false exactly when a stored admin already has the candidate's email. */
  function CheckUnique(rows: seq<T.Row<Admin>>, candidate: Admin): (unique: bool)
    ensures !unique <==> exists i :: 0 <= i < |rows| && rows[i].attrs.email == candidate.email
  {
    T.CheckUnique(rows, candidate, Email)
  }

  /** Only the email is compared: candidates agreeing on it get the same answer. */
  lemma CheckUniqueByEmailOnly(rows: seq<T.Row<Admin>>, a: Admin, b: Admin)
    requires a.email == b.email
    ensures CheckUnique(rows, a) == CheckUnique(rows, b)
  {
  }

  /** Admin::findById: the stored row with that id, or NotFound when there is none. */
  function FindById(rows: seq<T.Row<Admin>>, id: nat): (r: T.Lookup<Admin>)
    ensures r.NotFound? <==> forall i :: 0 <= i < |rows| ==> rows[i].id != id
    ensures r.Found? ==> r.row in rows && r.row.id == id
    ensures r.NotFound? ==> r.missing == id
  {
    T.FindById(rows, id)
  }

  /** Row 1 of the seeded admins table. */
  const SeededAdmin: T.Row<Admin> := T.Row(
    1,
    Admin("管理者A", "admin@example.com", "$2y$10$92IXUNpkjO0rOQ5byMi.Ye4oKoEa3Ro9llC/.og/at2.uheWG/igi", None, None),
    "2022-07-01 10:00:00", "2022-07-01 10:00:00")

  /** A seeded table: auto-increment ids (distinct, from 1) and row 1 as above. */
  ghost predicate Seeded(rows: seq<T.Row<Admin>>) {
    && T.IdsUnique(rows)
    && (forall i :: 0 <= i < |rows| ==> rows[i].id >= 1)
    && SeededAdmin in rows
  }

  /**
   * On any seeded table: id 0 is NotFound, id 1 yields the seeded row field
   * for field, and the seeded email collides.
   */
  lemma SeededQueries(rows: seq<T.Row<Admin>>)
    requires Seeded(rows)
    ensures FindById(rows, 0) == T.NotFound(0)
    ensures FindById(rows, 1) == T.Found(SeededAdmin)
    ensures !CheckUnique(rows, WithEmail("admin@example.com"))
  {
  }

  /** An email no stored admin has is unique. */
  lemma FreshEmailIsUnique()
    ensures CheckUnique([SeededAdmin], WithEmail("admin999@example.com"))
  {
  }
}
