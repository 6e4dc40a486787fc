/** The Category model's queries: uniqueness on name and lookup by id. */
module Categories {

  import opened Common
  import T = Table

  /** A category's attributes; deletedAt is the soft-delete column, carried through unchanged. */
  datatype Category = Category(name: string, deletedAt: Option<string>)

  /** The natural key. */
  function Name(category: Category): string {
    category.name
  }

  /** An unsaved category with only its name filled in. */
  function WithName(name: string): (category: Category)
    ensures category.name == name
  {
    Category(name, None)
  }

  /** Category::checkUnique: false exactly when a stored category already has the candidate's name. */
  function CheckUnique(rows: seq<T.Row<Category>>, candidate: Category): (unique: bool)
    ensures !unique <==> exists i :: 0 <= i < |rows| && rows[i].attrs.name == candidate.name
  {
    T.CheckUnique(rows, candidate, Name)
  }

  /** Category::findById: the stored row with that id, or NotFound when there is none. */
  function FindById(rows: seq<T.Row<Category>>, id: nat): (r: T.Lookup<Category>)
    ensures r.NotFound? <==> forall i :: 0 <= i < |rows| ==> rows[i].id != id
    ensures r.Found? ==> r.row in rows && r.row.id == id
    ensures r.NotFound? ==> r.missing == id
  {
    T.FindById(rows, id)
  }

  /** Row 1 of the seeded categories table. */
  const SeededCategory: T.Row<Category> := T.Row(
    1,
    Category("カテゴリーA", None),
    "2022-07-01 10:00:00", "2022-07-01 10:00:00")

  /** A seeded table: auto-increment ids (distinct, from 1) and row 1 as above. */
  ghost predicate Seeded(rows: seq<T.Row<Category>>) {
    && T.IdsUnique(rows)
    && (forall i :: 0 <= i < |rows| ==> rows[i].id >= 1)
    && SeededCategory in rows
  }

  /**
   * On any seeded table: id 0 is NotFound, id 1 yields the seeded row with a
   * null deletedAt, and the seeded name collides.
   */
  lemma SeededQueries(rows: seq<T.Row<Category>>)
    requires Seeded(rows)
    ensures FindById(rows, 0) == T.NotFound(0)
    ensures FindById(rows, 1) == T.Found(SeededCategory)
    ensures !CheckUnique(rows, WithName("カテゴリーA"))
  {
  }

  /** A name no stored category has is unique. */
  lemma FreshNameIsUnique()
    ensures CheckUnique([SeededCategory], WithName("あいうえお"))
  {
  }
}
