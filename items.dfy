/** The Item model's queries: uniqueness on name and lookup by id. */
module Items {

  import opened Common
  import T = Table

  /** An item's attributes; deletedAt is the soft-delete column, carried through unchanged. */
  datatype Item = Item(name: string, description: string, price: int, brandId: nat, categoryId: nat, deletedAt: Option<string>)

  /** The natural key. */
  function Name(item: Item): string {
    item.name
  }

  /** An unsaved item with only its name filled in; unset attributes are empty. */
  function WithName(name: string): (item: Item)
    ensures item.name == name
  {
    Item(name, "", 0, 0, 0, None)
  }

  /** Item::checkUnique: false exactly when a stored item already has the candidate's name. */
  function CheckUnique(rows: seq<T.Row<Item>>, candidate: Item): (unique: bool)
    ensures !unique <==> exists i :: 0 <= i < |rows| && rows[i].attrs.name == candidate.name
  {
    T.CheckUnique(rows, candidate, Name)
  }

  /** Item::findById: the stored row with that id, or NotFound when there is none. */
  function FindById(rows: seq<T.Row<Item>>, id: nat): (r: T.Lookup<Item>)
    ensures r.NotFound? <==> forall i :: 0 <= i < |rows| ==> rows[i].id != id
    ensures r.Found? ==> r.row in rows && r.row.id == id
    ensures r.NotFound? ==> r.missing == id
  {
    T.FindById(rows, id)
  }

  /** Row 1 of the seeded items table. */
  const SeededItem: T.Row<Item> := T.Row(
    1,
    Item("商品A", "商品の説明", 200000, 1, 1, None),
    "2022-07-01 10:00:00", "2022-07-01 10:00:00")

  /** A seeded table: auto-increment ids (distinct, from 1) and row 1 as above. */
  ghost predicate Seeded(rows: seq<T.Row<Item>>) {
    && T.IdsUnique(rows)
    && (forall i :: 0 <= i < |rows| ==> rows[i].id >= 1)
    && SeededItem in rows
  }

  /**
   * On any seeded table: id 0 is NotFound, id 1 yields the seeded row with
   * its price, brand, category and null deletedAt, and the seeded name collides.
   */
  lemma SeededQueries(rows: seq<T.Row<Item>>)
    requires Seeded(rows)
    ensures FindById(rows, 0) == T.NotFound(0)
    ensures FindById(rows, 1) == T.Found(SeededItem)
    ensures !CheckUnique(rows, WithName("商品A"))
  {
  }

  /** A name no stored item has is unique. */
  lemma FreshNameIsUnique()
    ensures CheckUnique([SeededItem], WithName("あいうえお"))
  {
  }
}
