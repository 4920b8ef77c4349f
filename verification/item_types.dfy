/** The values the items service passes between its layers. */
module ItemTypes {
  import opened Wrappers

  /**
   * A point in time. The store stamps rows with `datetime('now')`; the model
   * takes the current time as a parameter instead of reading a clock.
   */
  type Timestamp = nat

  /** A row of the `items` table. */
  datatype Item = Item(
    id: int,
    name: string,
    description: string,
    price: real,
    createdAt: Timestamp,
    updatedAt: Timestamp)

  /** What a create asks for; `None` stands for a field left undefined. */
  datatype CreateItemDto = CreateItemDto(name: string, description: Option<string>, price: Option<real>)

  /** What an update asks for; every field may be left undefined. */
  datatype UpdateItemDto = UpdateItemDto(name: Option<string>, description: Option<string>, price: Option<real>)

  /** The optional constraints of a listing: a name fragment and inclusive price bounds. */
  datatype ListItemsFilter = ListItemsFilter(name: Option<string>, minPrice: Option<real>, maxPrice: Option<real>)

  /** The empty filter, which `listItems` uses when called without one. */
  const NoFilter: ListItemsFilter := ListItemsFilter(None, None, None)
}
