/**
 * The service layer over the repository: create and list pass straight
 * through, and the single-item operations turn "no such row" into a
 * `NotFoundError` that names the id.
 */
module ItemService {
  import opened Wrappers
  import opened ItemTypes
  import opened AppErrors
  import Repo = ItemRepository

  /** The NotFoundError the service throws for a missing id: status 404, a message naming the id. */
  function NotFoundFor(id: real): (e: AppError)
    ensures e.StatusCode() == 404 && e.message == ItemNotFound(id)
  {
    NewNotFoundError(Some(ItemNotFound(id)))
  }

  /** `createItem`: the repository's create, unchanged. */
  method CreateItem(store: Repo.ItemStore, dto: CreateItemDto, now: Timestamp) returns (item: Item)
    requires store.Valid()
    modifies store
    ensures store.Valid()
    ensures store.State() == Repo.Inserted(old(store.State()), dto, now)
    ensures item == Repo.NewRow(old(store.State()).nextId, dto, now)
  {
    item := store.CreateItem(dto, now);
  }

  /**
   * `listItems`: the repository's listing. Every element is a stored row that
   * meets the filter, every such row is there, and ids strictly ascend.
   */
  function ListItems(t: Repo.Table, f: ListItemsFilter): (r: seq<Item>)
    requires Repo.Wellformed(t)
    ensures forall i :: 0 <= i < |r| ==> r[i].id in t.rows && t.rows[r[i].id] == r[i] && Repo.MatchesFilter(f, r[i])
    ensures forall k :: k in t.rows && Repo.MatchesFilter(f, t.rows[k]) ==> t.rows[k] in r
    ensures forall i, j :: 0 <= i < j < |r| ==> r[i].id < r[j].id
  {
    Repo.ListItems(t, f)
  }

  /** `getItemById`: the stored row, or NotFound for the id when there is none. */
  function GetItemById(t: Repo.Table, id: real): (r: Result<Item, AppError>)
    ensures r.Success? <==> Repo.GetItemById(t, id).Some?
    ensures r.Success? ==> Repo.GetItemById(t, id) == Some(r.value)
    ensures r.Failure? ==> r.error == NotFoundFor(id)
  {
    match Repo.GetItemById(t, id)
    case Some(item) => Success(item)
    case None => Failure(NotFoundFor(id))
  }

  /** What `updateItem` returns when run against table `t`. */
  function UpdateResult(t: Repo.Table, id: real, dto: UpdateItemDto, now: Timestamp): Result<Item, AppError> {
    match Repo.GetItemById(t, id)
    case Some(existing) => Success(Repo.Merge(existing, dto, now))
    case None => Failure(NotFoundFor(id))
  }

  /** What `deleteItem` returns when run against table `t`. */
  function DeleteResult(t: Repo.Table, id: real): Result<(), AppError> {
    if Repo.GetItemById(t, id).Some? then Success(()) else Failure(NotFoundFor(id))
  }

  /** `updateItem`: the repository's update; NotFound when it reports the id absent. */
  method UpdateItem(store: Repo.ItemStore, id: real, dto: UpdateItemDto, now: Timestamp) returns (r: Result<Item, AppError>)
    requires store.Valid()
    modifies store
    ensures store.Valid()
    ensures store.State() == Repo.Updated(old(store.State()), id, dto, now)
    ensures r == UpdateResult(old(store.State()), id, dto, now)
  {
    var item := store.UpdateItem(id, dto, now);
    if item.None? {
      return Failure(NotFoundFor(id));
    }
    r := Success(item.value);
  }

  /** `deleteItem`: the repository's delete; NotFound when it removed no row. */
  method DeleteItem(store: Repo.ItemStore, id: real) returns (r: Result<(), AppError>)
    requires store.Valid()
    modifies store
    ensures store.Valid()
    ensures store.State() == Repo.Deleted(old(store.State()), id)
    ensures r == DeleteResult(old(store.State()), id)
  {
    var deleted := store.DeleteItem(id);
    if !deleted {
      return Failure(NotFoundFor(id));
    }
    r := Success(());
  }

  /** After a create, getting the new id yields the created item. */
  lemma CreateThenGetYieldsItem(t: Repo.Table, dto: CreateItemDto, now: Timestamp)
    requires Repo.Wellformed(t)
    ensures GetItemById(Repo.Inserted(t, dto, now), t.nextId as real) == Success(Repo.NewRow(t.nextId, dto, now))
  {
    Repo.CreateThenGet(t, dto, now);
  }

  /**
   * An update fails with NotFound exactly when the id is absent, and then the
   * table is unchanged; a successful update is what a following get returns.
   */
  lemma UpdateFailsExactlyWhenAbsent(t: Repo.Table, id: real, dto: UpdateItemDto, now: Timestamp)
    requires Repo.Wellformed(t)
    ensures UpdateResult(t, id, dto, now).Failure? <==> GetItemById(t, id).Failure?
    ensures UpdateResult(t, id, dto, now).Failure? ==>
              UpdateResult(t, id, dto, now).error == NotFoundFor(id) && Repo.Updated(t, id, dto, now) == t
    ensures UpdateResult(t, id, dto, now).Success? ==>
              GetItemById(Repo.Updated(t, id, dto, now), id) == UpdateResult(t, id, dto, now)
  {
    if Repo.GetItemById(t, id).Some? {
      Repo.UpdateMergesTargetOnly(t, id, dto, now);
    }
  }

  /**
   * A delete fails with NotFound exactly when the id is absent; after a
   * delete, both a get and a second delete of the same id fail with NotFound.
   */
  lemma DeleteThenGetOrDeleteIsNotFound(t: Repo.Table, id: real)
    requires Repo.Wellformed(t)
    ensures DeleteResult(t, id).Failure? <==> GetItemById(t, id).Failure?
    ensures GetItemById(Repo.Deleted(t, id), id) == Failure(NotFoundFor(id))
    ensures DeleteResult(Repo.Deleted(t, id), id) == Failure(NotFoundFor(id))
  {
    Repo.DeleteRemovesTargetOnly(t, id);
  }
}
