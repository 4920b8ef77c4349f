/**
 * The items table and the repository that runs SQL against it. Each SQL
 * statement is given its meaning on a `Table` value (the rows by id, and
 * the AUTOINCREMENT counter); `ItemStore` holds the table and changes it in
 * place, and each of its methods is proved against those meanings.
 */
module ItemRepository {
  import opened Wrappers
  import opened ItemTypes
  import Text

  /**
   * The `items` table: its rows by primary key, and the id the next insert
   * receives. AUTOINCREMENT gives every insert an id above every id the
   * table has ever issued, so the counter only grows.
   */
  datatype Table = Table(rows: map<int, Item>, nextId: int)

  /** A freshly created table. */
  const EmptyTable: Table := Table(map[], 1)

  /** Every row sits under its own id, and every id is below the counter. */
  ghost predicate Wellformed(t: Table) {
    && 1 <= t.nextId
    && forall k :: k in t.rows ==> t.rows[k].id == k && 1 <= k < t.nextId
  }

  /**
   * The key a JavaScript number denotes when it is compared with the INTEGER
   * primary key: a key equals it only when the number is integral.
   */
  function KeyOf(id: real): (k: Option<int>)
    ensures k.Some? <==> id == id.Floor as real
    ensures k.Some? ==> k.value as real == id
  {
    if id.Floor as real == id then Some(id.Floor) else None
  }

  /** `getItemById`: the row whose id equals `id`, or `None` (undefined) when there is none. */
  function GetItemById(t: Table, id: real): (r: Option<Item>)
    ensures r.Some? <==> exists k :: k in t.rows && k as real == id
    ensures forall k :: k in t.rows && k as real == id ==> r == Some(t.rows[k])
  {
    match KeyOf(id)
    case Some(k) => if k in t.rows then Some(t.rows[k]) else None
    case None => None
  }

  /** The row INSERT stores: description "" and price 0 when undefined, both timestamps `now`. */
  function NewRow(id: int, dto: CreateItemDto, now: Timestamp): Item {
    Item(id, dto.name, dto.description.GetOr(""), dto.price.GetOr(0.0), now, now)
  }

  /** The table after the insert: the new row under the counter's id, and the counter moved on. */
  function Inserted(t: Table, dto: CreateItemDto, now: Timestamp): Table {
    Table(t.rows[t.nextId := NewRow(t.nextId, dto, now)], t.nextId + 1)
  }

  /**
   * The row `updateItem` writes over `existing`: each of name, description
   * and price takes the supplied value unless it is undefined (`??`), and
   * `updatedAt` becomes `now`.
   */
  function Merge(existing: Item, dto: UpdateItemDto, now: Timestamp): Item {
    existing.(
      name := dto.name.GetOr(existing.name),
      description := dto.description.GetOr(existing.description),
      price := dto.price.GetOr(existing.price),
      updatedAt := now)
  }

  /** The table after `updateItem(id, dto)`: unchanged when no row has that id. */
  function Updated(t: Table, id: real, dto: UpdateItemDto, now: Timestamp): Table {
    match GetItemById(t, id)
    case None => t
    case Some(existing) => t.(rows := t.rows[KeyOf(id).value := Merge(existing, dto, now)])
  }

  /** The table after the delete statement: the row under that key removed, if there is one. */
  function Deleted(t: Table, id: real): Table {
    match KeyOf(id)
    case Some(k) => t.(rows := t.rows - {k})
    case None => t
  }

  /** The WHERE clause `listItems` builds: every supplied condition, joined with AND. */
  predicate MatchesFilter(f: ListItemsFilter, item: Item) {
    && (f.name.Some? ==> Text.ContainsIgnoringAsciiCase(item.name, f.name.value))
    && (f.minPrice.Some? ==> item.price >= f.minPrice.value)
    && (f.maxPrice.Some? ==> item.price <= f.maxPrice.value)
  }

  /** The rows with keys in [lo, hi) that satisfy `f`, in ascending key order. */
  function Scan(rows: map<int, Item>, f: ListItemsFilter, lo: int, hi: int): (r: seq<Item>)
    requires forall k :: k in rows ==> rows[k].id == k
    ensures forall i :: 0 <= i < |r| ==> lo <= r[i].id < hi && r[i].id in rows && rows[r[i].id] == r[i]
    ensures forall i :: 0 <= i < |r| ==> MatchesFilter(f, r[i])
    ensures forall i, j :: 0 <= i < j < |r| ==> r[i].id < r[j].id
    ensures forall k :: lo <= k < hi && k in rows && MatchesFilter(f, rows[k]) ==> rows[k] in r
    decreases hi - lo
  {
    if hi <= lo then []
    else
      var rest := Scan(rows, f, lo + 1, hi);
      if lo in rows && MatchesFilter(f, rows[lo]) then [rows[lo]] + rest else rest
  }

  /**
   * `listItems`: the filtered select, ordered by ascending id. The result
   * holds exactly the rows that satisfy every supplied condition, in strictly
   * ascending id order.
   */
  function ListItems(t: Table, f: ListItemsFilter): (r: seq<Item>)
    requires Wellformed(t)
    ensures forall i :: 0 <= i < |r| ==> r[i].id in t.rows && t.rows[r[i].id] == r[i] && MatchesFilter(f, r[i])
    ensures forall k :: k in t.rows && MatchesFilter(f, t.rows[k]) ==> t.rows[k] in r
    ensures forall i, j :: 0 <= i < j < |r| ==> r[i].id < r[j].id
  {
    Scan(t.rows, f, 1, t.nextId)
  }

  /** Without a filter, the listing is the whole table. */
  lemma {:induction false} EmptyFilterListsEveryRow(t: Table)
    requires Wellformed(t)
    ensures forall k :: k in t.rows ==> t.rows[k] in ListItems(t, NoFilter)
    ensures |ListItems(t, NoFilter)| == |t.rows|
  {
    var r := ListItems(t, NoFilter);
    var ids := set i | 0 <= i < |r| :: r[i].id;
    assert ids == t.rows.Keys by {
      forall k | k in t.rows ensures k in ids {
        var i :| 0 <= i < |r| && r[i] == t.rows[k];
      }
    }
    DistinctIdsCount(r);
  }

  /** A sequence with strictly ascending ids has as many ids as elements. */
  lemma {:induction false} DistinctIdsCount(r: seq<Item>)
    requires forall i, j :: 0 <= i < j < |r| ==> r[i].id < r[j].id
    ensures |set i | 0 <= i < |r| :: r[i].id| == |r|
  {
    if r != [] {
      DistinctIdsCount(r[1..]);
      var tail := set i | 0 <= i < |r[1..]| :: r[1..][i].id;
      var all := set i | 0 <= i < |r| :: r[i].id;
      assert all == {r[0].id} + tail by {
        forall x | x in all ensures x in {r[0].id} + tail {
          var i :| 0 <= i < |r| && r[i].id == x;
          if i > 0 { assert r[1..][i - 1].id == x; }
        }
      }
      assert r[0].id !in tail;
    }
  }

  /** The SQL name condition is a case-insensitive substring test: "apple" finds "Apple" and "Pineapple" but not "Banana". */
  lemma NameFilterExample()
    ensures Text.ContainsIgnoringAsciiCase("Apple", "apple")
    ensures Text.ContainsIgnoringAsciiCase("Pineapple", "apple")
    ensures !Text.ContainsIgnoringAsciiCase("Banana", "apple")
  {
    Text.ContainsMeaning("Banana", "apple");
  }

  /** A created row is the one `getItemById` then finds under the fresh id, with the defaults applied. */
  lemma CreateThenGet(t: Table, dto: CreateItemDto, now: Timestamp)
    requires Wellformed(t)
    ensures Wellformed(Inserted(t, dto, now))
    ensures t.nextId !in t.rows
    ensures GetItemById(Inserted(t, dto, now), t.nextId as real)
         == Some(Item(t.nextId, dto.name,
                      if dto.description.Some? then dto.description.value else "",
                      if dto.price.Some? then dto.price.value else 0.0,
                      now, now))
    ensures forall k :: k in t.rows ==> GetItemById(Inserted(t, dto, now), k as real) == Some(t.rows[k])
  {
  }

  /** An update of a missing id writes nothing. */
  lemma UpdateMissingIsNoOp(t: Table, id: real, dto: UpdateItemDto, now: Timestamp)
    requires GetItemById(t, id).None?
    ensures Updated(t, id, dto, now) == t
  {
  }

  /**
   * An update of a present id merges the supplied fields into that row only:
   * a supplied "" or 0 overwrites, id and createdAt stay, updatedAt becomes
   * `now`, and every other row is untouched.
   */
  lemma UpdateMergesTargetOnly(t: Table, id: real, dto: UpdateItemDto, now: Timestamp)
    requires Wellformed(t) && GetItemById(t, id).Some?
    ensures Wellformed(Updated(t, id, dto, now))
    ensures var before := GetItemById(t, id).value;
            var after := GetItemById(Updated(t, id, dto, now), id);
            && after.Some?
            && after.value.id == before.id && after.value.createdAt == before.createdAt
            && after.value.updatedAt == now
            && after.value.name == (if dto.name.Some? then dto.name.value else before.name)
            && after.value.description == (if dto.description.Some? then dto.description.value else before.description)
            && after.value.price == (if dto.price.Some? then dto.price.value else before.price)
    ensures Updated(t, id, dto, now).rows.Keys == t.rows.Keys
    ensures Updated(t, id, dto, now).nextId == t.nextId
    ensures forall k :: k in t.rows && k as real != id ==> Updated(t, id, dto, now).rows[k] == t.rows[k]
  {
  }

  /**
   * A delete removes exactly the row with that id, if any; afterwards the id
   * is absent, so deleting it again removes nothing.
   */
  lemma DeleteRemovesTargetOnly(t: Table, id: real)
    requires Wellformed(t)
    ensures Wellformed(Deleted(t, id))
    ensures GetItemById(Deleted(t, id), id).None?
    ensures Deleted(Deleted(t, id), id) == Deleted(t, id)
    ensures Deleted(t, id).nextId == t.nextId
    ensures forall k :: k in t.rows && k as real != id ==> k in Deleted(t, id).rows && Deleted(t, id).rows[k] == t.rows[k]
    ensures forall k :: k in Deleted(t, id).rows ==> k in t.rows
  {
  }

  /** One repository write, for reasoning about sequences of them. */
  datatype Command =
    | CreateCmd(create: CreateItemDto, now: Timestamp)
    | UpdateCmd(id: real, update: UpdateItemDto, now: Timestamp)
    | DeleteCmd(id: real)

  function Apply(t: Table, c: Command): Table {
    match c
    case CreateCmd(dto, now) => Inserted(t, dto, now)
    case UpdateCmd(id, dto, now) => Updated(t, id, dto, now)
    case DeleteCmd(id) => Deleted(t, id)
  }

  /** The table after running `cs` in order. */
  function Run(t: Table, cs: seq<Command>): Table
    decreases |cs|
  {
    if cs == [] then t else Run(Apply(t, cs[0]), cs[1..])
  }

  /** The ids the creates among `cs` receive, in order. */
  function IssuedIds(t: Table, cs: seq<Command>): seq<int>
    decreases |cs|
  {
    if cs == [] then []
    else (if cs[0].CreateCmd? then [t.nextId] else []) + IssuedIds(Apply(t, cs[0]), cs[1..])
  }

  /**
   * Ids are never reused: along any sequence of writes, every issued id is
   * above every id the table held or issued before, and the ids issued are
   * strictly increasing, even across deletes.
   */
  lemma {:induction false} IdsAreNeverReused(t: Table, cs: seq<Command>)
    requires Wellformed(t)
    ensures Wellformed(Run(t, cs)) && t.nextId <= Run(t, cs).nextId
    ensures forall i :: 0 <= i < |IssuedIds(t, cs)| ==> t.nextId <= IssuedIds(t, cs)[i] < Run(t, cs).nextId
    ensures forall i, j :: 0 <= i < j < |IssuedIds(t, cs)| ==> IssuedIds(t, cs)[i] < IssuedIds(t, cs)[j]
    decreases |cs|
  {
    if cs != [] {
      var t' := Apply(t, cs[0]);
      match cs[0] {
        case CreateCmd(dto, now) => CreateThenGet(t, dto, now);
        case UpdateCmd(id, dto, now) =>
          if GetItemById(t, id).Some? { UpdateMergesTargetOnly(t, id, dto, now); }
        case DeleteCmd(id) => DeleteRemovesTargetOnly(t, id);
      }
      assert Wellformed(t') && t.nextId <= t'.nextId;
      assert cs[0].CreateCmd? ==> t.nextId < t'.nextId;
      IdsAreNeverReused(t', cs[1..]);
      assert IssuedIds(t, cs) == (if cs[0].CreateCmd? then [t.nextId] else []) + IssuedIds(t', cs[1..]);
    }
  }

  /** Every row was stamped no later than `now`, and never updated before it was created. */
  ghost predicate StampedBy(t: Table, now: Timestamp) {
    forall k :: k in t.rows ==> t.rows[k].createdAt <= t.rows[k].updatedAt <= now
  }

  /** While the clock does not run backwards, every row keeps `createdAt <= updatedAt`. */
  lemma StampsStayOrdered(t: Table, c: Command, before: Timestamp, after: Timestamp)
    requires StampedBy(t, before) && before <= after
    requires c.CreateCmd? || c.UpdateCmd? ==> c.now == after
    ensures StampedBy(Apply(t, c), after)
  {
  }

  /**
   * The table in place. `rows` and `nextId` are the table's contents and its
   * AUTOINCREMENT counter; each method carries out one repository operation
   * on them, reading rows back where the repository does.
   */
  class ItemStore {
    var rows: map<int, Item>
    var nextId: int

    /** The table as a value. */
    function State(): Table
      reads this
    {
      Table(rows, nextId)
    }

    ghost predicate Valid()
      reads this
    {
      Wellformed(State())
    }

    /** An empty table, as a new database starts with. */
    constructor ()
      ensures Valid() && State() == EmptyTable
    {
      rows := map[];
      nextId := 1;
    }

    /** `createItem`: insert with defaults, then return the row read back under the new id. */
    method CreateItem(dto: CreateItemDto, now: Timestamp) returns (item: Item)
      requires Valid()
      modifies this
      ensures Valid()
      ensures State() == Inserted(old(State()), dto, now)
      ensures item == NewRow(old(nextId), dto, now)
      ensures item.id !in old(rows) && forall k :: k in old(rows) ==> k < item.id
      ensures GetItemById(State(), item.id as real) == Some(item)
    {
      var id := nextId;
      rows := rows[id := NewRow(id, dto, now)];
      nextId := nextId + 1;
      var found := GetItemById(State(), id as real);
      item := found.value;
    }

    /** `updateItem`: undefined for a missing id without writing; otherwise merge, write and read back. */
    method UpdateItem(id: real, dto: UpdateItemDto, now: Timestamp) returns (r: Option<Item>)
      requires Valid()
      modifies this
      ensures Valid()
      ensures State() == Updated(old(State()), id, dto, now)
      ensures r.None? <==> GetItemById(old(State()), id).None?
      ensures r.Some? ==> r == Some(Merge(GetItemById(old(State()), id).value, dto, now))
    {
      var existing := GetItemById(State(), id);
      if existing.None? {
        return None;
      }
      var merged := Merge(existing.value, dto, now);
      rows := rows[KeyOf(id).value := merged];
      r := GetItemById(State(), id);
    }

    /** `deleteItem`: delete the row with that id and report whether one was removed. */
    method DeleteItem(id: real) returns (removed: bool)
      requires Valid()
      modifies this
      ensures Valid()
      ensures State() == Deleted(old(State()), id)
      ensures removed <==> GetItemById(old(State()), id).Some?
    {
      var changes := 0;
      var key := KeyOf(id);
      if key.Some? {
        if key.value in rows {
          changes := 1;
        }
        rows := rows - {key.value};
      }
      removed := changes > 0;
    }
  }
}
