/**
 * The five `/items` routes. Each handler first decides, from the raw
 * request alone, whether to reject it with a `ValidationError` or which
 * single service call to make and which status to answer on success
 * (`Decide...`); it then makes that call and either answers, or passes the
 * thrown error on to the error handler.
 */
module ItemRouter {
  import opened Wrappers
  import opened ItemTypes
  import opened AppErrors
  import opened ErrorHandling
  import Text
  import Repo = ItemRepository
  import Service = ItemService

  /** A value of a parsed JSON body; `JUndefined` is a field that is not there. */
  datatype JsonValue =
    | JUndefined
    | JNull
    | JBool(b: bool)
    | JNumber(x: real)
    | JString(s: string)
    | JStructured

  /**
   * A query-string value: missing, a single string, or a repeated or nested
   * parameter (an array or object), given by the text `Number` converts it through.
   */
  datatype QueryValue = QAbsent | QString(s: string) | QStructured(text: string)

  /** The fields of a POST or PUT body that a handler reads. */
  datatype ItemBody = ItemBody(name: JsonValue, description: Option<string>, price: JsonValue)

  /** The query parameters of GET /items. */
  datatype ListQuery = ListQuery(name: QueryValue, minPrice: QueryValue, maxPrice: QueryValue)

  /** A request to one of the routes; `idParam` is the `:id` path segment. */
  datatype Request =
    | CreateRequest(body: ItemBody)
    | ListRequest(query: ListQuery)
    | GetRequest(idParam: string)
    | UpdateRequest(idParam: string, body: ItemBody)
    | DeleteRequest(idParam: string)

  /**
   * JavaScript's `Number(text)`: the number a string denotes, or `None` for NaN.
   * The model takes it as a parameter rather than restating JavaScript's grammar.
   * Only finite numbers are modelled: an input that converts to ±Infinity is outside it.
   */
  type NumberParser = string -> Option<real>

  /** The one service call a request leads to. */
  datatype ServiceCall =
    | CallCreate(create: CreateItemDto)
    | CallList(filter: ListItemsFilter)
    | CallGet(id: real)
    | CallUpdate(id: real, update: UpdateItemDto)
    | CallDelete(id: real)

  /** Reject the request, or make `call` and answer `status` if it succeeds. */
  datatype Decision = Reject(error: AppError) | Invoke(call: ServiceCall, status: int)

  // Each message is written as its opening, the field's name and its ending, so
  // that the proof that it names its field can point at the name directly.
  const NameRequiredMessage: string := "Field '" + "name" + "' is required and must be a non-empty string"
  const NameNotEmptyMessage: string := "Field '" + "name" + "' must be a non-empty string"
  const PriceMessage: string := "Field '" + "price" + "' must be a number"
  const MinPriceMessage: string := "Query param '" + "minPrice" + "' must be a number"
  const MaxPriceMessage: string := "Query param '" + "maxPrice" + "' must be a number"
  const InvalidIdMessage: string := "Invalid id"

  /** A string with something other than whitespace in it. */
  predicate IsNonBlankString(v: JsonValue) {
    v.JString? && !Text.IsBlank(v.s)
  }

  /** A name as stored: not blank, and without surrounding whitespace. */
  predicate IsCleanName(s: string) {
    !Text.IsBlank(s) && Text.Trim(s) == s
  }

  /**
   * POST's name check: a name that is falsy, not a string, or blank once
   * trimmed is rejected. Every value that is not a string is rejected, so of
   * the falsy values only the empty string needs its own case.
   */
  predicate CreateNameRejected(v: JsonValue) {
    match v
    case JString(s) => s == "" || Text.Trim(s) == ""
    case _ => true
  }

  /** PUT's name check: a name that is present (null counts) and is not a string, or is blank once trimmed. */
  predicate UpdateNameRejected(v: JsonValue) {
    match v
    case JUndefined => false
    case JString(s) => Text.Trim(s) == ""
    case _ => true
  }

  /** The price check of both: a price that is present (null counts) and is not a number. */
  predicate PriceRejected(v: JsonValue) {
    !v.JUndefined? && !v.JNumber?
  }

  /** POST rejects exactly the names that are not non-blank strings. */
  lemma CreateNameCheckMeaning(v: JsonValue)
    ensures CreateNameRejected(v) <==> !IsNonBlankString(v)
  {
    if v.JString? {
      Text.TrimMeaning(v.s);
    }
  }

  /** PUT rejects exactly the names that are given but are not non-blank strings. */
  lemma UpdateNameCheckMeaning(v: JsonValue)
    ensures UpdateNameRejected(v) <==> !v.JUndefined? && !IsNonBlankString(v)
  {
    if v.JString? {
      Text.TrimMeaning(v.s);
    }
  }

  /** Trimming a non-blank string gives a clean name. */
  lemma TrimmedNameIsClean(s: string)
    requires !Text.IsBlank(s)
    ensures IsCleanName(Text.Trim(s))
  {
    Text.TrimMeaning(s);
    Text.TrimMeaning(Text.Trim(s));
    Text.TrimIsIdempotent(s);
  }

  /** A price the checks let through, as the DTO carries it. */
  function PriceOf(v: JsonValue): Option<real> {
    if v.JNumber? then Some(v.x) else None
  }

  /** POST /items: the name check, then the price check, then the create. */
  function DecideCreate(body: ItemBody): Decision {
    if CreateNameRejected(body.name) then Reject(NewValidationError(NameRequiredMessage))
    else if PriceRejected(body.price) then Reject(NewValidationError(PriceMessage))
    else Invoke(CallCreate(CreateItemDto(Text.Trim(body.name.s), body.description, PriceOf(body.price))), 201)
  }

  /**
   * POST /items goes ahead exactly when the name is a non-blank string and the
   * price, if given, is a number; the name is checked first. A valid request
   * creates an item from the trimmed name, which is then clean, and the
   * description and price as given, and answers 201.
   */
  lemma CreateValidation(body: ItemBody)
    ensures DecideCreate(body).Invoke? <==> IsNonBlankString(body.name) && !PriceRejected(body.price)
    ensures !IsNonBlankString(body.name) ==> DecideCreate(body) == Reject(NewValidationError(NameRequiredMessage))
    ensures IsNonBlankString(body.name) && PriceRejected(body.price) ==> DecideCreate(body) == Reject(NewValidationError(PriceMessage))
    ensures DecideCreate(body).Invoke? ==>
              && DecideCreate(body).status == 201
              && DecideCreate(body).call == CallCreate(CreateItemDto(Text.Trim(body.name.s), body.description, PriceOf(body.price)))
              && IsCleanName(DecideCreate(body).call.create.name)
  {
    CreateNameCheckMeaning(body.name);
    if IsNonBlankString(body.name) {
      TrimmedNameIsClean(body.name.s);
    }
  }

  /** A numeric query parameter: not given, NaN, or a number. */
  datatype NumberParam = Omitted | NotANumber | Number(x: real)

  /** A price bound from the query: omitted when not given, otherwise its text converted to a number. */
  function ParseNumberParam(v: QueryValue, toNumber: NumberParser): NumberParam {
    match v
    case QAbsent => Omitted
    case QString(s) => FromNumber(toNumber(s))
    case QStructured(text) => FromNumber(toNumber(text))
  }

  function FromNumber(x: Option<real>): NumberParam {
    if x.Some? then Number(x.value) else NotANumber
  }

  function BoundOf(p: NumberParam): Option<real> {
    if p.Number? then Some(p.x) else None
  }

  /**
   * GET /items. A minPrice or maxPrice that is NaN is rejected, minPrice
   * first; the name is passed on only when it is a single string.
   */
  function DecideList(query: ListQuery, toNumber: NumberParser): (d: Decision)
    ensures var min := ParseNumberParam(query.minPrice, toNumber);
            var max := ParseNumberParam(query.maxPrice, toNumber);
            && (d.Reject? <==> min.NotANumber? || max.NotANumber?)
            && (min.NotANumber? ==> d == Reject(NewValidationError(MinPriceMessage)))
            && (!min.NotANumber? && max.NotANumber? ==> d == Reject(NewValidationError(MaxPriceMessage)))
            && (d.Invoke? ==> d.status == 200 && d.call.CallList?)
            && (d.Invoke? ==> d.call.filter.name == (if query.name.QString? then Some(query.name.s) else None))
            && (d.Invoke? ==> d.call.filter.minPrice == BoundOf(min) && d.call.filter.maxPrice == BoundOf(max))
  {
    var min := ParseNumberParam(query.minPrice, toNumber);
    var max := ParseNumberParam(query.maxPrice, toNumber);
    if min.NotANumber? then Reject(NewValidationError(MinPriceMessage))
    else if max.NotANumber? then Reject(NewValidationError(MaxPriceMessage))
    else
      var name := if query.name.QString? then Some(query.name.s) else None;
      Invoke(CallList(ListItemsFilter(name, BoundOf(min), BoundOf(max))), 200)
  }

  /** The `:id` path segment converted to a number; a NaN id is rejected with "Invalid id". */
  function ParseId(idParam: string, toNumber: NumberParser): (r: Result<real, AppError>)
    ensures r.Failure? <==> toNumber(idParam).None?
    ensures r.Failure? ==> r.error == NewValidationError(InvalidIdMessage)
    ensures r.Success? ==> toNumber(idParam) == Some(r.value)
  {
    match toNumber(idParam)
    case None => Failure(NewValidationError(InvalidIdMessage))
    case Some(id) => Success(id)
  }

  /** GET /items/:id: a NaN id is rejected; otherwise get the item and answer 200. */
  function DecideGet(idParam: string, toNumber: NumberParser): (d: Decision)
    ensures toNumber(idParam).None? ==> d == Reject(NewValidationError(InvalidIdMessage))
    ensures toNumber(idParam).Some? ==> d == Invoke(CallGet(toNumber(idParam).value), 200)
  {
    match ParseId(idParam, toNumber)
    case Failure(e) => Reject(e)
    case Success(id) => Invoke(CallGet(id), 200)
  }

  /** PUT /items/:id: the id check, then the name check, then the price check, then the update. */
  function DecideUpdate(idParam: string, body: ItemBody, toNumber: NumberParser): Decision {
    match ParseId(idParam, toNumber)
    case Failure(e) => Reject(e)
    case Success(id) =>
      if UpdateNameRejected(body.name) then Reject(NewValidationError(NameNotEmptyMessage))
      else if PriceRejected(body.price) then Reject(NewValidationError(PriceMessage))
      else
        var name := if body.name.JString? then Some(Text.Trim(body.name.s)) else None;
        Invoke(CallUpdate(id, UpdateItemDto(name, body.description, PriceOf(body.price))), 200)
  }

  /**
   * PUT /items/:id checks the id before the body. A name, if given, must be a
   * non-blank string and is trimmed, so a name it writes is clean; a price, if
   * given, must be a number. A valid request updates the item with exactly the
   * given fields and answers 200.
   */
  lemma UpdateValidation(idParam: string, body: ItemBody, toNumber: NumberParser)
    ensures var d := DecideUpdate(idParam, body, toNumber);
            && (toNumber(idParam).None? ==> d == Reject(NewValidationError(InvalidIdMessage)))
            && (toNumber(idParam).Some? && UpdateNameRejected(body.name) ==> d == Reject(NewValidationError(NameNotEmptyMessage)))
            && ((toNumber(idParam).Some? && !UpdateNameRejected(body.name) && PriceRejected(body.price))
                ==> d == Reject(NewValidationError(PriceMessage)))
            && (d.Invoke? <==> toNumber(idParam).Some? && (body.name.JUndefined? || IsNonBlankString(body.name)) && !PriceRejected(body.price))
    ensures var d := DecideUpdate(idParam, body, toNumber);
            d.Invoke? ==>
              && d.status == 200
              && d.call.CallUpdate? && d.call.id == toNumber(idParam).value
              && d.call.update.description == body.description
              && d.call.update.price == PriceOf(body.price)
              && (body.name.JUndefined? ==> d.call.update.name == None)
              && (body.name.JString? ==> d.call.update.name == Some(Text.Trim(body.name.s)))
              && (d.call.update.name.Some? ==> IsCleanName(d.call.update.name.value))
  {
    UpdateNameCheckMeaning(body.name);
    if body.name.JString? && !Text.IsBlank(body.name.s) {
      TrimmedNameIsClean(body.name.s);
    }
  }

  /** DELETE /items/:id: a NaN id is rejected; otherwise delete the item and answer 204. */
  function DecideDelete(idParam: string, toNumber: NumberParser): (d: Decision)
    ensures toNumber(idParam).None? ==> d == Reject(NewValidationError(InvalidIdMessage))
    ensures toNumber(idParam).Some? ==> d == Invoke(CallDelete(toNumber(idParam).value), 204)
  {
    match ParseId(idParam, toNumber)
    case Failure(e) => Reject(e)
    case Success(id) => Invoke(CallDelete(id), 204)
  }

  /** The decision of the route a request goes to. */
  function Decide(req: Request, toNumber: NumberParser): Decision {
    match req
    case CreateRequest(body) => DecideCreate(body)
    case ListRequest(query) => DecideList(query, toNumber)
    case GetRequest(idParam) => DecideGet(idParam, toNumber)
    case UpdateRequest(idParam, body) => DecideUpdate(idParam, body, toNumber)
    case DeleteRequest(idParam) => DecideDelete(idParam, toNumber)
  }

  /** What a handler does with the request: answer it, or pass an error to `next`. */
  datatype HandlerOutcome = Sent(response: Response) | Forwarded(error: Thrown)

  /** The table after a decision is carried out. */
  function Effect(t: Repo.Table, d: Decision, now: Timestamp): Repo.Table {
    match d
    case Reject(_) => t
    case Invoke(call, _) =>
      match call
      case CallCreate(dto) => Repo.Inserted(t, dto, now)
      case CallList(_) => t
      case CallGet(_) => t
      case CallUpdate(id, dto) => Repo.Updated(t, id, dto, now)
      case CallDelete(id) => Repo.Deleted(t, id)
  }

  /** Answer an item with `status`, or pass the service's error on. */
  function ReplyWith(r: Result<Item, AppError>, status: int): HandlerOutcome {
    match r
    case Success(item) => Sent(Response(status, ItemJson(item)))
    case Failure(e) => Forwarded(Raised(e))
  }

  /** The handler's outcome when a decision is carried out against table `t`. */
  function Outcome(t: Repo.Table, d: Decision, now: Timestamp): HandlerOutcome
    requires Repo.Wellformed(t)
  {
    match d
    case Reject(e) => Forwarded(Raised(e))
    case Invoke(call, status) =>
      match call
      case CallCreate(dto) => Sent(Response(status, ItemJson(Repo.NewRow(t.nextId, dto, now))))
      case CallList(f) => Sent(Response(status, ItemListJson(Service.ListItems(t, f))))
      case CallGet(id) => ReplyWith(Service.GetItemById(t, id), status)
      case CallUpdate(id, dto) => ReplyWith(Service.UpdateResult(t, id, dto, now), status)
      case CallDelete(id) =>
        match Service.DeleteResult(t, id)
        case Success(_) => Sent(Response(status, NoContent))
        case Failure(e) => Forwarded(Raised(e))
  }

  /** The response the client gets: the handler's own, or the error handler's for what it passed on. */
  function Respond(out: HandlerOutcome): Response {
    match out
    case Sent(response) => response
    case Forwarded(err) => ErrorHandler(err)
  }

  /** The table after a request and the response to it. */
  datatype Served = Served(table: Repo.Table, response: Response)

  /**
   * Serving one request: the table afterwards and the response the client
   * gets. Every route keeps the table well formed.
   */
  function Serve(t: Repo.Table, req: Request, toNumber: NumberParser, now: Timestamp): (r: Served)
    requires Repo.Wellformed(t)
    ensures Repo.Wellformed(r.table)
  {
    var d := Decide(req, toNumber);
    EffectKeepsWellformed(t, d, now);
    Served(Effect(t, d, now), Respond(Outcome(t, d, now)))
  }

  /** Carrying out any decision keeps the table well formed. */
  lemma EffectKeepsWellformed(t: Repo.Table, d: Decision, now: Timestamp)
    requires Repo.Wellformed(t)
    ensures Repo.Wellformed(Effect(t, d, now))
  {
    if d.Invoke? {
      match d.call {
        case CallCreate(dto) => Repo.CreateThenGet(t, dto, now);
        case CallList(_) =>
        case CallGet(_) =>
        case CallUpdate(id, dto) =>
          if Repo.GetItemById(t, id).Some? { Repo.UpdateMergesTargetOnly(t, id, dto, now); }
        case CallDelete(id) => Repo.DeleteRemovesTargetOnly(t, id);
      }
    }
  }

  /**
   * Only creates and updates stamp rows: for every other decision the time
   * given to `Effect` and `Outcome` makes no difference, which is why the
   * read and delete handlers below pass a fixed time.
   */
  lemma ClockOnlyAffectsWrites(t: Repo.Table, d: Decision, now1: Timestamp, now2: Timestamp)
    requires Repo.Wellformed(t)
    requires d.Invoke? ==> !d.call.CallCreate? && !d.call.CallUpdate?
    ensures Effect(t, d, now1) == Effect(t, d, now2)
    ensures Outcome(t, d, now1) == Outcome(t, d, now2)
  {
  }

  /** POST /items. */
  method HandleCreate(store: Repo.ItemStore, body: ItemBody, now: Timestamp) returns (out: HandlerOutcome)
    requires store.Valid()
    modifies store
    ensures store.Valid()
    ensures store.State() == Effect(old(store.State()), DecideCreate(body), now)
    ensures out == Outcome(old(store.State()), DecideCreate(body), now)
  {
    match DecideCreate(body) {
      case Reject(e) =>
        out := Forwarded(Raised(e));
      case Invoke(call, status) =>
        var item := Service.CreateItem(store, call.create, now);
        out := Sent(Response(status, ItemJson(item)));
    }
  }

  /** GET /items. */
  method HandleList(store: Repo.ItemStore, query: ListQuery, toNumber: NumberParser) returns (out: HandlerOutcome)
    requires store.Valid()
    ensures out == Outcome(store.State(), DecideList(query, toNumber), 0)
  {
    match DecideList(query, toNumber) {
      case Reject(e) =>
        out := Forwarded(Raised(e));
      case Invoke(call, status) =>
        var items := Service.ListItems(store.State(), call.filter);
        out := Sent(Response(status, ItemListJson(items)));
    }
  }

  /** GET /items/:id. */
  method HandleGet(store: Repo.ItemStore, idParam: string, toNumber: NumberParser) returns (out: HandlerOutcome)
    requires store.Valid()
    ensures out == Outcome(store.State(), DecideGet(idParam, toNumber), 0)
  {
    match DecideGet(idParam, toNumber) {
      case Reject(e) =>
        out := Forwarded(Raised(e));
      case Invoke(call, status) =>
        var r := Service.GetItemById(store.State(), call.id);
        out := ReplyWith(r, status);
    }
  }

  /** PUT /items/:id. */
  method HandleUpdate(store: Repo.ItemStore, idParam: string, body: ItemBody, toNumber: NumberParser, now: Timestamp)
    returns (out: HandlerOutcome)
    requires store.Valid()
    modifies store
    ensures store.Valid()
    ensures store.State() == Effect(old(store.State()), DecideUpdate(idParam, body, toNumber), now)
    ensures out == Outcome(old(store.State()), DecideUpdate(idParam, body, toNumber), now)
  {
    match DecideUpdate(idParam, body, toNumber) {
      case Reject(e) =>
        out := Forwarded(Raised(e));
      case Invoke(call, status) =>
        var r := Service.UpdateItem(store, call.id, call.update, now);
        out := ReplyWith(r, status);
    }
  }

  /** DELETE /items/:id. */
  method HandleDelete(store: Repo.ItemStore, idParam: string, toNumber: NumberParser) returns (out: HandlerOutcome)
    requires store.Valid()
    modifies store
    ensures store.Valid()
    ensures store.State() == Effect(old(store.State()), DecideDelete(idParam, toNumber), 0)
    ensures out == Outcome(old(store.State()), DecideDelete(idParam, toNumber), 0)
  {
    match DecideDelete(idParam, toNumber) {
      case Reject(e) =>
        out := Forwarded(Raised(e));
      case Invoke(call, status) =>
        var r := Service.DeleteItem(store, call.id);
        if r.Success? {
          out := Sent(Response(status, NoContent));
        } else {
          out := Forwarded(Raised(r.error));
        }
    }
  }

  /** `word` occurs in `text`. */
  ghost predicate Mentions(text: string, word: string) {
    exists i :: Text.OccursAt(text, word, i)
  }

  /** Each validation message names the field it is about. */
  lemma MessagesNameTheirField()
    ensures Mentions(NameRequiredMessage, "name") && Mentions(NameNotEmptyMessage, "name")
    ensures Mentions(PriceMessage, "price")
    ensures Mentions(MinPriceMessage, "minPrice") && Mentions(MaxPriceMessage, "maxPrice")
  {
    MentionedBetween("Field '", "name", "' is required and must be a non-empty string");
    MentionedBetween("Field '", "name", "' must be a non-empty string");
    MentionedBetween("Field '", "price", "' must be a number");
    MentionedBetween("Query param '", "minPrice", "' must be a number");
    MentionedBetween("Query param '", "maxPrice", "' must be a number");
  }

  /** `w` occurs in `a + w + b`, at index `|a|`. */
  lemma MentionedBetween(a: string, w: string, b: string)
    ensures Mentions(a + w + b, w)
  {
    assert (a + w + b)[|a|..|a| + |w|] == w;
    assert Text.OccursAt(a + w + b, w, |a|);
  }

  /**
   * A NaN id is rejected with 400 "Invalid id" by GET, PUT and DELETE alike,
   * whatever the body, before the store is touched.
   */
  lemma InvalidIdIsRejectedFirst(t: Repo.Table, idParam: string, body: ItemBody, toNumber: NumberParser, now: Timestamp)
    requires Repo.Wellformed(t) && toNumber(idParam).None?
    ensures forall req :: req in [GetRequest(idParam), UpdateRequest(idParam, body), DeleteRequest(idParam)] ==>
              && Decide(req, toNumber) == Reject(NewValidationError(InvalidIdMessage))
              && Effect(t, Decide(req, toNumber), now) == t
              && Respond(Outcome(t, Decide(req, toNumber), now)) == Response(400, ErrorJson(Plain(InvalidIdMessage)))
  {
  }

  /**
   * A numeric id with no row answers 404 for GET, for a valid PUT and for
   * DELETE, and leaves the table unchanged.
   */
  lemma MissingIdIsNotFound(t: Repo.Table, idParam: string, body: ItemBody, toNumber: NumberParser, now: Timestamp)
    requires Repo.Wellformed(t) && toNumber(idParam).Some?
    requires Repo.GetItemById(t, toNumber(idParam).value).None?
    requires !UpdateNameRejected(body.name) && !PriceRejected(body.price)
    ensures forall req :: req in [GetRequest(idParam), UpdateRequest(idParam, body), DeleteRequest(idParam)] ==>
              && Effect(t, Decide(req, toNumber), now) == t
              && Respond(Outcome(t, Decide(req, toNumber), now))
                 == Response(404, ErrorJson(ItemNotFound(toNumber(idParam).value)))
  {
    Service.UpdateFailsExactlyWhenAbsent(t, toNumber(idParam).value, DecideUpdate(idParam, body, toNumber).call.update, now);
  }

  /** An invalid PUT body never reaches the store: 400, even for an id with no row. */
  lemma InvalidUpdateBodyIsRejected(t: Repo.Table, idParam: string, body: ItemBody, toNumber: NumberParser, now: Timestamp)
    requires Repo.Wellformed(t) && toNumber(idParam).Some?
    requires UpdateNameRejected(body.name) || PriceRejected(body.price)
    ensures Effect(t, DecideUpdate(idParam, body, toNumber), now) == t
    ensures Respond(Outcome(t, DecideUpdate(idParam, body, toNumber), now)).status == 400
  {
  }

  /** A DELETE of a present id answers 204 with an empty body and removes the row. */
  lemma DeleteAnswersNoContent(t: Repo.Table, idParam: string, toNumber: NumberParser, now: Timestamp)
    requires Repo.Wellformed(t) && toNumber(idParam).Some?
    requires Repo.GetItemById(t, toNumber(idParam).value).Some?
    ensures Respond(Outcome(t, DecideDelete(idParam, toNumber), now)) == Response(204, NoContent)
    ensures Repo.GetItemById(Effect(t, DecideDelete(idParam, toNumber), now), toNumber(idParam).value).None?
  {
    Repo.DeleteRemovesTargetOnly(t, toNumber(idParam).value);
  }

  /**
   * Handlers answer only successes (200, 201 or 204); every error is passed
   * to the error handler, which answers 400 or 404 for these routes.
   */
  lemma ErrorsAreForwarded(t: Repo.Table, req: Request, toNumber: NumberParser, now: Timestamp)
    requires Repo.Wellformed(t)
    ensures Outcome(t, Decide(req, toNumber), now).Sent? ==>
              Outcome(t, Decide(req, toNumber), now).response.status in {200, 201, 204}
    ensures Outcome(t, Decide(req, toNumber), now).Forwarded? ==>
              && Outcome(t, Decide(req, toNumber), now).error.Raised?
              && Respond(Outcome(t, Decide(req, toNumber), now)).status in {400, 404}
  {
  }

  /** Every stored name is non-blank and trimmed. */
  ghost predicate NamesAreClean(t: Repo.Table) {
    forall k :: k in t.rows ==> IsCleanName(t.rows[k].name)
  }

  /**
   * No route can store a blank or untrimmed name: the table's names stay
   * non-blank and trimmed whatever request is served.
   */
  lemma RoutesKeepNamesClean(t: Repo.Table, req: Request, toNumber: NumberParser, now: Timestamp)
    requires Repo.Wellformed(t) && NamesAreClean(t)
    ensures Repo.Wellformed(Effect(t, Decide(req, toNumber), now))
    ensures NamesAreClean(Effect(t, Decide(req, toNumber), now))
  {
    match req {
      case CreateRequest(body) =>
        var d := DecideCreate(body);
        CreateValidation(body);
        if d.Invoke? { InsertKeepsNamesClean(t, d.call.create, now); }
      case ListRequest(_) =>
      case GetRequest(_) =>
      case UpdateRequest(idParam, body) =>
        var d := DecideUpdate(idParam, body, toNumber);
        UpdateValidation(idParam, body, toNumber);
        if d.Invoke? { UpdateKeepsNamesClean(t, d.call.id, d.call.update, now); }
      case DeleteRequest(idParam) =>
        if toNumber(idParam).Some? { Repo.DeleteRemovesTargetOnly(t, toNumber(idParam).value); }
    }
  }

  lemma InsertKeepsNamesClean(t: Repo.Table, dto: CreateItemDto, now: Timestamp)
    requires Repo.Wellformed(t) && NamesAreClean(t) && IsCleanName(dto.name)
    ensures Repo.Wellformed(Repo.Inserted(t, dto, now)) && NamesAreClean(Repo.Inserted(t, dto, now))
  {
    Repo.CreateThenGet(t, dto, now);
  }

  lemma UpdateKeepsNamesClean(t: Repo.Table, id: real, dto: UpdateItemDto, now: Timestamp)
    requires Repo.Wellformed(t) && NamesAreClean(t)
    requires dto.name.Some? ==> IsCleanName(dto.name.value)
    ensures Repo.Wellformed(Repo.Updated(t, id, dto, now)) && NamesAreClean(Repo.Updated(t, id, dto, now))
  {
    if Repo.GetItemById(t, id).Some? {
      Repo.UpdateMergesTargetOnly(t, id, dto, now);
    }
  }

  /** "Widget" is a clean name: non-blank and already trimmed. */
  lemma WidgetIsCleanName()
    ensures IsCleanName("Widget")
  {
    assert "Widget"[0] == 'W';
    Text.TrimLeavesTrimmedAlone("Widget");
  }

  /** A POST with a clean name and a numeric price creates exactly that item and answers it with 201. */
  lemma CleanPostCreates(t: Repo.Table, toNumber: NumberParser, name: string, price: real, now: Timestamp)
    requires Repo.Wellformed(t) && IsCleanName(name)
    ensures Serve(t, CreateRequest(ItemBody(JString(name), None, JNumber(price))), toNumber, now).table
            == Repo.Inserted(t, CreateItemDto(name, None, Some(price)), now)
    ensures Serve(t, CreateRequest(ItemBody(JString(name), None, JNumber(price))), toNumber, now).response
            == Response(201, ItemJson(Item(t.nextId, name, "", price, now, now)))
  {
    CleanPostIsAccepted(toNumber, name, price);
  }

  /** A POST with a clean name and a numeric price goes ahead with exactly that name and price. */
  lemma CleanPostIsAccepted(toNumber: NumberParser, name: string, price: real)
    requires IsCleanName(name)
    ensures Decide(CreateRequest(ItemBody(JString(name), None, JNumber(price))), toNumber)
            == Invoke(CallCreate(CreateItemDto(name, None, Some(price))), 201)
  {
    CreateValidation(ItemBody(JString(name), None, JNumber(price)));
  }

  /** A PUT of a price alone, at the id of a row, changes that row's price and updatedAt and answers it with 200. */
  lemma PricePutUpdates(t: Repo.Table, toNumber: NumberParser, idParam: string, price: real, now: Timestamp)
    requires Repo.Wellformed(t) && toNumber(idParam).Some?
    requires Repo.GetItemById(t, toNumber(idParam).value).Some?
    ensures var id := toNumber(idParam).value;
            var item := Repo.GetItemById(t, id).value.(price := price, updatedAt := now);
            Serve(t, UpdateRequest(idParam, ItemBody(JUndefined, None, JNumber(price))), toNumber, now)
            == Served(Repo.Updated(t, id, UpdateItemDto(None, None, Some(price)), now), Response(200, ItemJson(item)))
  {
  }

  /** A DELETE at the id of a row removes it and answers 204. */
  lemma DeleteOfPresentRemoves(t: Repo.Table, toNumber: NumberParser, idParam: string, now: Timestamp)
    requires Repo.Wellformed(t) && toNumber(idParam).Some?
    requires Repo.GetItemById(t, toNumber(idParam).value).Some?
    ensures Serve(t, DeleteRequest(idParam), toNumber, now) == Served(Repo.Deleted(t, toNumber(idParam).value), Response(204, NoContent))
  {
  }

  /** A GET at a numeric id with no row answers 404 naming the id. */
  lemma GetOfAbsentIsNotFound(t: Repo.Table, toNumber: NumberParser, idParam: string, now: Timestamp)
    requires Repo.Wellformed(t) && toNumber(idParam).Some?
    requires Repo.GetItemById(t, toNumber(idParam).value).None?
    ensures Serve(t, GetRequest(idParam), toNumber, now) == Served(t, Response(404, ErrorJson(ItemNotFound(toNumber(idParam).value))))
  {
  }

  /**
   * The walk-through of an item's life on a fresh database: POST {name, price}
   * answers 201 with id 1 and description ""; PUT /items/1 {price: p2} answers
   * 200 with the name and createdAt kept and updatedAt set to the PUT's time;
   * DELETE /items/1 answers 204;
   * a GET /items/1 then answers 404. `WidgetLifecycle` is the instance with
   * name "Widget", p1 = 4.99 and p2 = 9.99.
   */
  lemma ItemLifecycle(toNumber: NumberParser, name: string, p1: real, p2: real, t0: Timestamp, t1: Timestamp)
    requires toNumber("1") == Some(1.0) && IsCleanName(name)
    ensures var post := Serve(Repo.EmptyTable, CreateRequest(ItemBody(JString(name), None, JNumber(p1))), toNumber, t0);
            var put := Serve(post.table, UpdateRequest("1", ItemBody(JUndefined, None, JNumber(p2))), toNumber, t1);
            var delete := Serve(put.table, DeleteRequest("1"), toNumber, t1);
            var get := Serve(delete.table, GetRequest("1"), toNumber, t1);
            && post.response == Response(201, ItemJson(Item(1, name, "", p1, t0, t0)))
            && put.response == Response(200, ItemJson(Item(1, name, "", p2, t0, t1)))
            && delete.response == Response(204, NoContent)
            && get.response == Response(404, ErrorJson(ItemNotFound(1.0)))
  {
    var s1 := Repo.Inserted(Repo.EmptyTable, CreateItemDto(name, None, Some(p1)), t0);
    var s2 := Repo.Updated(s1, 1.0, UpdateItemDto(None, None, Some(p2)), t1);
    LifecycleTables(name, p1, p2, t0, t1);
    CleanPostCreates(Repo.EmptyTable, toNumber, name, p1, t0);
    PricePutUpdates(s1, toNumber, "1", p2, t1);
    DeleteOfPresentRemoves(s2, toNumber, "1", t1);
    GetOfAbsentIsNotFound(Repo.Deleted(s2, 1.0), toNumber, "1", t1);
  }

  /**
   * The widget example: POST {name: "Widget", price: 4.99}, PUT /items/1
   * {price: 9.99}, DELETE /items/1, GET /items/1.
   */
  lemma WidgetLifecycle(toNumber: NumberParser, t0: Timestamp, t1: Timestamp)
    requires toNumber("1") == Some(1.0)
    ensures var post := Serve(Repo.EmptyTable, CreateRequest(ItemBody(JString("Widget"), None, JNumber(4.99))), toNumber, t0);
            var put := Serve(post.table, UpdateRequest("1", ItemBody(JUndefined, None, JNumber(9.99))), toNumber, t1);
            var delete := Serve(put.table, DeleteRequest("1"), toNumber, t1);
            var get := Serve(delete.table, GetRequest("1"), toNumber, t1);
            && post.response == Response(201, ItemJson(Item(1, "Widget", "", 4.99, t0, t0)))
            && put.response == Response(200, ItemJson(Item(1, "Widget", "", 9.99, t0, t1)))
            && delete.response == Response(204, NoContent)
            && get.response == Response(404, ErrorJson(ItemNotFound(1.0)))
  {
    WidgetIsCleanName();
    ItemLifecycle(toNumber, "Widget", 4.99, 9.99, t0, t1);
  }

  /** The tables of the walk-through: the row is there after the POST and the PUT, and gone after the DELETE. */
  lemma LifecycleTables(name: string, p1: real, p2: real, t0: Timestamp, t1: Timestamp)
    ensures var s1 := Repo.Inserted(Repo.EmptyTable, CreateItemDto(name, None, Some(p1)), t0);
            var s2 := Repo.Updated(s1, 1.0, UpdateItemDto(None, None, Some(p2)), t1);
            var s3 := Repo.Deleted(s2, 1.0);
            && Repo.Wellformed(s1) && Repo.Wellformed(s2) && Repo.Wellformed(s3)
            && Repo.GetItemById(s1, 1.0) == Some(Item(1, name, "", p1, t0, t0))
            && Repo.GetItemById(s2, 1.0) == Some(Item(1, name, "", p2, t0, t1))
            && Repo.GetItemById(s3, 1.0).None?
  {
    var dto := CreateItemDto(name, None, Some(p1));
    var update := UpdateItemDto(None, None, Some(p2));
    var s1 := Repo.Inserted(Repo.EmptyTable, dto, t0);
    Repo.CreateThenGet(Repo.EmptyTable, dto, t0);
    Repo.UpdateMergesTargetOnly(s1, 1.0, update, t1);
    Repo.DeleteRemovesTargetOnly(Repo.Updated(s1, 1.0, update, t1), 1.0);
  }
}
