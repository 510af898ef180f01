/**
 * The two GET handlers, `/joyas` and `/joyas/filtros`, from query string to
 * response. The database is the `store` parameter: it answers a query text
 * with rows or with the message of the error it raised.
 */
module Routes {
  import opened Wrappers
  import opened Js
  import opened Filters
  import opened Paging
  import opened Shaping

  datatype Route = Joyas | JoyasFiltros

  /** The route name echoed in error bodies. */
  function Path(route: Route): string
  {
    match route
    case Joyas => "/joyas"
    case JoyasFiltros => "/joyas/filtros"
  }

  /** The status each handler answers any failure with: a server error for `/joyas`, a client error for `/joyas/filtros`. */
  function ErrorStatus(route: Route): (status: int)
    ensures 400 <= status < 600
    ensures status >= 500 <==> route == Joyas
  {
    match route
    case Joyas => 500
    case JoyasFiltros => 400
  }

  /** The user-facing `error` text of each handler. */
  function ErrorTitle(route: Route): (title: string)
    ensures route == Joyas ==> title == "Hubo un problema al recuperar las joyas."
    ensures route == JoyasFiltros ==> title == "Parámetros incorrectos."
  {
    match route
    case Joyas => "Hubo un problema al recuperar las joyas."
    case JoyasFiltros => "Parámetros incorrectos."
  }

  /**
   * The message thrown for a non-numeric price bound. It names the parameter
   * right after "El valor de ", and only `/joyas/filtros` ends it with a period.
   */
  function ValidationMessage(route: Route, f: Filter): (message: string)
    requires IsPriceBound(f)
    ensures |message| > 12 + |Param(f)|
    ensures message[..12] == "El valor de " && message[12..12 + |Param(f)|] == Param(f)
    ensures message[|message| - 1] == '.' <==> route == JoyasFiltros
  {
    var m := "El valor de " + Param(f) + " debe ser un número válido";
    assert m[..12] == "El valor de " && m[12..12 + |Param(f)|] == Param(f);
    if route == JoyasFiltros then m + "." else m
  }

  datatype Body =
    | Listing(summary: Summary)
    | RawRows(rows: seq<Row>)
    | Error(error: string, message: string, route: string, queryParameters: map<string, string>)

  datatype Response = Response(status: int, body: Body)

  /**
   * The handlers' catch block: never a 200, an error body that carries the
   * route's title, the error's message, the route name and the echoed query.
   */
  function Failed(route: Route, message: string, query: map<string, string>): (r: Response)
    ensures r.status == ErrorStatus(route) && r.status != 200
    ensures r.body == Error(ErrorTitle(route), message, Path(route), query)
  {
    Response(ErrorStatus(route), Error(ErrorTitle(route), message, Path(route), query))
  }

  /** The message a failed filter construction reports. */
  function FilterErrorMessage(route: Route, e: FilterError): string
    requires e.InvalidBound? ==> IsPriceBound(e.bound)
  {
    match e
    case InvalidBound(f) => ValidationMessage(route, f)
    case FormatFailed(m) => m
  }

  /** The database: a query text gives rows or an error message. */
  type Store = string -> Result<seq<Row>, string>

  /**
   * The query `/joyas/filtros` sends for a list of predicates: the table's
   * SELECT followed by the WHERE clause, and no WHERE exactly when there are none.
   */
  function FiltrosSql(filters: seq<string>): (sql: string)
    ensures |sql| >= 25 && sql[..25] == "SELECT * FROM inventario "
    ensures sql[25..] == WhereClause(filters)
    ensures sql == "SELECT * FROM inventario " <==> filters == []
  {
    "SELECT * FROM inventario " + WhereClause(filters)
  }

  /** The pg-format arguments of the listing query: field, direction, limit, offset. */
  function ListingArgs(h: Host, query: map<string, string>): seq<Value>
  {
    var o := OrderingOf(query);
    var w := WindowOf(h, query);
    [Str(o.field), o.direction, w.limit, w.offset]
  }

  /**
   * The query `/joyas` formats for a list of predicates. Its template is the
   * `/joyas/filtros` query for the same predicates followed by the ORDER BY,
   * LIMIT and OFFSET placeholders, so both routes share the WHERE clause.
   */
  function ListingSql(h: Host, query: map<string, string>, filters: seq<string>): (r: Result<string, string>)
    ensures r == h.format(FiltrosSql(filters) + " ORDER BY %I %s LIMIT %L OFFSET %L", ListingArgs(h, query))
  {
    h.format("SELECT * FROM inventario " + WhereClause(filters) + " ORDER BY %I %s LIMIT %L OFFSET %L",
             ListingArgs(h, query))
  }

  /** The query text `/joyas` sends when its filters validate, or the error `format` throws. */
  function ListingQuery(h: Host, query: map<string, string>): Result<string, string>
  {
    match Predicates(h, query)
    case Failure(e) => Failure(e)
    case Success(ps) => ListingSql(h, query, ps)
  }

  /**
   * GET /joyas. An invalid price bound or a throwing `format` is reported
   * before any query is sent; every failure is a 500 naming the route. `sent`
   * is the query text handed to the database, if any.
   */
  method GetJoyas(h: Host, store: Store, query: map<string, string>) returns (res: Response, sent: Option<string>)
    ensures res.status == 200 || res.status == 500
    ensures Validation(h, query).Some? ==>
      && sent == None
      && res == Failed(Joyas, ValidationMessage(Joyas, Validation(h, query).value), query)
    ensures Validation(h, query).None? && ListingQuery(h, query).Failure? ==>
      && sent == None
      && res == Failed(Joyas, ListingQuery(h, query).error, query)
    ensures Validation(h, query).None? && ListingQuery(h, query).Success? ==>
      var sql := ListingQuery(h, query).value;
      && sent == Some(sql)
      && (store(sql).Failure? ==> res == Failed(Joyas, store(sql).error, query))
      && (store(sql).Success? ==> res == Response(200, Listing(Summarize(store(sql).value))))
  {
    var ordering := OrderingOf(query);
    var window := WindowOf(h, query);
    var built := BuildFilters(h, query);
    if built.Failure? {
      return Failed(Joyas, FilterErrorMessage(Joyas, built.error), query), None;
    }
    var whereClause := WhereClause(built.value);
    var formatted := h.format("SELECT * FROM inventario " + whereClause + " ORDER BY %I %s LIMIT %L OFFSET %L",
                              [Str(ordering.field), ordering.direction, window.limit, window.offset]);
    assert formatted == ListingQuery(h, query);
    if formatted.Failure? {
      return Failed(Joyas, formatted.error, query), None;
    }
    sent := Some(formatted.value);
    var result := store(formatted.value);
    if result.Failure? {
      return Failed(Joyas, result.error, query), sent;
    }
    var rows := result.value;
    var totalJoyas := |rows|;
    var totalStock := ReduceStock(rows, 0);
    var hateoas := Links(rows);
    return Response(200, Listing(Summary(totalJoyas, totalStock, hateoas))), sent;
  }

  /**
   * GET /joyas/filtros. The same filter construction as `/joyas`, no ordering
   * or window, the raw rows as answer; every failure is a 400 naming the
   * route, and nothing is sent to the database when the filters fail.
   */
  method GetFiltros(h: Host, store: Store, query: map<string, string>) returns (res: Response, sent: Option<string>)
    ensures res.status == 200 || res.status == 400
    ensures Validation(h, query).Some? ==>
      && sent == None
      && res == Failed(JoyasFiltros, ValidationMessage(JoyasFiltros, Validation(h, query).value), query)
    ensures Validation(h, query).None? && Predicates(h, query).Failure? ==>
      && sent == None
      && res == Failed(JoyasFiltros, Predicates(h, query).error, query)
    ensures Validation(h, query).None? && Predicates(h, query).Success? ==>
      var sql := FiltrosSql(Predicates(h, query).value);
      && sent == Some(sql)
      && (store(sql).Failure? ==> res == Failed(JoyasFiltros, store(sql).error, query))
      && (store(sql).Success? ==> res == Response(200, RawRows(store(sql).value)))
  {
    var built := BuildFilters(h, query);
    if built.Failure? {
      return Failed(JoyasFiltros, FilterErrorMessage(JoyasFiltros, built.error), query), None;
    }
    var whereClause := WhereClause(built.value);
    var sql := "SELECT * FROM inventario " + whereClause;
    sent := Some(sql);
    var result := store(sql);
    if result.Failure? {
      return Failed(JoyasFiltros, result.error, query), sent;
    }
    return Response(200, RawRows(result.value)), sent;
  }
}
