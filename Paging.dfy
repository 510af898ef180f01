/**
 * Ordering and pagination of the listing handler: the `order_by` split into
 * field and direction, `limit` from `limits`, and the derived offset.
 */
module Paging {
  import opened Js
  import Strings

  /** `const [field, direction] = order_by.split('_')`. */
  datatype Ordering = Ordering(field: string, direction: Value)

  /** Page size and offset handed to the query's LIMIT and OFFSET placeholders. */
  datatype Window = Window(limit: Value, offset: Value)

  /**
   * `order_by`, defaulting to `'id_ASC'` only when the parameter is not sent:
   * an empty `order_by=` stays empty.
   */
  function OrderBy(query: map<string, string>): (s: string)
    ensures "order_by" !in query ==> s == "id_ASC"
    ensures "order_by" in query ==> s == query["order_by"]
    ensures s == "" <==> "order_by" in query && query["order_by"] == ""
  {
    if "order_by" in query then query["order_by"] else "id_ASC"
  }

  /**
   * The sort field is the first `_`-separated segment of `order_by` and the
   * direction the second (undefined when there is none); later segments are dropped.
   */
  function OrderingOf(query: map<string, string>): (o: Ordering)
    ensures '_' !in o.field
    ensures o.direction.Undefined? <==> '_' !in OrderBy(query)
    ensures o.direction.Str? || o.direction.Undefined?
    ensures o.direction.Str? ==> '_' !in o.direction.s
  {
    var parts := Strings.Split(OrderBy(query), '_');
    Ordering(parts[0], if |parts| > 1 then Str(parts[1]) else Undefined)
  }

  /** Without `order_by` the rows are sorted by `id`, ascending. */
  lemma DefaultOrdering(query: map<string, string>)
    requires "order_by" !in query
    ensures OrderingOf(query) == Ordering("id", Str("ASC"))
  {
    var parts := Strings.Split("id_ASC", '_');
    Strings.SplitHead("id_ASC", '_');
    assert "id_ASC"[..2] == "id" && "id_ASC"[2] == '_';
    assert "id_ASC"[3..6] == "ASC";
  }

  /**
   * The field is the text before the first `_` (all of `order_by` when there is
   * none) and the direction the text between the first and the second `_`.
   */
  lemma OrderingLayout(query: map<string, string>)
    ensures var s, o := OrderBy(query), OrderingOf(query);
      var n := |o.field|;
      && n <= |s| && s[..n] == o.field
      && (o.direction.Undefined? ==> s == o.field)
      && (o.direction.Str? ==>
            var d := o.direction.s;
            && n + 1 + |d| <= |s|
            && s[n] == '_'
            && s[n + 1 .. n + 1 + |d|] == d
            && (n + 1 + |d| == |s| || s[n + 1 + |d|] == '_'))
  {
    Strings.SplitHead(OrderBy(query), '_');
  }

  /**
   * `limits ? parseInt(limits) : null`: null exactly when `limits` is absent or
   * empty, otherwise the number `parseInt` reads.
   */
  function Limit(h: Host, query: map<string, string>): (limit: Value)
    ensures limit == Null <==> !Truthy(Lookup(query, "limits"))
    ensures limit != Null ==> limit == Num(h.parseInt(query["limits"]))
  {
    var limits := Lookup(query, "limits");
    if Truthy(limits) then Num(h.parseInt(limits.s)) else Null
  }

  /**
   * `page`, defaulting to the number 1 only when the parameter is not sent; a
   * sent value, even an empty one, is kept as the string.
   */
  function Page(query: map<string, string>): (page: Value)
    ensures "page" !in query ==> page == Num(Finite(1.0))
    ensures "page" in query ==> page == Str(query["page"])
  {
    if "page" in query then Str(query["page"]) else Num(Finite(1.0))
  }

  /** `limit ? (page - 1) * limit : 0`. */
  function Offset(h: Host, limit: Value, page: Value): (offset: Value)
    ensures offset.Num?
    ensures !Truthy(limit) ==> offset == Num(Finite(0.0))
    ensures ToNumber(h, page) == Finite(1.0) && ToNumber(h, limit).Finite? ==> offset == Num(Finite(0.0))
    ensures Truthy(limit) && ToNumber(h, page).NaN? ==> offset == Num(NaN)
    ensures Truthy(limit) && ToNumber(h, page).Finite? && ToNumber(h, limit).Finite? ==>
      offset == Num(Finite((ToNumber(h, page).value - 1.0) * ToNumber(h, limit).value))
    ensures ToNumber(h, page).Finite? && ToNumber(h, page).value >= 1.0
      && ToNumber(h, limit).Finite? && ToNumber(h, limit).value >= 0.0
      ==> offset.n.Finite? && offset.n.value >= 0.0
  {
    if Truthy(limit) then Num(Mul(Sub(ToNumber(h, page), Finite(1.0)), ToNumber(h, limit)))
    else Num(Finite(0.0))
  }

  /**
   * The LIMIT and OFFSET values of a listing request. Without a (non-empty)
   * `limits` the LIMIT is null, so no cap applies, and the offset is 0; a
   * `limits` that parses to 0 or NaN also gives offset 0; so does the default page.
   */
  function WindowOf(h: Host, query: map<string, string>): (w: Window)
    ensures w.limit == Null <==> !Truthy(Lookup(query, "limits"))
    ensures !Truthy(w.limit) ==> w.offset == Num(Finite(0.0))
    ensures "page" !in query ==> w.offset == Num(Finite(0.0))
  {
    var limit := Limit(h, query);
    Window(limit, Offset(h, limit, Page(query)))
  }

  /** `page=2&limits=10` selects the window of ten rows after the first ten. */
  lemma SecondPageOfTen(h: Host, query: map<string, string>)
    requires "page" in query && "limits" in query
    requires h.toNumber(query["page"]) == Finite(2.0)
    requires query["limits"] != "" && h.parseInt(query["limits"]) == Finite(10.0)
    ensures WindowOf(h, query) == Window(Num(Finite(10.0)), Num(Finite(10.0)))
  {
  }
}
