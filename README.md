# Jewelry inventory query service — Dafny model

The service answers two GET routes over the `inventario` table (`app.js`):

- `/joyas` reads `limits`, `page`, `order_by` and the filters `precio_min`,
  `precio_max`, `categoria`, `metal` from the query string. It rejects a price
  bound that is not a number and builds a WHERE clause from the filters that are
  present. It adds `ORDER BY <field> <direction> LIMIT <limit> OFFSET <offset>`
  and answers `{total_joyas, total_stock, joyas: [{id, nombre, href}]}`.
  Any failure is a 500.
- `/joyas/filtros` builds the same WHERE clause and answers the raw rows.
  Any failure is a 400.

The model pulls the handlers' logic apart into modules:

- `Strings`: `split` on one character, `join`, and the decimal text of an integer.
- `Js`: query-string values, truthiness, the `Number` coercion, NaN arithmetic,
  and the `Host` record of functions supplied by the runtime.
- `Filters`: price validation, the filter predicates, and the WHERE clause.
- `Paging`: the order field and direction, the limit, and the offset.
- `Shaping`: the row count, the stock total, and the hyperlinked projection.
- `Routes`: both handlers as methods.

The filter code appears twice in the source (`app.js:39-59` and
`app.js:104-127`). Both copies are the same code except for the error text, so
the model has one `Filters.BuildFilters` that both handlers call. That is why
both routes get the same WHERE clause for the same query. The only difference
is in `Routes.ValidationMessage`: `/joyas/filtros` ends its message with a
period.

Parameters stand in for the pieces the model does not look inside:

- `Host.toNumber` is JavaScript's `Number(s)`. `isNaN` and `page - 1` both coerce
  through it.
- `Host.parseInt` is the global `parseInt`.
- `Host.format` is pg-format's `format(template, ...args)`. The `%L`/`%I`/`%s`
  quoting happens inside it. It returns the formatted text or the message of
  the error it throws. A throw is caught like any other failure, and then no
  query is sent.
- `Routes.Store` is the database. It maps a query text to rows or to the message
  of the error it raised. Each handler also returns the query text it sent,
  if it sent one.

Numbers are `Finite(real) | NaN`. A query string is a `map<string, string>`,
and a missing key reads as `undefined`.

## Model

| member | source | states |
|---|---|---|
| `Strings.Split` | app.js:34 | `order_by.split('_')` gives at least one segment, and no segment contains `_`. There is exactly one segment iff the string has no `_`. |
| `Strings.JoinSplit` | app.js:34 | Joining the segments with `_` gives back the original string. Together with `Split`'s contract, this fixes the segments. |
| `Strings.SplitHead` | app.js:34 | The first segment is the text before the first `_`. The second segment is the text between the first and second `_`. |
| `Strings.JoinLength` | app.js:59 | `filters.join(sep)` of one or more parts is as long as the parts together plus one `sep` fewer than there are parts. |
| `Strings.JoinSlice` | app.js:59 | Every part sits at its computed offset, in list order. Each part except the last is followed by `sep`. The joined string ends exactly where the last part ends. |
| `Strings.DecimalString` | app.js:75 | An integer renders as its canonical digits: a leading `-` iff it is negative, and no leading zero except in `0` itself. |
| `Strings.DecimalRoundTrip` | app.js:75 | Reading back the decimal text of an id gives the id. |
| `Js.Sub` | app.js:36 | `page - 1` is NaN iff an operand is NaN. |
| `Js.Mul` | app.js:36 | `(page - 1) * limit` is NaN iff an operand is NaN. |
| `Filters.Validation` | app.js:40-45 | Only a bound that is present and non-numeric is rejected. Every such bound leads to a rejection, and `precio_min` wins when both are bad. Empty or absent bounds are never rejected. |
| `Filters.Kept` | app.js:46-57 | The kept filters are exactly the present ones among those tested. |
| `Filters.KeptIncreasing` | app.js:46-57 | Keeping filters preserves the fixed test order. |
| `Filters.PresentFiltersSpec` | app.js:46-57 | Exactly the present filters get a predicate. They come in the order precio_min, precio_max, categoria, metal, and their number equals the number of present filters. |
| `Filters.PredicatesForKept` | app.js:46-57 | Building the predicates succeeds iff every kept filter formats. Then entry i is the i-th kept filter's formatted template. Otherwise the error is that of the first kept filter whose `format` throws. |
| `Filters.PredicatesSpec` | app.js:46-57 | When every present filter formats, there is one predicate per present filter, and the i-th predicate belongs to the i-th present filter. |
| `Filters.ThenStep` | app.js:46-57 | One conditional push: an absent filter is skipped. A present filter's predicate is appended, or its `format` error stops the construction. |
| `Filters.BuildFilters` | app.js:39-57 | An invalid bound fails with that bound, before any `format`. Otherwise the result is the reference predicate list, or the first `format` error. The same holds for the duplicate at app.js:104-125. |
| `Filters.WhereClause` | app.js:59 | The clause is empty iff there are no filters. Otherwise it starts with `WHERE `. |
| `Filters.WhereEmptyIff` | app.js:127 | The WHERE clause is empty exactly when none of the four filter parameters is present. |
| `Filters.WhereLayout` | app.js:59 | The clause is exactly `WHERE ` followed by the predicates with ` AND ` between them. Predicate i sits after the earlier ones, and the clause ends with the last one. |
| `Paging.OrderBy` | app.js:33 | `order_by` is `id_ASC` when it is not sent, and the sent text otherwise. So the result is empty exactly when an empty `order_by=` is sent. |
| `Paging.OrderingOf` | app.js:33-34 | The field has no `_`. The direction is undefined iff `order_by` has no `_`, and otherwise it is a segment without `_`. |
| `Paging.DefaultOrdering` | app.js:33-34 | Without `order_by`, the sort is field `id`, direction `ASC`. |
| `Paging.OrderingLayout` | app.js:34 | The field is the text before the first `_`, or all of `order_by` when it has no `_`. The direction is the text up to the next `_`, and later segments are dropped. |
| `Paging.Offset` | app.js:36 | The offset is 0 when the limit is falsy, and 0 for page 1. It is NaN for a NaN page, and `(page - 1) * limit` otherwise. It is non-negative for page ≥ 1 and limit ≥ 0. |
| `Paging.WindowOf` | app.js:35-36 | The LIMIT is null exactly when `limits` is absent or empty. A null, 0 or NaN limit gives offset 0, and so does the default page. |
| `Paging.SecondPageOfTen` | app.js:35-36 | `page=2&limits=10` gives LIMIT 10 and OFFSET 10. |
| `Shaping.ReduceStock` | app.js:70 | The `reduce` left fold from `acc` equals `acc` plus the recursive sum of `stock` over the rows. |
| `Shaping.SumStockAppend` | app.js:70 | The stock total of two row lists laid end to end is the sum of their totals. |
| `Shaping.SumStockNonNegative` | app.js:70 | Rows with non-negative stock have a non-negative total. |
| `Shaping.Href` | app.js:75 | The href is `/joyas/` followed by the id's decimal text, and it reads back to the id. |
| `Shaping.HrefInjective` | app.js:75 | Different ids give different hrefs. |
| `Shaping.Links` | app.js:72-76 | `joyas` has the length and order of the rows. Entry i carries row i's `id` and `nombre`, and its href is `/joyas/` + id, which reads back to that id. |
| `Shaping.Summarize` | app.js:69-83 | `total_joyas` is the number of rows and `total_stock` is the sum of their stock (0 for no rows). `joyas` is the link list. |
| `Shaping.LinksAppend` | app.js:72-76 | A lemma about the model; no source line states it. Mapping two consecutive pages of rows apart and laying the links end to end gives the links of both pages together. |
| `Shaping.SummarizeAppend` | app.js:69-76 | A lemma about the model; no source line states it. Summaries of two consecutive pages add up to the summary of both: counts and stock totals add, and link lists concatenate. |
| `Routes.ErrorStatus` | app.js:87 | A failure is answered with an error status (400 to 599). It is a server error (5xx) exactly for `/joyas`, and a client error (4xx) for `/joyas/filtros` (app.js:135). The exact codes appear in `Routes.GetJoyas` (200 or 500) and `Routes.GetFiltros` (200 or 400). |
| `Routes.ValidationMessage` | app.js:41-44 | The thrown message names the rejected parameter right after `El valor de `. Only `/joyas/filtros` (app.js:108, 111) ends it with a period. |
| `Routes.FiltrosSql` | app.js:127-128 | The `/joyas/filtros` query is `SELECT * FROM inventario ` followed by exactly the WHERE clause of the predicates. It is that prefix alone exactly when there are no predicates. |
| `Routes.GetJoyas` | app.js:31-98 | An invalid bound gives a 500 with its message and sends nothing. A throwing `format` also gives a 500 and sends nothing. Otherwise the listing query is sent: a store error gives a 500 with the store's message, and rows give a 200 with their summary. |
| `Routes.GetFiltros` | app.js:101-146 | An invalid bound or a throwing `format` gives a 400 and sends nothing. Otherwise the `/joyas/filtros` query is sent: a store error gives a 400, and rows give a 200 with the raw rows. |

Definitions without a row: these functions follow the cited lines directly. Their own contracts state little beyond their branches, and the rows named after each state their content.

- `Strings.Join` (app.js:59, 127): `filters.join(' AND ')`. See `Strings.JoinLength`, `Strings.JoinSlice`, `Strings.JoinSplit` and `Filters.WhereLayout`.
- `Js.Truthy` (app.js:35-57): the `if (x)` and `x ? a : b` test. See `Filters.Validation`, `Filters.PresentFiltersSpec`, `Filters.WhereEmptyIff` and `Paging.WindowOf`.
- `Paging.Limit` (app.js:35): `limits ? parseInt(limits) : null`. See `Paging.WindowOf`.
- `Paging.Page` (app.js:33): `page = 1` as a destructuring default. See `Paging.WindowOf` and `Paging.SecondPageOfTen`.
- `Routes.ErrorTitle` (app.js:88, 136): each route's `error` text. See `Routes.GetJoyas` and `Routes.GetFiltros`.
- `Routes.Failed` (app.js:85-97, 133-145): the catch block's response. See `Routes.GetJoyas` and `Routes.GetFiltros`.
- `Routes.ListingSql` (app.js:62-65): the `/joyas` template, which is `Routes.FiltrosSql` followed by the ORDER BY, LIMIT and OFFSET placeholders. So both routes share the WHERE clause that `Filters.BuildFilters` builds.

## Left out

- Express setup, `app.listen`, `morgan` and the request-logging middleware (app.js:9-10, 22-28, 149-151). These are server plumbing and I/O.
- The `pg` pool and `pool.query` (app.js:13-19, 66, 130). The database is the `Store` parameter. So the model does not capture what the database does with the query:
  - that the rows satisfy the WHERE clause;
  - that they are sorted by the field;
  - that LIMIT/OFFSET select a window;
  - that LIMIT NULL means no cap.
- pg-format internals: quoting by `%L`, `%I` and `%s`. `Host.format` is abstract: it gives text or an error, and the model does not say which it gives for a given template. `/joyas` puts the WHERE clause inside the template given to `format` (app.js:62-63). A `%` in a filter value therefore reaches pg-format's template scanner. If `format` throws, the model answers 500 and sends nothing, but it does not predict when that happens.
- `Number(s)`, `isNaN` and `parseInt` internals. `Host.toNumber` and `Host.parseInt` are abstract. Numbers are reals or NaN, so three things are not represented:
  - Infinity;
  - negative zero;
  - the rounding of double-precision arithmetic.
- `parseInt(joya.stock)` (app.js:70): rows already carry an integer `stock`.
- ErrorStatus: states the status class (5xx for `/joyas`, 4xx for `/joyas/filtros`), not the exact 500 and 400. Those exact codes are stated by `Routes.GetJoyas` and `Routes.GetFiltros`, whose responses are 200 or 500 and 200 or 400.
- `Strings.DecimalString`: does not model JavaScript's exponent notation for integers of magnitude 10^21 or more.
- Error bodies: `error.stack`, the `toISOString` timestamp and `console.error` (app.js:86, 91, 93, 134, 139, 141) depend on the runtime and the clock. The model keeps the status, both messages, the route and the echoed query.
- Query-string parameters sent more than once arrive as arrays. In that case `order_by.split` would throw. The model reads every parameter as one string.
- `dotenv` and `process.env` configuration (app.js:6, 14-18).
