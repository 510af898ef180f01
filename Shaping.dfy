/**
 * The listing handler's response body: the row count, the stock total and
 * the per-row hyperlinked projection.
 */
module Shaping {
  import opened Wrappers
  import Strings

  /** A row of the `inventario` table; `stock` is already the integer `parseInt` reads. */
  datatype Row = Row(id: int, nombre: string, precio: real, stock: int, categoria: string, metal: string)

  /** `{id, nombre, href}`, one entry of `joyas`. */
  datatype Link = Link(id: int, nombre: string, href: string)

  /** `{total_joyas, total_stock, joyas}`. */
  datatype Summary = Summary(totalJoyas: nat, totalStock: int, joyas: seq<Link>)

  /** The sum of `stock` over the rows: the reference for the reduction. */
  function SumStock(rows: seq<Row>): int
  {
    if rows == [] then 0 else rows[0].stock + SumStock(rows[1..])
  }

  /**
   * `rows.reduce((sum, joya) => sum + parseInt(joya.stock), acc)`: a left fold,
   * which adds the rows' stock total to `acc`.
   */
  function ReduceStock(rows: seq<Row>, acc: int): (r: int)
    ensures r == acc + SumStock(rows)
  {
    if rows == [] then acc else ReduceStock(rows[1..], acc + rows[0].stock)
  }

  /** The stock total of a concatenation is the sum of the totals. */
  lemma {:induction false} SumStockAppend(a: seq<Row>, b: seq<Row>)
    ensures SumStock(a + b) == SumStock(a) + SumStock(b)
  {
    if a != [] {
      assert (a + b)[1..] == a[1..] + b;
      SumStockAppend(a[1..], b);
    } else {
      assert a + b == b;
    }
  }

  /** Rows with non-negative stock have a non-negative total. */
  lemma {:induction false} SumStockNonNegative(rows: seq<Row>)
    requires forall i :: 0 <= i < |rows| ==> rows[i].stock >= 0
    ensures SumStock(rows) >= 0
  {
    if rows != [] {
      SumStockNonNegative(rows[1..]);
    }
  }

  /** The id a link points at, reading its path back. */
  function HrefId(href: string): Option<int>
  {
    if |href| >= 7 && href[..7] == "/joyas/" then Strings.ParseDecimal(href[7..]) else None
  }

  /** `/joyas/${id}`: the path prefix followed by the id's decimal text, which reads back to the id. */
  function Href(id: int): (href: string)
    ensures |href| > 7 && href[..7] == "/joyas/" && href[7..] == Strings.DecimalString(id)
    ensures HrefId(href) == Some(id)
  {
    Strings.DecimalRoundTrip(id);
    var href := "/joyas/" + Strings.DecimalString(id);
    assert href[7..] == Strings.DecimalString(id);
    href
  }

  /** Rows with different ids get different links. */
  lemma HrefInjective(a: int, b: int)
    ensures Href(a) == Href(b) ==> a == b
  {
  }

  /** `rows.map(joya => ({id, nombre, href}))`. */
  function Links(rows: seq<Row>): (links: seq<Link>)
    ensures |links| == |rows|
    ensures forall i :: 0 <= i < |rows| ==>
      && links[i].id == rows[i].id
      && links[i].nombre == rows[i].nombre
      && links[i].href == Href(rows[i].id)
      && HrefId(links[i].href) == Some(rows[i].id)
  {
    seq(|rows|, i requires 0 <= i < |rows| => Link(rows[i].id, rows[i].nombre, Href(rows[i].id)))
  }

  /**
   * The listing body: `total_joyas` counts the returned rows, `total_stock`
   * sums their stock, and `joyas` lists them in order, each with a link to itself.
   */
  function Summarize(rows: seq<Row>): (s: Summary)
    ensures s.totalJoyas == |rows|
    ensures s.totalStock == SumStock(rows)
    ensures s.joyas == Links(rows)
  {
    Summary(|rows|, ReduceStock(rows, 0), Links(rows))
  }

  /** The links of two consecutive pages are the links of the first followed by those of the second. */
  lemma LinksAppend(a: seq<Row>, b: seq<Row>)
    ensures Links(a + b) == Links(a) + Links(b)
  {
    var la, lb, lab := Links(a), Links(b), Links(a + b);
    forall i | 0 <= i < |lab| ensures lab[i] == (la + lb)[i] {
      if i < |a| {
        assert (a + b)[i] == a[i] && (la + lb)[i] == la[i];
      } else {
        assert (a + b)[i] == b[i - |a|] && (la + lb)[i] == lb[i - |a|];
      }
    }
  }

  /**
   * Two consecutive pages summarised apart add up to the two summarised
   * together: counts and stock totals add, and the link lists concatenate.
   */
  lemma SummarizeAppend(a: seq<Row>, b: seq<Row>)
    ensures var sa, sb, sab := Summarize(a), Summarize(b), Summarize(a + b);
      && sab.totalJoyas == sa.totalJoyas + sb.totalJoyas
      && sab.totalStock == sa.totalStock + sb.totalStock
      && sab.joyas == sa.joyas + sb.joyas
  {
    SumStockAppend(a, b);
    LinksAppend(a, b);
  }
}
