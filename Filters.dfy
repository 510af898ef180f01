/**
 * The filter part shared by both handlers: the numeric check on the price
 * bounds, the predicates pushed for the filters that are present, and the
 * WHERE clause joined from them.
 */
module Filters {
  import opened Wrappers
  import opened Js
  import Strings

  /** The four optional filter parameters. */
  datatype Filter = PrecioMin | PrecioMax | Categoria | Metal

  /** The order in which the handlers test the filters and push their predicates. */
  const FilterOrder: seq<Filter> := [PrecioMin, PrecioMax, Categoria, Metal]

  /** Position of a filter in `FilterOrder`. */
  function Rank(f: Filter): nat
  {
    match f
    case PrecioMin => 0
    case PrecioMax => 1
    case Categoria => 2
    case Metal => 3
  }

  /** Name of the query-string parameter that carries the filter. */
  function Param(f: Filter): string
  {
    match f
    case PrecioMin => "precio_min"
    case PrecioMax => "precio_max"
    case Categoria => "categoria"
    case Metal => "metal"
  }

  /** The pg-format template of the filter's predicate. */
  function Template(f: Filter): string
  {
    match f
    case PrecioMin => "precio >= %L"
    case PrecioMax => "precio <= %L"
    case Categoria => "categoria = %L"
    case Metal => "metal = %L"
  }

  predicate IsPriceBound(f: Filter)
  {
    f == PrecioMin || f == PrecioMax
  }

  /** The filter's parameter is truthy: sent and not empty. */
  predicate Present(query: map<string, string>, f: Filter)
  {
    Truthy(Lookup(query, Param(f)))
  }

  /** A price bound that is present but not a number. */
  predicate Invalid(h: Host, query: map<string, string>, f: Filter)
  {
    IsPriceBound(f) && Present(query, f) && IsNaN(h, Lookup(query, Param(f)))
  }

  /**
   * The price bound that makes a handler throw, if any: `precio_min` is checked
   * before `precio_max`, and only a present, non-numeric bound is rejected.
   */
  function Validation(h: Host, query: map<string, string>): (r: Option<Filter>)
    ensures r.Some? ==> Invalid(h, query, r.value)
    ensures r.None? <==> forall f :: !Invalid(h, query, f)
    ensures Invalid(h, query, PrecioMin) ==> r == Some(PrecioMin)
  {
    if Invalid(h, query, PrecioMin) then Some(PrecioMin)
    else if Invalid(h, query, PrecioMax) then Some(PrecioMax)
    else None
  }

  /** Filters listed in strictly increasing `Rank`, hence each at most once. */
  predicate Increasing(fs: seq<Filter>)
  {
    forall i, j :: 0 <= i < j < |fs| ==> Rank(fs[i]) < Rank(fs[j])
  }

  /** The filters of `fs` that are present, in the order of `fs`. */
  function Kept(query: map<string, string>, fs: seq<Filter>): (r: seq<Filter>)
    ensures forall f :: f in r <==> f in fs && Present(query, f)
  {
    if fs == [] then []
    else if Present(query, fs[0]) then [fs[0]] + Kept(query, fs[1..])
    else Kept(query, fs[1..])
  }

  /** Keeping some filters of an increasing list leaves it increasing. */
  lemma {:induction false} KeptIncreasing(query: map<string, string>, fs: seq<Filter>)
    requires Increasing(fs)
    ensures Increasing(Kept(query, fs))
  {
    if fs != [] {
      var rest := Kept(query, fs[1..]);
      KeptIncreasing(query, fs[1..]);
      if Present(query, fs[0]) {
        forall k | 0 <= k < |rest| ensures Rank(fs[0]) < Rank(rest[k]) {
          assert rest[k] in fs[1..];
        }
      }
    }
  }

  /** The filters whose predicates the handlers push, in push order. */
  function PresentFilters(query: map<string, string>): seq<Filter>
  {
    Kept(query, FilterOrder)
  }

  /** The set of filters whose parameter is present. */
  function PresentSet(query: map<string, string>): set<Filter>
  {
    set f | f in FilterOrder && Present(query, f)
  }

  /** `format(Template(f), value)` for a filter: its predicate, or the error `format` throws. */
  function Formatted(h: Host, query: map<string, string>, f: Filter): Result<string, string>
  {
    h.format(Template(f), [Lookup(query, Param(f))])
  }

  /** Predicates already pushed, followed by the outcome of pushing the rest. */
  function Then(done: seq<string>, rest: Result<seq<string>, string>): Result<seq<string>, string>
  {
    match rest
    case Success(ps) => Success(done + ps)
    case Failure(e) => Failure(e)
  }

  /**
   * The predicates of the present filters of `fs`, in the order of `fs`; the
   * first `format` that throws ends the construction with its error.
   */
  function PredicatesFor(h: Host, query: map<string, string>, fs: seq<Filter>): Result<seq<string>, string>
  {
    if fs == [] then Success([])
    else if !Present(query, fs[0]) then PredicatesFor(h, query, fs[1..])
    else match Formatted(h, query, fs[0])
      case Failure(e) => Failure(e)
      case Success(p) => Then([p], PredicatesFor(h, query, fs[1..]))
  }

  /** The predicate list the handlers build, or the error that stops it. */
  function Predicates(h: Host, query: map<string, string>): Result<seq<string>, string>
  {
    PredicatesFor(h, query, FilterOrder)
  }

  /** Every filter of `kept` formats. */
  predicate AllFormat(h: Host, query: map<string, string>, kept: seq<Filter>)
  {
    forall i :: 0 <= i < |kept| ==> Formatted(h, query, kept[i]).Success?
  }

  /** `ps` holds the formatted predicate of each filter of `kept`, in order. */
  predicate FormatsTo(h: Host, query: map<string, string>, kept: seq<Filter>, ps: seq<string>)
  {
    && AllFormat(h, query, kept)
    && |ps| == |kept|
    && forall i :: 0 <= i < |kept| ==> ps[i] == Formatted(h, query, kept[i]).value
  }

  /** Putting a filter in front of a list that all formats: the whole list formats iff it does. */
  lemma AllFormatCons(h: Host, query: map<string, string>, f: Filter, kept: seq<Filter>)
    ensures AllFormat(h, query, [f] + kept) <==> Formatted(h, query, f).Success? && AllFormat(h, query, kept)
  {
    var fk := [f] + kept;
    assert fk[0] == f;
    assert forall i :: 0 <= i < |kept| ==> fk[i + 1] == kept[i];
  }

  /** Putting a filter and its predicate in front keeps the predicates aligned. */
  lemma FormatsToCons(h: Host, query: map<string, string>, f: Filter, kept: seq<Filter>, ps: seq<string>)
    requires Formatted(h, query, f).Success? && FormatsTo(h, query, kept, ps)
    ensures FormatsTo(h, query, [f] + kept, [Formatted(h, query, f).value] + ps)
  {
    var fk, pk := [f] + kept, [Formatted(h, query, f).value] + ps;
    AllFormatCons(h, query, f, kept);
    forall i | 0 <= i < |fk| ensures Formatted(h, query, fk[i]).Success? && pk[i] == Formatted(h, query, fk[i]).value {
      if i > 0 { assert fk[i] == kept[i - 1] && pk[i] == ps[i - 1]; }
    }
  }

  /**
   * The construction succeeds iff every kept filter formats, and then entry i
   * is the i-th kept filter's predicate.
   */
  lemma {:induction false} PredicatesForSuccess(h: Host, query: map<string, string>, fs: seq<Filter>)
    ensures PredicatesFor(h, query, fs).Success? <==> AllFormat(h, query, Kept(query, fs))
    ensures PredicatesFor(h, query, fs).Success? ==>
      FormatsTo(h, query, Kept(query, fs), PredicatesFor(h, query, fs).value)
  {
    if fs != [] {
      var r, r', kept' := PredicatesFor(h, query, fs), PredicatesFor(h, query, fs[1..]), Kept(query, fs[1..]);
      PredicatesForSuccess(h, query, fs[1..]);
      if Present(query, fs[0]) {
        assert Kept(query, fs) == [fs[0]] + kept';
        AllFormatCons(h, query, fs[0], kept');
        if Formatted(h, query, fs[0]).Success? && r'.Success? {
          assert r.value == [Formatted(h, query, fs[0]).value] + r'.value;
          FormatsToCons(h, query, fs[0], kept', r'.value);
        }
      } else {
        assert Kept(query, fs) == kept' && r == r';
      }
    }
  }

  /** `kept[k]` is the first of `kept` whose `format` fails, and it fails with `e`. */
  predicate FailsFirstAt(h: Host, query: map<string, string>, kept: seq<Filter>, k: nat, e: string)
  {
    && k < |kept|
    && Formatted(h, query, kept[k]) == Failure(e)
    && forall j :: 0 <= j < k ==> Formatted(h, query, kept[j]).Success?
  }

  /** Putting a filter that formats in front moves the first failure one place right. */
  lemma FailsFirstAtCons(h: Host, query: map<string, string>, f: Filter, kept: seq<Filter>, k: nat, e: string)
    requires Formatted(h, query, f).Success? && FailsFirstAt(h, query, kept, k, e)
    ensures FailsFirstAt(h, query, [f] + kept, k + 1, e)
  {
    var fk := [f] + kept;
    forall j | 0 <= j < k + 1 ensures Formatted(h, query, fk[j]).Success? {
      if j > 0 { assert fk[j] == kept[j - 1]; }
    }
    assert fk[k + 1] == kept[k];
  }

  /** A failed construction carries the error of the first kept filter that does not format. */
  lemma {:induction false} PredicatesForFailure(h: Host, query: map<string, string>, fs: seq<Filter>)
    ensures PredicatesFor(h, query, fs).Failure? ==>
      exists k: nat :: FailsFirstAt(h, query, Kept(query, fs), k, PredicatesFor(h, query, fs).error)
  {
    var r := PredicatesFor(h, query, fs);
    if fs != [] && r.Failure? {
      var kept' := Kept(query, fs[1..]);
      PredicatesForFailure(h, query, fs[1..]);
      if Present(query, fs[0]) {
        assert Kept(query, fs) == [fs[0]] + kept';
        if Formatted(h, query, fs[0]).Failure? {
          assert FailsFirstAt(h, query, Kept(query, fs), 0, r.error);
        } else {
          var k: nat :| FailsFirstAt(h, query, kept', k, r.error);
          FailsFirstAtCons(h, query, fs[0], kept', k, r.error);
        }
      } else {
        assert Kept(query, fs) == kept' && r == PredicatesFor(h, query, fs[1..]);
        var k: nat :| FailsFirstAt(h, query, kept', k, r.error);
        assert FailsFirstAt(h, query, Kept(query, fs), k, r.error);
      }
    }
  }

  /**
   * The construction succeeds iff every kept filter formats; then entry i is
   * the i-th kept filter's predicate, and otherwise the error is that of the
   * first kept filter that does not format.
   */
  lemma PredicatesForKept(h: Host, query: map<string, string>, fs: seq<Filter>)
    ensures var r, kept := PredicatesFor(h, query, fs), Kept(query, fs);
      && (r.Success? <==> forall i :: 0 <= i < |kept| ==> Formatted(h, query, kept[i]).Success?)
      && (r.Success? ==>
            && |r.value| == |kept|
            && forall i :: 0 <= i < |kept| ==> r.value[i] == Formatted(h, query, kept[i]).value)
      && (r.Failure? ==> exists k: nat :: FailsFirstAt(h, query, kept, k, r.error))
  {
    PredicatesForSuccess(h, query, fs);
    PredicatesForFailure(h, query, fs);
  }

  /**
   * When every present filter formats, there is one predicate per present
   * filter and the i-th predicate belongs to the i-th present filter.
   */
  lemma PredicatesSpec(h: Host, query: map<string, string>)
    ensures var r, pf := Predicates(h, query), PresentFilters(query);
      && (r.Success? <==> forall i :: 0 <= i < |pf| ==> Formatted(h, query, pf[i]).Success?)
      && (r.Success? ==>
            && |r.value| == |pf| == |PresentSet(query)|
            && forall i :: 0 <= i < |pf| ==> r.value[i] == Formatted(h, query, pf[i]).value)
  {
    PredicatesForKept(h, query, FilterOrder);
    PresentFiltersSpec(query);
  }

  /** `filters.length ? `WHERE ${filters.join(' AND ')}` : ''`. */
  function WhereClause(filters: seq<string>): (w: string)
    ensures w == "" <==> filters == []
    ensures filters != [] ==> |w| >= 6 && w[..6] == "WHERE "
  {
    if |filters| > 0 then "WHERE " + Strings.Join(filters, " AND ") else ""
  }

  lemma {:induction false} DistinctCard(fs: seq<Filter>)
    requires Increasing(fs)
    ensures |set f | f in fs| == |fs|
  {
    if fs != [] {
      DistinctCard(fs[1..]);
      assert (set f | f in fs) == {fs[0]} + (set f | f in fs[1..]);
      assert fs[0] !in fs[1..];
    }
  }

  /**
   * Exactly the present filters get a predicate, each once and in the fixed
   * order precio_min, precio_max, categoria, metal.
   */
  lemma PresentFiltersSpec(query: map<string, string>)
    ensures var pf := PresentFilters(query);
      && (forall f :: f in pf <==> Present(query, f))
      && Increasing(pf)
      && |pf| == |PresentSet(query)|
  {
    var pf := PresentFilters(query);
    forall f: Filter ensures f in FilterOrder {
      assert FilterOrder[Rank(f)] == f;
    }
    KeptIncreasing(query, FilterOrder);
    DistinctCard(pf);
    assert (set f | f in pf) == PresentSet(query);
  }

  /** One step of the construction: skip an absent filter, or push a present one's predicate. */
  lemma ThenStep(h: Host, query: map<string, string>, done: seq<string>, fs: seq<Filter>)
    requires fs != []
    ensures Then(done, PredicatesFor(h, query, fs)) ==
      if !Present(query, fs[0]) then Then(done, PredicatesFor(h, query, fs[1..]))
      else match Formatted(h, query, fs[0])
        case Failure(e) => Failure(e)
        case Success(p) => Then(done + [p], PredicatesFor(h, query, fs[1..]))
  {
    if Present(query, fs[0]) && Formatted(h, query, fs[0]).Success? {
      var p := Formatted(h, query, fs[0]).value;
      var rest := PredicatesFor(h, query, fs[1..]);
      if rest.Success? {
        assert done + ([p] + rest.value) == (done + [p]) + rest.value;
      }
    }
  }

  /** Why a handler's filter construction stops. */
  datatype FilterError = InvalidBound(bound: Filter) | FormatFailed(message: string)

  /**
   * The filter construction of either handler (the two handlers hold the same
   * code): throw on an invalid price bound, `precio_min` first, then push one
   * predicate per present filter, stopping at a `format` that throws.
   */
  method BuildFilters(h: Host, query: map<string, string>) returns (r: Result<seq<string>, FilterError>)
    ensures Validation(h, query).Some? ==> r == Failure(InvalidBound(Validation(h, query).value))
    ensures Validation(h, query).None? && Predicates(h, query).Success? ==>
      r == Success(Predicates(h, query).value)
    ensures Validation(h, query).None? && Predicates(h, query).Failure? ==>
      r == Failure(FormatFailed(Predicates(h, query).error))
  {
    var precioMin := Lookup(query, "precio_min");
    var precioMax := Lookup(query, "precio_max");
    var categoria := Lookup(query, "categoria");
    var metal := Lookup(query, "metal");
    if Truthy(precioMin) && IsNaN(h, precioMin) {
      return Failure(InvalidBound(PrecioMin));
    }
    if Truthy(precioMax) && IsNaN(h, precioMax) {
      return Failure(InvalidBound(PrecioMax));
    }
    ghost var s1, s2, s3 := [PrecioMax, Categoria, Metal], [Categoria, Metal], [Metal];
    assert FilterOrder[1..] == s1 && s1[1..] == s2 && s2[1..] == s3 && s3[1..] == [];
    var filters: seq<string> := [];
    assert Predicates(h, query).Success? ==> [] + Predicates(h, query).value == Predicates(h, query).value;
    assert Predicates(h, query) == Then(filters, PredicatesFor(h, query, FilterOrder));
    ThenStep(h, query, filters, FilterOrder);
    if Truthy(precioMin) {
      var p := h.format("precio >= %L", [precioMin]);
      if p.Failure? {
        return Failure(FormatFailed(p.error));
      }
      filters := filters + [p.value];
    }
    assert Predicates(h, query) == Then(filters, PredicatesFor(h, query, s1));
    ThenStep(h, query, filters, s1);
    if Truthy(precioMax) {
      var p := h.format("precio <= %L", [precioMax]);
      if p.Failure? {
        return Failure(FormatFailed(p.error));
      }
      filters := filters + [p.value];
    }
    assert Predicates(h, query) == Then(filters, PredicatesFor(h, query, s2));
    ThenStep(h, query, filters, s2);
    if Truthy(categoria) {
      var p := h.format("categoria = %L", [categoria]);
      if p.Failure? {
        return Failure(FormatFailed(p.error));
      }
      filters := filters + [p.value];
    }
    assert Predicates(h, query) == Then(filters, PredicatesFor(h, query, s3));
    ThenStep(h, query, filters, s3);
    if Truthy(metal) {
      var p := h.format("metal = %L", [metal]);
      if p.Failure? {
        return Failure(FormatFailed(p.error));
      }
      filters := filters + [p.value];
    }
    assert Predicates(h, query) == Then(filters, PredicatesFor(h, query, []));
    assert filters + [] == filters;
    return Success(filters);
  }

  /** The WHERE clause is empty exactly when no filter parameter is present. */
  lemma WhereEmptyIff(h: Host, query: map<string, string>)
    ensures Predicates(h, query).Success? ==>
      (WhereClause(Predicates(h, query).value) == "" <==> forall f :: !Present(query, f))
  {
    PresentFiltersSpec(query);
    PredicatesSpec(h, query);
    var pf := PresentFilters(query);
    if pf != [] {
      assert Present(query, pf[0]);
    }
  }

  /** Position at which predicate i starts inside the WHERE clause. */
  function WhereOffset(filters: seq<string>, i: nat): nat
    requires i < |filters|
  {
    6 + Strings.JoinOffset(filters, " AND ", i)
  }

  /**
   * The WHERE clause is "WHERE " followed by the predicates: predicate i sits
   * right after "WHERE " and the earlier predicates, followed by " AND " unless
   * it is the last, and the clause ends with the last one.
   */
  lemma WhereLayout(filters: seq<string>, i: nat)
    requires i < |filters|
    ensures WhereOffset(filters, i) + |filters[i]| <= |WhereClause(filters)|
    ensures WhereClause(filters)[WhereOffset(filters, i) .. WhereOffset(filters, i) + |filters[i]|] == filters[i]
    ensures i + 1 < |filters| ==>
      && WhereOffset(filters, i) + |filters[i]| + 5 <= |WhereClause(filters)|
      && WhereClause(filters)[WhereOffset(filters, i) + |filters[i]| .. WhereOffset(filters, i) + |filters[i]| + 5] == " AND "
    ensures i + 1 == |filters| ==> WhereOffset(filters, i) + |filters[i]| == |WhereClause(filters)|
  {
    var pre, sep := "WHERE ", " AND ";
    var w, p := WhereClause(filters), filters[i];
    var off := WhereOffset(filters, i);
    assert |pre| == 6 && |sep| == 5 && off == |pre| + Strings.JoinOffset(filters, sep, i);
    assert w == pre + Strings.Join(filters, sep);
    Strings.PrefixedJoinPart(pre, filters, sep, i);
    Strings.PrefixedJoinSep(pre, filters, sep, i);
    assert w[off .. off + |p|] == p;
    if i + 1 < |filters| {
      assert w[off + |p| .. off + |p| + |sep|] == sep;
    }
  }
}
