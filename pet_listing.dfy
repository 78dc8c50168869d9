/** The public pet listing, `GET /api/mascotas`: the handler grows a SQL query
    and its positional parameters from the optional query-string filters, and the
    database runs the query. The meaning of the query text is given by a parser
    of the WHERE fragment the handler can produce and by positional binding of
    `?` placeholders, so that what the built query selects can be compared with
    what the filters ask for. */
module PetListing {
  import opened Js
  import opened SqlLike

  /** A row of `mascotas`. The filterable columns may hold SQL NULL (`None`). */
  datatype Pet = Pet(
    id: int,
    usuarioId: int,
    nombre: Option<string>,
    tipo: Option<string>,
    raza: Option<string>,
    colorPrincipal: Option<string>,
    estado: Option<string>,
    ubicacionUltima: Option<string>)

  /** The query-string filters; `None` when the parameter is absent. */
  datatype Filters = Filters(
    tipo: Option<string>,
    estado: Option<string>,
    raza: Option<string>,
    colorPrincipal: Option<string>,
    ubicacionUltima: Option<string>)

  /** The columns a listing can filter on, in the order the handler tests them. */
  datatype Column = Tipo | Estado | Raza | ColorPrincipal | UbicacionUltima

  datatype Op = Eq | Like

  /** One `AND` clause of the WHERE fragment, ending in its placeholder. */
  datatype Condition = Condition(column: Column, op: Op)

  /** A clause together with the parameter pushed for its placeholder. */
  datatype Binding = Binding(condition: Condition, param: string)

  const SelectAll: string := "SELECT * FROM mascotas WHERE 1=1"

  function ColumnName(c: Column): string {
    match c
    case Tipo => "tipo"
    case Estado => "estado"
    case Raza => "raza"
    case ColorPrincipal => "color_principal"
    case UbicacionUltima => "ubicacion_ultima"
  }

  /** The column names differ in their first character. */
  function Initial(c: Column): (ch: char)
    ensures |ColumnName(c)| > 0 && ColumnName(c)[0] == ch
    ensures '?' !in ColumnName(c)
  {
    match c
    case Tipo => 't'
    case Estado => 'e'
    case Raza => 'r'
    case ColorPrincipal => 'c'
    case UbicacionUltima => 'u'
  }

  function ColumnByInitial(ch: char): (r: Option<Column>)
    ensures r.Some? ==> Initial(r.value) == ch
  {
    if ch == 't' then Some(Tipo)
    else if ch == 'e' then Some(Estado)
    else if ch == 'r' then Some(Raza)
    else if ch == 'c' then Some(ColorPrincipal)
    else if ch == 'u' then Some(UbicacionUltima)
    else None
  }

  /** Position of a column in the handler's fixed order of tests. */
  function Rank(c: Column): nat {
    match c
    case Tipo => 0
    case Estado => 1
    case Raza => 2
    case ColorPrincipal => 3
    case UbicacionUltima => 4
  }

  function OperatorText(op: Op): string {
    match op
    case Eq => " = "
    case Like => " LIKE "
  }

  /** The text the handler appends for one clause. */
  function ClauseText(cond: Condition): string {
    " AND " + ColumnName(cond.column) + OperatorText(cond.op) + "?"
  }

  /** A clause text is its head and a final `?`; the head names the column from
      position 5 on and holds no `?`. */
  lemma ClauseHead(cond: Condition)
    ensures var head := " AND " + ColumnName(cond.column) + OperatorText(cond.op);
            && ClauseText(cond) == head + "?"
            && |head| > 5 && head[5] == Initial(cond.column)
            && '?' !in head
  {
    var head := " AND " + ColumnName(cond.column) + OperatorText(cond.op);
    assert head[5] == ColumnName(cond.column)[0];
    assert '?' !in OperatorText(cond.op);
  }

  /** Each clause text holds one `?`, as its last character. */
  lemma ClauseShape(cond: Condition)
    ensures |ClauseText(cond)| > 5 && ClauseText(cond)[5] == Initial(cond.column)
    ensures ClauseText(cond)[|ClauseText(cond)| - 1] == '?'
    ensures '?' !in ClauseText(cond)[..|ClauseText(cond)| - 1]
    ensures Occurrences(ClauseText(cond), '?') == 1
  {
    var head := " AND " + ColumnName(cond.column) + OperatorText(cond.op);
    ClauseHead(cond);
    assert ClauseText(cond)[..|ClauseText(cond)| - 1] == head;
    OccurrencesAbsent(head, '?');
    OccurrencesAppend(head, "?", '?');
  }

  /** The clauses of a WHERE fragment, in order. */
  function Render(cs: seq<Condition>): string {
    if cs == [] then "" else ClauseText(cs[0]) + Render(cs[1..])
  }

  lemma {:induction false} RenderAppend(a: seq<Condition>, b: seq<Condition>)
    ensures Render(a + b) == Render(a) + Render(b)
  {
    if a == [] {
      assert a + b == b;
    } else {
      assert (a + b)[1..] == a[1..] + b;
      RenderAppend(a[1..], b);
    }
  }

  /** The clause whose text is `t`, if any. */
  function ClauseFor(t: string): (r: Option<Condition>)
    ensures r.Some? ==> ClauseText(r.value) == t
  {
    if |t| <= 5 then None
    else
      match ColumnByInitial(t[5])
      case None => None
      case Some(c) =>
        if t == ClauseText(Condition(c, Eq)) then Some(Condition(c, Eq))
        else if t == ClauseText(Condition(c, Like)) then Some(Condition(c, Like))
        else None
  }

  lemma ClauseForText(cond: Condition)
    ensures ClauseFor(ClauseText(cond)) == Some(cond)
  {
    ClauseShape(cond);
    assert ColumnByInitial(Initial(cond.column)) == Some(cond.column);
    var other := Condition(cond.column, if cond.op == Eq then Like else Eq);
    assert |OperatorText(other.op)| != |OperatorText(cond.op)|;
    assert |ClauseText(other)| != |ClauseText(cond)|;
  }

  /** Reads a WHERE fragment clause by clause, each clause ending at the next `?`. */
  function ParseClauses(s: string): (r: Option<seq<Condition>>)
    decreases |s|
  {
    if s == [] then Some([])
    else
      match IndexOf(s, '?')
      case None => None
      case Some(k) =>
        match ClauseFor(s[..k + 1])
        case None => None
        case Some(c) =>
          match ParseClauses(s[k + 1..])
          case None => None
          case Some(cs) => Some([c] + cs)
  }

  /** The conditions of a listing query, or `None` when the text is not one. */
  function ParseQuery(q: string): Option<seq<Condition>> {
    if SelectAll <= q then ParseClauses(q[|SelectAll|..]) else None
  }

  /** Reading a rendered fragment gives back its clauses. */
  lemma {:induction false} ParseRender(cs: seq<Condition>)
    ensures ParseClauses(Render(cs)) == Some(cs)
  {
    if cs != [] {
      var t := ClauseText(cs[0]);
      var rest := Render(cs[1..]);
      var s := Render(cs);
      ClauseShape(cs[0]);
      var head := t[..|t| - 1];
      assert t == head + ['?'];
      assert s == head + ['?'] + rest;
      IndexOfAfterPrefix(head, '?', rest);
      assert s[..|head| + 1] == t;
      assert s[|head| + 1..] == rest;
      ClauseForText(cs[0]);
      ParseRender(cs[1..]);
      assert [cs[0]] + cs[1..] == cs;
    }
  }

  lemma ParseListingQuery(cs: seq<Condition>)
    ensures ParseQuery(SelectAll + Render(cs)) == Some(cs)
  {
    var q := SelectAll + Render(cs);
    assert q[|SelectAll|..] == Render(cs);
    ParseRender(cs);
  }

  /** A fragment of `n` clauses holds `n` placeholders. */
  lemma {:induction false} PlaceholderCount(cs: seq<Condition>)
    ensures Occurrences(Render(cs), '?') == |cs|
  {
    if cs != [] {
      ClauseShape(cs[0]);
      OccurrencesAppend(ClauseText(cs[0]), Render(cs[1..]), '?');
      PlaceholderCount(cs[1..]);
    }
  }

  function Cell(p: Pet, c: Column): Option<string> {
    match c
    case Tipo => p.tipo
    case Estado => p.estado
    case Raza => p.raza
    case ColorPrincipal => p.colorPrincipal
    case UbicacionUltima => p.ubicacionUltima
  }

  /** `p` with column `c` set to `v`; every other column unchanged. */
  function WithCell(p: Pet, c: Column, v: Option<string>): (r: Pet)
    ensures Cell(r, c) == v
    ensures forall d: Column | d != c :: Cell(r, d) == Cell(p, d)
  {
    match c
    case Tipo => p.(tipo := v)
    case Estado => p.(estado := v)
    case Raza => p.(raza := v)
    case ColorPrincipal => p.(colorPrincipal := v)
    case UbicacionUltima => p.(ubicacionUltima := v)
  }

  /** A bound condition on a row; a NULL cell satisfies neither `=` nor `LIKE`. */
  predicate Holds(p: Pet, cond: Condition, param: string) {
    match Cell(p, cond.column)
    case None => false
    case Some(v) => if cond.op == Eq then v == param else Matches(v, param)
  }

  /** The database's reading of a listing query with positional parameters: the
      i-th placeholder binds the i-th parameter, and a row is returned when every
      clause holds. */
  predicate Accepts(p: Pet, query: string, params: seq<string>) {
    match ParseQuery(query)
    case None => false
    case Some(cs) => |cs| == |params| && forall i | 0 <= i < |cs| :: Holds(p, cs[i], params[i])
  }

  function FilterValue(f: Filters, c: Column): Option<string> {
    match c
    case Tipo => f.tipo
    case Estado => f.estado
    case Raza => f.raza
    case ColorPrincipal => f.colorPrincipal
    case UbicacionUltima => f.ubicacionUltima
  }

  /** `tipo` and `estado` are compared for equality, the other columns by LIKE. */
  function OpFor(c: Column): Op {
    if c == Tipo || c == Estado then Eq else Like
  }

  /** The parameter pushed for a filter value: raw for `=`, wrapped as `%v%` for LIKE. */
  function ParamFor(c: Column, v: string): string {
    if OpFor(c) == Eq then v else "%" + v + "%"
  }

  /** What one filter contributes: a clause and its parameter when truthy, nothing otherwise. */
  function Supplied(f: Filters, c: Column): seq<Binding> {
    if Truthy(FilterValue(f, c)) then [Binding(Condition(c, OpFor(c)), ParamFor(c, FilterValue(f, c).value))]
    else []
  }

  /** The bindings of a listing, in the handler's order of tests. */
  function Plan(f: Filters): seq<Binding> {
    Supplied(f, Tipo) + Supplied(f, Estado) + Supplied(f, Raza) + Supplied(f, ColorPrincipal) + Supplied(f, UbicacionUltima)
  }

  function Conditions(bs: seq<Binding>): (cs: seq<Condition>)
    ensures |cs| == |bs| && forall i | 0 <= i < |bs| :: cs[i] == bs[i].condition
  {
    seq(|bs|, i requires 0 <= i < |bs| => bs[i].condition)
  }

  function Params(bs: seq<Binding>): (ps: seq<string>)
    ensures |ps| == |bs| && forall i | 0 <= i < |bs| :: ps[i] == bs[i].param
  {
    seq(|bs|, i requires 0 <= i < |bs| => bs[i].param)
  }

  /** Appending a binding appends its clause to the text and its parameter to the list. */
  lemma Extend(bs: seq<Binding>, more: seq<Binding>)
    ensures Render(Conditions(bs + more)) == Render(Conditions(bs)) + Render(Conditions(more))
    ensures Params(bs + more) == Params(bs) + Params(more)
  {
    ConditionsAppend(bs, more);
    RenderAppend(Conditions(bs), Conditions(more));
    ParamsAppend(bs, more);
  }

  lemma ConditionsAppend(bs: seq<Binding>, more: seq<Binding>)
    ensures Conditions(bs + more) == Conditions(bs) + Conditions(more)
  {
  }

  lemma ParamsAppend(bs: seq<Binding>, more: seq<Binding>)
    ensures Params(bs + more) == Params(bs) + Params(more)
  {
  }

  predicate AnyFilter(f: Filters) {
    Truthy(f.tipo) || Truthy(f.estado) || Truthy(f.raza) || Truthy(f.colorPrincipal) || Truthy(f.ubicacionUltima)
  }

  /** The LIKE filters hold no pattern characters of their own. */
  predicate LiteralPatterns(f: Filters) {
    (Truthy(f.raza) ==> Literal(f.raza.value))
    && (Truthy(f.colorPrincipal) ==> Literal(f.colorPrincipal.value))
    && (Truthy(f.ubicacionUltima) ==> Literal(f.ubicacionUltima.value))
  }

  /** What the filters ask for: every supplied filter holds, `tipo` and `estado`
      by equality and the other three by substring containment; NULL cells
      meet no filter. */
  predicate Selected(p: Pet, f: Filters) {
    (Truthy(f.tipo) ==> p.tipo == Some(f.tipo.value))
    && (Truthy(f.estado) ==> p.estado == Some(f.estado.value))
    && (Truthy(f.raza) ==> p.raza.Some? && Includes(p.raza.value, f.raza.value))
    && (Truthy(f.colorPrincipal) ==> p.colorPrincipal.Some? && Includes(p.colorPrincipal.value, f.colorPrincipal.value))
    && (Truthy(f.ubicacionUltima) ==> p.ubicacionUltima.Some? && Includes(p.ubicacionUltima.value, f.ubicacionUltima.value))
  }

  // The clause texts the handler writes out, one column at a time.

  lemma TipoClause()
    ensures ClauseText(Condition(Tipo, OpFor(Tipo))) == " AND tipo = ?"
  {
  }

  lemma EstadoClause()
    ensures ClauseText(Condition(Estado, OpFor(Estado))) == " AND estado = ?"
  {
  }

  lemma RazaClause()
    ensures ClauseText(Condition(Raza, OpFor(Raza))) == " AND raza LIKE ?"
  {
  }

  lemma ColorClause()
    ensures ClauseText(Condition(ColorPrincipal, OpFor(ColorPrincipal))) == " AND color_principal LIKE ?"
  {
  }

  lemma UbicacionClause()
    ensures ClauseText(Condition(UbicacionUltima, OpFor(UbicacionUltima))) == " AND ubicacion_ultima LIKE ?"
  {
  }

  lemma SelectAllShape()
    ensures '?' !in SelectAll
  {
  }

  /** A listing query holds exactly one placeholder per clause. */
  lemma ListingPlaceholders(cs: seq<Condition>)
    ensures Occurrences(SelectAll + Render(cs), '?') == |cs|
  {
    SelectAllShape();
    OccurrencesAbsent(SelectAll, '?');
    OccurrencesAppend(SelectAll, Render(cs), '?');
    PlaceholderCount(cs);
  }

  /** One test of the handler extends the text and the parameters by what the filter supplies. */
  lemma StepAppends(f: Filters, c: Column, plan: seq<Binding>)
    ensures Render(Conditions(plan + Supplied(f, c)))
         == Render(Conditions(plan)) + (if Truthy(FilterValue(f, c)) then ClauseText(Condition(c, OpFor(c))) else "")
    ensures Params(plan + Supplied(f, c))
         == Params(plan) + (if Truthy(FilterValue(f, c)) then [ParamFor(c, FilterValue(f, c).value)] else [])
  {
    Extend(plan, Supplied(f, c));
    assert Render(Conditions([])) == "";
    if Truthy(FilterValue(f, c)) {
      var b := Supplied(f, c)[0];
      assert Conditions(Supplied(f, c)) == [b.condition];
      assert Render([b.condition]) == ClauseText(b.condition) + Render([]);
    }
  }

  /** Regrouping appends; as a separate lemma it keeps `Step`'s proof context small. */
  lemma ConcatAssoc<T>(a: seq<T>, b: seq<T>, c: seq<T>)
    ensures a + b + c == a + (b + c)
  {
  }

  /** The state of the handler after its tests of the columns bound in `plan`. */
  ghost predicate BuiltSoFar(query: string, params: seq<string>, plan: seq<Binding>) {
    query == SelectAll + Render(Conditions(plan)) && params == Params(plan)
  }

  /** The handler's test of column `c` keeps `BuiltSoFar` with `Supplied(f, c)` added. */
  lemma Step(f: Filters, c: Column, plan: seq<Binding>, query: string, params: seq<string>,
             query': string, params': seq<string>)
    requires BuiltSoFar(query, params, plan)
    requires Truthy(FilterValue(f, c)) ==>
      query' == query + ClauseText(Condition(c, OpFor(c))) && params' == params + [ParamFor(c, FilterValue(f, c).value)]
    requires !Truthy(FilterValue(f, c)) ==> query' == query && params' == params
    ensures BuiltSoFar(query', params', plan + Supplied(f, c))
  {
    StepAppends(f, c, plan);
    var text := if Truthy(FilterValue(f, c)) then ClauseText(Condition(c, OpFor(c))) else "";
    assert query' == query + text;
    ConcatAssoc(SelectAll, Render(Conditions(plan)), text);
  }

  /** The listing query for a set of filters: `SelectAll`, one clause per
      truthy filter in the order tipo, estado, raza, color_principal,
      ubicacion_ultima, and one parameter per clause. */
  method BuildListingQuery(f: Filters) returns (query: string, params: seq<string>)
    ensures query == SelectAll + Render(Conditions(Plan(f))) && params == Params(Plan(f))
    ensures Occurrences(query, '?') == |params|
    ensures !AnyFilter(f) ==> query == SelectAll && params == []
    ensures ParseQuery(query) == Some(Conditions(Plan(f)))
    ensures LiteralPatterns(f) ==> forall p: Pet :: Accepts(p, query, params) <==> Selected(p, f)
  {
    query := SelectAll;
    params := [];
    ghost var plan: seq<Binding> := [];
    ghost var query0, params0 := query, params;
    assert BuiltSoFar(query, params, plan);

    if Truthy(f.tipo) {
      query := query + " AND tipo = ?";
      params := params + [f.tipo.value];
    }
    TipoClause();
    Step(f, Tipo, plan, query0, params0, query, params);
    assert [] + Supplied(f, Tipo) == Supplied(f, Tipo);
    plan, query0, params0 := Supplied(f, Tipo), query, params;

    if Truthy(f.estado) {
      query := query + " AND estado = ?";
      params := params + [f.estado.value];
    }
    EstadoClause();
    Step(f, Estado, plan, query0, params0, query, params);
    plan, query0, params0 := plan + Supplied(f, Estado), query, params;

    if Truthy(f.raza) {
      query := query + " AND raza LIKE ?";
      params := params + ["%" + f.raza.value + "%"];
    }
    RazaClause();
    Step(f, Raza, plan, query0, params0, query, params);
    plan, query0, params0 := plan + Supplied(f, Raza), query, params;

    if Truthy(f.colorPrincipal) {
      query := query + " AND color_principal LIKE ?";
      params := params + ["%" + f.colorPrincipal.value + "%"];
    }
    ColorClause();
    Step(f, ColorPrincipal, plan, query0, params0, query, params);
    plan, query0, params0 := plan + Supplied(f, ColorPrincipal), query, params;

    if Truthy(f.ubicacionUltima) {
      query := query + " AND ubicacion_ultima LIKE ?";
      params := params + ["%" + f.ubicacionUltima.value + "%"];
    }
    UbicacionClause();
    Step(f, UbicacionUltima, plan, query0, params0, query, params);
    plan := plan + Supplied(f, UbicacionUltima);
    ListingFacts(f, query, params);
  }

  /** The bindings' columns strictly follow the handler's order of tests. */
  ghost predicate InTestOrder(bs: seq<Binding>) {
    forall i, j | 0 <= i < j < |bs| :: Rank(bs[i].condition.column) < Rank(bs[j].condition.column)
  }

  lemma InTestOrderAppend(a: seq<Binding>, b: seq<Binding>)
    requires InTestOrder(a) && InTestOrder(b)
    requires forall x, y | x in a && y in b :: Rank(x.condition.column) < Rank(y.condition.column)
    ensures InTestOrder(a + b)
  {
    forall i, j | 0 <= i < j < |a + b|
      ensures Rank((a + b)[i].condition.column) < Rank((a + b)[j].condition.column)
    {
      if i < |a| && j >= |a| {
        assert (a + b)[i] in a && (a + b)[j] in b;
      }
    }
  }

  /** The binding a truthy filter on column `c` contributes. */
  function BindingFor(f: Filters, c: Column): Binding
    requires Truthy(FilterValue(f, c))
  {
    Binding(Condition(c, OpFor(c)), ParamFor(c, FilterValue(f, c).value))
  }

  lemma SuppliedColumn(f: Filters, c: Column)
    ensures forall b | b in Supplied(f, c) :: Truthy(FilterValue(f, c)) && b == BindingFor(f, c) && b.condition.column == c
    ensures Truthy(FilterValue(f, c)) ==> Supplied(f, c) == [BindingFor(f, c)]
    ensures !Truthy(FilterValue(f, c)) ==> Supplied(f, c) == []
  {
  }

  /** The plan holds one binding per truthy filter and nothing else; a falsy
      filter contributes nothing. */
  lemma PlanBindings(f: Filters)
    ensures forall b | b in Plan(f) :: Truthy(FilterValue(f, b.condition.column)) && b == BindingFor(f, b.condition.column)
    ensures forall c: Column | Truthy(FilterValue(f, c)) :: BindingFor(f, c) in Plan(f)
    ensures !AnyFilter(f) ==> Plan(f) == []
  {
    SuppliedColumn(f, Tipo);
    SuppliedColumn(f, Estado);
    SuppliedColumn(f, Raza);
    SuppliedColumn(f, ColorPrincipal);
    SuppliedColumn(f, UbicacionUltima);
    forall c: Column | Truthy(FilterValue(f, c)) ensures BindingFor(f, c) in Plan(f) {
      assert BindingFor(f, c) in Supplied(f, c);
    }
  }

  /** Adding the bindings of a column ranked after every column so far keeps the order. */
  lemma AppendSupplied(f: Filters, a: seq<Binding>, c: Column)
    requires InTestOrder(a)
    requires forall x | x in a :: Rank(x.condition.column) < Rank(c)
    ensures InTestOrder(a + Supplied(f, c))
    ensures forall x | x in a + Supplied(f, c) :: Rank(x.condition.column) <= Rank(c)
  {
    SuppliedColumn(f, c);
    InTestOrderAppend(a, Supplied(f, c));
  }

  /** The plan's clauses come in the fixed order tipo, estado, raza,
      color_principal, ubicacion_ultima. */
  lemma PlanOrder(f: Filters)
    ensures InTestOrder(Plan(f))
  {
    var s1, s2, s3, s4, s5 := Supplied(f, Tipo), Supplied(f, Estado), Supplied(f, Raza),
                              Supplied(f, ColorPrincipal), Supplied(f, UbicacionUltima);
    SuppliedColumn(f, Tipo);
    AppendSupplied(f, s1, Estado);
    AppendSupplied(f, s1 + s2, Raza);
    AppendSupplied(f, s1 + s2 + s3, ColorPrincipal);
    AppendSupplied(f, s1 + s2 + s3 + s4, UbicacionUltima);
  }

  /** What the listing query for `f` means: its placeholders match its
      parameters, it reads back as the planned conditions, and (for values free
      of LIKE pattern characters) it returns exactly the rows that meet the filters. */
  lemma ListingFacts(f: Filters, query: string, params: seq<string>)
    requires query == SelectAll + Render(Conditions(Plan(f))) && params == Params(Plan(f))
    ensures Occurrences(query, '?') == |params|
    ensures !AnyFilter(f) ==> query == SelectAll && params == []
    ensures ParseQuery(query) == Some(Conditions(Plan(f)))
    ensures LiteralPatterns(f) ==> forall p: Pet :: Accepts(p, query, params) <==> Selected(p, f)
  {
    ListingPlaceholders(Conditions(Plan(f)));
    ParseListingQuery(Conditions(Plan(f)));
    if !AnyFilter(f) {
      assert Render(Conditions([])) == "";
    }
    if LiteralPatterns(f) {
      forall p: Pet ensures Accepts(p, query, params) <==> Selected(p, f) {
        QueryMeaning(p, f);
      }
    }
  }

  /** Every bound clause holds of the row. */
  ghost predicate AllHold(p: Pet, bs: seq<Binding>) {
    forall i | 0 <= i < |bs| :: Holds(p, bs[i].condition, bs[i].param)
  }

  lemma AllHoldAppend(p: Pet, a: seq<Binding>, b: seq<Binding>)
    ensures AllHold(p, a + b) <==> AllHold(p, a) && AllHold(p, b)
  {
    if AllHold(p, a) && AllHold(p, b) {
      forall i | 0 <= i < |a + b| ensures Holds(p, (a + b)[i].condition, (a + b)[i].param) {
        if i >= |a| {
          assert (a + b)[i] == b[i - |a|];
        }
      }
    }
    if AllHold(p, a + b) {
      forall i | 0 <= i < |a| ensures Holds(p, a[i].condition, a[i].param) {
        assert (a + b)[i] == a[i];
      }
      forall i | 0 <= i < |b| ensures Holds(p, b[i].condition, b[i].param) {
        assert (a + b)[i + |a|] == b[i];
      }
    }
  }

  /** What one filter's clause demands of a row. */
  lemma SuppliedMeaning(p: Pet, f: Filters, c: Column)
    requires OpFor(c) == Like && Truthy(FilterValue(f, c)) ==> Literal(FilterValue(f, c).value)
    ensures AllHold(p, Supplied(f, c)) <==>
      (Truthy(FilterValue(f, c)) ==>
        Cell(p, c).Some? &&
        (if OpFor(c) == Eq then Cell(p, c).value == FilterValue(f, c).value
         else Includes(Cell(p, c).value, FilterValue(f, c).value)))
  {
    SuppliedColumn(f, c);
    if Truthy(FilterValue(f, c)) {
      var b := BindingFor(f, c);
      assert AllHold(p, [b]) <==> Holds(p, b.condition, b.param);
      if OpFor(c) == Like && Cell(p, c).Some? {
        ContainsPattern(Cell(p, c).value, FilterValue(f, c).value);
      }
    }
  }

  /** A listing query built from a plan returns exactly the rows every binding holds of. */
  lemma AcceptsPlan(p: Pet, plan: seq<Binding>)
    ensures Accepts(p, SelectAll + Render(Conditions(plan)), Params(plan)) <==> AllHold(p, plan)
  {
    ParseListingQuery(Conditions(plan));
  }

  /** Under the substring reading of LIKE (filter values free of pattern
      characters), a row is returned by the built query exactly when it meets
      every supplied filter. */
  lemma QueryMeaning(p: Pet, f: Filters)
    requires LiteralPatterns(f)
    ensures Accepts(p, SelectAll + Render(Conditions(Plan(f))), Params(Plan(f))) <==> Selected(p, f)
  {
    var plan := Plan(f);
    AcceptsPlan(p, plan);
    var s1, s2, s3, s4, s5 := Supplied(f, Tipo), Supplied(f, Estado), Supplied(f, Raza),
                              Supplied(f, ColorPrincipal), Supplied(f, UbicacionUltima);
    AllHoldAppend(p, s1 + s2 + s3 + s4, s5);
    AllHoldAppend(p, s1 + s2 + s3, s4);
    AllHoldAppend(p, s1 + s2, s3);
    AllHoldAppend(p, s1, s2);
    SuppliedMeaning(p, f, Tipo);
    SuppliedMeaning(p, f, Estado);
    SuppliedMeaning(p, f, Raza);
    SuppliedMeaning(p, f, ColorPrincipal);
    SuppliedMeaning(p, f, UbicacionUltima);
  }

  /** An absent or empty filter never excludes a row: whatever the row holds in
      that column, the built query returns it or not alike. */
  lemma UnfilteredColumnIrrelevant(p: Pet, f: Filters, c: Column, v: Option<string>)
    requires !Truthy(FilterValue(f, c))
    ensures Accepts(p, SelectAll + Render(Conditions(Plan(f))), Params(Plan(f)))
        <==> Accepts(WithCell(p, c, v), SelectAll + Render(Conditions(Plan(f))), Params(Plan(f)))
  {
    var plan := Plan(f);
    PlanBindings(f);
    AcceptsPlan(p, plan);
    AcceptsPlan(WithCell(p, c, v), plan);
    forall i | 0 <= i < |plan|
      ensures Holds(p, plan[i].condition, plan[i].param) == Holds(WithCell(p, c, v), plan[i].condition, plan[i].param)
    {
      assert plan[i] in plan;
      assert plan[i].condition.column != c;
    }
  }

  /** With no truthy filter, the query returns every row. */
  lemma NoFilterReturnsAll(p: Pet, f: Filters)
    requires !AnyFilter(f)
    ensures Accepts(p, SelectAll + Render(Conditions(Plan(f))), Params(Plan(f)))
  {
    PlanBindings(f);
    AcceptsPlan(p, Plan(f));
  }

  /** A LIKE filter value is not escaped: `raza=_` returns a row whose breed is
      "x", which does not contain "_". */
  lemma UnescapedWildcard()
    ensures var f := Filters(None, None, Some("_"), None, None);
            var p := Pet(1, 1, None, None, Some("x"), None, None, None);
            Accepts(p, SelectAll + Render(Conditions(Plan(f))), Params(Plan(f))) && !Selected(p, f)
  {
    var f := Filters(None, None, Some("_"), None, None);
    var p := Pet(1, 1, None, None, Some("x"), None, None, None);
    var plan := Plan(f);
    assert Supplied(f, Tipo) == [] && Supplied(f, Estado) == [] && Supplied(f, ColorPrincipal) == [] &&
           Supplied(f, UbicacionUltima) == [];
    assert plan == [Binding(Condition(Raza, Like), "%" + "_" + "%")];
    AcceptsPlan(p, plan);
    WildcardPattern();
    assert Holds(p, plan[0].condition, plan[0].param);
  }
}
