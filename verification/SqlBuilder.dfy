/**
 Compiling a query to SQLite (src/sqlite/builder.rs): every element becomes conditions
 of the WHERE conjunction with positionally bound arguments, and the conjunction under
 SQL's three-valued logic means that every element holds.
 */
module SqlBuilder {
  import opened Common
  import opened QueryParser
  import opened SqlLike
  import opened SqlValues
  import S = SqlPieces

  // ----- rows and three-valued logic

  datatype Truth = True | False | Unknown

  function Not(a: Truth): Truth { match a case True => False case False => True case Unknown => Unknown }

  function And(a: Truth, b: Truth): Truth {
    if a == False || b == False then False else if a == True && b == True then True else Unknown
  }

  function Or(a: Truth, b: Truth): Truth { Not(And(Not(a), Not(b))) }

  function Of(b: bool): Truth { if b then True else False }

  function Equal(a: Sql, b: Sql): Truth {
    if a.Null? || b.Null? then Unknown else Of(a == b)
  }

  datatype Join = DnsQueries | DnsAnswers

  /** A joined row: the event's columns, the JSON accessors of its source, and for each
      joined alias the accessor of its `value`. */
  datatype Row = Row(source: string, timestamp: int, archived: int, escalated: int,
                     extract: string -> Sql,       // json_extract(events.source, '$.path')
                     arrow: string -> Sql,         // events.source->>'field'
                     dns: string -> Sql,           // events.source->>'dns'->>'field'
                     queries: Option<seq<string> -> Sql>,
                     answers: Option<seq<string> -> Sql>,
                     glob: (string, string) -> bool,
                     fts: string -> bool)

  // ----- conditions

  datatype Cmp = Gte | Gt | Lte | Lt

  /** One pushed condition. `Template` has its SQL text, which the comment abridges. */
  datatype Clause =
    | SourceLike(negated: bool)                 // events.source [NOT] LIKE ?
    | Extract(field: string, neq: bool)         // json_extract(events.source, '$.path') =|!= ?
    | Arrow(field: string, neq: bool)           // events.source->>'field' =|!= ?
    | DnsType(one: string, other: string)       // (dns.type = 'one' OR dns.type = 'other')
    | Rrname                                    // (dns.rrname = ? OR _dns_queries.value->>'rrname' = ?)
    | QueryField(path: seq<string>)             // _dns_queries.value->>path = ?
    | AnswerField(path: seq<string>)            // _dns_answers.value->>path = ?
    | DnsGlob(field: string)                    // dns.field GLOB ?
    | Timestamp(cmp: Cmp)                       // timestamp cmp ?
    | ArchivedIs | EscalatedIs                  // events.archived = ?
    | FtsMatch                                  // events.rowid in (select rowid from fts where fts match ?)

  function Holes(c: Clause): nat {
    match c
    case DnsType(_, _) => 0
    case Rrname => 2
    case _ => 1
  }

  // ----- their SQL text

  /** Code, a literal, and what follows. */
  function Then(code: string, literal: string, rest: seq<S.Piece>): (ps: seq<S.Piece>)
    ensures ps != [] && ps[0] == S.Code(code)
  {
    [S.Code(code), S.Quote(literal)] + rest
  }

  /** The text of a condition in pieces; fields and path parts are spliced between
      apostrophes as they are. */
  function Template(c: Clause): (ps: seq<S.Piece>)
    ensures ps != [] && ps[0].Code?
  {
    match c
    case SourceLike(negated) => [S.Code(if negated then "events.source NOT LIKE ?" else "events.source LIKE ?")]
    case Extract(field, neq) =>
      Then("json_extract(events.source, ", "$." + field, [S.Code(if neq then ") != ?" else ") = ?")])
    case Arrow(field, neq) => Then("events.source->>", field, [S.Code(if neq then " != ?" else " = ?")])
    case DnsType(one, other) =>
      Then("(events.source->>", "dns", Then("->>", "type", Then(" = ", one,
        Then(" OR events.source->>", "dns", Then("->>", "type", Then(" = ", other, [S.Code(")")]))))))
    case Rrname =>
      Then("(events.source->>", "dns", Then("->>", "rrname",
        Then(" = ?" + " OR _dns_queries.value->>", "rrname", [S.Code(" = ?)")])))
    case QueryField(path) => [S.Code("_dns_queries.value->>")] + PathPieces(path) + [S.Code(" = ?")]
    case AnswerField(path) => [S.Code("_dns_answers.value->>")] + PathPieces(path) + [S.Code(" = ?")]
    case DnsGlob(field) => Then("events.source->>", "dns", Then("->>", field, [S.Code(" GLOB ?")]))
    case Timestamp(cmp) => [S.Code("timestamp " + Operator(cmp) + " ?")]
    case ArchivedIs => [S.Code("events.archived = ?")]
    case EscalatedIs => [S.Code("events.escalated = ?")]
    case FtsMatch => [S.Code("events.rowid in (select rowid " + "from fts where fts match ?)")]
  }

  function Operator(cmp: Cmp): string {
    match cmp case Gte => ">=" case Gt => ">" case Lte => "<=" case Lt => "<"
  }

  /** The path parts, each between apostrophes, joined by `->>`. */
  function PathPieces(path: seq<string>): seq<S.Piece> {
    if path == [] then []
    else if |path| == 1 then [S.Quote(path[0])]
    else [S.Quote(path[0]), S.Code("->>")] + PathPieces(path[1..])
  }

  /** The conditions joined by ` and `. */
  function WhereText(cs: seq<Clause>): string {
    if cs == [] then ""
    else if |cs| == 1 then S.Render('\'', Template(cs[0]))
    else S.Render('\'', Template(cs[0])) + " and " + WhereText(cs[1..])
  }

  predicate UsesQueries(c: Clause) { c.Rrname? || c.QueryField? }
  predicate UsesAnswers(c: Clause) { c.AnswerField? }

  /** Evaluating a condition on a row whose aliases it uses are joined. */
  predicate Evaluable(c: Clause, r: Row) {
    (UsesQueries(c) ==> r.queries.Some?) && (UsesAnswers(c) ==> r.answers.Some?)
  }

  function TextOf(v: Sql): string { if v.Str? then v.s else "" }
  function NumberOf(v: Sql): int { if v.Int? then v.n else 0 }

  function Eval(c: Clause, args: seq<Sql>, r: Row): Truth
    requires |args| == Holes(c) && Evaluable(c, r)
  {
    match c
    case SourceLike(negated) =>
      var m := Of(Like(TextOf(args[0]), r.source));
      if negated then Not(m) else m
    case Extract(field, neq) => if neq then Not(Equal(r.extract(field), args[0])) else Equal(r.extract(field), args[0])
    case Arrow(field, neq) => if neq then Not(Equal(r.arrow(field), args[0])) else Equal(r.arrow(field), args[0])
    case DnsType(one, other) => Or(Equal(r.dns("type"), Str(one)), Equal(r.dns("type"), Str(other)))
    case Rrname => Or(Equal(r.dns("rrname"), args[0]), Equal(r.queries.value(["rrname"]), args[1]))
    case QueryField(path) => Equal(r.queries.value(path), args[0])
    case AnswerField(path) => Equal(r.answers.value(path), args[0])
    case DnsGlob(field) =>
      if r.dns(field).Str? then Of(r.glob(TextOf(args[0]), r.dns(field).s))
      else if r.dns(field).Null? then Unknown else False
    case Timestamp(cmp) =>
      var t := NumberOf(args[0]);
      Of(match cmp case Gte => r.timestamp >= t case Gt => r.timestamp > t
               case Lte => r.timestamp <= t case Lt => r.timestamp < t)
    case ArchivedIs => Equal(Int(r.archived), args[0])
    case EscalatedIs => Equal(Int(r.escalated), args[0])
    case FtsMatch => Of(r.fts(TextOf(args[0])))
  }

  function AllHoles(cs: seq<Clause>): nat {
    if cs == [] then 0 else Holes(cs[0]) + AllHoles(cs[1..])
  }

  ghost predicate AllEvaluable(cs: seq<Clause>, r: Row) {
    forall i :: 0 <= i < |cs| ==> Evaluable(cs[i], r)
  }

  /** The conjunction: the i-th placeholder of the whole text takes the i-th argument. */
  function Conjunction(cs: seq<Clause>, args: seq<Sql>, r: Row): Truth
    requires |args| == AllHoles(cs) && forall i :: 0 <= i < |cs| ==> Evaluable(cs[i], r)
  {
    if cs == [] then True
    else
      var h := Holes(cs[0]);
      And(Eval(cs[0], args[..h], r), Conjunction(cs[1..], args[h..], r))
  }

  // ----- what the compiler pushes for one element

  function Alias(k: string): string {
    if k == "@sid" then "alert.signature_id" else if k == "@sig" then "alert.signature" else k
  }

  datatype Pushed = Pushed(clause: Clause, args: seq<Sql>)

  function PushText(negated: bool, fts: bool, s: string): seq<Pushed> {
    if !negated && fts then [] else [Pushed(SourceLike(negated), [Str(Pattern(s))])]
  }

  /** The condition for a key that is neither `@ip`, `@mac` nor a port, not negated. */
  function PushField(k: string, v: string): Pushed {
    if k == "dns.type" && (v == "query" || v == "request") then Pushed(DnsType("query", "request"), [])
    else if k == "dns.type" && (v == "response" || v == "answer") then Pushed(DnsType("answer", "response"), [])
    else if k == "dns.rrname" || k == "dns.queries.rrname" then Pushed(Rrname, [Str(v), Str(v)])
    else if "dns.queries." <= k then Pushed(QueryField(PathAfterTwo(k)), [Str(v)])
    else if "dns.answers." <= k then Pushed(AnswerField(PathAfterTwo(k)), [Str(v)])
    else if "dns.authorities" <= k then Pushed(DnsGlob("authorities"), [Str("*" + v + "*")])
    else if "dns.additionals" <= k then Pushed(DnsGlob("additionals"), [Str("*" + v + "*")])
    else Pushed(Extract(k, false), [Bind(v)])
  }

  function Push(fts: bool, e: Element): seq<Pushed> {
    match e.value
    case Text(s) => PushText(e.negated, fts, s)
    case KeyValue(k0, v) =>
      var k := Alias(k0);
      if k == "@ip" || k == "@mac" then PushText(e.negated, fts, v)
      else if k == "src_port" || k == "dest_port" then [Pushed(Arrow(k, e.negated), [Bind(v)])]
      else if e.negated then [Pushed(Extract(k, true), [Bind(v)])]
      else [PushField(k, v)]
    case From(t) => [Pushed(Timestamp(Gte), [Int(t)])]
    case To(t) => [Pushed(Timestamp(Lte), [Int(t)])]
    case After(t) => [Pushed(Timestamp(Gt), [Int(t)])]
    case Before(t) => [Pushed(Timestamp(Lt), [Int(t)])]
    case Archived => [Pushed(ArchivedIs, [Int(if e.negated then 0 else 1)])]
    case Escalated => [Pushed(EscalatedIs, [Int(if e.negated then 0 else 1)])]
  }

  /** The full-text phrases an element adds. */
  function Phrases(fts: bool, e: Element): seq<string> {
    if !fts || e.negated then []
    else match e.value
      case Text(s) => [Phrase(s)]
      case KeyValue(k0, v) =>
        var k := Alias(k0);
        if k == "@ip" || k == "@mac" || k == "community_id" || k == "timestamp" || "dhcp" <= k then [Phrase(v)] else []
      case _ => []
  }

  function Phrase(s: string): string { "\"" + s + "\"" }

  // ----- what an element means

  /** The field has the value that the text stands for, or is there and has another. */
  ghost predicate ValueIs(x: Sql, v: string) { StandsFor(v, x) }
  ghost predicate ValueIsNot(x: Sql, v: string) { !x.Null? && !StandsFor(v, x) }
  ghost predicate TextIs(x: Sql, s: string) { x == Str(s) }

  /** The text occurs in the source, unless the full-text index answers it. */
  ghost predicate TextHolds(negated: bool, fts: bool, s: string, r: Row) {
    if negated then !Like("%" + s + "%", r.source) else fts || Like("%" + s + "%", r.source)
  }

  /** The value in a joined list at the path that the rest of the key writes. */
  ghost predicate ListedIs(list: seq<string> -> Sql, head: string, k: string, v: string) {
    exists path :: IsPath(path, head, k) && TextIs(list(path), v)
  }

  /** A positive field search on an event. */
  ghost predicate FieldHolds(k: string, v: string, r: Row)
    requires "dns.queries" <= k || k == "dns.rrname" ==> r.queries.Some?
    requires "dns.answers." <= k ==> r.answers.Some?
  {
    if k == "dns.type" && (v == "query" || v == "request") then
      TextIs(r.dns("type"), "query") || TextIs(r.dns("type"), "request")
    else if k == "dns.type" && (v == "response" || v == "answer") then
      TextIs(r.dns("type"), "answer") || TextIs(r.dns("type"), "response")
    else if k == "dns.rrname" || k == "dns.queries.rrname" then
      TextIs(r.dns("rrname"), v) || TextIs(r.queries.value(["rrname"]), v)
    else if "dns.queries." <= k then ListedIs(r.queries.value, "dns.queries.", k, v)
    else if "dns.answers." <= k then ListedIs(r.answers.value, "dns.answers.", k, v)
    else if "dns.authorities" <= k then r.dns("authorities").Str? && r.glob("*" + v + "*", r.dns("authorities").s)
    else if "dns.additionals" <= k then r.dns("additionals").Str? && r.glob("*" + v + "*", r.dns("additionals").s)
    else ValueIs(r.extract(k), v)
  }

  /** The joins that an element asks for. */
  function JoinFor(e: Element): Option<Join> {
    if e.value.KeyValue? then
      var k := e.value.key;
      if k == "dns.rrname" || "dns.queries" <= k then Some(DnsQueries)
      else if "dns.answers." <= k then Some(DnsAnswers)
      else None
    else None
  }

  predicate Joined(j: Option<Join>, r: Row) {
    (j == Some(DnsQueries) ==> r.queries.Some?) && (j == Some(DnsAnswers) ==> r.answers.Some?)
  }

  /** What a query element asks of an event, from the keys and values as written. A negated
      field search asks that the field is there and has another value. */
  ghost predicate Holds(fts: bool, e: Element, r: Row)
    requires Joined(JoinFor(e), r)
  {
    match e.value
    case Text(s) => TextHolds(e.negated, fts, s, r)
    case KeyValue(k, v) =>
      PrefixesApart(k);
      if k == "@ip" || k == "@mac" then TextHolds(e.negated, fts, v, r)
      else if k == "@sid" then SignedValue(e.negated, r.extract("alert.signature_id"), v)
      else if k == "@sig" then SignedValue(e.negated, r.extract("alert.signature"), v)
      else if k == "src_port" || k == "dest_port" then SignedValue(e.negated, r.arrow(k), v)
      else if e.negated then ValueIsNot(r.extract(k), v)
      else FieldHolds(k, v, r)
    case From(t) => r.timestamp >= t
    case To(t) => r.timestamp <= t
    case After(t) => r.timestamp > t
    case Before(t) => r.timestamp < t
    case Archived => r.archived == if e.negated then 0 else 1
    case Escalated => r.escalated == if e.negated then 0 else 1
  }

  ghost predicate SignedValue(negated: bool, x: Sql, v: string) {
    if negated then ValueIsNot(x, v) else ValueIs(x, v)
  }

  lemma PrefixesApart(k: string)
    ensures "dns.answers." <= k ==> !("dns.queries" <= k) && k != "dns.rrname"
  {
    assert "dns.queries"[4] == 'q' && "dns.answers."[4] == 'a' && "dns.rrname"[4] == 'r';
  }

  lemma AliasKeepsPrefixes(k: string)
    ensures "dns.queries" <= Alias(k) ==> "dns.queries" <= k
    ensures "dns.answers." <= Alias(k) ==> "dns.answers." <= k
    ensures Alias(k) == "dns.rrname" ==> k == "dns.rrname"
    ensures "dns.queries" <= k ==> !("dns.answers." <= k)
  {
    assert "alert.signature_id"[0] == 'a' && "alert.signature"[0] == 'a'
        && "dns.queries"[0] == 'd' && "dns.answers."[0] == 'd';
    assert "dns.queries"[4] == 'q' && "dns.answers."[4] == 'a';
  }

  lemma TextMeansHolds(negated: bool, fts: bool, s: string, r: Row)
    ensures var ps := PushText(negated, fts, s);
      && |ps| <= 1 && (ps == [] ==> TextHolds(negated, fts, s, r))
      && (ps != [] ==> Fits(ps[0], r) && (Eval(ps[0].clause, ps[0].args, r) == True <==> TextHolds(negated, fts, s, r)))
  {
    hide Like;
  }

  lemma FieldMeansHolds(k: string, v: string, r: Row)
    requires "dns.queries" <= k || k == "dns.rrname" ==> r.queries.Some?
    requires "dns.answers." <= k ==> r.answers.Some?
    ensures var p := PushField(k, v); Fits(p, r) && (Eval(p.clause, p.args, r) == True <==> FieldHolds(k, v, r))
  {
    hide Like, Pattern, Bind, PathAfterTwo, StandsFor, ListedIs;
    QueriesPrefix(k);
    BindIff(v, r.extract(k));
    assert "dns." + "queries" + "." == "dns.queries." && "dns." + "answers" + "." == "dns.answers.";
    assert '.' !in "queries" && '.' !in "answers";
    if "dns.queries." <= k {
      ListedMeans(r.queries.value, "queries", k, v);
    }
    if "dns.answers." <= k {
      ListedMeans(r.answers.value, "answers", k, v);
    }
  }

  lemma ListedMeans(list: seq<string> -> Sql, name: string, k: string, v: string)
    requires '.' !in name && "dns." + name + "." <= k
    ensures ListedIs(list, "dns." + name + ".", k, v) <==> TextIs(list(PathAfterTwo(k)), v)
  {
    hide PathAfterTwo, IsPath;
    forall path | IsPath(path, "dns." + name + ".", k) ensures path == PathAfterTwo(k) {
      PathIff(k, name, path);
    }
    PathIff(k, name, PathAfterTwo(k));
  }

  lemma SignedMeans(c: Clause, field: string, negated: bool, v: string, r: Row)
    requires c == Extract(field, negated) || c == Arrow(field, negated)
    ensures Eval(c, [Bind(v)], r) == True <==>
      SignedValue(negated, if c.Extract? then r.extract(field) else r.arrow(field), v)
  {
    hide Like, Bind, StandsFor;
    BindIff(v, if c.Extract? then r.extract(field) else r.arrow(field));
  }

  lemma QueriesPrefix(k: string)
    ensures "dns.queries." <= k || k == "dns.queries.rrname" ==> "dns.queries" <= k
  {
    if "dns.queries." <= k {
      assert "dns.queries."[..11] == "dns.queries";
    }
  }

  predicate Fits(p: Pushed, r: Row) {
    |p.args| == Holes(p.clause) && Evaluable(p.clause, r)
  }

  lemma PairMeansHolds(fts: bool, e: Element, r: Row)
    requires e.value.KeyValue? && Joined(JoinFor(e), r)
    ensures PushedRight(fts, e, r)
  {
    hide Like, Pattern, Bind, PushField, FieldHolds, PushText, TextHolds, StandsFor, Eval;
    AliasKeepsPrefixes(e.value.key);
    var k, v := Alias(e.value.key), e.value.value;
    if k == "@ip" || k == "@mac" {
      TextMeansHolds(e.negated, fts, v, r);
    } else if k == "src_port" || k == "dest_port" {
      SignedMeans(Arrow(k, e.negated), k, e.negated, v, r);
    } else if e.negated {
      SignedMeans(Extract(k, true), k, true, v, r);
    } else if e.value.key == "@sid" || e.value.key == "@sig" {
      ShortHandPushes(k, v);
      SignedMeans(Extract(k, false), k, false, v, r);
    } else {
      FieldMeansHolds(k, v, r);
    }
  }

  /** The fields that short-hand keys stand for are no special ones. */
  lemma ShortHandPushes(k: string, v: string)
    requires k == "alert.signature_id" || k == "alert.signature"
    ensures PushField(k, v) == Pushed(Extract(k, false), [Bind(v)])
  {
    assert "alert.signature_id"[0] == "alert.signature"[0] == 'a';
    assert "dns.type"[0] == "dns.rrname"[0] == "dns.queries.rrname"[0] == "dns.queries."[0] == "dns.answers."[0] == 'd';
    assert "dns.authorities"[0] == "dns.additionals"[0] == 'd';
  }

  /** One condition at most is pushed for an element, and it is true exactly when the
      element holds. */
  ghost predicate PushedRight(fts: bool, e: Element, r: Row)
    requires Joined(JoinFor(e), r)
  {
    var ps := Push(fts, e);
    && |ps| <= 1
    && (ps == [] ==> Holds(fts, e, r))
    && (ps != [] ==> Fits(ps[0], r) && (Eval(ps[0].clause, ps[0].args, r) == True <==> Holds(fts, e, r)))
  }

  lemma PushedMeansHolds(fts: bool, e: Element, r: Row)
    requires Joined(JoinFor(e), r)
    ensures PushedRight(fts, e, r)
  {
    hide Like, Pattern, Bind, StandsFor;
    match e.value
    case Text(s) => TextMeansHolds(e.negated, fts, s, r);
    case KeyValue(_, _) => PairMeansHolds(fts, e, r);
    case _ =>
  }

  // ----- the whole query

  function Compile(fts: bool, q: seq<Element>): seq<Pushed> {
    if q == [] then [] else Push(fts, q[0]) + Compile(fts, q[1..])
  }

  function Clauses(ps: seq<Pushed>): (cs: seq<Clause>)
    ensures |cs| == |ps| && forall i :: 0 <= i < |cs| ==> cs[i] == ps[i].clause
  {
    if ps == [] then [] else [ps[0].clause] + Clauses(ps[1..])
  }

  function Args(ps: seq<Pushed>): seq<Sql> {
    if ps == [] then [] else ps[0].args + Args(ps[1..])
  }

  ghost predicate WellPushed(ps: seq<Pushed>, r: Row) {
    forall i :: 0 <= i < |ps| ==> Fits(ps[i], r)
  }

  lemma NothingTrue(r: Row)
    ensures AllTrue([], r) && AllHoles([]) == 0 && Conjunction([], [], r) == True
  {
  }

  /** Positional binding gives every condition its own arguments, however many each takes. */
  lemma {:induction false} ConjunctionIsAll(ps: seq<Pushed>, r: Row)
    requires WellPushed(ps, r)
    ensures |Args(ps)| == AllHoles(Clauses(ps))
    ensures Conjunction(Clauses(ps), Args(ps), r) == True <==> AllTrue(ps, r)
  {
    hide Eval, AllTrue, Evaluable, Conjunction, AllHoles;
    if ps == [] {
      NothingTrue(r);
    } else {
      var rest := ps[1..];
      ConjunctionIsAll(rest, r);
      ConjunctionCons(ps[0], Clauses(rest), Args(rest), r);
      assert ps == [ps[0]] + rest;
      ConsTrue(ps[0], rest, r);
    }
  }

  lemma ConjunctionCons(p: Pushed, cs: seq<Clause>, args: seq<Sql>, r: Row)
    requires Fits(p, r) && |args| == AllHoles(cs) && forall i :: 0 <= i < |cs| ==> Evaluable(cs[i], r)
    ensures |p.args + args| == AllHoles([p.clause] + cs)
    ensures Conjunction([p.clause] + cs, p.args + args, r) == And(Eval(p.clause, p.args, r), Conjunction(cs, args, r))
  {
    hide Eval, Evaluable;
    var all, bound := [p.clause] + cs, p.args + args;
    assert all[0] == p.clause && all[1..] == cs;
    assert bound[..|p.args|] == p.args && bound[|p.args|..] == args;
  }

  lemma {:induction false} ClausesConcat(a: seq<Pushed>, b: seq<Pushed>)
    ensures Clauses(a + b) == Clauses(a) + Clauses(b)
  {
    hide Clauses;
    assert |Clauses(a + b)| == |Clauses(a) + Clauses(b)|;
  }

  lemma {:induction false} ArgsConcat(a: seq<Pushed>, b: seq<Pushed>)
    ensures Args(a + b) == Args(a) + Args(b)
  {
    if a == [] {
      assert a + b == b;
    } else {
      ArgsConcat(a[1..], b);
      Onward(a, b);
      Regroup(a[0].args, Args(a[1..]), Args(b));
    }
  }

  lemma PushedOne(p: Pushed)
    ensures Clauses([p]) == [p.clause] && Args([p]) == p.args
  {
    assert [p][1..] == [];
    assert p.args + [] == p.args;
  }

  lemma PortsAreNotDhcp(k: string)
    ensures k == "src_port" || k == "dest_port" || k == "@ip" || k == "@mac" ==> !("dhcp" <= k)
  {
    assert "src_port"[0] == 's' && "dest_port"[1] == 'e' && "dhcp"[0] == 'd' && "dhcp"[1] == 'h'
        && "@ip"[0] == "@mac"[0] == '@';
  }

  ghost predicate AllJoined(q: seq<Element>, r: Row) {
    forall i :: 0 <= i < |q| ==> Joined(JoinFor(q[i]), r)
  }

  ghost predicate AllHold(fts: bool, q: seq<Element>, r: Row)
    requires AllJoined(q, r)
  {
    forall i :: 0 <= i < |q| ==> Holds(fts, q[i], r)
  }

  ghost predicate AllTrue(ps: seq<Pushed>, r: Row)
    requires WellPushed(ps, r)
  {
    forall i :: 0 <= i < |ps| ==> Eval(ps[i].clause, ps[i].args, r) == True
  }

  lemma {:induction false} CompiledMeansHolds(fts: bool, q: seq<Element>, r: Row)
    requires AllJoined(q, r)
    ensures WellPushed(Compile(fts, q), r)
    ensures AllTrue(Compile(fts, q), r) <==> AllHold(fts, q, r)
  {
    hide Eval, Holds, Push, Fits, Joined, JoinFor;
    if q != [] {
      var rest := q[1..];
      CompiledMeansHolds(fts, rest, r);
      PushedMeansHolds(fts, q[0], r);
      ConsHold(fts, q, r);
      if Push(fts, q[0]) == [] {
        assert Compile(fts, q) == Compile(fts, rest);
      } else {
        assert Compile(fts, q) == [Push(fts, q[0])[0]] + Compile(fts, rest);
        ConsTrue(Push(fts, q[0])[0], Compile(fts, rest), r);
      }
    }
  }

  lemma ConsHold(fts: bool, q: seq<Element>, r: Row)
    requires q != [] && AllJoined(q, r)
    ensures AllJoined(q[1..], r) && Joined(JoinFor(q[0]), r)
    ensures AllHold(fts, q, r) <==> Holds(fts, q[0], r) && AllHold(fts, q[1..], r)
  {
    hide Holds, Joined, JoinFor;
    var rest := q[1..];
    assert forall i :: 0 <= i < |rest| ==> rest[i] == q[i + 1];
    assert forall i :: 1 <= i < |q| ==> q[i] == rest[i - 1];
  }

  lemma ConsTrue(p: Pushed, rest: seq<Pushed>, r: Row)
    requires Fits(p, r) && WellPushed(rest, r)
    ensures WellPushed([p] + rest, r)
    ensures AllTrue([p] + rest, r) <==> Eval(p.clause, p.args, r) == True && AllTrue(rest, r)
  {
    hide Eval, Fits;
    var ps := [p] + rest;
    assert ps[0] == p;
    assert forall i :: 0 <= i < |rest| ==> rest[i] == ps[i + 1];
    assert forall i :: 1 <= i < |ps| ==> ps[i] == rest[i - 1];
  }

  /** Compilation preserves meaning: a row is selected by the WHERE conjunction, its
      arguments bound positionally, exactly when every query element holds of it. */
  lemma CompilationPreservesMeaning(q: seq<Element>, r: Row)
    requires AllJoined(q, r)
    ensures var ps := Compile(false, q);
      && WellPushed(ps, r) && |Args(ps)| == AllHoles(Clauses(ps))
      && (Conjunction(Clauses(ps), Args(ps), r) == True <==> AllHold(false, q, r))
  {
    CompiledMeansHolds(false, q, r);
    ConjunctionIsAll(Compile(false, q), r);
  }

  function AllPhrases(fts: bool, q: seq<Element>): seq<string> {
    if q == [] then [] else Phrases(fts, q[0]) + AllPhrases(fts, q[1..])
  }

  function JoinPhrases(phrases: seq<string>): string {
    if phrases == [] then "" else if |phrases| == 1 then phrases[0]
    else phrases[0] + " AND " + JoinPhrases(phrases[1..])
  }

  /** The full-text condition that `build` appends, last of all. */
  function FtsPart(phrases: seq<string>): seq<Pushed> {
    if phrases == [] then [] else [Pushed(FtsMatch, [Str(JoinPhrases(phrases))])]
  }

  /** With the full-text index, a row is selected exactly when the index matches all
      phrases and every element holds as far as the index does not answer it. */
  lemma FtsCompilationPreservesMeaning(q: seq<Element>, r: Row)
    requires AllJoined(q, r)
    ensures var phrases := AllPhrases(true, q); var ps := Compile(true, q) + FtsPart(phrases);
      && WellPushed(ps, r) && |Args(ps)| == AllHoles(Clauses(ps))
      && (Conjunction(Clauses(ps), Args(ps), r) == True <==>
            AllHold(true, q, r) && (phrases != [] ==> r.fts(JoinPhrases(phrases))))
  {
    hide JoinPhrases, AllPhrases, Compile, Holds, AllHold, AllTrue, WellPushed, Conjunction, AllHoles, Clauses, Args;
    var phrases := AllPhrases(true, q);
    var compiled, last := Compile(true, q), FtsPart(phrases);
    var ps := compiled + last;
    CompiledMeansHolds(true, q, r);
    if phrases == [] {
      assert ps == compiled;
    } else {
      SnocTrue(compiled, last[0], r);
    }
    ConjunctionIsAll(ps, r);
  }

  lemma SnocTrue(ps: seq<Pushed>, p: Pushed, r: Row)
    requires WellPushed(ps, r) && Fits(p, r)
    ensures WellPushed(ps + [p], r)
    ensures AllTrue(ps + [p], r) <==> AllTrue(ps, r) && Eval(p.clause, p.args, r) == True
  {
    hide Eval, Fits;
    var all := ps + [p];
    assert all[|ps|] == p;
    assert forall i :: 0 <= i < |ps| ==> all[i] == ps[i];
  }

  // ----- joins

  /** `left_join_from_query_string`: each join once, in order of first use. */
  function Joins(q: seq<Element>): seq<Join> {
    if q == [] then []
    else
      var before := Joins(q[..|q| - 1]);
      var j := JoinFor(q[|q| - 1]);
      if j.Some? && j.value !in before then before + [j.value] else before
  }

  /** Every alias that a compiled condition uses has been joined. */
  lemma {:induction false} EveryAliasIsJoined(fts: bool, q: seq<Element>, i: nat)
    requires i < |q|
    ensures JoinFor(q[i]).Some? ==> JoinFor(q[i]).value in Joins(q)
    ensures forall p :: p in Push(fts, q[i]) ==>
      (UsesQueries(p.clause) ==> DnsQueries in Joins(q)) && (UsesAnswers(p.clause) ==> DnsAnswers in Joins(q))
    decreases |q|
  {
    hide Push, JoinFor, UsesQueries, UsesAnswers;
    PushedUsesItsJoin(fts, q[i]);
    if i < |q| - 1 {
      EveryAliasIsJoined(fts, q[..|q| - 1], i);
      assert q[..|q| - 1][i] == q[i];
    }
  }

  lemma PushedUsesItsJoin(fts: bool, e: Element)
    ensures forall p :: p in Push(fts, e) ==>
      (UsesQueries(p.clause) ==> JoinFor(e) == Some(DnsQueries))
      && (UsesAnswers(p.clause) ==> JoinFor(e) == Some(DnsAnswers))
  {
    hide Bind, PathAfterTwo, Pattern;
    if e.value.KeyValue? {
      AliasKeepsPrefixes(e.value.key);
    }
  }

  /** The rows of a statement whose FROM has these joins. */
  predicate HasJoins(joins: seq<Join>, r: Row) {
    (DnsQueries in joins ==> r.queries.Some?) && (DnsAnswers in joins ==> r.answers.Some?)
  }

  lemma JoinsSuffice(q: seq<Element>, r: Row)
    requires HasJoins(Joins(q), r)
    ensures AllJoined(q, r)
  {
    forall i | 0 <= i < |q| ensures Joined(JoinFor(q[i]), r) {
      EveryAliasIsJoined(false, q, i);
    }
  }

  // ----- queries applied without joins

  /** The elements whose condition uses an alias. */
  predicate NeedsJoin(e: Element) {
    && !e.negated && e.value.KeyValue?
    && (e.value.key == "dns.rrname" || "dns.queries." <= e.value.key || "dns.answers." <= e.value.key)
  }

  lemma NeedsJoinIff(fts: bool, e: Element, r: Row)
    requires r.queries.None? && r.answers.None?
    ensures (forall p :: p in Push(fts, e) ==> Evaluable(p.clause, r)) <==> !NeedsJoin(e)
  {
    hide Like, Pattern, Bind, PathAfterTwo, Phrase;
    if e.value.KeyValue? {
      AliasIs(e.value.key);
      QueriesPrefix(e.value.key);
      AliasKeepsPrefixes(e.value.key);
      if !e.negated {
        FieldUsesAlias(Alias(e.value.key), e.value.value);
        assert forall p :: p in [PushField(Alias(e.value.key), e.value.value)] ==>
          p == PushField(Alias(e.value.key), e.value.value);
        assert PushField(Alias(e.value.key), e.value.value) in [PushField(Alias(e.value.key), e.value.value)];
      }
    }
  }

  lemma AliasIs(k: string)
    ensures k == "@sid" || k == "@sig" ==> !("dns.queries." <= k) && !("dns.answers." <= k) && k != "dns.rrname"
    ensures k == "@sid" || k == "@sig" ==>
      !("dns.queries." <= Alias(k)) && !("dns.answers." <= Alias(k)) && Alias(k) != "dns.rrname"
    ensures k == "@ip" || k == "@mac" || k == "src_port" || k == "dest_port" ==>
      !("dns.queries." <= k) && !("dns.answers." <= k) && k != "dns.rrname"
    ensures Alias(k) == k || k == "@sid" || k == "@sig"
  {
    assert "dns.queries."[0] == "dns.answers."[0] == "dns.rrname"[0] == 'd'
        && "dns.queries."[1] == "dns.answers."[1] == "dns.rrname"[1] == 'n';
    assert "@sid"[0] == "@sig"[0] == "@ip"[0] == "@mac"[0] == '@' && "src_port"[0] == 's' && "dest_port"[1] == 'e';
    assert "alert.signature_id"[0] == "alert.signature"[0] == 'a';
  }

  lemma FieldUsesAlias(k: string, v: string)
    ensures UsesQueries(PushField(k, v).clause) <==> k == "dns.rrname" || "dns.queries." <= k
    ensures UsesAnswers(PushField(k, v).clause) <==> "dns.answers." <= k
  {
    hide Bind, PathAfterTwo;
    assert "dns.queries."[4] == 'q' && "dns.answers."[4] == 'a' && "dns.rrname"[4] == 'r' && "dns.type"[4] == 't';
    assert "dns.queries.rrname"[..12] == "dns.queries.";
    assert |"dns.queries.rrname"| == 18;
  }

  /** A query applied without joins refers to columns that are not there exactly if some
      element is a search, not negated, by `dns.rrname` or a key below `dns.queries.` or
      `dns.answers.`. */
  lemma {:induction false} WithoutJoinsIff(fts: bool, q: seq<Element>, r: Row)
    requires r.queries.None? && r.answers.None?
    ensures (forall p :: p in Compile(fts, q) ==> Evaluable(p.clause, r)) <==> forall e :: e in q ==> !NeedsJoin(e)
  {
    hide Push, Evaluable, NeedsJoin;
    if q != [] {
      WithoutJoinsIff(fts, q[1..], r);
      NeedsJoinIff(fts, q[0], r);
      assert q == [q[0]] + q[1..];
      assert forall p :: p in Compile(fts, q) <==> p in Push(fts, q[0]) || p in Compile(fts, q[1..]);
    }
  }

  /** The query `dns.rrname:x`, for one. */
  lemma RrnameNeedsAJoin(fts: bool, r: Row)
    requires r.queries.None? && r.answers.None?
    ensures !forall p :: p in Compile(fts, [Element(false, KeyValue("dns.rrname", "x"))]) ==> Evaluable(p.clause, r)
  {
    var e := Element(false, KeyValue("dns.rrname", "x"));
    WithoutJoinsIff(fts, [e], r);
    assert e in [e] && NeedsJoin(e);
  }

  // ----- a search and its negation

  /** A search reads something else than its negation does. */
  predicate IsSpecial(k: string, v: string) {
    || (k == "dns.type" && (v == "query" || v == "request" || v == "response" || v == "answer"))
    || k == "dns.rrname" || "dns.queries." <= k || "dns.answers." <= k
    || "dns.authorities" <= k || "dns.additionals" <= k
  }

  predicate IsText(k: string) { k == "@ip" || k == "@mac" }
  predicate IsPort(k: string) { k == "src_port" || k == "dest_port" }

  /** What a negated field search reads. */
  function NegatedReads(k: string, r: Row): Sql {
    if IsPort(k) then r.arrow(k)
    else if k == "@sid" then r.extract("alert.signature_id")
    else if k == "@sig" then r.extract("alert.signature")
    else r.extract(k)
  }

  /** Which events a search and its negation leave out, and which both select. For a text
      search the two are complements. Otherwise neither selects the event exactly if the
      search misses and the field that the negation reads is absent or equal; and unless
      the search reads elsewhere, as those by the DNS keys do, that is exactly if the field
      is absent, and both never do. */
  lemma SignsAreComplementsIff(k: string, v: string, r: Row)
    requires Joined(JoinFor(Element(false, KeyValue(k, v))), r)
    ensures var search, negation := Holds(false, Element(false, KeyValue(k, v)), r),
        Holds(false, Element(true, KeyValue(k, v)), r);
      var x := NegatedReads(k, r);
      && (IsText(k) ==> search == !negation)
      && (!IsText(k) ==> negation == (!x.Null? && !StandsFor(v, x)))
      && (!IsText(k) && !IsSpecial(k, v) ==>
            (!search && !negation <==> x.Null?) && !(search && negation))
      && (!IsText(k) && IsSpecial(k, v) ==>
            (!search && !negation <==> !FieldFound(k, v, r) && (x.Null? || StandsFor(v, x)))
            && (search && negation <==> FieldFound(k, v, r) && !x.Null? && !StandsFor(v, x)))
  {
    hide Like, Pattern, Bind, PathAfterTwo;
    AliasIs(k);
    AliasKeepsPrefixes(k);
    QueriesPrefix(k);
    NotSpecial(k, v);
  }

  /** A free text and its negation are complements too, as long as the full-text index does
      not answer the search. */
  lemma TextSignsAreComplementsIff(fts: bool, s: string, r: Row)
    ensures var search, negation := Holds(fts, Element(false, Text(s)), r), Holds(fts, Element(true, Text(s)), r);
      search == !negation <==> !fts || Like("%" + s + "%", r.source)
  {
    hide Like;
  }

  lemma NotSpecial(k: string, v: string)
    ensures (IsText(k) || IsPort(k) || k == "@sid" || k == "@sig") ==> !IsSpecial(k, v) && !IsSpecial(Alias(k), v)
    ensures k == "dns.queries.rrname" ==> "dns.queries." <= k
  {
    assert "@ip"[0] == "@mac"[0] == "@sid"[0] == "@sig"[0] == '@' && "src_port"[0] == 's' && "dest_port"[1] == 'e';
    assert "dns."[0] == 'd' && "dns."[1] == 'n' && "alert.signature"[0] == "alert.signature_id"[0] == 'a';
    assert "dns.queries.rrname"[..12] == "dns.queries.";
  }

  /** What a search by a special key finds. */
  ghost predicate FieldFound(k: string, v: string, r: Row)
    requires Joined(JoinFor(Element(false, KeyValue(k, v))), r)
  {
    PrefixesApart(k);
    FieldHolds(k, v, r)
  }

  /** An event whose only name is in `dns.queries` is selected by neither sign of another
      name. */
  lemma OtherNameInQueriesOnly(r: Row)
    requires r.queries.Some? && r.queries.value(["rrname"]) == Str("y")
    requires r.dns("rrname") == Null && r.extract("dns.rrname") == Null
    ensures !Holds(false, Element(false, KeyValue("dns.rrname", "x")), r)
    ensures !Holds(false, Element(true, KeyValue("dns.rrname", "x")), r)
  {
  }

  // ----- the builder object

  class EventQueryBuilder {
    const fts: bool
    var wheres: seq<Clause>
    var args: seq<Sql>
    var ftsPhrases: seq<string>
    var leftJoin: seq<Join>

    constructor (fts: bool)
      ensures this.fts == fts && wheres == [] && args == [] && ftsPhrases == [] && leftJoin == []
    {
      this.fts := fts;
      wheres, args, ftsPhrases, leftJoin := [], [], [], [];
    }

    method PushWhere(c: Clause)
      modifies this`wheres
      ensures wheres == old(wheres) + [c]
    {
      wheres := wheres + [c];
    }

    method PushArg(a: Sql)
      modifies this`args
      ensures args == old(args) + [a]
    {
      args := args + [a];
    }

    method PushFts(s: string)
      modifies this`ftsPhrases
      ensures ftsPhrases == old(ftsPhrases) + [Phrase(s)]
    {
      ftsPhrases := ftsPhrases + [Phrase(s)];
    }

    /** `where_source_json` and `where_source_json_extract` */
    method WhereSource(c: Clause, v: string)
      modifies this`wheres, this`args
      ensures wheres == old(wheres) + [c] && args == old(args) + [Bind(v)]
    {
      PushWhere(c);
      var n := ParseI64(v);
      if n.Some? {
        PushArg(Int(n.value));
      } else {
        PushArg(Str(v));
      }
    }

    method AddLeftJoin(j: Join)
      modifies this`leftJoin
      ensures leftJoin == if j in old(leftJoin) then old(leftJoin) else old(leftJoin) + [j]
    {
      if j !in leftJoin {
        leftJoin := leftJoin + [j];
      }
    }

    method LeftJoinFromQueryString(q: seq<Element>)
      requires leftJoin == []
      modifies this`leftJoin
      ensures leftJoin == Joins(q)
    {
      for i := 0 to |q|
        invariant leftJoin == Joins(q[..i])
      {
        assert q[..i + 1][..i] == q[..i];
        if q[i].value.KeyValue? {
          var k := q[i].value.key;
          if k == "dns.rrname" || "dns.queries" <= k {
            AddLeftJoin(DnsQueries);
          } else if "dns.answers." <= k {
            AddLeftJoin(DnsAnswers);
          }
        }
      }
      assert q[..|q|] == q;
    }

    /** The condition, its arguments and its phrases are those of `Push` and `Phrases`. */
    ghost predicate Grew(e: Element, wheres0: seq<Clause>, args0: seq<Sql>, phrases0: seq<string>)
      reads this
    {
      && wheres == wheres0 + Clauses(Push(fts, e))
      && args == args0 + Args(Push(fts, e))
      && ftsPhrases == phrases0 + Phrases(fts, e)
    }

    method ApplyText(negated: bool, s: string)
      modifies this`wheres, this`args, this`ftsPhrases
      ensures wheres == old(wheres) + Clauses(PushText(negated, fts, s))
      ensures args == old(args) + Args(PushText(negated, fts, s))
      ensures ftsPhrases == old(ftsPhrases) + if fts && !negated then [Phrase(s)] else []
    {
      if negated {
        PushWhere(SourceLike(true));
        PushArg(Str(Pattern(s)));
      } else if fts {
        PushFts(s);
      } else {
        PushWhere(SourceLike(false));
        PushArg(Str(Pattern(s)));
      }
    }

    /** A positive search on a key that is no shorthand. */
    method ApplyField(k: string, v: string)
      modifies this`wheres, this`args
      ensures wheres == old(wheres) + [PushField(k, v).clause] && args == old(args) + PushField(k, v).args
    {
      if k == "dns.type" && (v == "query" || v == "request") {
        PushWhere(DnsType("query", "request"));
      } else if k == "dns.type" && (v == "response" || v == "answer") {
        PushWhere(DnsType("answer", "response"));
      } else if k == "dns.rrname" || k == "dns.queries.rrname" {
        PushWhere(Rrname);
        PushArg(Str(v));
        PushArg(Str(v));
      } else if "dns.queries." <= k {
        PushWhere(QueryField(PathAfterTwo(k)));
        PushArg(Str(v));
      } else if "dns.answers." <= k {
        PushWhere(AnswerField(PathAfterTwo(k)));
        PushArg(Str(v));
      } else if "dns.authorities" <= k {
        PushWhere(DnsGlob("authorities"));
        PushArg(Str("*" + v + "*"));
      } else if "dns.additionals" <= k {
        PushWhere(DnsGlob("additionals"));
        PushArg(Str("*" + v + "*"));
      } else {
        WhereSource(Extract(k, false), v);
      }
    }

    method ApplyKeyValue(e: Element)
      requires e.value.KeyValue?
      modifies this`wheres, this`args, this`ftsPhrases
      ensures Grew(e, old(wheres), old(args), old(ftsPhrases))
    {
      hide PushField, Bind, Alias;
      var k, v := Alias(e.value.key), e.value.value;
      PortsAreNotDhcp(k);
      if k == "@ip" || k == "@mac" {
        ApplyText(e.negated, v);
        return;
      }
      PushedOne(Push(fts, e)[0]);
      if k == "src_port" || k == "dest_port" {
        WhereSource(Arrow(k, e.negated), v);
      } else if e.negated {
        WhereSource(Extract(k, true), v);
      } else {
        ApplyField(k, v);
      }
      if !e.negated && fts && (k == "community_id" || k == "timestamp" || "dhcp" <= k) {
        PushFts(v);
      }
    }

    method ApplyElement(e: Element)
      modifies this`wheres, this`args, this`ftsPhrases
      ensures Grew(e, old(wheres), old(args), old(ftsPhrases))
    {
      match e.value {
        case Text(s) => ApplyText(e.negated, s);
        case KeyValue(_, _) => ApplyKeyValue(e);
        case From(t) => PushWhere(Timestamp(Gte)); PushArg(Int(t));
        case To(t) => PushWhere(Timestamp(Lte)); PushArg(Int(t));
        case After(t) => PushWhere(Timestamp(Gt)); PushArg(Int(t));
        case Before(t) => PushWhere(Timestamp(Lt)); PushArg(Int(t));
        case Archived => PushWhere(ArchivedIs); PushArg(Int(if e.negated then 0 else 1));
        case Escalated => PushWhere(EscalatedIs); PushArg(Int(if e.negated then 0 else 1));
      }
    }

    method ApplyQueryString(q: seq<Element>)
      modifies this`wheres, this`args, this`ftsPhrases
      ensures wheres == old(wheres) + Clauses(Compile(fts, q))
      ensures args == old(args) + Args(Compile(fts, q))
      ensures ftsPhrases == old(ftsPhrases) + AllPhrases(fts, q)
    {
      hide Push, Phrases, Clauses, Args, Compile, AllPhrases;
      assert q[0..] == q;
      for i := 0 to |q|
        invariant wheres + Clauses(Compile(fts, q[i..])) == old(wheres) + Clauses(Compile(fts, q))
        invariant args + Args(Compile(fts, q[i..])) == old(args) + Args(Compile(fts, q))
        invariant ftsPhrases + AllPhrases(fts, q[i..]) == old(ftsPhrases) + AllPhrases(fts, q)
      {
        CompileFrom(fts, q, i);
        Regroup(wheres, Clauses(Push(fts, q[i])), Clauses(Compile(fts, q[i + 1..])));
        Regroup(args, Args(Push(fts, q[i])), Args(Compile(fts, q[i + 1..])));
        Regroup(ftsPhrases, Phrases(fts, q[i]), AllPhrases(fts, q[i + 1..]));
        ApplyElement(q[i]);
      }
      assert q[|q|..] == [];
      CompileNothing(fts);
    }

    lemma CompileFrom(fts: bool, q: seq<Element>, i: nat)
      requires i < |q|
      ensures Clauses(Compile(fts, q[i..])) == Clauses(Push(fts, q[i])) + Clauses(Compile(fts, q[i + 1..]))
      ensures Args(Compile(fts, q[i..])) == Args(Push(fts, q[i])) + Args(Compile(fts, q[i + 1..]))
      ensures AllPhrases(fts, q[i..]) == Phrases(fts, q[i]) + AllPhrases(fts, q[i + 1..])
    {
      hide Push, Phrases;
      assert q[i..][0] == q[i] && q[i..][1..] == q[i + 1..];
      ClausesConcat(Push(fts, q[i]), Compile(fts, q[i + 1..]));
      ArgsConcat(Push(fts, q[i]), Compile(fts, q[i + 1..]));
    }

    lemma CompileNothing(fts: bool)
      ensures Clauses(Compile(fts, [])) == [] && Args(Compile(fts, [])) == [] && AllPhrases(fts, []) == []
    {
    }

    /** The WHERE part of `build` and its text: the full-text condition and its argument
        come last. */
    method BuildWhere() returns (conditions: seq<Clause>, bound: seq<Sql>, text: string)
      modifies this`wheres, this`args
      ensures text == WhereText(conditions)
      ensures conditions == wheres == old(wheres) + Clauses(FtsPart(ftsPhrases))
      ensures bound == args == old(args) + Args(FtsPart(ftsPhrases))
    {
      if ftsPhrases != [] {
        PushWhere(FtsMatch);
        PushArg(Str(JoinPhrases(ftsPhrases)));
      }
      conditions, bound := wheres, args;
      text := JoinAnd(conditions);
    }
  }

  /** `wheres.join(" and ")` */
  method JoinAnd(wheres: seq<Clause>) returns (text: string)
    ensures text == WhereText(wheres)
  {
    hide S.Render, Template;
    text := "";
    for i := 0 to |wheres|
      invariant text == WhereText(wheres[..i])
    {
      WhereTextSnoc(wheres[..i], wheres[i]);
      assert wheres[..i] + [wheres[i]] == wheres[..i + 1];
      text := text + (if i == 0 then "" else " and ") + S.Render('\'', Template(wheres[i]));
    }
    assert wheres[..|wheres|] == wheres;
  }

  lemma {:induction false} WhereTextSnoc(cs: seq<Clause>, c: Clause)
    ensures WhereText(cs + [c]) == WhereText(cs) + (if cs == [] then "" else " and ") + S.Render('\'', Template(c))
  {
    hide S.Render, Template;
    if cs == [] {
      assert [] + [c] == [c];
    } else {
      WhereTextSnoc(cs[1..], c);
      Onward(cs, [c]);
      var head, tail := S.Render('\'', Template(cs[0])), S.Render('\'', Template(c));
      var middle := WhereText(cs[1..]);
      if |cs| > 1 {
        assert head + " and " + (middle + " and " + tail) == (head + " and " + middle) + " and " + tail;
      } else {
        assert "" + "" + tail == tail;
      }
    }
  }

  /** The conditions select the row exactly if every element holds of it (with the
      full-text index, as far as the index does not answer it) and the index matches. */
  ghost predicate SelectsRight(conditions: seq<Clause>, bound: seq<Sql>, q: seq<Element>, fts: bool, r: Row) {
    && AllJoined(q, r) && |bound| == AllHoles(conditions) && AllEvaluable(conditions, r)
    && (Conjunction(conditions, bound, r) == True <==>
          AllHold(fts, q, r) && (AllPhrases(fts, q) != [] ==> r.fts(JoinPhrases(AllPhrases(fts, q)))))
  }

  lemma BuiltSelectsRight(q: seq<Element>, fts: bool, r: Row)
    requires AllJoined(q, r)
    ensures var ps := Compile(fts, q) + FtsPart(AllPhrases(fts, q));
      SelectsRight(Clauses(ps), Args(ps), q, fts, r)
  {
    hide Conjunction, AllHoles, AllHold, Compile, JoinPhrases, AllJoined;
    if fts {
      FtsCompilationPreservesMeaning(q, r);
    } else {
      NoPhrases(q);
      assert Compile(false, q) + [] == Compile(false, q);
      CompilationPreservesMeaning(q, r);
    }
  }

  lemma {:induction false} NoPhrases(q: seq<Element>)
    ensures AllPhrases(false, q) == []
  {
    if q != [] {
      NoPhrases(q[1..]);
    }
  }
}
