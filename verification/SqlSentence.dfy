/**
 The text of each condition in full (src/sqlite/builder.rs), as the database gets it.
 */
module SqlSentence {
  import opened Common
  import opened SqlBuilder
  import opened SqlText
  import S = SqlPieces

  function Sentence(c: Clause): string {
    match c
    case SourceLike(negated) => if negated then "events.source NOT LIKE ?" else "events.source LIKE ?"
    case Extract(field, neq) => "json_extract(events.source, '$." + field + if neq then "') != ?" else "') = ?"
    case Arrow(field, neq) => "events.source->>'" + field + if neq then "' != ?" else "' = ?"
    case DnsType(one, other) =>
      "(events.source->>'dns'->>'type' = '" + one + "' OR events.source->>'dns'->>'type' = '" + other + "')"
    case Rrname => "(events.source->>'dns'->>'rrname' = ?" + " OR _dns_queries.value->>'rrname' = ?)"
    case QueryField(path) => "_dns_queries.value->>" + Steps(path) + " = ?"
    case AnswerField(path) => "_dns_answers.value->>" + Steps(path) + " = ?"
    case DnsGlob(field) => "events.source->>'dns'->>'" + field + "' GLOB ?"
    case Timestamp(cmp) =>
      (match cmp
       case Gte => "timestamp >= ?"
       case Gt => "timestamp > ?"
       case Lte => "timestamp <= ?"
       case Lt => "timestamp < ?")
    case ArchivedIs => "events.archived = ?"
    case EscalatedIs => "events.escalated = ?"
    case FtsMatch => "events.rowid in (select rowid from fts where fts match ?)"
  }

  function Steps(path: seq<string>): string {
    if path == [] then ""
    else if |path| == 1 then "'" + path[0] + "'"
    else "'" + path[0] + "'->>" + Steps(path[1..])
  }

  lemma RenderThen(code: string, literal: string, rest: seq<S.Piece>)
    ensures S.Render(MARK, Then(code, literal, rest)) == code + "'" + literal + "'" + S.Render(MARK, rest)
  {
    var ps := Then(code, literal, rest);
    assert ps[1..] == [S.Quote(literal)] + rest && ps[1..][1..] == rest;
    assert S.Print(MARK, S.Quote(literal)) == "'" + literal + "'";
  }

  lemma {:induction false} RenderPath(path: seq<string>, last: string)
    ensures S.Render(MARK, PathPieces(path) + [S.Code(last)]) == Steps(path) + last
  {
    hide S.Render;
    OnePiece(last);
    var end := [S.Code(last)];
    var ps := PathPieces(path) + end;
    if path == [] {
      assert ps == end;
    } else if |path| == 1 {
      assert ps == [S.Quote(path[0])] + end;
      RenderQuote(path[0], end);
    } else {
      RenderPath(path[1..], last);
      var rest := PathPieces(path[1..]) + end;
      assert ps == [S.Quote(path[0])] + ([S.Code("->>")] + rest);
      RenderQuote(path[0], [S.Code("->>")] + rest);
      RenderArrow(rest);
      StepOn(path[0], Steps(path[1..]), last);
    }
  }

  lemma RenderQuote(literal: string, rest: seq<S.Piece>)
    ensures S.Render(MARK, [S.Quote(literal)] + rest) == "'" + literal + "'" + S.Render(MARK, rest)
  {
    assert ([S.Quote(literal)] + rest)[1..] == rest;
    assert S.Print(MARK, S.Quote(literal)) == "'" + literal + "'";
  }

  lemma RenderArrow(rest: seq<S.Piece>)
    ensures S.Render(MARK, [S.Code("->>")] + rest) == "->>" + S.Render(MARK, rest)
  {
    assert ([S.Code("->>")] + rest)[1..] == rest;
  }

  lemma StepOn(part: string, steps: string, last: string)
    ensures "'" + part + "'" + ("->>" + (steps + last)) == "'" + part + "'->>" + steps + last
  {
    assert "'" + "->>" == "'->>";
    Regroup("'" + part, "'", "->>" + (steps + last));
    Regroup("'", "->>", steps + last);
    Regroup("'" + part, "'->>", steps + last);
    Regroup("'" + part + "'->>", steps, last);
  }

  lemma ExtractSays(field: string, neq: bool)
    ensures S.Render(MARK, Template(Extract(field, neq))) == Sentence(Extract(field, neq))
  {
    hide S.Render;
    var last := if neq then ") != ?" else ") = ?";
    OnePiece(last);
    RenderThen("json_extract(events.source, ", "$." + field, [S.Code(last)]);
  }

  lemma ArrowSays(field: string, neq: bool)
    ensures S.Render(MARK, Template(Arrow(field, neq))) == Sentence(Arrow(field, neq))
  {
    hide S.Render;
    var last := if neq then " != ?" else " = ?";
    OnePiece(last);
    RenderThen("events.source->>", field, [S.Code(last)]);
  }

  /** Two pieces of code around a word, and what follows. */
  lemma ThenWord(code: string, word: string, rest: seq<S.Piece>, text: string, whole: string)
    requires S.Render(MARK, rest) == text && whole == code + "'" + word + "'"
    ensures S.Render(MARK, Then(code, word, rest)) == whole + text
  {
    hide S.Render;
    RenderThen(code, word, rest);
  }

  lemma DnsTypeSays(one: string, other: string)
    ensures S.Render(MARK, Template(DnsType(one, other))) == Sentence(DnsType(one, other))
  {
    hide S.Render, Then;
    var end := [S.Code(")")];
    OnePiece(")");
    var p6 := Then(" = ", other, end);
    var p5 := Then("->>", "type", p6);
    var p4 := Then(" OR events.source->>", "dns", p5);
    var p3 := Then(" = ", one, p4);
    var p2 := Then("->>", "type", p3);
    ThenWord(" = ", other, end, ")", " = '" + other + "'");
    var t5 := "->>'type'" + (" = '" + other + "'" + ")");
    ThenWord("->>", "type", p6, " = '" + other + "'" + ")", "->>'type'");
    ThenWord(" OR events.source->>", "dns", p5, t5, " OR events.source->>'dns'");
    var t4 := " OR events.source->>'dns'" + t5;
    ThenWord(" = ", one, p4, t4, " = '" + one + "'");
    ThenWord("->>", "type", p3, " = '" + one + "'" + t4, "->>'type'");
    ThenWord("(events.source->>", "dns", p2, "->>'type'" + (" = '" + one + "'" + t4), "(events.source->>'dns'");
    DnsTypeText(one, other);
  }

  lemma DnsTypeText(one: string, other: string)
    ensures "(events.source->>'dns'" + ("->>'type'" + (" = '" + one + "'" + (" OR events.source->>'dns'"
              + ("->>'type'" + (" = '" + other + "'" + ")")))))
         == "(events.source->>'dns'->>'type' = '" + one + "' OR events.source->>'dns'->>'type' = '" + other + "')"
  {
    FirstWords();
    MiddleWords();
    assert "'" + ")" == "')";
    Reassociate("(events.source->>'dns'", "->>'type'", " = '", one, "'", " OR events.source->>'dns'", other, ")");
  }

  lemma FirstWords()
    ensures "(events.source->>'dns'" + "->>'type'" + " = '" == "(events.source->>'dns'->>'type' = '"
  {
  }

  lemma MiddleWords()
    ensures "'" + " OR events.source->>'dns'" + "->>'type'" + " = '" == "' OR events.source->>'dns'->>'type' = '"
  {
  }

  lemma Reassociate(d: string, t: string, e: string, one: string, q: string, o: string, other: string, end: string)
    ensures d + (t + (e + one + q + (o + (t + (e + other + q + end)))))
         == (d + t + e) + one + (q + o + t + e) + other + (q + end)
  {
    var last := other + (q + end);
    Regroup(e + other, q, end);
    Regroup(e, other, q + end);
    assert e + other + q + end == e + last;
    Regroup(t, e, last);
    Regroup(o, t + e, last);
    Regroup(o, t, e);
    var middle := o + (t + e) + last;
    Regroup(e + one, q, middle);
    Regroup(q, o + (t + e), last);
    Regroup(q, o, t + e);
    Regroup(q + o, t, e);
    Regroup(e, one, (q + o + t + e) + last);
    Regroup(t, e, one + ((q + o + t + e) + last));
    Regroup(d, t + e, one + ((q + o + t + e) + last));
    Regroup(d, t, e);
    Regroup(d + t + e, one, (q + o + t + e) + last);
    Regroup((d + t + e) + one, q + o + t + e, last);
    Regroup((d + t + e) + one + (q + o + t + e), other, q + end);
  }

  lemma RrnameSays()
    ensures S.Render(MARK, Template(Rrname)) == Sentence(Rrname)
  {
    hide S.Render, Then;
    var end := [S.Code(" = ?)")];
    OnePiece(" = ?)");
    var code := " = ?" + " OR _dns_queries.value->>";
    var p3 := Then(code, "rrname", end);
    ThenWord(code, "rrname", end, " = ?)", code + "'" + "rrname" + "'");
    var t3 := code + "'" + "rrname" + "'" + " = ?)";
    ThenWord("->>", "rrname", p3, t3, "->>'rrname'");
    ThenWord("(events.source->>", "dns", Then("->>", "rrname", p3), "->>'rrname'" + t3, "(events.source->>'dns'");
    NameWords();
  }

  lemma NameWords()
    ensures "(events.source->>'dns'" + ("->>'rrname'"
              + (" = ?" + " OR _dns_queries.value->>" + "'" + "rrname" + "'" + " = ?)"))
         == "(events.source->>'dns'->>'rrname' = ?" + " OR _dns_queries.value->>'rrname' = ?)"
  {
    var eq, o, w, end := " = ?", " OR _dns_queries.value->>", "'" + "rrname" + "'", " = ?)";
    FirstNameWords();
    LastNameWords();
    Regroup(eq, o, "'");
    Regroup(eq, o + "'", "rrname");
    Regroup(eq, o + "'" + "rrname", "'");
    Regroup(eq, o + "'" + "rrname" + "'", end);
    var last := o + "'" + "rrname" + "'" + end;
    Regroup("->>'rrname'", eq, last);
    Regroup("(events.source->>'dns'", "->>'rrname'" + eq, last);
    Regroup("(events.source->>'dns'", "->>'rrname'", eq);
  }

  lemma FirstNameWords()
    ensures "(events.source->>'dns'" + "->>'rrname'" + " = ?" == "(events.source->>'dns'->>'rrname' = ?"
  {
  }

  lemma LastNameWords()
    ensures " OR _dns_queries.value->>" + "'" + "rrname" + "'" + " = ?)" == " OR _dns_queries.value->>'rrname' = ?)"
  {
  }

  lemma DnsGlobSays(field: string)
    ensures S.Render(MARK, Template(DnsGlob(field))) == Sentence(DnsGlob(field))
  {
    hide S.Render;
    var end := [S.Code(" GLOB ?")];
    OnePiece(" GLOB ?");
    RenderThen("->>", field, end);
    RenderThen("events.source->>", "dns", Then("->>", field, end));
  }

  lemma PathSays(c: Clause)
    requires c.QueryField? || c.AnswerField?
    ensures S.Render(MARK, Template(c)) == Sentence(c)
  {
    RenderPath(c.path, " = ?");
    var ps := Template(c);
    assert ps[1..] == PathPieces(c.path) + [S.Code(" = ?")];
    Regroup(ps[0].text, Steps(c.path), " = ?");
  }

  lemma PlainSays(c: Clause)
    requires c.SourceLike? || c.ArchivedIs? || c.EscalatedIs?
    ensures S.Render(MARK, Template(c)) == Sentence(c)
  {
    hide S.Render;
    OnePiece(Template(c)[0].text);
  }

  lemma TimestampSays(cmp: Cmp)
    ensures S.Render(MARK, Template(Timestamp(cmp))) == Sentence(Timestamp(cmp))
  {
    hide S.Render;
    OnePiece("timestamp " + Operator(cmp) + " ?");
  }

  lemma FtsSays()
    ensures S.Render(MARK, Template(FtsMatch)) == Sentence(FtsMatch)
  {
    hide S.Render;
    OnePiece("events.rowid in (select rowid " + "from fts where fts match ?)");
  }

  /** The pieces of every condition make up exactly that text. */
  lemma TemplateSays(c: Clause)
    ensures S.Render(MARK, Template(c)) == Sentence(c)
  {
    hide S.Render, Template, Sentence;
    match c
    case Extract(field, neq) => ExtractSays(field, neq);
    case Arrow(field, neq) => ArrowSays(field, neq);
    case DnsType(one, other) => DnsTypeSays(one, other);
    case Rrname => RrnameSays();
    case QueryField(_) => PathSays(c);
    case AnswerField(_) => PathSays(c);
    case DnsGlob(field) => DnsGlobSays(field);
    case Timestamp(cmp) => TimestampSays(cmp);
    case FtsMatch => FtsSays();
    case _ => PlainSays(c);
  }

  function Sentences(cs: seq<Clause>): string {
    if cs == [] then "" else if |cs| == 1 then Sentence(cs[0]) else Sentence(cs[0]) + " and " + Sentences(cs[1..])
  }

  lemma {:induction false} WhereSays(cs: seq<Clause>)
    ensures WhereText(cs) == Sentences(cs)
  {
    hide S.Render, Template, Sentence;
    if cs != [] {
      TemplateSays(cs[0]);
      WhereSays(cs[1..]);
    }
  }
}
