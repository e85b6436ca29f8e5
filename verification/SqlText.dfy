/**
 The SQL text of a query's conditions (src/sqlite/builder.rs) and how SQLite takes it apart.
 Keys are spliced into it unescaped, so it says what the builder meant exactly if no spliced
 key has an apostrophe; and the full-text phrases likewise with the double quote.
 */
module SqlText {
  import opened Common
  import opened QueryParser
  import opened SqlBuilder
  import S = SqlPieces

  const MARK: char := '\''

  // ----- the text in pieces

  function WherePieces(cs: seq<Clause>): seq<S.Piece> {
    if cs == [] then []
    else if |cs| == 1 then Template(cs[0])
    else Template(cs[0]) + [S.Code(" and ")] + WherePieces(cs[1..])
  }

  lemma {:induction false} WhereRendered(cs: seq<Clause>)
    ensures WhereText(cs) == S.Render(MARK, WherePieces(cs))
  {
    hide Template;
    if |cs| > 1 {
      WhereRendered(cs[1..]);
      S.RenderConcat(MARK, Template(cs[0]) + [S.Code(" and ")], WherePieces(cs[1..]));
      S.RenderConcat(MARK, Template(cs[0]), [S.Code(" and ")]);
      OnePiece(" and ");
    }
  }

  lemma OnePiece(t: string)
    ensures S.Render(MARK, [S.Code(t)]) == t && S.Shape(MARK, [S.Code(t)]) == t && S.Literals([S.Code(t)]) == []
  {
    assert t + "" == t && [S.Code(t)][1..] == [];
  }

  /** Well-made pieces that begin and end in code, and none of whose code could be taken
      for an ` and `. */
  ghost predicate Good(ps: seq<S.Piece>) {
    && S.Apart(MARK, ps) && ps != [] && ps[0].Code? && ps[|ps| - 1].Code?
    && (forall i :: 0 <= i < |ps| && ps[i].Code? ==> IsCode(ps[i].text))
    && EndsWell(ps[|ps| - 1].text)
  }

  predicate IsCode(t: string) {
    t != "" && MARK !in t && t[0] != 'a' && NoAnd(t)
  }

  predicate NoAnd(t: string) {
    forall i :: 0 <= i < |t| - 1 ==> t[i] != ' ' || t[i + 1] != 'a'
  }

  predicate EndsWell(t: string) { t != "" && t[|t| - 1] != ' ' }

  lemma GoodCode(t: string)
    requires IsCode(t) && EndsWell(t)
    ensures Good([S.Code(t)]) && S.Literals([S.Code(t)]) == []
  {
  }

  lemma GoodThen(code: string, literal: string, rest: seq<S.Piece>)
    requires IsCode(code) && Good(rest)
    ensures Good(Then(code, literal, rest))
    ensures S.Literals(Then(code, literal, rest)) == [literal] + S.Literals(rest)
  {
    var ps := Then(code, literal, rest);
    assert ps[1..][1..] == rest;
  }

  lemma CodesInside()
    ensures IsCode("->>") && IsCode(" = ") && IsCode(")") && IsCode(" = ?)") && IsCode(" GLOB ?")
    ensures IsCode(" = ?") && IsCode(" != ?") && IsCode(") = ?") && IsCode(") != ?")
  {
  }

  lemma CodesEndWell()
    ensures EndsWell(")") && EndsWell(" = ?)") && EndsWell(" GLOB ?") && EndsWell(" = ?") && EndsWell(" != ?")
    ensures EndsWell(") = ?") && EndsWell(") != ?") && forall cmp :: EndsWell("timestamp " + Operator(cmp) + " ?")
    ensures EndsWell("events.source NOT LIKE ?") && EndsWell("events.source LIKE ?")
    ensures EndsWell("events.archived = ?") && EndsWell("events.escalated = ?")
    ensures EndsWell("events.rowid in (select rowid " + "from fts where fts match ?)")
  {
  }

  lemma CodesBefore()
    ensures IsCode("json_extract(events.source, ") && IsCode("events.source->>") && IsCode("(events.source->>")
    ensures IsCode(" OR events.source->>") && IsCode(" = ?" + " OR _dns_queries.value->>")
    ensures IsCode("_dns_queries.value->>") && IsCode("_dns_answers.value->>")
  {
    hide IsCode;
    JsonCode();
    SourceCodes();
    RrnameCode();
    AliasCodes();
  }

  lemma JsonCode()
    ensures IsCode("json_extract(events.source, ")
  {
  }

  lemma SourceCodes()
    ensures IsCode("events.source->>") && IsCode("(events.source->>") && IsCode(" OR events.source->>")
  {
  }

  lemma RrnameCode()
    ensures IsCode(" = ?" + " OR _dns_queries.value->>")
  {
    RrnameCodeParts();
  }

  lemma RrnameCodeParts()
    ensures IsCode(" = ?") && IsCode(" OR _dns_queries.value->>")
  {
  }

  lemma AliasCodes()
    ensures IsCode("_dns_queries.value->>") && IsCode("_dns_answers.value->>")
  {
  }

  lemma CodesAlone()
    ensures IsCode("events.source NOT LIKE ?") && IsCode("events.source LIKE ?")
    ensures IsCode("events.archived = ?") && IsCode("events.escalated = ?")
    ensures IsCode("events.rowid in (select rowid " + "from fts where fts match ?)")
    ensures forall cmp :: IsCode("timestamp " + Operator(cmp) + " ?")
  {
    hide IsCode;
    LikeCodes();
    StateCodes();
    FtsCode();
    TimeCodes();
  }

  lemma LikeCodes()
    ensures IsCode("events.source NOT LIKE ?") && IsCode("events.source LIKE ?")
  {
  }

  lemma StateCodes()
    ensures IsCode("events.archived = ?") && IsCode("events.escalated = ?")
  {
  }

  lemma FtsCode()
    ensures IsCode("events.rowid in (select rowid " + "from fts where fts match ?)")
  {
    FtsCodeParts();
  }

  lemma FtsCodeParts()
    ensures IsCode("events.rowid in (select rowid ") && IsCode("from fts where fts match ?)")
  {
  }

  lemma TimeCodes()
    ensures forall cmp :: IsCode("timestamp " + Operator(cmp) + " ?")
  {
  }

  /** Every text is made well, and these are its literals. */
  function LiteralsIn(c: Clause): seq<string> {
    match c
    case Extract(field, _) => ["$." + field]
    case Arrow(field, _) => [field]
    case DnsGlob(field) => ["dns", field]
    case Rrname => ["dns", "rrname", "rrname"]
    case DnsType(one, other) => ["dns", "type", one, "dns", "type", other]
    case QueryField(path) => path
    case AnswerField(path) => path
    case _ => []
  }

  lemma TemplateIsGood(c: Clause)
    ensures Good(Template(c)) && S.Literals(Template(c)) == LiteralsIn(c)
  {
    hide Good, IsCode, Then, S.Literals;
    CodesInside();
    CodesBefore();
    CodesAlone();
    CodesEndWell();
    match c
    case QueryField(path) => GoodPath("_dns_queries.value->>", path);
    case AnswerField(path) => GoodPath("_dns_answers.value->>", path);
    case Extract(field, neq) =>
      var last := if neq then ") != ?" else ") = ?";
      GoodCode(last);
      GoodThen("json_extract(events.source, ", "$." + field, [S.Code(last)]);
    case Arrow(field, neq) =>
      var last := if neq then " != ?" else " = ?";
      GoodCode(last);
      GoodThen("events.source->>", field, [S.Code(last)]);
    case DnsGlob(field) =>
      GoodCode(" GLOB ?");
      GoodThen("->>", field, [S.Code(" GLOB ?")]);
      GoodThen("events.source->>", "dns", Then("->>", field, [S.Code(" GLOB ?")]));
    case Rrname => GoodRrname();
    case DnsType(one, other) => GoodDnsType(one, other);
    case SourceLike(negated) => GoodCode(if negated then "events.source NOT LIKE ?" else "events.source LIKE ?");
    case Timestamp(cmp) => GoodCode("timestamp " + Operator(cmp) + " ?");
    case ArchivedIs => GoodCode("events.archived = ?");
    case EscalatedIs => GoodCode("events.escalated = ?");
    case FtsMatch => GoodCode("events.rowid in (select rowid " + "from fts where fts match ?)");
  }

  lemma GoodRrname()
    ensures Good(Template(Rrname)) && S.Literals(Template(Rrname)) == LiteralsIn(Rrname)
  {
    hide Good, IsCode, Then, S.Literals;
    CodesInside();
    CodesBefore();
    CodesEndWell();
    GoodCode(" = ?)");
    var a := [S.Code(" = ?)")];
    GoodThen(" = ?" + " OR _dns_queries.value->>", "rrname", a);
    var b := Then(" = ?" + " OR _dns_queries.value->>", "rrname", a);
    GoodThen("->>", "rrname", b);
    GoodThen("(events.source->>", "dns", Then("->>", "rrname", b));
  }

  lemma GoodDnsType(one: string, other: string)
    ensures var c := DnsType(one, other); Good(Template(c)) && S.Literals(Template(c)) == LiteralsIn(c)
  {
    hide Good, IsCode, Then, S.Literals;
    CodesInside();
    CodesBefore();
    CodesEndWell();
    GoodCode(")");
    var a := Then(" = ", other, [S.Code(")")]);
    GoodThen(" = ", other, [S.Code(")")]);
    GoodThen("->>", "type", a);
    var b := Then(" OR events.source->>", "dns", Then("->>", "type", a));
    GoodThen(" OR events.source->>", "dns", Then("->>", "type", a));
    GoodThen(" = ", one, b);
    GoodThen("->>", "type", Then(" = ", one, b));
    GoodThen("(events.source->>", "dns", Then("->>", "type", Then(" = ", one, b)));
  }

  lemma GoodPath(head: string, path: seq<string>)
    requires IsCode(head)
    ensures var ps := [S.Code(head)] + PathPieces(path) + [S.Code(" = ?")]; Good(ps) && S.Literals(ps) == path
  {
    CodesInside();
    CodesEndWell();
    assert head != "" && MARK !in head;
    hide IsCode;
    PathPiecesApart(path);
    PathLiterals(head, path);
    AllIsCode(head, path);
    HeadApart(head, PathPieces(path) + [S.Code(" = ?")]);
    assert [S.Code(head)] + PathPieces(path) + [S.Code(" = ?")]
        == [S.Code(head)] + (PathPieces(path) + [S.Code(" = ?")]);
  }

  lemma HeadApart(head: string, ps: seq<S.Piece>)
    requires head != "" && MARK !in head && S.Apart(MARK, ps)
    ensures S.Apart(MARK, [S.Code(head)] + ps)
  {
  }

  lemma AllIsCode(head: string, path: seq<string>)
    requires IsCode(head) && IsCode(" = ?") && IsCode("->>")
    ensures var ps := [S.Code(head)] + PathPieces(path) + [S.Code(" = ?")];
      forall i :: 0 <= i < |ps| && ps[i].Code? ==> IsCode(ps[i].text)
  {
    hide IsCode;
    PathCodes(path);
  }

  lemma {:induction false} PathCodes(path: seq<string>)
    requires IsCode("->>")
    ensures forall i :: 0 <= i < |PathPieces(path)| && PathPieces(path)[i].Code? ==> IsCode(PathPieces(path)[i].text)
  {
    hide IsCode;
    if |path| > 1 {
      PathCodes(path[1..]);
    }
  }

  lemma {:induction false} PathPiecesApart(path: seq<string>)
    ensures S.Apart(MARK, PathPieces(path)) && (path != [] ==> PathPieces(path)[0].Quote?)
    ensures S.Apart(MARK, PathPieces(path) + [S.Code(" = ?")])
  {
    if |path| > 1 {
      PathPiecesApart(path[1..]);
    }
  }

  lemma {:induction false} WhereApart(cs: seq<Clause>)
    ensures S.Apart(MARK, WherePieces(cs)) && (cs != [] ==> WherePieces(cs) != [] && WherePieces(cs)[0].Code?)
  {
    hide Template;
    if cs != [] {
      TemplateIsGood(cs[0]);
      if |cs| > 1 {
        WhereApart(cs[1..]);
        assert " and " != "" && MARK !in " and ";
      }
    }
  }

  /** No literal of the condition has an apostrophe in it. */
  ghost predicate Clean(c: Clause) {
    S.Unquoted(MARK, Template(c))
  }

  lemma {:induction false} CleanIff(cs: seq<Clause>)
    ensures S.Unquoted(MARK, WherePieces(cs)) <==> forall i :: 0 <= i < |cs| ==> Clean(cs[i])
  {
    hide Template;
    if |cs| > 1 {
      CleanIff(cs[1..]);
      assert forall i :: 0 <= i < |cs[1..]| ==> cs[1..][i] == cs[i + 1];
      UnquotedConcat(Template(cs[0]) + [S.Code(" and ")], WherePieces(cs[1..]));
      UnquotedConcat(Template(cs[0]), [S.Code(" and ")]);
      assert forall i :: 1 <= i < |cs| ==> cs[i] == cs[1..][i - 1];
    }
  }

  lemma UnquotedConcat(a: seq<S.Piece>, b: seq<S.Piece>)
    ensures S.Unquoted(MARK, a + b) <==> S.Unquoted(MARK, a) && S.Unquoted(MARK, b)
  {
    assert forall i :: 0 <= i < |b| ==> b[i] == (a + b)[|a| + i];
    assert forall i :: 0 <= i < |a| ==> a[i] == (a + b)[i];
  }

  // ----- reading one condition

  function ShapeOf(c: Clause): string { S.Shape(MARK, Template(c)) }
  function LiteralsOf(c: Clause): seq<string> { S.Literals(Template(c)) }

  /** The condition that a text of this shape with these literals is, if it is any. */
  function Guess(s: string, ls: seq<string>): Clause {
    if |s| < 13 then ArchivedIs
    else if s[0] == '_' then (if s[5] == 'q' then QueryField(ls) else AnswerField(ls))
    else if s[0] == 'j' then Extract(if |ls| > 0 && |ls[0]| > 1 then ls[0][2..] else "", s[|s| - 4] == '!')
    else if s[0] == '(' then (if |ls| == 6 then DnsType(ls[2], ls[5]) else Rrname)
    else if s[0] == 't' then
      Timestamp(if s[10] == '>' then (if s[11] == '=' then Gte else Gt) else if s[11] == '=' then Lte else Lt)
    else if |ls| == 1 then Arrow(ls[0], s[|s| - 4] == '!')
    else if |ls| == 2 then DnsGlob(ls[1])
    else if s[7] == 's' then SourceLike(|s| > 14 && s[14] == 'N')
    else if s[7] == 'a' then ArchivedIs
    else if s[7] == 'e' then EscalatedIs
    else FtsMatch
  }

  function ReadClause(s: string, ls: seq<string>): Option<Clause> {
    var c := Guess(s, ls);
    if ShapeOf(c) == s && LiteralsOf(c) == ls then Some(c) else None
  }

  lemma ReadsClauseBack(c: Clause)
    ensures ReadClause(ShapeOf(c), LiteralsOf(c)) == Some(c)
  {
    hide S.Shape, S.Literals;
    TemplateIsGood(c);
    Starts(Template(c));
    Ends(Template(c));
    hide Template;
    var s, ls := ShapeOf(c), LiteralsOf(c);
    assert s == S.Shape(MARK, Template(c)) && ls == LiteralsIn(c);
    var first, last := Template(c)[0].text, Template(c)[|Template(c)| - 1].text;
    FirstAndLast(c);
    GuessesBack(c, s, ls, first, last);
  }

  /** How the conditions begin and end. */
  lemma FirstAndLast(c: Clause)
    ensures Template(c)[0].text == Beginning(c)
    ensures c.Extract? || c.Arrow? ==>
      var t := Template(c)[|Template(c)| - 1].text;
      t == (if c.Extract? then ")" else "") + if c.neq then " != ?" else " = ?"
  {
    assert "" + " != ?" == " != ?" && "" + " = ?" == " = ?" && ")" + " != ?" == ") != ?" && ")" + " = ?" == ") = ?";
  }

  function Beginning(c: Clause): string {
    match c
    case SourceLike(negated) => if negated then "events.source NOT LIKE ?" else "events.source LIKE ?"
    case Extract(_, _) => "json_extract(events.source, "
    case Arrow(_, _) => "events.source->>"
    case DnsType(_, _) => "(events.source->>"
    case Rrname => "(events.source->>"
    case QueryField(_) => "_dns_queries.value->>"
    case AnswerField(_) => "_dns_answers.value->>"
    case DnsGlob(_) => "events.source->>"
    case Timestamp(cmp) => "timestamp " + Operator(cmp) + " ?"
    case ArchivedIs => "events.archived = ?"
    case EscalatedIs => "events.escalated = ?"
    case FtsMatch => "events.rowid in (select rowid " + "from fts where fts match ?)"
  }

  lemma GuessesBack(c: Clause, s: string, ls: seq<string>, first: string, last: string)
    requires ls == LiteralsIn(c) && first == Beginning(c) && first <= s
    requires |last| <= |s| && s[|s| - |last|..] == last
    requires c.Extract? || c.Arrow? ==> last == (if c.Extract? then ")" else "") + if c.neq then " != ?" else " = ?"
    ensures Guess(s, ls) == c
  {
    BeginsAlike(c);
    hide Beginning;
    match c
    case QueryField(_) => BeginsWithAlias(c);
    case AnswerField(_) => BeginsWithAlias(c);
    case Extract(field, neq) =>
      assert ("$." + field)[2..] == field;
      assert s[|s| - |last|..][|last| - 4] == s[|s| - 4];
    case Arrow(_, neq) =>
      assert s[|s| - |last|..][|last| - 4] == s[|s| - 4];
    case Timestamp(cmp) => BeginsWithTime(cmp);
    case SourceLike(_) => BeginsWithColumn(c);
    case ArchivedIs => BeginsWithColumn(c);
    case EscalatedIs => BeginsWithColumn(c);
    case FtsMatch => BeginsWithColumn(c);
    case _ =>
  }

  /** The characters that tell the conditions apart. */
  lemma BeginsAlike(c: Clause)
    ensures var b := Beginning(c);
      && |b| >= 13
      && b[0] == if c.QueryField? || c.AnswerField? then '_' else if c.Extract? then 'j'
                 else if c.DnsType? || c.Rrname? then '(' else if c.Timestamp? then 't' else 'e'
  {
  }

  lemma BeginsWithAlias(c: Clause)
    requires c.QueryField? || c.AnswerField?
    ensures Beginning(c)[5] == if c.QueryField? then 'q' else 'a'
  {
  }

  lemma BeginsWithTime(cmp: Cmp)
    ensures var b := Beginning(Timestamp(cmp));
      && b[10] == (if cmp.Gte? || cmp.Gt? then '>' else '<') && b[11] == if cmp.Gte? || cmp.Lte? then '=' else ' '
  {
  }

  lemma BeginsWithColumn(c: Clause)
    requires c.SourceLike? || c.ArchivedIs? || c.EscalatedIs? || c.FtsMatch?
    ensures var b := Beginning(c);
      && b[7] == (if c.SourceLike? then 's' else if c.ArchivedIs? then 'a' else if c.EscalatedIs? then 'e' else 'r')
      && (c.SourceLike? ==> |b| > 14 && b[14] == if c.negated then 'N' else 'L')
  {
  }

  lemma Starts(ps: seq<S.Piece>)
    requires ps != [] && ps[0].Code?
    ensures ps[0].text <= S.Shape(MARK, ps)
  {
  }

  lemma {:induction false} Ends(ps: seq<S.Piece>)
    requires ps != [] && ps[|ps| - 1].Code?
    ensures var s, t := S.Shape(MARK, ps), ps[|ps| - 1].text;
      |t| <= |s| && s[|s| - |t|..] == t
  {
    if |ps| > 1 {
      Ends(ps[1..]);
    } else {
      assert ps[1..] == [] && ps[0].text + "" == ps[0].text;
    }
  }

  lemma PathLiterals(head: string, path: seq<string>)
    ensures S.Literals([S.Code(head)] + PathPieces(path) + [S.Code(" = ?")]) == path
  {
    PathPiecesLiterals(path);
    S.RenderConcat(MARK, [S.Code(head)] + PathPieces(path), [S.Code(" = ?")]);
    S.RenderConcat(MARK, [S.Code(head)], PathPieces(path));
    OnePiece(head);
    OnePiece(" = ?");
  }

  lemma {:induction false} PathPiecesLiterals(path: seq<string>)
    ensures S.Literals(PathPieces(path)) == path
  {
    if |path| == 1 {
      assert [S.Quote(path[0])][1..] == [];
    } else if |path| > 1 {
      PathPiecesLiterals(path[1..]);
      var ps := PathPieces(path);
      assert ps[1..][1..] == PathPieces(path[1..]) && ps[1] == S.Code("->>");
    }
  }

  // ----- reading a whole WHERE part

  /** Where the first ` and ` is, or the end. */
  function FirstAnd(s: string): (n: nat)
    ensures n <= |s| && (n < |s| ==> |s| >= n + 5 && s[n..n + 5] == " and ")
  {
    if s == "" then 0
    else if |s| >= 5 && s[..5] == " and " then 0
    else
      var n := FirstAnd(s[1..]);
      assert n < |s[1..]| ==> s[1..][n..n + 5] == s[n + 1..n + 6];
      n + 1
  }

  lemma {:induction false} FirstAndAfter(s: string, t: string)
    requires NoAnd(s) && EndsWell(s) && (t == "" || " and " <= t)
    ensures FirstAnd(s + t) == |s|
    decreases |s|
  {
    var all := s + t;
    assert all[1..] == s[1..] + t;
    assert " and "[0] == ' ' && " and "[1] == 'a';
    assert |all| >= 5 ==> all[..5][0] == all[0] && all[..5][1] == all[1];
    if |s| == 1 {
      assert s[1..] + t == t;
      assert t != "" ==> t[..5] == " and ";
    } else {
      FirstAndAfter(s[1..], t);
    }
  }

  function ReadWhere(s: string, ls: seq<string>): (r: Option<seq<Clause>>)
    ensures r.Some? && s != "" ==> r.value != []
    decreases |s|
  {
    if s == "" then (if ls == [] then Some([]) else None)
    else
      var n := FirstAnd(s);
      var part := s[..n];
      var k := S.Occurrences(MARK, part);
      if k > |ls| then None
      else
        match ReadClause(part, ls[..k])
        case None => None
        case Some(c) =>
          if n == |s| then (if k == |ls| then Some([c]) else None)
          else if n + 5 == |s| then None
          else
            match ReadWhere(s[n + 5..], ls[k..])
            case None => None
            case Some(cs) => Some([c] + cs)
  }

  function WhereShape(cs: seq<Clause>): string { S.Shape(MARK, WherePieces(cs)) }
  function WhereLiterals(cs: seq<Clause>): seq<string> { S.Literals(WherePieces(cs)) }

  lemma WhereCons(cs: seq<Clause>)
    requires |cs| > 1
    ensures WhereShape(cs) == ShapeOf(cs[0]) + (" and " + WhereShape(cs[1..]))
    ensures WhereLiterals(cs) == LiteralsOf(cs[0]) + WhereLiterals(cs[1..])
  {
    hide Template;
    S.RenderConcat(MARK, Template(cs[0]) + [S.Code(" and ")], WherePieces(cs[1..]));
    S.RenderConcat(MARK, Template(cs[0]), [S.Code(" and ")]);
    OnePiece(" and ");
    Regroup(ShapeOf(cs[0]), " and ", WhereShape(cs[1..]));
    NothingMore(LiteralsOf(cs[0]));
  }

  lemma ClauseShape(c: Clause)
    ensures ShapeOf(c) != "" && NoAnd(ShapeOf(c)) && EndsWell(ShapeOf(c))
    ensures S.Occurrences(MARK, ShapeOf(c)) == |LiteralsOf(c)|
  {
    hide Template, IsCode, EndsWell, NoAnd;
    TemplateIsGood(c);
    var ps := Template(c);
    S.ShapeCounts(MARK, ps);
    Ends(ps);
    Starts(ps);
    ShapeQuiet(ps);
    EndsAlike(S.Shape(MARK, ps), ps[|ps| - 1].text);
  }

  lemma EndsAlike(s: string, t: string)
    requires |t| <= |s| && s[|s| - |t|..] == t && EndsWell(t)
    ensures EndsWell(s)
  {
    assert s[|s| - |t|..][|t| - 1] == s[|s| - 1];
  }

  lemma {:induction false} ShapeQuiet(ps: seq<S.Piece>)
    requires forall i :: 0 <= i < |ps| && ps[i].Code? ==> IsCode(ps[i].text)
    ensures var s := S.Shape(MARK, ps); NoAnd(s) && (s != "" ==> s[0] != 'a')
  {
    if ps != [] {
      ShapeQuiet(ps[1..]);
      var head := if ps[0].Code? then ps[0].text else [MARK];
      assert ps[0].Code? ==> IsCode(ps[0].text);
      QuietConcat(head, S.Shape(MARK, ps[1..]));
    }
  }

  lemma QuietConcat(a: string, b: string)
    requires NoAnd(a) && NoAnd(b) && (b != "" ==> b[0] != 'a')
    ensures NoAnd(a + b)
  {
  }

  lemma {:induction false} ReadsWhereBack(cs: seq<Clause>)
    ensures ReadWhere(WhereShape(cs), WhereLiterals(cs)) == Some(cs)
  {
    hide Template, ReadClause, S.Shape, S.Literals, WherePieces, NoAnd, EndsWell, S.Occurrences, FirstAnd;
    if cs == [] {
      NoWhere();
    } else {
      var c, s, ls := cs[0], ShapeOf(cs[0]), LiteralsOf(cs[0]);
      ReadsClauseBack(c);
      ClauseShape(c);
      if |cs| == 1 {
        OneWhere(cs);
        FirstAndAfter(s, "");
        NothingMore(s);
        assert cs == [c] && ls[..|ls|] == ls && s[..|s|] == s;
      } else {
        var rest := cs[1..];
        WhereCons(cs);
        ReadsWhereBack(rest);
        WhereNotEmpty(rest);
        var tail := " and " + WhereShape(rest);
        FirstAndAfter(s, tail);
        ReadsOn(s, ls, c, tail, WhereLiterals(rest), rest);
        assert cs == [c] + rest;
      }
    }
  }

  lemma ReadsOn(s: string, ls: seq<string>, c: Clause, tail: string, more: seq<string>, rest: seq<Clause>)
    requires s != "" && |tail| > 5 && FirstAnd(s + tail) == |s| && S.Occurrences(MARK, s) == |ls|
    requires ReadClause(s, ls) == Some(c) && ReadWhere(tail[5..], more) == Some(rest)
    ensures ReadWhere(s + tail, ls + more) == Some([c] + rest)
  {
    hide ReadClause, FirstAnd, S.Occurrences;
    var n := |s|;
    assert (s + tail)[..n] == s && (s + tail)[n + 5..] == tail[5..];
    assert (ls + more)[..|ls|] == ls && (ls + more)[|ls|..] == more;
  }

  lemma NoWhere()
    ensures WhereShape([]) == "" && WhereLiterals([]) == []
  {
  }

  lemma OneWhere(cs: seq<Clause>)
    requires |cs| == 1
    ensures WhereShape(cs) == ShapeOf(cs[0]) && WhereLiterals(cs) == LiteralsOf(cs[0])
  {
  }

  lemma WhereNotEmpty(cs: seq<Clause>)
    requires cs != []
    ensures WhereShape(cs) != ""
  {
    hide Template;
    ClauseShape(cs[0]);
    if |cs| == 1 {
      OneWhere(cs);
    } else {
      WhereCons(cs);
    }
  }

  lemma ReadWhereMeans(s: string, ls: seq<string>, cs: seq<Clause>)
    requires s != "" && ReadWhere(s, ls) == Some(cs)
    ensures cs != [] && var n, k := FirstAnd(s), S.Occurrences(MARK, s[..FirstAnd(s)]);
      && k <= |ls| && ReadClause(s[..n], ls[..k]) == Some(cs[0])
      && (n == |s| ==> |cs| == 1 && k == |ls|)
      && (n < |s| ==> n + 5 < |s| && ReadWhere(s[n + 5..], ls[k..]) == Some(cs[1..]))
  {
    hide ReadClause, FirstAnd, S.Occurrences;
  }

  lemma ReadClauseMeans(s: string, ls: seq<string>, c: Clause)
    requires ReadClause(s, ls) == Some(c)
    ensures s == ShapeOf(c) && ls == LiteralsOf(c)
  {
  }

  lemma Assembled(cs: seq<Clause>, a: string, b: string, c: string, ls: seq<string>, more: seq<string>)
    requires |cs| > 1 && a == ShapeOf(cs[0]) && b == " and " && c == WhereShape(cs[1..])
    requires ls == LiteralsOf(cs[0]) && more == WhereLiterals(cs[1..])
    ensures a + (b + c) == WhereShape(cs) && ls + more == WhereLiterals(cs)
  {
    hide ShapeOf, LiteralsOf, WhereShape, WhereLiterals;
    WhereCons(cs);
  }

  lemma InTwo(ls: seq<string>, k: nat)
    requires k <= |ls|
    ensures ls == ls[..k] + ls[k..]
  {
  }

  lemma InThree(s: string, n: nat)
    requires n + 5 <= |s|
    ensures s == s[..n] + (s[n..n + 5] + s[n + 5..])
  {
  }

  /** What reads as conditions has their shape and their literals. */
  lemma {:induction false} ReadWhereIsSound(s: string, ls: seq<string>, cs: seq<Clause>)
    requires ReadWhere(s, ls) == Some(cs)
    ensures s == WhereShape(cs) && ls == WhereLiterals(cs)
    decreases |s|
  {
    if s == "" {
      NoWhere();
    } else {
      ReadWhereMeans(s, ls, cs);
      hide ReadWhere, ReadClause, FirstAnd, S.Occurrences, ShapeOf, LiteralsOf, WhereShape, WhereLiterals;
      var n := FirstAnd(s);
      var k := S.Occurrences(MARK, s[..n]);
      ReadClauseMeans(s[..n], ls[..k], cs[0]);
      if n == |s| {
        assert s[..n] == s && ls[..k] == ls;
        OneWhere(cs);
      } else {
        ReadWhereIsSound(s[n + 5..], ls[k..], cs[1..]);
        Assembled(cs, s[..n], s[n..n + 5], s[n + 5..], ls[..k], ls[k..]);
        InThree(s, n);
        InTwo(ls, k);
      }
    }
  }

  // ----- what the text says

  /** The conditions that a WHERE text says, if its literals end and it is made of such
      conditions at all. */
  function ReadText(text: string): Option<seq<Clause>> {
    match S.Lex(MARK, text)
    case Unclosed => None
    case Lexed(shape, literals) => ReadWhere(shape, literals)
  }

  /** The text of conditions says those conditions exactly if no literal among them has an
      apostrophe in it. */
  lemma TextReadsBackIff(cs: seq<Clause>)
    ensures ReadText(WhereText(cs)) == Some(cs) <==> forall i :: 0 <= i < |cs| ==> Clean(cs[i])
  {
    hide S.Lex, ReadWhere, Clean, WherePieces, WhereText;
    WhereRendered(cs);
    WhereApart(cs);
    CleanIff(cs);
    S.ReadsBackIff(MARK, WherePieces(cs));
    ReadsWhereBack(cs);
    var l := S.Lex(MARK, WhereText(cs));
    if l.Lexed? && ReadWhere(l.shape, l.literals) == Some(cs) {
      ReadWhereIsSound(l.shape, l.literals, cs);
    }
  }

  // ----- placeholders

  const HOLE: char := '?'

  function HolesIn(t: string): nat { S.Occurrences(HOLE, t) }

  lemma NoHoleIn(t: string)
    requires HOLE !in t
    ensures HolesIn(t) == 0
  {
    S.OccurrencesIff(HOLE, t);
  }

  lemma HoleAt(t: string, i: nat)
    requires i < |t| && t[i] == HOLE && HOLE !in t[..i] && HOLE !in t[i + 1..]
    ensures HolesIn(t) == 1
  {
    S.OccursOnce(HOLE, t[..i], t[i + 1..]);
    assert t == t[..i] + [HOLE] + t[i + 1..];
  }

  lemma HolesOfThen(code: string, literal: string, rest: seq<S.Piece>)
    ensures HolesIn(S.Shape(MARK, Then(code, literal, rest))) == HolesIn(code) + HolesIn(S.Shape(MARK, rest))
  {
    hide S.Occurrences;
    var ps := Then(code, literal, rest);
    assert ps[1..][1..] == rest;
    S.OccurrencesConcat(HOLE, code, [MARK] + S.Shape(MARK, rest));
    S.OccurrencesConcat(HOLE, [MARK], S.Shape(MARK, rest));
    NoHoleIn([MARK]);
  }

  lemma HolesOfCode(t: string)
    ensures HolesIn(S.Shape(MARK, [S.Code(t)])) == HolesIn(t)
  {
    OnePiece(t);
  }

  lemma OneHoleInside()
    ensures HolesIn(" = ?") == 1 && HolesIn(" != ?") == 1 && HolesIn(") = ?") == 1 && HolesIn(") != ?") == 1
    ensures HolesIn(" GLOB ?") == 1 && HolesIn(" = ?)") == 1 && HolesIn(" = ?" + " OR _dns_queries.value->>") == 1
  {
    hide S.Occurrences;
    HoleAt(" = ?", 3);
    HoleAt(" != ?", 4);
    HoleAt(") = ?", 4);
    HoleAt(") != ?", 5);
    HoleAt(" GLOB ?", 6);
    HoleAt(" = ?)", 3);
    RrnameHole();
  }

  lemma RrnameHole()
    ensures HolesIn(" = ?" + " OR _dns_queries.value->>") == 1
  {
    hide S.Occurrences;
    HoleAt(" = ?", 3);
    NoHoleIn(" OR _dns_queries.value->>");
    S.OccurrencesConcat(HOLE, " = ?", " OR _dns_queries.value->>");
  }

  lemma OneHoleAlone(c: Clause)
    requires c.SourceLike? || c.ArchivedIs? || c.EscalatedIs?
    ensures HolesIn(Template(c)[0].text) == 1
  {
    hide S.Occurrences;
    var t := Template(c)[0].text;
    HoleAt(t, |t| - 1);
  }

  lemma OneHoleInTime(cmp: Cmp)
    ensures HolesIn("timestamp " + Operator(cmp) + " ?") == 1
  {
    hide S.Occurrences;
    var t := "timestamp " + Operator(cmp) + " ?";
    HoleAt(t, |t| - 1);
  }

  lemma OneHoleInFts()
    ensures HolesIn("events.rowid in (select rowid " + "from fts where fts match ?)") == 1
  {
    hide S.Occurrences;
    NoHoleIn("events.rowid in (select rowid ");
    HoleAt("from fts where fts match ?)", 25);
    S.OccurrencesConcat(HOLE, "events.rowid in (select rowid ", "from fts where fts match ?)");
  }

  lemma NoHoleBefore()
    ensures HolesIn("json_extract(events.source, ") == 0 && HolesIn("events.source->>") == 0
    ensures HolesIn("(events.source->>") == 0 && HolesIn(" OR events.source->>") == 0
    ensures HolesIn("->>") == 0 && HolesIn(" = ") == 0 && HolesIn(")") == 0
    ensures HolesIn("_dns_queries.value->>") == 0 && HolesIn("_dns_answers.value->>") == 0 && HolesIn(" and ") == 0
  {
    hide S.Occurrences;
    NoHoleInSource();
    NoHoleIn("->>");
    NoHoleIn(" = ");
    NoHoleIn(")");
    NoHoleIn("_dns_queries.value->>");
    NoHoleIn("_dns_answers.value->>");
    NoHoleIn(" and ");
  }

  lemma NoHoleInSource()
    ensures HolesIn("json_extract(events.source, ") == 0 && HolesIn("events.source->>") == 0
    ensures HolesIn("(events.source->>") == 0 && HolesIn(" OR events.source->>") == 0
  {
    hide S.Occurrences;
    NoHoleIn("json_extract(events.source, ");
    NoHoleIn("events.source->>");
    NoHoleIn("(events.source->>");
    NoHoleIn(" OR events.source->>");
  }

  lemma {:induction false} HolesOfPath(path: seq<string>)
    ensures HolesIn(S.Shape(MARK, PathPieces(path))) == 0
  {
    hide S.Occurrences;
    NoHoleBefore();
    if path == [] {
      S.NoOccurrences(HOLE);
    } else if |path| == 1 {
      NoHoleIn([MARK]);
      assert [S.Quote(path[0])][1..] == [] && [MARK] + "" == [MARK];
    } else {
      var rest := PathPieces(path[1..]);
      HolesOfPath(path[1..]);
      S.RenderConcat(MARK, [S.Quote(path[0]), S.Code("->>")], rest);
      assert [S.Quote(path[0]), S.Code("->>")] == [S.Quote(path[0])] + [S.Code("->>")];
      S.RenderConcat(MARK, [S.Quote(path[0])], [S.Code("->>")]);
      OnePiece("->>");
      assert [S.Quote(path[0])][1..] == [] && [MARK] + "" == [MARK];
      NoHoleIn([MARK]);
      S.OccurrencesConcat(HOLE, [MARK] + "->>", S.Shape(MARK, rest));
      S.OccurrencesConcat(HOLE, [MARK], "->>");
    }
  }

  lemma HolesOfAlias(head: string, path: seq<string>)
    requires HolesIn(head) == 0
    ensures HolesIn(S.Shape(MARK, [S.Code(head)] + PathPieces(path) + [S.Code(" = ?")])) == 1
  {
    hide S.Occurrences;
    HolesOfPath(path);
    OneHoleInside();
    OnePiece(head);
    OnePiece(" = ?");
    S.RenderConcat(MARK, [S.Code(head)] + PathPieces(path), [S.Code(" = ?")]);
    S.RenderConcat(MARK, [S.Code(head)], PathPieces(path));
    S.OccurrencesConcat(HOLE, head + S.Shape(MARK, PathPieces(path)), " = ?");
    S.OccurrencesConcat(HOLE, head, S.Shape(MARK, PathPieces(path)));
  }

  /** The text of a condition has as many placeholders as the condition takes arguments. */
  lemma HolesOfClause(c: Clause)
    ensures HolesIn(ShapeOf(c)) == Holes(c)
  {
    hide S.Occurrences, S.Shape, Then;
    NoHoleBefore();
    OneHoleInside();
    match c
    case QueryField(path) => HolesOfAlias("_dns_queries.value->>", path);
    case AnswerField(path) => HolesOfAlias("_dns_answers.value->>", path);
    case Extract(field, neq) =>
      var last := if neq then ") != ?" else ") = ?";
      HolesOfCode(last);
      HolesOfThen("json_extract(events.source, ", "$." + field, [S.Code(last)]);
    case Arrow(field, neq) =>
      var last := if neq then " != ?" else " = ?";
      HolesOfCode(last);
      HolesOfThen("events.source->>", field, [S.Code(last)]);
    case DnsGlob(field) =>
      var a := [S.Code(" GLOB ?")];
      HolesOfCode(" GLOB ?");
      HolesOfThen("->>", field, a);
      HolesOfThen("events.source->>", "dns", Then("->>", field, a));
    case Rrname =>
      var a := [S.Code(" = ?)")];
      HolesOfCode(" = ?)");
      HolesOfThen(" = ?" + " OR _dns_queries.value->>", "rrname", a);
      var b := Then(" = ?" + " OR _dns_queries.value->>", "rrname", a);
      HolesOfThen("->>", "rrname", b);
      HolesOfThen("(events.source->>", "dns", Then("->>", "rrname", b));
    case DnsType(one, other) => HolesOfDnsType(one, other);
    case Timestamp(cmp) =>
      OneHoleInTime(cmp);
      HolesOfCode("timestamp " + Operator(cmp) + " ?");
    case FtsMatch =>
      OneHoleInFts();
      HolesOfCode("events.rowid in (select rowid " + "from fts where fts match ?)");
    case _ =>
      OneHoleAlone(c);
      HolesOfCode(Template(c)[0].text);
  }

  lemma HolesOfDnsType(one: string, other: string)
    ensures HolesIn(ShapeOf(DnsType(one, other))) == 0
  {
    hide S.Occurrences, S.Shape, Then;
    NoHoleBefore();
    HolesOfCode(")");
    HolesOfThen(" = ", other, [S.Code(")")]);
    var a := Then(" = ", other, [S.Code(")")]);
    HolesOfThen("->>", "type", a);
    HolesOfThen(" OR events.source->>", "dns", Then("->>", "type", a));
    var b := Then(" OR events.source->>", "dns", Then("->>", "type", a));
    HolesOfThen(" = ", one, b);
    HolesOfThen("->>", "type", Then(" = ", one, b));
    HolesOfThen("(events.source->>", "dns", Then("->>", "type", Then(" = ", one, b)));
  }

  lemma {:induction false} HolesOfWhere(cs: seq<Clause>)
    ensures HolesIn(WhereShape(cs)) == AllHoles(cs)
  {
    hide S.Occurrences, Template, ShapeOf;
    if cs == [] {
      NoWhere();
      S.NoOccurrences(HOLE);
    } else {
      HolesOfClause(cs[0]);
      HolesOfWhere(cs[1..]);
      if |cs| == 1 {
        OneWhere(cs);
        NoWhere();
        S.NoOccurrences(HOLE);
      } else {
        NoHoleBefore();
        WhereCons(cs);
        S.OccurrencesConcat(HOLE, ShapeOf(cs[0]), " and " + WhereShape(cs[1..]));
        S.OccurrencesConcat(HOLE, " and ", WhereShape(cs[1..]));
      }
    }
  }
}
