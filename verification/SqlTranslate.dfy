/**
 From queries to SQL text (src/sqlite/builder.rs): which queries the text says right, and
 what it selects.
 */
module SqlTranslate {
  import opened Common
  import opened QueryParser
  import opened SqlBuilder
  import opened SqlSentence
  import opened SqlText
  import opened SqlValues
  import S = SqlPieces

  // ----- which queries are said right

  /** The elements that put an apostrophe into the text: those whose key is spliced and has
      one. The keys below `dns.authorities` and `dns.additionals` are spliced only when
      negated. */
  predicate SplicesApostrophe(e: Element) {
    && e.value.KeyValue? && MARK in e.value.key
    && (e.negated || !("dns.authorities" <= e.value.key || "dns.additionals" <= e.value.key))
  }

  lemma CleanMeans(c: Clause)
    ensures Clean(c) <==> forall l :: l in LiteralsIn(c) ==> MARK !in l
  {
    hide Template, LiteralsIn;
    TemplateIsGood(c);
    S.UnquotedMeans(MARK, Template(c));
  }

  lemma CleanExtract(k: string, neq: bool)
    ensures Clean(Extract(k, neq)) <==> MARK !in k
  {
    var c := Extract(k, neq);
    CleanMeans(c);
    assert LiteralsIn(c) == ["$." + k] && ("$." + k) in ["$." + k];
    assert MARK !in "$.";
  }

  lemma CleanConstant(c: Clause)
    requires c in [DnsType("query", "request"), DnsType("answer", "response"), Rrname, DnsGlob("authorities"),
                   DnsGlob("additionals"), Arrow("src_port", true), Arrow("src_port", false), Arrow("dest_port", true),
                   Arrow("dest_port", false)]
    ensures Clean(c)
  {
    hide Clean;
    CleanMeans(c);
    PlainWords();
    forall l | l in LiteralsIn(c) ensures MARK !in l {
    }
  }

  const FIXED_WORDS: seq<string> := ["dns", "type", "query", "request", "answer", "response", "rrname",
                                     "authorities", "additionals", "src_port", "dest_port"]

  lemma PlainWords()
    ensures forall w :: w in FIXED_WORDS ==> MARK !in w
  {
    assert MARK !in "dns" && MARK !in "type" && MARK !in "query" && MARK !in "request" && MARK !in "answer";
    assert MARK !in "response" && MARK !in "rrname" && MARK !in "authorities" && MARK !in "additionals";
    assert MARK !in "src_port" && MARK !in "dest_port";
  }

  lemma CleanWithoutLiterals(c: Clause)
    requires LiteralsIn(c) == []
    ensures Clean(c)
  {
    CleanMeans(c);
  }

  lemma CleanPath(c: Clause, path: seq<string>)
    requires c == QueryField(path) || c == AnswerField(path)
    ensures Clean(c) <==> forall part :: part in path ==> MARK !in part
  {
    CleanMeans(c);
  }

  // ----- paths

  /** The path after two parts of a key has an apostrophe exactly if the key has one. */
  lemma PathKeeps(k: string, head: string, b: string)
    requires '.' !in head && MARK !in head && k == "dns." + head + "." + b
    ensures MARK in k <==> exists part :: part in PathAfterTwo(k) && MARK in part
  {
    var dns := "dns";
    assert '.' !in dns && MARK !in dns && MARK !in "dns." && MARK !in ".";
    assert k == dns + ['.'] + (head + ['.'] + b) by {
      assert "dns." == dns + ['.'] && "." == ['.'];
    }
    SplitAt(dns, '.', head + ['.'] + b);
    SplitAt(head, '.', b);
    SplitKeeps(b, '.', MARK);
    assert Split(k, '.') == [dns] + ([head] + Split(b, '.'));
    assert Split(k, '.')[2..] == Split(b, '.');
  }

  lemma QueryPathClean(k: string)
    requires "dns.queries." <= k
    ensures Clean(QueryField(PathAfterTwo(k))) <==> MARK !in k
  {
    assert "dns." + "queries" + "." == "dns.queries.";
    assert k == "dns.queries." + k[12..];
    assert '.' !in "queries" && MARK !in "queries";
    PathKeeps(k, "queries", k[12..]);
    CleanPath(QueryField(PathAfterTwo(k)), PathAfterTwo(k));
  }

  lemma AnswerPathClean(k: string)
    requires "dns.answers." <= k
    ensures Clean(AnswerField(PathAfterTwo(k))) <==> MARK !in k
  {
    assert "dns." + "answers" + "." == "dns.answers.";
    assert k == "dns.answers." + k[12..];
    assert '.' !in "answers" && MARK !in "answers";
    PathKeeps(k, "answers", k[12..]);
    CleanPath(AnswerField(PathAfterTwo(k)), PathAfterTwo(k));
  }

  // ----- from elements to queries

  lemma ConstantKeys()
    ensures MARK !in "@sid" && MARK !in "@sig" && MARK !in "@ip" && MARK !in "@mac" && MARK !in "src_port"
    ensures MARK !in "dest_port" && MARK !in "dns.type" && MARK !in "dns.rrname" && MARK !in "dns.queries.rrname"
    ensures MARK !in "alert.signature" && MARK !in "alert.signature_id"
  {
  }

  lemma FieldClean(k: string, v: string)
    ensures Clean(PushField(k, v).clause) <==>
      MARK !in k || "dns.authorities" <= k || "dns.additionals" <= k
  {
    hide Bind, PathAfterTwo, Clean;
    ConstantKeys();
    PrefixesDiffer(k);
    var c := PushField(k, v).clause;
    if "dns.queries." <= k && k != "dns.queries.rrname" {
      QueryPathClean(k);
    } else if "dns.answers." <= k {
      AnswerPathClean(k);
    } else if c.Extract? {
      CleanExtract(k, false);
    } else {
      CleanConstant(c);
    }
  }

  lemma PrefixesDiffer(k: string)
    ensures "dns.queries." <= k ==> !("dns.answers." <= k) && !("dns.authorities" <= k) && !("dns.additionals" <= k)
    ensures "dns.answers." <= k ==> !("dns.authorities" <= k) && !("dns.additionals" <= k) && k != "dns.rrname"
    ensures k == "dns.queries.rrname" ==> "dns.queries." <= k
    ensures k == "dns.type" || k == "dns.rrname" ==>
      !("dns.queries." <= k) && !("dns.answers." <= k) && !("dns.authorities" <= k) && !("dns.additionals" <= k)
  {
    assert "dns.queries."[4] == 'q' && "dns.answers."[4] == 'a' && "dns.answers."[5] == 'n';
    assert "dns.authorities"[4] == 'a' && "dns.authorities"[5] == 'u'
        && "dns.additionals"[4] == 'a' && "dns.additionals"[5] == 'd';
    assert "dns.type"[4] == 't' && "dns.rrname"[4] == 'r' && "dns.queries.rrname"[..12] == "dns.queries.";
  }

  ghost predicate AllClean(ps: seq<Pushed>) {
    forall p :: p in ps ==> Clean(p.clause)
  }

  lemma PushedCleanIff(fts: bool, e: Element)
    ensures AllClean(Push(fts, e)) <==> !SplicesApostrophe(e)
  {
    hide Bind, PushField, Clean;
    match e.value
    case Text(s) => TextClean(e.negated, fts, s);
    case KeyValue(k0, v) => PairCleanIff(fts, e);
    case _ => CleanWithoutLiterals(Push(fts, e)[0].clause);
  }

  lemma TextClean(negated: bool, fts: bool, s: string)
    ensures AllClean(PushText(negated, fts, s))
  {
    hide Clean;
    CleanWithoutLiterals(SourceLike(negated));
  }

  lemma PairCleanIff(fts: bool, e: Element)
    requires e.value.KeyValue?
    ensures AllClean(Push(fts, e)) <==> !SplicesApostrophe(e)
  {
    hide Bind, PushField, Clean, PushText;
    ConstantKeys();
    var k0, v := e.value.key, e.value.value;
    var k := Alias(k0);
    AliasIsPlain(k0);
    if k == "@ip" || k == "@mac" {
      TextClean(e.negated, fts, v);
    } else {
      var ps := Push(fts, e);
      assert ps == [ps[0]] && ps[0] in ps;
      if k == "src_port" || k == "dest_port" {
        CleanConstant(Arrow(k, e.negated));
      } else if e.negated {
        CleanExtract(k, true);
      } else {
        FieldClean(k, v);
      }
    }
  }

  lemma AliasIsPlain(k: string)
    ensures MARK in Alias(k) <==> MARK in k
    ensures "dns.authorities" <= Alias(k) <==> "dns.authorities" <= k
    ensures "dns.additionals" <= Alias(k) <==> "dns.additionals" <= k
  {
    ConstantKeys();
    assert "dns.authorities"[0] == "dns.additionals"[0] == 'd'
        && "alert.signature"[0] == "alert.signature_id"[0] == 'a';
    assert "@sid"[0] == "@sig"[0] == '@';
  }

  lemma {:induction false} CompiledCleanIff(fts: bool, q: seq<Element>)
    ensures AllClean(Compile(fts, q)) <==> forall e :: e in q ==> !SplicesApostrophe(e)
  {
    hide Push, Clean, SplicesApostrophe;
    if q != [] {
      CompiledCleanIff(fts, q[1..]);
      PushedCleanIff(fts, q[0]);
      assert q == [q[0]] + q[1..];
      assert forall p :: p in Compile(fts, q) <==> p in Push(fts, q[0]) || p in Compile(fts, q[1..]);
    }
  }

  /** All conditions of a query, the full-text one last. */
  function Finished(fts: bool, q: seq<Element>): seq<Pushed> {
    Compile(fts, q) + FtsPart(AllPhrases(fts, q))
  }

  /** The text of a query's conditions says those conditions exactly if no element puts an
      apostrophe into it; and then it has a placeholder for each argument. */
  lemma QueryIsSaidIff(fts: bool, q: seq<Element>)
    ensures var cs := Clauses(Finished(fts, q));
      && (ReadText(WhereText(cs)) == Some(cs) <==> forall e :: e in q ==> !SplicesApostrophe(e))
      && ((forall e :: e in q ==> !SplicesApostrophe(e)) ==>
            S.Lex(MARK, WhereText(cs)).Lexed? && HolesIn(S.Lex(MARK, WhereText(cs)).shape) == AllHoles(cs))
  {
    hide Clean, SplicesApostrophe, Compile, AllPhrases, WhereText, ReadWhere, S.Lex, AllHoles, JoinPhrases, WherePieces;
    var ps := Finished(fts, q);
    var cs := Clauses(ps);
    CompiledCleanIff(fts, q);
    CleanWithoutLiterals(FtsMatch);
    assert forall p :: p in ps <==> p in Compile(fts, q) || p in FtsPart(AllPhrases(fts, q));
    assert AllClean(ps) <==> forall i :: 0 <= i < |cs| ==> Clean(cs[i]);
    TextReadsBackIff(cs);
    HolesOfWhere(cs);
    WhereRendered(cs);
    WhereApart(cs);
    CleanIff(cs);
    S.ReadsBackIff(MARK, WherePieces(cs));
  }

  /** A field with one apostrophe in it leaves a literal open, and what placeholders there
      were are swallowed by it. */
  lemma OneApostropheLeavesALiteralOpen(a: string, b: string, neq: bool)
    requires MARK !in a && MARK !in b
    ensures var text := S.Render(MARK, Template(Extract(a + [MARK] + b, neq)));
      S.Lex(MARK, text) == S.Unclosed
      && S.ScanText(MARK, S.NOTHING, text).shape
         == "json_extract(events.source, " + [MARK] + if b == "" then "" else b + [MARK]
  {
    var last := if neq then ") != ?" else ") = ?";
    JsonCode();
    CodesInside();
    Extracted(a + [MARK] + b, neq);
    assert MARK !in "$.";
    assert "$." + (a + [MARK] + b) == ("$." + a) + [MARK] + b;
    LeftOpen("json_extract(events.source, ", "$." + a, b, last);
  }

  lemma LeftOpen(head: string, a: string, b: string, last: string)
    requires MARK !in head && MARK !in a && MARK !in b && MARK !in last
    ensures var t := S.ScanText(MARK, S.NOTHING, head + (([MARK] + (a + [MARK] + b) + [MARK]) + last));
      t.mode.Inside? && t.shape == head + [MARK] + if b == "" then "" else b + [MARK]
  {
    hide S.ScanText;
    var open := [MARK] + a + [MARK];
    var rest := b + ([MARK] + last);
    assert ([MARK] + (a + [MARK] + b) + [MARK]) + last == open + rest;
    S.ScanConcat(MARK, S.NOTHING, head, open + rest);
    S.ScanCode(MARK, S.NOTHING, head);
    var s1 := S.ScanText(MARK, S.NOTHING, head);
    assert "" + head == head;
    S.ScanConcat(MARK, s1, open, rest);
    S.ScanQuote(MARK, s1, a);
    Swallowed(S.ScanText(MARK, s1, open), b, last);
    Regroup(head + [MARK], b, [MARK]);
  }

  lemma Extracted(field: string, neq: bool)
    ensures S.Render(MARK, Template(Extract(field, neq)))
         == "json_extract(events.source, " + (([MARK] + ("$." + field) + [MARK]) + if neq then ") != ?" else ") = ?")
  {
    var last := if neq then ") != ?" else ") = ?";
    var ps := Template(Extract(field, neq));
    assert ps[1..] == [S.Quote("$." + field), S.Code(last)] && ps[1..][1..] == [S.Code(last)];
    OnePiece(last);
  }

  lemma Swallowed(s: S.Scan, b: string, last: string)
    requires s.mode.Ending? && MARK !in b && MARK !in last
    ensures var t := S.ScanText(MARK, s, b + ([MARK] + last));
      t.mode.Inside? && t.shape == s.shape + if b == "" then "" else b + [MARK]
  {
    assert ([MARK] + last)[1..] == last;
    if b == "" {
      assert "" + ([MARK] + last) == [MARK] + last;
      S.ScanInside(MARK, S.Next(MARK, s, MARK), last);
      NothingMore(s.shape);
    } else {
      S.ScanConcat(MARK, s, b, [MARK] + last);
      S.ScanCodeAfter(MARK, s, b);
      var t := S.ScanText(MARK, s, b);
      Regroup(s.shape, b, [MARK]);
      S.ScanInside(MARK, S.Next(MARK, t, MARK), last);
    }
  }

  /** The query `a'b:c`, for one: it is what this printed query parses to, and its text
      ends inside a literal that has swallowed the placeholder of its argument. */
  lemma ApostropheInAKey(clock: Clock, show: Time -> string)
    requires Inverse(clock, show)
    ensures var q := [Element(false, KeyValue("a'b", "c"))];
      var text := WhereText(Clauses(Compile(false, q)));
      && ParseFrom(clock, Print(show, q), false) == Ok(q)
      && S.Lex(MARK, text) == S.Unclosed && |Args(Compile(false, q))| == 1
      && HolesIn(S.ScanText(MARK, S.NOTHING, text).shape) == 0
  {
    hide Printable, Print, ParseFrom, S.Lex, Bind, Phrase, S.ScanText, S.Occurrences, Push;
    var e := Element(false, KeyValue("a'b", "c"));
    ApostropheIsPrintable();
    RoundTripIffPrintable(clock, show, [e]);
    PushesExtract(false, "a'b", "c");
    CompilesAlone(e, Pushed(Extract("a'b", false), [Bind("c")]));
    ApostropheText();
  }

  lemma ApostropheIsPrintable()
    ensures Printable(Element(false, KeyValue("a'b", "c")))
  {
    assert "a'b"[0] == 'a' && "@from"[0] == "@to"[0] == "@before"[0] == "@after"[0] == '@' && "is"[0] == 'i';
  }

  lemma CompilesAlone(e: Element, p: Pushed)
    requires Push(false, e) == [p]
    ensures var ps := Compile(false, [e]);
      Args(ps) == p.args && WhereText(Clauses(ps)) == S.Render(MARK, Template(p.clause))
  {
    hide Push, Template, S.Render;
    assert [e][1..] == [] && [p] + Compile(false, []) == [p];
    PushedOne(p);
  }

  lemma ApostropheText()
    ensures var text := S.Render(MARK, Template(Extract("a'b", false)));
      S.Lex(MARK, text) == S.Unclosed && HolesIn(S.ScanText(MARK, S.NOTHING, text).shape) == 0
  {
    hide S.Lex, S.ScanText, S.Occurrences, Template, S.Render;
    assert "a'b" == "a" + [MARK] + "b";
    OneApostropheLeavesALiteralOpen("a", "b", false);
    var shape := "json_extract(events.source, " + [MARK] + ("b" + [MARK]);
    NoHoleBefore();
    NoHoleIn([MARK]);
    NoHoleIn("b" + [MARK]);
    S.OccurrencesConcat(HOLE, "json_extract(events.source, " + [MARK], "b" + [MARK]);
    S.OccurrencesConcat(HOLE, "json_extract(events.source, ", [MARK]);
  }

  lemma PushesExtract(fts: bool, k: string, v: string)
    requires k != "" && k[0] == 'a'
    ensures Push(fts, Element(false, KeyValue(k, v))) == [Pushed(Extract(k, false), [Bind(v)])]
  {
    assert "@sid"[0] == "@sig"[0] == "@ip"[0] == "@mac"[0] == '@' && "src_port"[0] == 's';
    assert "dest_port"[0] == "dns.type"[0] == "dns.rrname"[0] == "dns.queries.rrname"[0] == 'd';
    assert "dns.queries."[0] == "dns.answers."[0] == "dns.authorities"[0] == "dns.additionals"[0] == 'd';
  }

  // ----- full-text phrases

  const DOUBLE: char := '"'

  function PhraseText(e: Element): string {
    match e.value case Text(s) => s case KeyValue(_, v) => v case _ => ""
  }

  /** The texts that a query asks the full-text index for. */
  function AllTexts(fts: bool, q: seq<Element>): seq<string> {
    if q == [] then []
    else (if Phrases(fts, q[0]) == [] then [] else [PhraseText(q[0])]) + AllTexts(fts, q[1..])
  }

  function PhrasePieces(ts: seq<string>): seq<S.Piece> {
    if ts == [] then []
    else if |ts| == 1 then [S.Quote(ts[0])]
    else [S.Quote(ts[0]), S.Code(" AND ")] + PhrasePieces(ts[1..])
  }

  lemma {:induction false} PhrasesRendered(fts: bool, q: seq<Element>)
    ensures JoinPhrases(AllPhrases(fts, q)) == S.Render(DOUBLE, PhrasePieces(AllTexts(fts, q)))
    ensures AllPhrases(fts, q) == [] <==> AllTexts(fts, q) == []
  {
    if q != [] {
      PhrasesRendered(fts, q[1..]);
      OnePhrase(fts, q[0]);
      var more := AllTexts(fts, q[1..]);
      if Phrases(fts, q[0]) == [] {
        assert AllPhrases(fts, q) == AllPhrases(fts, q[1..]) && AllTexts(fts, q) == more;
      } else {
        PhraseFirst(PhraseText(q[0]), more, AllPhrases(fts, q[1..]));
        assert AllTexts(fts, q) == [PhraseText(q[0])] + more;
        assert AllPhrases(fts, q) == [Phrase(PhraseText(q[0]))] + AllPhrases(fts, q[1..]);
      }
    }
  }

  lemma OnePhrase(fts: bool, e: Element)
    ensures Phrases(fts, e) != [] ==> Phrases(fts, e) == [Phrase(PhraseText(e))]
  {
  }

  lemma PhraseFirst(t: string, ts: seq<string>, phrases: seq<string>)
    requires JoinPhrases(phrases) == S.Render(DOUBLE, PhrasePieces(ts)) && (phrases == [] <==> ts == [])
    ensures JoinPhrases([Phrase(t)] + phrases) == S.Render(DOUBLE, PhrasePieces([t] + ts))
  {
    var all := [Phrase(t)] + phrases;
    assert all[0] == Phrase(t) && all[1..] == phrases && ([t] + ts)[1..] == ts;
    assert Phrase(t) == [DOUBLE] + t + [DOUBLE];
    if ts == [] {
      assert [t] + ts == [t] && all == [Phrase(t)] && [S.Quote(t)][1..] == [] && Phrase(t) + "" == Phrase(t);
    } else {
      var ps := PhrasePieces([t] + ts);
      assert ps[1..][1..] == PhrasePieces(ts) && ps[1] == S.Code(" AND ");
      assert |all| > 1;
      Regroup(Phrase(t), " AND ", JoinPhrases(phrases));
    }
  }

  lemma {:induction false} PhrasePiecesAre(ts: seq<string>)
    ensures S.Literals(PhrasePieces(ts)) == ts && S.Apart(DOUBLE, PhrasePieces(ts))
    ensures ts != [] ==> PhrasePieces(ts)[0].Quote?
  {
    if |ts| == 1 {
      assert [S.Quote(ts[0])][1..] == [];
    } else if |ts| > 1 {
      PhrasePiecesAre(ts[1..]);
      var ps := PhrasePieces(ts);
      assert ps[1..][1..] == PhrasePieces(ts[1..]) && ps[1] == S.Code(" AND ") && DOUBLE !in " AND ";
    }
  }

  /** The argument of the full-text condition asks for exactly the texts searched for
      exactly if none of them has a double quote in it. */
  lemma PhrasesAreSaidIff(fts: bool, q: seq<Element>)
    ensures var ts := AllTexts(fts, q);
      S.Lex(DOUBLE, JoinPhrases(AllPhrases(fts, q))) == S.Lexed(S.Shape(DOUBLE, PhrasePieces(ts)), ts)
      <==> forall t :: t in ts ==> DOUBLE !in t
  {
    hide S.Lex, S.Shape, JoinPhrases, AllPhrases, AllTexts, PhrasePieces;
    var ts := AllTexts(fts, q);
    PhrasesRendered(fts, q);
    PhrasePiecesAre(ts);
    S.ReadsBackIff(DOUBLE, PhrasePieces(ts));
    S.UnquotedMeans(DOUBLE, PhrasePieces(ts));
  }

  // ----- the translation

  /** The text says conditions, and these select the row exactly if the query holds. */
  ghost predicate TextSelectsRight(text: string, bound: seq<Sql>, q: seq<Element>, fts: bool, r: Row) {
    ReadText(text).Some? && SelectsRight(ReadText(text).value, bound, q, fts, r)
  }

  /** From a query to its WHERE text, arguments and joins. The text is `conditions`, joined by
      ` and `, as the database gets them; it says them
      exactly if no element puts an apostrophe into it; and then, of the rows that the joins
      make, it selects the right ones, each placeholder taking its argument. */
  method Translate(q: seq<Element>, fts: bool)
    returns (text: string, bound: seq<Sql>, joins: seq<Join>, ghost conditions: seq<Clause>)
    ensures joins == Joins(q) && text == Sentences(conditions)
    ensures forall r :: HasJoins(joins, r) ==> SelectsRight(conditions, bound, q, fts, r)
    ensures ReadText(text) == Some(conditions) <==> forall e :: e in q ==> !SplicesApostrophe(e)
    ensures (forall e :: e in q ==> !SplicesApostrophe(e)) ==>
      && S.Lex(MARK, text).Lexed? && HolesIn(S.Lex(MARK, text).shape) == |bound|
      && forall r :: HasJoins(joins, r) ==> TextSelectsRight(text, bound, q, fts, r)
  {
    hide SelectsRight, AllJoined, HasJoins, Compile, AllPhrases, FtsPart, Clauses, Args, Joins, WhereText, ReadText,
         SplicesApostrophe, S.Lex, S.Occurrences, Sentences;
    var b := new EventQueryBuilder(fts);
    b.LeftJoinFromQueryString(q);
    b.ApplyQueryString(q);
    var wheres;
    wheres, bound, text := b.BuildWhere();
    conditions := wheres;
    joins := b.leftJoin;
    WhereSays(conditions);
    ghost var compiled, last := Compile(fts, q), FtsPart(AllPhrases(fts, q));
    ClausesConcat(compiled, last);
    ArgsConcat(compiled, last);
    assert [] + Clauses(compiled) == Clauses(compiled) && [] + Args(compiled) == Args(compiled);
    assert [] + AllPhrases(fts, q) == AllPhrases(fts, q);
    QueryIsSaidIff(fts, q);
    ArgumentsMatch(fts, q);
    forall r | HasJoins(joins, r) ensures SelectsRight(conditions, bound, q, fts, r) {
      JoinsSuffice(q, r);
      BuiltSelectsRight(q, fts, r);
    }
  }

  lemma ArgumentsMatch(fts: bool, q: seq<Element>)
    ensures |Args(Finished(fts, q))| == AllHoles(Clauses(Finished(fts, q)))
  {
    hide Compile, AllPhrases, JoinPhrases, AllHoles, Args, Clauses, Conjunction, AllHold;
    var nothing := (x: string) => Null;
    var r := Row("", 0, 0, 0, nothing, nothing, nothing, Some((path: seq<string>) => Null),
                 Some((path: seq<string>) => Null), (a, b) => false, s => false);
    assert AllJoined(q, r);
    BuiltSelectsRight(q, fts, r);
  }
}
