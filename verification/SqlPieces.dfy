/**
 Text made of fixed code and quoted literals whose contents are spliced in as they are, and
 how a reader takes it apart again: a quote opens a literal, a quote ends it, and a doubled
 quote in between stands for one. SQL reads strings so, and the full-text index its phrases.
 */
module SqlPieces {
  import opened Common

  datatype Piece = Code(text: string) | Quote(text: string)

  function Print(q: char, p: Piece): string {
    match p
    case Code(t) => t
    case Quote(t) => [q] + t + [q]
  }

  function Render(q: char, ps: seq<Piece>): string {
    if ps == [] then "" else Print(q, ps[0]) + Render(q, ps[1..])
  }

  /** The text with every literal reduced to one quote, and the contents of the literals. */
  function Shape(q: char, ps: seq<Piece>): string {
    if ps == [] then "" else (if ps[0].Code? then ps[0].text else [q]) + Shape(q, ps[1..])
  }

  function Literals(ps: seq<Piece>): seq<string> {
    if ps == [] then [] else (if ps[0].Code? then [] else [ps[0].text]) + Literals(ps[1..])
  }

  /** The code has no quotes of its own, and literals are apart. */
  ghost predicate Apart(q: char, ps: seq<Piece>) {
    && (forall i :: 0 <= i < |ps| && ps[i].Code? ==> ps[i].text != "" && q !in ps[i].text)
    && (forall i :: 0 <= i < |ps| - 1 && ps[i].Quote? ==> ps[i + 1].Code?)
  }

  /** No literal contains the quote. */
  ghost predicate Unquoted(q: char, ps: seq<Piece>) {
    forall i :: 0 <= i < |ps| && ps[i].Quote? ==> q !in ps[i].text
  }

  // ----- the reader

  datatype Mode = Plain | Inside(text: string) | Ending(text: string)

  datatype Scan = Scan(shape: string, literals: seq<string>, mode: Mode)

  datatype Lexed = Unclosed | Lexed(shape: string, literals: seq<string>)

  const NOTHING: Scan := Scan("", [], Plain)

  function Next(q: char, s: Scan, c: char): Scan {
    match s.mode
    case Plain => if c == q then s.(shape := s.shape + [q], mode := Inside("")) else s.(shape := s.shape + [c])
    case Inside(t) => s.(mode := if c == q then Ending(t) else Inside(t + [c]))
    case Ending(t) =>
      if c == q then s.(mode := Inside(t + [q])) else Scan(s.shape + [c], s.literals + [t], Plain)
  }

  function ScanText(q: char, s: Scan, text: string): Scan
    decreases |text|
  {
    if text == "" then s else ScanText(q, Next(q, s, text[0]), text[1..])
  }

  function Finish(s: Scan): Lexed {
    match s.mode
    case Plain => Lexed(s.shape, s.literals)
    case Inside(_) => Unclosed
    case Ending(t) => Lexed(s.shape, s.literals + [t])
  }

  function Lex(q: char, text: string): Lexed {
    Finish(ScanText(q, NOTHING, text))
  }

  lemma {:induction false} ScanConcat(q: char, s: Scan, a: string, b: string)
    ensures ScanText(q, s, a + b) == ScanText(q, ScanText(q, s, a), b)
    decreases |a|
  {
    hide Next;
    if a == "" {
      assert a + b == b;
    } else {
      Onward(a, b);
      ScanConcat(q, Next(q, s, a[0]), a[1..], b);
    }
  }

  lemma {:induction false} ScanCode(q: char, s: Scan, text: string)
    requires s.mode.Plain? && q !in text
    ensures ScanText(q, s, text) == s.(shape := s.shape + text)
    decreases |text|
  {
    if text == "" {
      NothingMore(s.shape);
    } else {
      assert text == [text[0]] + text[1..];
      ScanCode(q, Next(q, s, text[0]), text[1..]);
      Regroup(s.shape, [text[0]], text[1..]);
    }
  }

  lemma ScanCodeAfter(q: char, s: Scan, text: string)
    requires s.mode.Ending? && text != "" && q !in text
    ensures ScanText(q, s, text) == Scan(s.shape + text, s.literals + [s.mode.text], Plain)
  {
    assert text == [text[0]] + text[1..];
    ScanCode(q, Next(q, s, text[0]), text[1..]);
    Regroup(s.shape, [text[0]], text[1..]);
  }

  lemma {:induction false} ScanInside(q: char, s: Scan, text: string)
    requires s.mode.Inside? && q !in text
    ensures ScanText(q, s, text) == s.(mode := Inside(s.mode.text + text))
    decreases |text|
  {
    if text == "" {
      NothingMore(s.mode.text);
    } else {
      assert text == [text[0]] + text[1..];
      ScanInside(q, Next(q, s, text[0]), text[1..]);
      Regroup(s.mode.text, [text[0]], text[1..]);
    }
  }

  lemma ScanQuote(q: char, s: Scan, text: string)
    requires s.mode.Plain? && q !in text
    ensures ScanText(q, s, [q] + text + [q]) == s.(shape := s.shape + [q], mode := Ending(text))
  {
    var inside := s.(shape := s.shape + [q], mode := Inside(""));
    Regroup([q], text, [q]);
    assert ([q] + (text + [q]))[1..] == text + [q];
    ScanConcat(q, inside, text, [q]);
    ScanInside(q, inside, text);
    assert "" + text == text && [q][1..] == "";
  }

  /** Reading what was rendered, after something already read. */
  lemma {:induction false} ScanPieces(q: char, s: Scan, ps: seq<Piece>)
    requires Apart(q, ps) && Unquoted(q, ps)
    requires s.mode.Plain? || (s.mode.Ending? && (ps == [] || ps[0].Code?))
    ensures var before := Finish(s);
      Finish(ScanText(q, s, Render(q, ps)))
      == Lexed(before.shape + Shape(q, ps), before.literals + Literals(ps))
    decreases |ps|
  {
    hide ScanText;
    var before := Finish(s);
    if ps == [] {
      ScanNothing(q, s);
      NothingMore(before.shape);
      NothingMore(before.literals);
    } else {
      var rest := ps[1..];
      assert Apart(q, rest) && Unquoted(q, rest) by {
        assert forall i :: 0 <= i < |rest| ==> rest[i] == ps[i + 1];
      }
      var t := ps[0].text;
      ScanConcat(q, s, Print(q, ps[0]), Render(q, rest));
      if ps[0].Quote? {
        assert rest != [] ==> rest[0] == ps[1];
        ScanQuote(q, s, t);
        Regroup(before.literals, [t], Literals(rest));
        Regroup(before.shape, [q], Shape(q, rest));
      } else {
        if s.mode.Plain? {
          ScanCode(q, s, t);
        } else {
          ScanCodeAfter(q, s, t);
        }
        Regroup(before.shape, t, Shape(q, rest));
        assert [] + Literals(rest) == Literals(rest);
      }
      ScanPieces(q, ScanText(q, s, Print(q, ps[0])), rest);
    }
  }

  lemma ScanNothing(q: char, s: Scan)
    ensures ScanText(q, s, "") == s
  {
  }

  // ----- how much was read

  function Occurrences(q: char, t: string): nat {
    if t == "" then 0 else Occurrences(q, t[..|t| - 1]) + if t[|t| - 1] == q then 1 else 0
  }

  /** What the literals took, their ends included. */
  function Taken(q: char, ls: seq<string>): nat {
    if ls == [] then 0 else Taken(q, ls[..|ls| - 1]) + |ls[|ls| - 1]| + Occurrences(q, ls[|ls| - 1]) + 1
  }

  function Extent(q: char, s: Scan): nat {
    |s.shape| + Taken(q, s.literals)
    + match s.mode
      case Plain => 0
      case Inside(t) => |t| + Occurrences(q, t)
      case Ending(t) => |t| + Occurrences(q, t) + 1
  }

  lemma OccurrencesSnoc(q: char, t: string, c: char)
    ensures Occurrences(q, t + [c]) == Occurrences(q, t) + if c == q then 1 else 0
  {
    assert (t + [c])[..|t|] == t;
  }

  lemma TakenSnoc(q: char, ls: seq<string>, l: string)
    ensures Taken(q, ls + [l]) == Taken(q, ls) + |l| + Occurrences(q, l) + 1
  {
    assert (ls + [l])[..|ls|] == ls;
  }

  lemma {:induction false} ScanExtent(q: char, s: Scan, text: string)
    ensures Extent(q, ScanText(q, s, text)) == Extent(q, s) + |text|
    decreases |text|
  {
    hide Occurrences, Taken;
    if text != "" {
      ScanExtent(q, Next(q, s, text[0]), text[1..]);
      if !s.mode.Plain? {
        OccurrencesSnoc(q, s.mode.text, text[0]);
        TakenSnoc(q, s.literals, s.mode.text);
      } else {
        NoOccurrences(q);
      }
    }
  }

  lemma NoOccurrences(q: char)
    ensures Occurrences(q, "") == 0 && Taken(q, []) == 0
  {
  }

  lemma {:induction false} OccurrencesIff(q: char, t: string)
    ensures Occurrences(q, t) == 0 <==> q !in t
  {
    if t != "" {
      OccurrencesIff(q, t[..|t| - 1]);
      assert t == t[..|t| - 1] + [t[|t| - 1]];
    }
  }

  lemma LexedExtent(q: char, text: string)
    requires Lex(q, text).Lexed?
    ensures |text| == |Lex(q, text).shape| + Taken(q, Lex(q, text).literals)
  {
    hide ScanText;
    ScanExtent(q, NOTHING, text);
    NoOccurrences(q);
    var s := ScanText(q, NOTHING, text);
    if s.mode.Ending? {
      TakenSnoc(q, s.literals, s.mode.text);
    }
  }

  /** How many quotes stand in the spliced contents. */
  function Spliced(q: char, ps: seq<Piece>): nat {
    if ps == [] then 0 else (if ps[0].Quote? then Occurrences(q, ps[0].text) else 0) + Spliced(q, ps[1..])
  }

  lemma {:induction false} SplicedIff(q: char, ps: seq<Piece>)
    ensures Spliced(q, ps) == 0 <==> Unquoted(q, ps)
  {
    if ps != [] {
      SplicedIff(q, ps[1..]);
      OccurrencesIff(q, ps[0].text);
      assert forall i :: 0 <= i < |ps[1..]| ==> ps[1..][i] == ps[i + 1];
      assert forall i :: 1 <= i < |ps| ==> ps[i] == ps[1..][i - 1];
    }
  }

  lemma {:induction false} TakenCons(q: char, l: string, ls: seq<string>)
    ensures Taken(q, [l] + ls) == |l| + Occurrences(q, l) + 1 + Taken(q, ls)
    decreases |ls|
  {
    if ls == [] {
      assert [l] + ls == [] + [l];
      TakenSnoc(q, [], l);
    } else {
      var n := |ls| - 1;
      TakenCons(q, l, ls[..n]);
      assert ls == ls[..n] + [ls[n]];
      Regroup([l], ls[..n], [ls[n]]);
      TakenSnoc(q, [l] + ls[..n], ls[n]);
      TakenSnoc(q, ls[..n], ls[n]);
    }
  }

  lemma {:induction false} RenderedExtent(q: char, ps: seq<Piece>)
    ensures |Render(q, ps)| + Spliced(q, ps) == |Shape(q, ps)| + Taken(q, Literals(ps))
  {
    hide Occurrences, Taken;
    if ps == [] {
      NoOccurrences(q);
    } else {
      RenderedExtent(q, ps[1..]);
      TakenCons(q, ps[0].text, Literals(ps[1..]));
      assert [] + Literals(ps[1..]) == Literals(ps[1..]);
    }
  }

  /** A rendered text reads back as the pieces it was rendered from exactly if no spliced
      content has the quote in it. */
  lemma ReadsBackIff(q: char, ps: seq<Piece>)
    requires Apart(q, ps)
    ensures Lex(q, Render(q, ps)) == Lexed(Shape(q, ps), Literals(ps)) <==> Unquoted(q, ps)
  {
    hide Lex, Apart, Unquoted;
    SplicedIff(q, ps);
    if Unquoted(q, ps) {
      ReadsBack(q, ps);
    } else if Lex(q, Render(q, ps)) == Lexed(Shape(q, ps), Literals(ps)) {
      LexedExtent(q, Render(q, ps));
      RenderedExtent(q, ps);
    }
  }

  lemma ReadsBack(q: char, ps: seq<Piece>)
    requires Apart(q, ps) && Unquoted(q, ps)
    ensures Lex(q, Render(q, ps)) == Lexed(Shape(q, ps), Literals(ps))
  {
    ScanPieces(q, NOTHING, ps);
    assert "" + Shape(q, ps) == Shape(q, ps) && [] + Literals(ps) == Literals(ps);
  }

  // ----- pieces in sequence

  lemma {:induction false} RenderConcat(q: char, a: seq<Piece>, b: seq<Piece>)
    ensures Render(q, a + b) == Render(q, a) + Render(q, b)
    ensures Shape(q, a + b) == Shape(q, a) + Shape(q, b)
    ensures Literals(a + b) == Literals(a) + Literals(b)
  {
    if a == [] {
      assert a + b == b;
    } else {
      RenderConcat(q, a[1..], b);
      Onward(a, b);
      Regroup(Print(q, a[0]), Render(q, a[1..]), Render(q, b));
      Regroup(if a[0].Code? then a[0].text else [q], Shape(q, a[1..]), Shape(q, b));
      Regroup(if a[0].Code? then [] else [a[0].text], Literals(a[1..]), Literals(b));
    }
  }

  lemma {:induction false} OccurrencesConcat(q: char, a: string, b: string)
    ensures Occurrences(q, a + b) == Occurrences(q, a) + Occurrences(q, b)
    decreases |b|
  {
    if b == "" {
      NothingMore(a);
    } else {
      var n := |b| - 1;
      OccurrencesConcat(q, a, b[..n]);
      assert b == b[..n] + [b[n]];
      Regroup(a, b[..n], [b[n]]);
      OccurrencesSnoc(q, a + b[..n], b[n]);
    }
  }

  /** A shape has one quote for every literal. */
  lemma {:induction false} ShapeCounts(q: char, ps: seq<Piece>)
    requires forall i :: 0 <= i < |ps| && ps[i].Code? ==> q !in ps[i].text
    ensures Occurrences(q, Shape(q, ps)) == |Literals(ps)|
  {
    hide Occurrences;
    if ps == [] {
      NoOccurrences(q);
    } else {
      ShapeCounts(q, ps[1..]);
      var head := if ps[0].Code? then ps[0].text else [q];
      OccurrencesConcat(q, head, Shape(q, ps[1..]));
      if ps[0].Code? {
        OccurrencesIff(q, ps[0].text);
      } else {
        OccursOnce(q, "", "");
        assert "" + [q] + "" == [q];
      }
    }
  }

  lemma OccursOnce(q: char, a: string, b: string)
    requires q !in a && q !in b
    ensures Occurrences(q, a + [q] + b) == 1
  {
    hide Occurrences;
    OccurrencesIff(q, a);
    OccurrencesIff(q, b);
    OccurrencesSnoc(q, a, q);
    OccurrencesConcat(q, a + [q], b);
  }

  lemma {:induction false} UnquotedMeans(q: char, ps: seq<Piece>)
    ensures Unquoted(q, ps) <==> forall l :: l in Literals(ps) ==> q !in l
  {
    if ps != [] {
      var rest := ps[1..];
      UnquotedMeans(q, rest);
      assert forall i :: 0 <= i < |rest| ==> rest[i] == ps[i + 1];
      assert forall i :: 1 <= i < |ps| ==> ps[i] == rest[i - 1];
      assert forall l :: l in Literals(ps) <==> (ps[0].Quote? && l == ps[0].text) || l in Literals(rest);
    }
  }
}
