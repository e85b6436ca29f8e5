/**
 The query language (src/queryparser.rs): tokenizer, parser, and the exact result of
 parsing what the printer of src/cli/test.rs quotes.
 */
module QueryParser {
  import opened Common

  type Time = int

  datatype Value =
    | Text(text: string)
    | KeyValue(key: string, value: string)
    | From(time: Time) | To(time: Time) | After(time: Time) | Before(time: Time)
    | Archived | Escalated

  datatype Element = Element(negated: bool, value: Value)

  /** `datetime::parse` with a fixed time zone. */
  type Clock = string -> Option<Time>

  // ----- characters

  /** nom's `multispace0` */
  predicate IsSpace(c: char) { c == ' ' || c == '\t' || c == '\r' || c == '\n' }

  /** `char::is_whitespace` */
  predicate IsWhite(c: char) {
    var n := c as int;
    9 <= n <= 13 || n == 0x20 || n == 0x85 || n == 0xA0 || n == 0x1680 || 0x2000 <= n <= 0x200A
    || n == 0x2028 || n == 0x2029 || n == 0x202F || n == 0x205F || n == 0x3000
  }

  function TrimStart(s: string): string {
    if s != [] && IsWhite(s[0]) then TrimStart(s[1..]) else s
  }

  function TrimEnd(s: string): string {
    if s != [] && IsWhite(s[|s| - 1]) then TrimEnd(s[..|s| - 1]) else s
  }

  function Trim(s: string): string { TrimEnd(TrimStart(s)) }

  function Lower(c: char): char {
    if 'A' <= c <= 'Z' then c - 'A' + 'a' else c
  }

  predicate EqIgnoreCase(a: string, b: string) {
    |a| == |b| && forall i :: 0 <= i < |a| ==> Lower(a[i]) == Lower(b[i])
  }

  function SkipSpace(s: string): (r: string)
    ensures |r| <= |s|
  {
    if s != [] && IsSpace(s[0]) then SkipSpace(s[1..]) else s
  }

  function Quoted(s: string, escaped: bool): (r: (string, string))
    ensures |r.0| <= |s|
  {
    if s == [] then ([], [])
    else if escaped then var (rest, t) := Quoted(s[1..], false); (rest, [s[0]] + t)
    else if s[0] == '\\' then Quoted(s[1..], true)
    else if s[0] == '"' then (s[1..], [])
    else var (rest, t) := Quoted(s[1..], false); (rest, [s[0]] + t)
  }

  function Until(s: string, colon: bool): (r: (string, string))
    ensures |r.0| <= |s| && (r.1 == [] ==> r.0 == s) && (r.1 != [] ==> |r.0| < |s|)
  {
    if s == [] || s[0] == ' ' || (colon && s[0] == ':') then (s, [])
    else var (rest, t) := Until(s[1..], colon); (rest, [s[0]] + t)
  }

  /** `parse_token` (`colon`) and `parse_value`: what is left and the token. */
  function Token(s: string, colon: bool): (r: (string, string))
    ensures |r.0| <= |s|
    ensures r.1 != [] ==> |r.0| < |s|
    ensures colon && s != [] && (r.0 == [] || r.0[0] != ':') ==> |r.0| < |s|
  {
    var t := SkipSpace(s);
    if t != [] && (t[0] == '!' || t[0] == '-') then (t[1..], [t[0]])
    else if t != [] && t[0] == '"' then Quoted(t[1..], false)
    else
      SkipSpaceStops(s);
      Until(t, colon)
  }

  lemma SkipSpaceStops(s: string)
    ensures var t := SkipSpace(s); t == [] || !IsSpace(t[0])
    ensures SkipSpace(s) == [] && s != [] ==> |SkipSpace(s)| < |s|
  {
  }

  // ----- the parser

  datatype Parsed = Ok(elements: seq<Element>) | Err

  function Cons(e: Element, p: Parsed): Parsed {
    if p.Ok? then Ok([e] + p.elements) else Err
  }

  predicate IsDash(token: string) { token == "-" || token == "!" }

  /** The value a key and its value stand for; `None` is a time that does not parse. */
  function Resolve(clock: Clock, negated: bool, key: string, v: string): Option<Element> {
    if key == "@from" then (match clock(v) case Some(t) => Some(Element(false, From(t))) case None => None)
    else if key == "@to" then (match clock(v) case Some(t) => Some(Element(false, To(t))) case None => None)
    else if key == "@before" then (match clock(v) case Some(t) => Some(Element(false, Before(t))) case None => None)
    else if key == "@after" then (match clock(v) case Some(t) => Some(Element(false, After(t))) case None => None)
    else if key == "is" && EqIgnoreCase(v, "archived") then Some(Element(negated, Archived))
    else if key == "is" && EqIgnoreCase(v, "escalated") then Some(Element(negated, Escalated))
    else Some(Element(negated, KeyValue(key, v)))
  }

  /** `parse` from the middle of the input, with a pending negation. */
  function ParseFrom(clock: Clock, s: string, negated: bool): Parsed
    decreases |s|
  {
    if s == [] then
      Ok([])
    else
      var (rest, token) := Token(s, true);
      if IsDash(token) then
        ParseFrom(clock, rest, true)
      else if rest != [] && rest[0] == ':' then
        var (rest', v) := Token(rest[1..], false);
        match Resolve(clock, negated, token, v)
        case None => Err
        case Some(e) => Cons(e, ParseFrom(clock, rest', false))
      else
        var text := Trim(token);
        if text != [] then Cons(Element(negated, Text(text)), ParseFrom(clock, rest, false))
        else ParseFrom(clock, rest, false)
  }

  lemma Assoc(a: string, c: char, b: string)
    ensures a + ([c] + b) == (a + [c]) + b
  {
  }

  /** The character loop of `parse_quoted_string`. */
  method ParseQuotedString(input: string) returns (rest: string, text: string)
    requires input != [] && input[0] == '"'
    ensures (rest, text) == Quoted(input[1..], false)
  {
    rest, text := input[1..], [];
    var escaped := false;
    assert [] + Quoted(rest, false).1 == Quoted(rest, false).1;
    while rest != []
      invariant Quoted(input[1..], false) == (Quoted(rest, escaped).0, text + Quoted(rest, escaped).1)
      decreases |rest|
    {
      var c := rest[0];
      Assoc(text, c, Quoted(rest[1..], false).1);
      rest := rest[1..];
      if escaped {
        text := text + [c];
        escaped := false;
      } else if c == '\\' {
        escaped := true;
      } else if c == '"' {
        assert text + [] == text;
        return;
      } else {
        text := text + [c];
      }
    }
    assert text + [] == text;
  }

  /** `parse`: every turn of the loop consumes input. */
  method Parse(clock: Clock, input: string) returns (r: Parsed)
    ensures r == ParseFrom(clock, input, false)
  {
    var elements: seq<Element> := [];
    var ptr, negated := input, false;
    while ptr != []
      invariant Prepend(elements, ParseFrom(clock, ptr, negated)) == ParseFrom(clock, input, false)
      decreases |ptr|
    {
      ghost var before := ParseFrom(clock, ptr, negated);
      var (rest, token) := Token(ptr, true);
      ptr := rest;
      if IsDash(token) {
        negated := true;
      } else if ptr != [] && ptr[0] == ':' {
        var (rest', v) := Token(ptr[1..], false);
        ptr := rest';
        var e := Resolve(clock, negated, token, v);
        if e.None? {
          return Err;
        }
        PrependSnoc(elements, e.value, ParseFrom(clock, ptr, false));
        elements, negated := elements + [e.value], false;
      } else {
        var text := Trim(token);
        if text != [] {
          PrependSnoc(elements, Element(negated, Text(text)), ParseFrom(clock, ptr, false));
          elements := elements + [Element(negated, Text(text))];
        }
        negated := false;
      }
    }
    assert elements + [] == elements;
    r := Ok(elements);
  }

  function Prepend(es: seq<Element>, p: Parsed): Parsed {
    if p.Ok? then Ok(es + p.elements) else Err
  }

  lemma PrependSnoc(es: seq<Element>, e: Element, p: Parsed)
    ensures Prepend(es, Cons(e, p)) == Prepend(es + [e], p)
  {
    if p.Ok? {
      assert es + ([e] + p.elements) == (es + [e]) + p.elements;
    }
  }

  // ----- the printer

  /** `quote_value` */
  function Escape(s: string): string {
    if s == [] then []
    else (if s[0] == '\\' || s[0] == '"' then ['\\', s[0]] else [s[0]]) + Escape(s[1..])
  }

  function Quote(s: string): string { ['"'] + Escape(s) + ['"'] }

  function Pair(key: string, v: string): string { Quote(key) + [':'] + Quote(v) }

  /** Times are printed with `show`. */
  function PrintValue(show: Time -> string, v: Value): string {
    match v
    case Text(t) => Quote(t)
    case KeyValue(k, x) => Pair(k, x)
    case From(t) => Pair("@from", show(t))
    case To(t) => Pair("@to", show(t))
    case After(t) => Pair("@after", show(t))
    case Before(t) => Pair("@before", show(t))
    case Archived => Pair("is", "archived")
    case Escalated => Pair("is", "escalated")
  }

  function PrintElement(show: Time -> string, e: Element): string {
    (if e.negated then ['-'] else []) + PrintValue(show, e.value)
  }

  function Print(show: Time -> string, es: seq<Element>): string {
    if es == [] then []
    else if |es| == 1 then PrintElement(show, es[0])
    else PrintElement(show, es[0]) + [' '] + Print(show, es[1..])
  }

  // ----- what parsing the printed form yields, for any elements at all

  /** The key and value that a printed element consists of, if it is not free text. */
  function AsPair(show: Time -> string, v: Value): Option<(string, string)> {
    match v
    case Text(_) => None
    case KeyValue(k, x) => Some((k, x))
    case From(t) => Some(("@from", show(t)))
    case To(t) => Some(("@to", show(t)))
    case After(t) => Some(("@after", show(t)))
    case Before(t) => Some(("@before", show(t)))
    case Archived => Some(("is", "archived"))
    case Escalated => Some(("is", "escalated"))
  }

  /** What one printed element contributes: at most one element, or an error, and a
      negation carried over to the next element. */
  datatype Yield = Nothing(carry: bool) | One(element: Element) | Fails

  function RereadText(negated: bool, t: string): Yield {
    if IsDash(t) then Nothing(true)
    else if Trim(t) == [] then Nothing(false)
    else One(Element(negated, Text(Trim(t))))
  }

  function RereadPair(clock: Clock, negated: bool, k: string, v: string): Yield {
    if IsDash(k) then One(Element(true, KeyValue("", v)))
    else
      match Resolve(clock, negated, k, v)
      case None => Fails
      case Some(x) => One(x)
  }

  function Reread(clock: Clock, show: Time -> string, negated: bool, e: Element): Yield {
    match AsPair(show, e.value)
    case None => RereadText(negated || e.negated, e.value.text)
    case Some((k, v)) => RereadPair(clock, negated || e.negated, k, v)
  }

  /** Parsing on after a printed element that yielded `y`. */
  function Continue(clock: Clock, y: Yield, tail: string): Parsed {
    match y
    case Nothing(carry) => ParseFrom(clock, tail, carry)
    case One(x) => Cons(x, ParseFrom(clock, tail, false))
    case Fails => Err
  }

  function RereadAll(clock: Clock, show: Time -> string, negated: bool, es: seq<Element>): Parsed
    decreases |es|
  {
    if es == [] then Ok([])
    else
      match Reread(clock, show, negated, es[0])
      case Nothing(carry) => RereadAll(clock, show, carry, es[1..])
      case One(x) => Cons(x, RereadAll(clock, show, false, es[1..]))
      case Fails => Err
  }

  lemma {:induction false} QuotedEscape(s: string, rest: string)
    ensures Quoted(Escape(s) + ['"'] + rest, false) == (rest, s)
  {
    if s == [] {
      assert Escape(s) + ['"'] + rest == ['"'] + rest;
    } else {
      var head := if s[0] == '\\' || s[0] == '"' then ['\\', s[0]] else [s[0]];
      var tail := Escape(s[1..]) + ['"'] + rest;
      assert Escape(s) + ['"'] + rest == head + tail;
      QuotedEscape(s[1..], rest);
      if |head| == 2 {
        assert (head + tail)[1..] == [s[0]] + tail;
        assert ([s[0]] + tail)[1..] == tail;
        assert Quoted(head + tail, false) == Quoted([s[0]] + tail, true) == (rest, [s[0]] + s[1..]);
      } else {
        assert (head + tail)[1..] == tail;
        assert Quoted(head + tail, false) == (rest, [s[0]] + s[1..]);
      }
      assert [s[0]] + s[1..] == s;
    }
  }

  lemma TokenOfQuote(s: string, rest: string, colon: bool)
    ensures Token(Quote(s) + rest, colon) == (rest, s)
  {
    var input := Quote(s) + rest;
    QuotedEscape(s, rest);
    assert input[1..] == Escape(s) + ['"'] + rest;
  }

  /** Before a printed element, leading blanks are skipped. */
  lemma SpaceSkipped(clock: Clock, s: string, negated: bool)
    requires s != [] && !IsSpace(s[0]) && s[0] != ':'
    ensures ParseFrom(clock, [' '] + s, negated) == ParseFrom(clock, s, negated)
  {
    assert ([' '] + s)[1..] == s;
    assert SkipSpace([' '] + s) == SkipSpace(s) == s;
    assert Token([' '] + s, true) == Token(s, true);
  }

  lemma DashToken(rest: string)
    ensures Token(['-'] + rest, true) == (rest, "-")
  {
    assert (['-'] + rest)[1..] == rest;
  }

  /** Parsing a printed value and what follows it. */
  lemma ParseValue(clock: Clock, show: Time -> string, v: Value, tail: string, negated: bool)
    requires tail == [] || tail[0] == ' '
    ensures ParseFrom(clock, PrintValue(show, v) + tail, negated)
         == Continue(clock, Reread(clock, show, negated, Element(false, v)), tail)
  {
    hide Quote, Resolve, Token, Trim;
    match AsPair(show, v)
    case None => ParseText(clock, v.text, tail, negated);
    case Some((k, x)) => ParsePair(clock, k, x, tail, negated);
  }

  lemma ParseText(clock: Clock, t: string, tail: string, negated: bool)
    requires tail == [] || tail[0] == ' '
    ensures ParseFrom(clock, Quote(t) + tail, negated)
         == Continue(clock, RereadText(negated, t), tail)
  {
    hide Quote, Resolve, Token, Trim;
    TokenOfQuote(t, tail, true);
    QuoteIsNotEmpty(t);
  }

  lemma QuoteIsNotEmpty(s: string)
    ensures Quote(s) != [] && Quote(s)[0] == '"'
  {
  }

  lemma ColonToken(rest: string)
    requires rest != [] && rest[0] == '"'
    ensures Token([':'] + rest, true) == ([':'] + rest, [])
  {
  }

  lemma ParsePair(clock: Clock, k: string, v: string, tail: string, negated: bool)
    ensures ParseFrom(clock, Pair(k, v) + tail, negated)
         == Continue(clock, RereadPair(clock, negated, k, v), tail)
  {
    hide Quote, Token;
    var rest := [':'] + (Quote(v) + tail);
    assert Pair(k, v) + tail == Quote(k) + rest;
    TokenOfQuote(k, rest, true);
    TokenOfQuote(v, tail, false);
    QuoteIsNotEmpty(k);
    QuoteIsNotEmpty(v);
    assert rest[1..] == Quote(v) + tail;
    if IsDash(k) {
      ColonToken(Quote(v) + tail);
      assert Resolve(clock, true, "", v) == Some(Element(true, KeyValue("", v)));
    }
  }

  lemma ParseElement(clock: Clock, show: Time -> string, e: Element, tail: string, negated: bool)
    requires tail == [] || tail[0] == ' '
    ensures ParseFrom(clock, PrintElement(show, e) + tail, negated)
         == Continue(clock, Reread(clock, show, negated, e), tail)
  {
    hide PrintValue, Resolve, Token, Continue, RereadText, RereadPair;
    var printed := PrintValue(show, e.value);
    if e.negated {
      assert PrintElement(show, e) + tail == ['-'] + (printed + tail);
      DashToken(printed + tail);
      ParseValue(clock, show, e.value, tail, true);
      assert Reread(clock, show, true, Element(false, e.value)) == Reread(clock, show, negated, e);
    } else {
      assert PrintElement(show, e) == printed;
      ParseValue(clock, show, e.value, tail, negated);
      assert Reread(clock, show, negated, Element(false, e.value)) == Reread(clock, show, negated, e);
    }
  }

  lemma PrintedStart(show: Time -> string, es: seq<Element>)
    requires es != []
    ensures Print(show, es) != [] && (Print(show, es)[0] == '"' || Print(show, es)[0] == '-')
  {
    var e := es[0];
    assert PrintValue(show, e.value) != [] && PrintValue(show, e.value)[0] == '"';
    assert PrintElement(show, e) != [];
    assert Print(show, es)[0] == PrintElement(show, e)[0];
  }

  /** Parsing a printed list, whatever its elements are, yields exactly what its elements
      yield one after the other. */
  lemma {:induction false} ParseOfPrint(clock: Clock, show: Time -> string, es: seq<Element>, negated: bool)
    ensures ParseFrom(clock, Print(show, es), negated) == RereadAll(clock, show, negated, es)
    decreases |es|
  {
    hide PrintElement, Reread;
    if es != [] {
      var e, rest := es[0], es[1..];
      var y := Reread(clock, show, negated, e);
      var tail := if rest == [] then [] else [' '] + Print(show, rest);
      if rest == [] {
        assert PrintElement(show, e) + tail == PrintElement(show, e);
      } else {
        assert Print(show, es) == PrintElement(show, e) + tail;
        PrintedStart(show, rest);
        SpaceSkipped(clock, Print(show, rest), y.Nothing? && y.carry);
      }
      assert Print(show, es) == PrintElement(show, e) + tail;
      ParseElement(clock, show, e, tail, negated);
      ParseOfPrint(clock, show, rest, y.Nothing? && y.carry);
    }
  }

  // ----- the round trip

  /** The elements that survive being printed and parsed. */
  predicate Printable(e: Element) {
    match e.value
    case Text(t) => t != [] && Trim(t) == t && !IsDash(t)
    case KeyValue(k, v) =>
      && !IsDash(k) && k != "@from" && k != "@to" && k != "@before" && k != "@after"
      && !(k == "is" && (EqIgnoreCase(v, "archived") || EqIgnoreCase(v, "escalated")))
    case Archived => true
    case Escalated => true
    case From(_) => !e.negated
    case To(_) => !e.negated
    case After(_) => !e.negated
    case Before(_) => !e.negated
  }

  /** Printed times parse back. */
  ghost predicate Inverse(clock: Clock, show: Time -> string) {
    forall t :: clock(show(t)) == Some(t)
  }

  lemma ArchivedEscalated()
    ensures EqIgnoreCase("archived", "archived") && EqIgnoreCase("escalated", "escalated")
    ensures !EqIgnoreCase("escalated", "archived")
  {
    assert |"escalated"| == 9 && |"archived"| == 8;
  }

  /** An element is read back as itself exactly if it is printable. */
  lemma RereadIffPrintable(clock: Clock, show: Time -> string, e: Element)
    requires Inverse(clock, show)
    ensures Reread(clock, show, false, e) == One(e) <==> Printable(e)
  {
    hide Trim, EqIgnoreCase;
    ArchivedEscalated();
    match e.value
    case Text(t) =>
    case KeyValue(k, v) =>
    case From(t) => assert clock(show(t)) == Some(t);
    case To(t) => assert clock(show(t)) == Some(t);
    case After(t) => assert clock(show(t)) == Some(t);
    case Before(t) => assert clock(show(t)) == Some(t);
    case Archived =>
    case Escalated =>
  }

  lemma {:induction false} RereadShrinks(clock: Clock, show: Time -> string, negated: bool, es: seq<Element>)
    ensures RereadAll(clock, show, negated, es).Ok? ==> |RereadAll(clock, show, negated, es).elements| <= |es|
    decreases |es|
  {
    hide Reread;
    if es != [] {
      RereadShrinks(clock, show, true, es[1..]);
      RereadShrinks(clock, show, false, es[1..]);
    }
  }

  lemma {:induction false} RereadAllIffPrintable(clock: Clock, show: Time -> string, es: seq<Element>)
    requires Inverse(clock, show)
    ensures RereadAll(clock, show, false, es) == Ok(es) <==> forall i :: 0 <= i < |es| ==> Printable(es[i])
    decreases |es|
  {
    hide Reread, Printable, Inverse;
    if es != [] {
      var e, rest := es[0], es[1..];
      var y := Reread(clock, show, false, e);
      RereadIffPrintable(clock, show, e);
      RereadAllIffPrintable(clock, show, rest);
      RereadShrinks(clock, show, true, rest);
      RereadShrinks(clock, show, false, rest);
      assert es == [e] + rest;
      assert forall i :: 0 <= i < |rest| ==> rest[i] == es[i + 1];
      if y.One? {
        var r := RereadAll(clock, show, false, rest);
        assert r.Ok? ==> ([y.element] + r.elements)[0] == y.element && ([y.element] + r.elements)[1..] == r.elements;
      }
    }
  }

  /** The round trip: printing and parsing gives the same list back if and only if
      every element of it is printable. */
  lemma RoundTripIffPrintable(clock: Clock, show: Time -> string, es: seq<Element>)
    requires Inverse(clock, show)
    ensures ParseFrom(clock, Print(show, es), false) == Ok(es) <==> forall i :: 0 <= i < |es| ==> Printable(es[i])
  {
    ParseOfPrint(clock, show, es, false);
    RereadAllIffPrintable(clock, show, es);
  }
}
