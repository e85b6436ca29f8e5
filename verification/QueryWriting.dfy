/**
 Reading a query as people write it (src/queryparser.rs): words bare or in quotes, either
 sign, and blanks wherever they may be. `QueryParser` has the printer's way of writing.
 */
module QueryWriting {
  import opened Common
  import opened QueryParser

  // ----- the characters

  /** Two characters are the same without regard to ASCII case if they are equal or one is
      the capital of the other. */
  lemma SameLetterIff(c: char, d: char)
    ensures Lower(c) == Lower(d) <==>
      || c == d
      || ('A' <= c <= 'Z' && d as int == c as int + 32)
      || ('A' <= d <= 'Z' && c as int == d as int + 32)
  {
  }

  predicate AllWhite(s: string) {
    forall i :: 0 <= i < |s| ==> IsWhite(s[i])
  }

  lemma {:induction false} TrimStartIs(s: string) returns (a: string)
    ensures AllWhite(a) && s == a + TrimStart(s) && (TrimStart(s) != "" ==> !IsWhite(TrimStart(s)[0]))
  {
    if s != "" && IsWhite(s[0]) {
      a := TrimStartIs(s[1..]);
      a := [s[0]] + a;
      assert s == [s[0]] + s[1..];
    } else {
      a := "";
      assert s == "" + s;
    }
  }

  lemma {:induction false} TrimEndIs(s: string) returns (b: string)
    ensures AllWhite(b) && s == TrimEnd(s) + b && (TrimEnd(s) != "" ==> !IsWhite(TrimEnd(s)[|TrimEnd(s)| - 1]))
    decreases |s|
  {
    if s != "" && IsWhite(s[|s| - 1]) {
      b := TrimEndIs(s[..|s| - 1]);
      b := b + [s[|s| - 1]];
      assert s == s[..|s| - 1] + [s[|s| - 1]];
    } else {
      b := "";
      assert s == s + "";
    }
  }

  /** What is left of a text is the text without the white space at both ends: it neither
      begins nor ends with any. */
  lemma TrimIs(s: string) returns (a: string, b: string)
    ensures AllWhite(a) && AllWhite(b) && s == a + Trim(s) + b
    ensures Trim(s) != "" ==> !IsWhite(Trim(s)[0]) && !IsWhite(Trim(s)[|Trim(s)| - 1])
  {
    a := TrimStartIs(s);
    b := TrimEndIs(TrimStart(s));
    assert Trim(s) != "" ==> TrimStart(s)[0] == Trim(s)[0];
    Regroup(a, Trim(s), b);
  }

  // ----- ways of writing

  datatype Word = Bare(text: string) | InQuotes(text: string)

  datatype Term = Free(word: Word) | Keyed(key: Word, gap: string, value: Word)

  /** Blanks, a sign or none, blanks after a sign, and a text or a key and a value. */
  datatype Written = Written(lead: string, sign: string, gap: string, term: Term)

  predicate Blanks(s: string) {
    forall i :: 0 <= i < |s| ==> s[i] == ' ' || s[i] == '\t' || s[i] == '\r' || s[i] == '\n'
  }

  /** A word that needs no quotes: it ends at a space, and where a key may stand at a colon. */
  predicate NeedsNoQuotes(t: string, colon: bool) {
    && (forall i :: 0 <= i < |t| ==> t[i] != ' ' && (colon ==> t[i] != ':'))
    && (t != "" ==> t[0] !in "\"-!\t\r\n")
  }

  predicate WordOk(w: Word, colon: bool) {
    w.Bare? ==> NeedsNoQuotes(w.text, colon)
  }

  predicate TermOk(t: Term) {
    match t
    case Free(w) => WordOk(w, true) && (w.Bare? ==> w.text != "")
    case Keyed(k, gap, v) => WordOk(k, true) && Blanks(gap) && WordOk(v, false) && (v.Bare? ==> v.text != "")
  }

  predicate WrittenOk(w: Written) {
    && Blanks(w.lead) && Blanks(w.gap) && TermOk(w.term)
    && (w.sign == "-" || w.sign == "!" || (w.sign == "" && w.gap == ""))
  }

  function Spell(w: Word): string {
    match w case Bare(t) => t case InQuotes(t) => "\"" + Escape(t) + "\""
  }

  function SpellTerm(t: Term): string {
    match t
    case Free(w) => Spell(w)
    case Keyed(k, gap, v) => Spell(k) + (":" + (gap + Spell(v)))
  }

  function SpellOne(w: Written): string {
    w.lead + (w.sign + (w.gap + SpellTerm(w.term)))
  }

  /** The written elements, a space after each but the last. */
  function SpellAll(ws: seq<Written>): string {
    if ws == [] then "" else if |ws| == 1 then SpellOne(ws[0]) else SpellOne(ws[0]) + (" " + SpellAll(ws[1..]))
  }

  /** What the words say, whichever way they are written. */
  function Says(clock: Clock, negated: bool, w: Written): Yield {
    var n := negated || w.sign != "";
    match w.term
    case Free(t) => RereadText(n, t.text)
    case Keyed(k, _, v) => RereadPair(clock, n, k.text, v.text)
  }

  function SaysAll(clock: Clock, negated: bool, ws: seq<Written>): Parsed
    decreases |ws|
  {
    if ws == [] then Ok([])
    else
      match Says(clock, negated, ws[0])
      case Nothing(carry) => SaysAll(clock, carry, ws[1..])
      case One(x) => Cons(x, SaysAll(clock, false, ws[1..]))
      case Fails => Err
  }

  // ----- tokens

  lemma {:induction false} SkipBlanks(b: string, s: string)
    requires Blanks(b) && (s == "" || s[0] !in " \t\r\n")
    ensures SkipSpace(b + s) == s
  {
    if b == "" {
      assert b + s == s;
    } else {
      SkipBlanks(b[1..], s);
      Onward(b, s);
    }
  }

  lemma {:induction false} UntilEnd(t: string, colon: bool, tail: string)
    requires forall i :: 0 <= i < |t| ==> t[i] != ' ' && (colon ==> t[i] != ':')
    requires tail == "" || tail[0] == ' ' || (colon && tail[0] == ':')
    ensures Until(t + tail, colon) == (tail, t)
  {
    if t == "" {
      assert t + tail == tail;
    } else {
      UntilEnd(t[1..], colon, tail);
      Onward(t, tail);
      assert t == [t[0]] + t[1..];
    }
  }

  /** After any blanks, a word is read as its text, bare up to its end or in quotes. */
  lemma TokenOfWord(b: string, w: Word, colon: bool, tail: string)
    requires Blanks(b) && WordOk(w, colon)
    requires w.Bare? ==> tail == "" || tail[0] == ' ' || (colon && tail[0] == ':')
    requires w.Bare? && w.text == "" ==> colon && tail != "" && tail[0] == ':'
    ensures Token(b + (Spell(w) + tail), colon) == (tail, w.text)
  {
    hide Escape, Quoted, Until, SkipSpace;
    var s := Spell(w) + tail;
    SkipBlanks(b, s);
    match w
    case Bare(t) =>
      UntilEnd(t, colon, tail);
    case InQuotes(t) =>
      QuotedEscape(t, tail);
      assert s[1..] == Escape(t) + ['"'] + tail;
  }

  lemma TokenOfSign(b: string, sign: string, tail: string)
    requires Blanks(b) && (sign == "-" || sign == "!")
    ensures Token(b + (sign + tail), true) == (tail, sign)
  {
    hide SkipSpace;
    SkipBlanks(b, sign + tail);
    assert (sign + tail)[1..] == tail;
  }

  // ----- reading

  lemma ReadFree(clock: Clock, b: string, w: Word, tail: string, negated: bool)
    requires Blanks(b) && TermOk(Free(w)) && (tail == "" || tail[0] == ' ')
    ensures ParseFrom(clock, b + (Spell(w) + tail), negated) == Continue(clock, RereadText(negated, w.text), tail)
  {
    hide Token, Trim, Resolve, Spell;
    TokenOfWord(b, w, true, tail);
    Spelled(b, w, tail);
  }

  lemma Spelled(b: string, w: Word, tail: string)
    requires w.Bare? ==> w.text != ""
    ensures b + (Spell(w) + tail) != ""
  {
  }

  lemma ReadKeyed(clock: Clock, b: string, k: Word, gap: string, v: Word, tail: string, negated: bool)
    requires Blanks(b) && TermOk(Keyed(k, gap, v)) && (tail == "" || tail[0] == ' ')
    ensures ParseFrom(clock, b + (Spell(k) + (":" + (gap + (Spell(v) + tail)))), negated)
         == Continue(clock, RereadPair(clock, negated, k.text, v.text), tail)
  {
    hide Token, Trim, Resolve, Spell;
    var value := gap + (Spell(v) + tail);
    var rest := ":" + value;
    TokenOfWord(b, k, true, rest);
    TokenOfWord(gap, v, false, tail);
    assert rest[1..] == value;
    assert b + (Spell(k) + rest) != "";
    if IsDash(k.text) {
      NoKey(rest);
      assert Resolve(clock, true, "", v.text) == Some(Element(true, KeyValue("", v.text))) by {
        EmptyKey(clock, v.text);
      }
    }
  }

  lemma NoKey(rest: string)
    requires rest != "" && rest[0] == ':'
    ensures Token(rest, true) == (rest, "")
  {
  }

  lemma EmptyKey(clock: Clock, v: string)
    ensures Resolve(clock, true, "", v) == Some(Element(true, KeyValue("", v)))
  {
  }

  lemma ReadTerm(clock: Clock, b: string, t: Term, tail: string, negated: bool)
    requires Blanks(b) && TermOk(t) && (tail == "" || tail[0] == ' ')
    ensures ParseFrom(clock, b + (SpellTerm(t) + tail), negated)
         == Continue(clock, Says(clock, negated, Written("", "", "", t)), tail)
  {
    hide ParseFrom, Continue, RereadText, RereadPair;
    match t
    case Free(w) => ReadFree(clock, b, w, tail, negated);
    case Keyed(k, gap, v) =>
      ReadKeyed(clock, b, k, gap, v, tail, negated);
      Regroup(gap, Spell(v), tail);
      Regroup(":", gap + Spell(v), tail);
      Regroup(Spell(k), ":" + (gap + Spell(v)), tail);
  }

  lemma ReadSign(clock: Clock, b: string, sign: string, s: string, negated: bool)
    requires Blanks(b) && (sign == "-" || sign == "!")
    ensures ParseFrom(clock, b + (sign + s), negated) == ParseFrom(clock, s, true)
  {
    hide Token;
    TokenOfSign(b, sign, s);
    assert b + (sign + s) != "";
  }

  lemma ReadOne(clock: Clock, b: string, w: Written, tail: string, negated: bool)
    requires Blanks(b) && WrittenOk(w) && (tail == "" || tail[0] == ' ')
    ensures ParseFrom(clock, b + (SpellOne(w) + tail), negated) == Continue(clock, Says(clock, negated, w), tail)
  {
    hide ParseFrom, Continue, RereadText, RereadPair, SpellTerm, TermOk;
    var term := SpellTerm(w.term);
    Regroup(w.gap, term, tail);
    Regroup(w.sign, w.gap + term, tail);
    Regroup(w.lead, w.sign + (w.gap + term), tail);
    Regroup(b, w.lead, w.sign + (w.gap + (term + tail)));
    if w.sign == "" {
      assert w.sign + (w.gap + (term + tail)) == term + tail;
      ReadTerm(clock, b + w.lead, w.term, tail, negated);
    } else {
      ReadSign(clock, b + w.lead, w.sign, w.gap + (term + tail), negated);
      ReadTerm(clock, w.gap, w.term, tail, true);
    }
  }

  /** A query is read as what its words say, however they are written: bare or in quotes,
      with `-` or `!`, and with any blanks before words, signs and values. */
  lemma {:induction false} ReadAll(clock: Clock, b: string, ws: seq<Written>, negated: bool)
    requires Blanks(b) && ws != [] && forall i :: 0 <= i < |ws| ==> WrittenOk(ws[i])
    ensures ParseFrom(clock, b + SpellAll(ws), negated) == SaysAll(clock, negated, ws)
    decreases |ws|
  {
    hide ParseFrom, Says, SpellOne, WrittenOk;
    var w, more := ws[0], ws[1..];
    var tail := if more == [] then "" else " " + SpellAll(more);
    ReadOne(clock, b, w, tail, negated);
    NothingMore(SpellOne(w));
    if more == [] {
      ReadNothing(clock, false);
      ReadNothing(clock, true);
    } else {
      ReadAll(clock, " ", more, false);
      ReadAll(clock, " ", more, true);
    }
  }

  lemma ReadNothing(clock: Clock, negated: bool)
    ensures ParseFrom(clock, "", negated) == Ok([])
  {
  }

  /** Quotes make no difference where they are not needed. */
  lemma QuotesDoNotMatter(clock: Clock, text: string, negated: bool)
    requires NeedsNoQuotes(text, true) && text != ""
    ensures ParseFrom(clock, text, negated) == ParseFrom(clock, "\"" + Escape(text) + "\"", negated)
  {
    hide ParseFrom, Escape;
    var bare, quoted := Written("", "", "", Free(Bare(text))), Written("", "", "", Free(InQuotes(text)));
    ReadAll(clock, "", [bare], negated);
    ReadAll(clock, "", [quoted], negated);
    assert SpellOne(bare) == text && SpellOne(quoted) == "\"" + Escape(text) + "\"";
    assert "" + text == text && "" + ("\"" + Escape(text) + "\"") == "\"" + Escape(text) + "\"";
  }
}
