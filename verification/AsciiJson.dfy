/**
 JSON put into an HTTP header (src/agent/channel.rs, `ascii_json`): every character that
 is not ASCII becomes `\uXXXX` escapes, and a reader of JSON must not see the difference.
 */
module AsciiJson {
  import opened Common

  /** A character of a Rust string: a code point that is no surrogate. */
  type scalar = x: int | 0 <= x < 0xD800 || 0xE000 <= x < 0x11_0000

  type Text = seq<scalar>

  type unit = x: int | 0 <= x < 0x1_0000

  const QUOTE: scalar := 34
  const BACKSLASH: scalar := 92
  const LETTER_U: scalar := 117

  // ----- UTF-16

  function Units(c: scalar): (units: seq<unit>)
    ensures 1 <= |units| <= 2
  {
    if c < 0x1_0000 then [c] else [0xD800 + (c - 0x1_0000) / 0x400, 0xDC00 + (c - 0x1_0000) % 0x400]
  }

  function ToUtf16(s: Text): seq<unit> {
    if s == [] then [] else Units(s[0]) + ToUtf16(s[1..])
  }

  /** Reads code units back, a high and a low surrogate making one character. A surrogate
      without its partner is no text. */
  function FromUtf16(u: seq<unit>): Option<Text>
    decreases |u|
  {
    if u == [] then Some([])
    else if 0xD800 <= u[0] < 0xDC00 then
      if |u| > 1 && 0xDC00 <= u[1] < 0xE000 then
        match FromUtf16(u[2..])
        case None => None
        case Some(s) => Some([0x1_0000 + (u[0] - 0xD800) * 0x400 + (u[1] - 0xDC00)] + s)
      else None
    else if 0xDC00 <= u[0] < 0xE000 then None
    else
      match FromUtf16(u[1..])
      case None => None
      case Some(s) => Some([u[0]] + s)
  }

  lemma {:induction false} Utf16RoundTrip(s: Text)
    ensures FromUtf16(ToUtf16(s)) == Some(s)
  {
    if s != [] {
      hide FromUtf16;
      var rest := ToUtf16(s[1..]);
      Utf16RoundTrip(s[1..]);
      if s[0] < 0x1_0000 {
        OneUnit(s[0], rest, s[1..]);
      } else {
        TwoUnits(s[0], rest, s[1..]);
      }
      assert s == [s[0]] + s[1..];
    } else {
      assert FromUtf16([]) == Some([]);
    }
  }

  lemma OneUnit(c: scalar, rest: seq<unit>, s: Text)
    requires c < 0x1_0000 && FromUtf16(rest) == Some(s)
    ensures FromUtf16(Units(c) + rest) == Some([c] + s)
  {
    var u := [c] + rest;
    assert u[0] == c && u[1..] == rest;
  }

  lemma TwoUnits(c: scalar, rest: seq<unit>, s: Text)
    requires c >= 0x1_0000 && FromUtf16(rest) == Some(s)
    ensures FromUtf16(Units(c) + rest) == Some([c] + s)
  {
    var high, low := 0xD800 + (c - 0x1_0000) / 0x400, 0xDC00 + (c - 0x1_0000) % 0x400;
    var u := [high, low] + rest;
    assert Units(c) + rest == u && u[0] == high && u[1] == low && u[2..] == rest;
    assert 0x1_0000 + (high - 0xD800) * 0x400 + (low - 0xDC00) == c;
  }

  // ----- a reader of JSON text, as RFC 8259 section 7 has its strings

  /** What a reader takes from a text: the characters outside strings, where strings begin
      and end, and the code units they stand for. A parser of values needs no more. */
  datatype Token = Plain(c: scalar) | Bound | Unit(u: unit)

  datatype State = Outside | Inside | Escape | Hex(digits: nat, value: nat)

  datatype Reading = Broken | At(state: State, tokens: seq<Token>)

  predicate IsOutside(c: scalar) {
    c in {9, 10, 13} || (32 <= c < 127 && c != QUOTE && c != BACKSLASH)
  }

  function Escaped(c: scalar): Option<unit> {
    if c in {34, 92, 47} then Some(c)
    else if c == 98 then Some(8)
    else if c == 102 then Some(12)
    else if c == 110 then Some(10)
    else if c == 114 then Some(13)
    else if c == 116 then Some(9)
    else None
  }

  function HexValue(c: scalar): Option<nat> {
    if 48 <= c <= 57 then Some(c - 48)
    else if 97 <= c <= 102 then Some(c - 87)
    else if 65 <= c <= 70 then Some(c - 55)
    else None
  }

  function AsUnits(units: seq<unit>): (t: seq<Token>)
    ensures |t| == |units| && forall i :: 0 <= i < |t| ==> t[i] == Unit(units[i])
  {
    seq(|units|, i requires 0 <= i < |units| => Unit(units[i]))
  }

  function Step(state: State, c: scalar): Reading {
    match state
    case Outside =>
      if c == QUOTE then At(Inside, [Bound]) else if IsOutside(c) then At(Outside, [Plain(c)]) else Broken
    case Inside =>
      if c == QUOTE then At(Outside, [Bound])
      else if c == BACKSLASH then At(Escape, [])
      else if c < 32 then Broken
      else At(Inside, AsUnits(Units(c)))
    case Escape =>
      if c == LETTER_U then At(Hex(0, 0), [])
      else (match Escaped(c)
            case None => Broken
            case Some(u) => At(Inside, [Unit(u)]))
    case Hex(digits, value) =>
      match HexValue(c)
      case None => Broken
      case Some(d) =>
        var v := value * 16 + d;
        if digits < 3 then At(Hex(digits + 1, v), [])
        else if v < 0x1_0000 then At(Inside, [Unit(v)])
        else Broken
  }

  function Read(state: State, text: Text): Reading
    decreases |text|
  {
    if text == [] then At(state, [])
    else
      match Step(state, text[0])
      case Broken => Broken
      case At(next, tokens) =>
        match Read(next, text[1..])
        case Broken => Broken
        case At(end, more) => At(end, tokens + more)
  }

  /** The tokens of a whole text, if its strings are well-formed and nothing but what JSON
      allows stands outside them. */
  function Scan(text: Text): Option<seq<Token>> {
    match Read(Outside, text)
    case Broken => None
    case At(state, tokens) => if state.Outside? then Some(tokens) else None
  }

  function Then(first: Reading, text: Text): Reading {
    match first
    case Broken => Broken
    case At(state, tokens) =>
      match Read(state, text)
      case Broken => Broken
      case At(end, more) => At(end, tokens + more)
  }

  lemma {:induction false} ReadConcat(state: State, a: Text, b: Text)
    ensures Read(state, a + b) == Then(Read(state, a), b)
    decreases |a|
  {
    hide Step;
    if a == [] {
      assert [] + b == b;
      var r := Read(state, b);
      if r.At? {
        NothingFirst(r);
      }
    } else {
      assert (a + b)[1..] == a[1..] + b;
      var first := Step(state, a[0]);
      if first.At? {
        ReadConcat(first.state, a[1..], b);
        var second := Read(first.state, a[1..]);
        if second.At? {
          var third := Read(second.state, b);
          if third.At? {
            Regroup(first.tokens, second.tokens, third.tokens);
          }
        }
      }
    }
  }

  lemma NothingFirst(r: Reading)
    requires r.At?
    ensures [] + r.tokens == r.tokens
  {
  }


  // ----- escaping

  /** Rust's `{:x}` digits: the letters are small. */
  function HexDigit(n: nat): (c: scalar)
    requires n < 16
    ensures (48 <= c <= 57 || 97 <= c <= 102) && HexValue(c) == Some(n)
  {
    if n < 10 then 48 + n else 87 + n
  }

  function EscapeUnit(u: unit): (t: Text)
    ensures |t| == 6
  {
    [BACKSLASH, LETTER_U,
     HexDigit(u / 0x1000), HexDigit(u / 0x100 % 0x10), HexDigit(u / 0x10 % 0x10), HexDigit(u % 0x10)]
  }

  function EscapeUnits(units: seq<unit>): Text {
    if units == [] then [] else EscapeUnits(units[..|units| - 1]) + EscapeUnit(units[|units| - 1])
  }

  function EscapeChar(c: scalar): Text {
    if c < 128 then [c] else EscapeUnits(Units(c))
  }

  function EscapeText(s: Text): Text {
    if s == [] then [] else EscapeText(s[..|s| - 1]) + EscapeChar(s[|s| - 1])
  }

  predicate IsAscii(s: Text) {
    forall c <- s :: c < 128
  }

  /** The output is all ASCII; an input that was so already is returned as it is; and
      whatever a reader takes from a well-formed input, it takes from the output. */
  method AsciiJson(json: Text) returns (output: Text)
    ensures IsAscii(output)
    ensures IsAscii(json) ==> output == json
    ensures Scan(json).Some? ==> Scan(output) == Scan(json)
  {
    hide EscapeText, EscapeUnits, EscapeUnit, Scan;
    output := [];
    var i := 0;
    NothingEscaped();
    while i < |json|
      invariant i <= |json|
      invariant output == EscapeText(json[..i])
    {
      var character := json[i];
      EscapeTextSnoc(json[..i], character);
      assert json[..i] + [character] == json[..i + 1];
      if character < 128 {
        output := output + [character];
      } else {
        var encoded := Units(character);
        ghost var before := output;
        var k := 0;
        NothingMore(before);
        while k < |encoded|
          invariant k <= |encoded|
          invariant output == before + EscapeUnits(encoded[..k])
        {
          EscapeUnitsSnoc(encoded[..k], encoded[k]);
          assert encoded[..k] + [encoded[k]] == encoded[..k + 1];
          Regroup(before, EscapeUnits(encoded[..k]), EscapeUnit(encoded[k]));
          output := output + EscapeUnit(encoded[k]);
          k := k + 1;
        }
        assert encoded[..k] == encoded;
      }
      i := i + 1;
    }
    assert json[..i] == json;
    EscapedIsAscii(json);
    if IsAscii(json) {
      AsciiIsItself(json);
    }
    if Scan(json).Some? {
      ReadersAgree(json);
    }
  }

  lemma NothingEscaped()
    ensures EscapeText([]) == [] && EscapeUnits([]) == []
  {
  }

  lemma EscapeTextSnoc(s: Text, c: scalar)
    ensures EscapeText(s + [c]) == EscapeText(s) + EscapeChar(c)
  {
    assert (s + [c])[..|s|] == s;
  }

  lemma EscapeUnitsSnoc(units: seq<unit>, u: unit)
    ensures EscapeUnits(units + [u]) == EscapeUnits(units) + EscapeUnit(u)
  {
    assert (units + [u])[..|units|] == units;
  }

  lemma {:induction false} EscapedUnitsAreAscii(units: seq<unit>)
    ensures IsAscii(EscapeUnits(units))
  {
    if units != [] {
      EscapedUnitsAreAscii(units[..|units| - 1]);
    }
  }

  lemma {:induction false} EscapedIsAscii(s: Text)
    ensures IsAscii(EscapeText(s))
  {
    if s != [] {
      EscapedIsAscii(s[..|s| - 1]);
      EscapedUnitsAreAscii(Units(s[|s| - 1]));
    }
  }

  lemma {:induction false} AsciiIsItself(s: Text)
    requires IsAscii(s)
    ensures EscapeText(s) == s
  {
    if s != [] {
      var n := |s| - 1;
      forall c | c in s[..n] ensures c < 128 {
        assert c in s;
      }
      AsciiIsItself(s[..n]);
      assert s[n] in s;
      assert s == s[..n] + [s[n]];
    }
  }

  lemma ReadOn(state: State, t: Text, next: State)
    requires t != [] && Step(state, t[0]) == At(next, [])
    ensures Read(state, t) == Read(next, t[1..])
  {
    hide Step;
    var r := Read(next, t[1..]);
    if r.At? {
      NothingFirst(r);
    }
  }

  /** Inside a string an escape reads as its code unit. */
  lemma ReadEscape(u: unit)
    ensures Read(Inside, EscapeUnit(u)) == At(Inside, [Unit(u)])
  {
    hide Read, Step, HexDigit, HexValue;
    var a, b, c, d := u / 0x1000, u / 0x100 % 0x10, u / 0x10 % 0x10, u % 0x10;
    var digits := [HexDigit(a), HexDigit(b), HexDigit(c), HexDigit(d)];
    var t := EscapeUnit(u);
    assert t == [BACKSLASH, LETTER_U] + digits;
    assert t[1..] == [LETTER_U] + digits && t[1..][1..] == digits;
    StepsIntoEscape();
    ReadOn(Inside, t, Escape);
    ReadOn(Escape, t[1..], Hex(0, 0));
    ReadHex(digits, a, b, c, d);
    HexOfUnit(u);
  }

  lemma HexOfUnit(u: unit)
    ensures u == ((u / 0x1000 * 16 + u / 0x100 % 0x10) * 16 + u / 0x10 % 0x10) * 16 + u % 0x10
  {
  }

  lemma StepsIntoEscape()
    ensures Step(Inside, BACKSLASH) == At(Escape, []) && Step(Escape, LETTER_U) == At(Hex(0, 0), [])
  {
  }

  lemma StepHex(digits: nat, value: nat, d: nat)
    requires d < 16
    ensures Step(Hex(digits, value), HexDigit(d)) ==
            var v := value * 16 + d;
            if digits < 3 then At(Hex(digits + 1, v), [])
            else if v < 0x1_0000 then At(Inside, [Unit(v)])
            else Broken
  {
    hide HexDigit, HexValue;
  }

  lemma ReadHex(t: Text, a: nat, b: nat, c: nat, d: nat)
    requires a < 16 && b < 16 && c < 16 && d < 16
    requires t == [HexDigit(a), HexDigit(b), HexDigit(c), HexDigit(d)]
    ensures Read(Hex(0, 0), t) == At(Inside, [Unit(((a * 16 + b) * 16 + c) * 16 + d)])
  {
    hide HexDigit, HexValue, Read, Step;
    var ab := a * 16 + b;
    var abc := ab * 16 + c;
    StepHex(0, 0, a);
    ReadOn(Hex(0, 0), t, Hex(1, a));
    assert t[1..] == [HexDigit(b), HexDigit(c), HexDigit(d)];
    StepHex(1, a, b);
    ReadOn(Hex(1, a), t[1..], Hex(2, ab));
    assert t[1..][1..] == [HexDigit(c), HexDigit(d)];
    StepHex(2, ab, c);
    ReadOn(Hex(2, ab), t[1..][1..], Hex(3, abc));
    assert t[1..][1..][1..] == [HexDigit(d)];
    StepHex(3, abc, d);
    ReadLast(Hex(3, abc), [HexDigit(d)]);
  }

  lemma ReadLast(state: State, t: Text)
    requires |t| == 1 && Step(state, t[0]).At?
    ensures Read(state, t) == Step(state, t[0])
  {
    hide Step;
    var one := Step(state, t[0]);
    assert t[1..] == [] && Read(one.state, []) == At(one.state, []);
    NothingMore(one.tokens);
  }

  lemma {:induction false} ReadEscapes(units: seq<unit>)
    ensures Read(Inside, EscapeUnits(units)) == At(Inside, AsUnits(units))
  {
    hide EscapeUnit, Step;
    if units != [] {
      var n := |units| - 1;
      ReadEscapes(units[..n]);
      ReadEscape(units[n]);
      ReadConcat(Inside, EscapeUnits(units[..n]), EscapeUnit(units[n]));
      assert AsUnits(units[..n]) + [Unit(units[n])] == AsUnits(units);
    } else {
      assert AsUnits(units) == [];
    }
  }

  /** One character, wherever a reader can stand without being broken by it. */
  lemma CharReadsAlike(state: State, c: scalar)
    requires Step(state, c).At?
    ensures Read(state, EscapeChar(c)) == Read(state, [c]) == Step(state, c)
  {
    ReadLast(state, [c]);
    if c >= 128 {
      assert state == Inside;
      ReadEscapes(Units(c));
    }
  }

  lemma {:induction false} ReadsAlike(state: State, s: Text)
    requires Read(state, s).At?
    ensures Read(state, EscapeText(s)) == Read(state, s)
    decreases |s|
  {
    hide Step;
    if s != [] {
      var n := |s| - 1;
      var front, c := s[..n], s[n];
      assert s == front + [c];
      ReadConcat(state, front, [c]);
      ReadsAlike(state, front);
      var middle := Read(state, front).state;
      CharReadsAlike(middle, c);
      ReadConcat(state, EscapeText(front), EscapeChar(c));
    }
  }

  /** A well-formed text and its escaped form read as the same tokens: surrogate pairs
      come out as the code units of the character, and an escaped backslash before a
      character stays one. */
  lemma ReadersAgree(s: Text)
    requires Scan(s).Some?
    ensures Scan(EscapeText(s)) == Scan(s)
  {
    ReadsAlike(Outside, s);
  }

  // ----- which ill-formed texts read differently

  /** Where a reader stands after `c` that would let a character which is not ASCII pass
      after a lone backslash. */
  function Next(state: State, c: scalar): Option<State> {
    if state.Escape? && c >= 128 then Some(Inside)
    else if Step(state, c).At? then Some(Step(state, c).state)
    else None
  }

  function Ends(state: State, s: Text): Option<State> {
    if s == [] then Some(state)
    else
      match Ends(state, s[..|s| - 1])
      case None => None
      case Some(middle) => Next(middle, s[|s| - 1])
  }

  /** A lone backslash right before a character that is not ASCII. */
  predicate SplitAt(state: State, s: Text, i: nat) {
    i < |s| && s[i] >= 128 && Ends(state, s[..i]) == Some(Escape)
  }

  function StateOf(r: Reading): Option<State> {
    if r.At? then Some(r.state) else None
  }

  /** The escaped text reads the same as its original, or both are ill-formed, unless the
      original is ill-formed only in that some character that is not ASCII follows a lone
      backslash. */
  lemma ScansAgreeIff(s: Text)
    ensures Scan(EscapeText(s)) == Scan(s) <==>
      Ends(Outside, s) != Some(Outside) || forall i :: 0 <= i < |s| ==> !SplitAt(Outside, s, i)
  {
    EscapedEnds(Outside, s);
    if Scan(s).Some? {
      ReadersAgree(s);
    }
    hide Ends, Step;
    if forall i :: 0 <= i < |s| ==> !SplitAt(Outside, s, i) {
      UnsplitEnds(Outside, s);
    } else {
      var i :| 0 <= i < |s| && SplitAt(Outside, s, i);
      SplitBreaks(Outside, s, i);
    }
  }

  lemma {:induction false} EscapedEnds(state: State, s: Text)
    ensures StateOf(Read(state, EscapeText(s))) == Ends(state, s)
    decreases |s|
  {
    hide Step, Next;
    if s != [] {
      var n := |s| - 1;
      EscapedEnds(state, s[..n]);
      ReadConcat(state, EscapeText(s[..n]), EscapeChar(s[n]));
      var before := Read(state, EscapeText(s[..n]));
      if before.At? {
        EscapedCharEnds(before.state, s[n]);
      }
    }
  }

  lemma EscapedCharEnds(state: State, c: scalar)
    ensures StateOf(Read(state, EscapeChar(c))) == Next(state, c)
  {
    if Step(state, c).At? {
      CharReadsAlike(state, c);
    } else if c < 128 {
      ReadBroken(state, [c]);
    } else {
      var u := Units(c);
      EscapeUnitsFirst(u);
      if state.Escape? {
        TakenApart(u[0]);
        ReadEscapes(u[1..]);
        ReadConcat(Escape, EscapeUnit(u[0]), EscapeUnits(u[1..]));
      } else {
        ReadBroken(state, EscapeChar(c));
      }
    }
  }

  lemma EscapeUnitsFirst(units: seq<unit>)
    requires 1 <= |units| <= 2
    ensures EscapeUnits(units) == EscapeUnit(units[0]) + EscapeUnits(units[1..])
  {
    hide EscapeUnit;
    if |units| == 1 {
      assert units[..0] == units[1..] == [];
      NothingMore(EscapeUnit(units[0]));
      assert [] + EscapeUnit(units[0]) == EscapeUnit(units[0]);
    } else {
      assert units[..1] == [units[0]] && [units[0]][..0] == [] && units[1..] == [units[1]] && [units[1]][..0] == [];
      assert forall t: Text :: [] + t == t;
    }
  }

  lemma ReadBroken(state: State, t: Text)
    requires t != [] && Step(state, t[0]) == Broken
    ensures Read(state, t) == Broken
  {
  }

  /** After a lone backslash, an escape loses its own to it. */
  lemma TakenApart(u: unit)
    ensures StateOf(Read(Escape, EscapeUnit(u))) == Some(Inside)
  {
    var t := EscapeUnit(u);
    assert t == [BACKSLASH] + t[1..];
    ReadConcat(Escape, [BACKSLASH], t[1..]);
    ReadLast(Escape, [BACKSLASH]);
    ReadsPlain(t[1..]);
  }

  lemma {:induction false} ReadsPlain(t: Text)
    requires forall i :: 0 <= i < |t| ==> t[i] >= 32 && t[i] != QUOTE && t[i] != BACKSLASH
    ensures StateOf(Read(Inside, t)) == Some(Inside)
  {
    if t != [] {
      ReadsPlain(t[1..]);
    }
  }

  lemma {:induction false} UnsplitEnds(state: State, s: Text)
    requires forall i :: 0 <= i < |s| ==> !SplitAt(state, s, i)
    ensures StateOf(Read(state, s)) == Ends(state, s)
    decreases |s|
  {
    hide Step;
    if s != [] {
      var n := |s| - 1;
      var front := s[..n];
      forall i | 0 <= i < |front| ensures !SplitAt(state, front, i) {
        assert front[..i] == s[..i] && !SplitAt(state, s, i);
      }
      UnsplitEnds(state, front);
      assert s == front + [s[n]] && !SplitAt(state, s, n);
      ReadConcat(state, front, [s[n]]);
      var before := Read(state, front);
      if before.At? {
        OneCharReads(before.state, s[n]);
      }
    }
  }

  lemma OneCharReads(state: State, c: scalar)
    ensures Read(state, [c]) == Step(state, c)
  {
    hide Step;
    if Step(state, c).At? {
      ReadLast(state, [c]);
    } else {
      ReadBroken(state, [c]);
    }
  }

  lemma SplitBreaks(state: State, s: Text, i: nat)
    requires SplitAt(state, s, i)
    ensures Read(state, s) == Broken
  {
    var k := FirstSplit(state, s, i);
    UnsplitEnds(state, s[..k]);
    assert s == s[..k] + s[k..];
    ReadConcat(state, s[..k], s[k..]);
    ReadBroken(Escape, s[k..]);
  }

  lemma {:induction false} FirstSplit(state: State, s: Text, i: nat) returns (k: nat)
    requires SplitAt(state, s, i)
    ensures k <= i && SplitAt(state, s, k) && forall j :: 0 <= j < k ==> !SplitAt(state, s[..k], j)
    decreases i
  {
    hide Ends;
    k := i;
    if j: nat :| j < i && SplitAt(state, s, j) {
      k := FirstSplit(state, s, j);
    } else {
      forall j | 0 <= j < i ensures !SplitAt(state, s[..i], j) {
        assert s[..i][..j] == s[..j] && !SplitAt(state, s, j);
      }
    }
  }
}
