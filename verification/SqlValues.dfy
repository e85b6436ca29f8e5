/**
 The values of a search (src/sqlite/builder.rs): which integer a text writes, and which
 path a dotted key names.
 */
module SqlValues {
  import opened Common

  datatype Sql = Null | Int(n: int) | Str(s: string)

  // ----- integers

  predicate AllDigits(s: string) { s != [] && forall i :: 0 <= i < |s| ==> IsDigit(s[i]) }

  /** `str::parse::<i64>` */
  function ParseI64(s: string): Option<int> {
    var negative := s != [] && s[0] == '-';
    var body := if s != [] && (s[0] == '-' || s[0] == '+') then s[1..] else s;
    if !AllDigits(body) then None
    else
      var n: int := if negative then 0 - (Number(body) as int) else Number(body) as int;
      if -0x8000_0000_0000_0000 <= n < 0x8000_0000_0000_0000 then Some(n) else None
  }

  /** How a search value is bound: as an integer if it is one. */
  function Bind(v: string): (r: Sql)
    ensures !r.Null?
  {
    match ParseI64(v) case Some(n) => Int(n) case None => Str(v)
  }

  /** A number as it is usually written. */
  function Decimal(n: nat): string {
    if n < 10 then ["0123456789"[n]] else Decimal(n / 10) + ["0123456789"[n % 10]]
  }

  function Zeros(n: nat): string {
    if n == 0 then "" else Zeros(n - 1) + "0"
  }

  /** A number as it may be written: with a sign, if any, and leading zeros. */
  predicate WritesWith(v: string, n: int, sign: string, zeros: nat) {
    if n < 0 then sign == "-" && v == sign + (Zeros(zeros) + Decimal(-n))
    else (sign == "" || sign == "+" || (sign == "-" && n == 0)) && v == sign + (Zeros(zeros) + Decimal(n))
  }

  ghost predicate Writes(v: string, n: int) {
    exists sign, zeros :: WritesWith(v, n, sign, zeros)
  }

  /** The value that a search text stands for: the 64-bit integer that it writes, and if it
      writes none the text itself. */
  ghost predicate StandsFor(v: string, x: Sql) {
    match x
    case Null => false
    case Int(n) => Writes(v, n) && -0x8000_0000_0000_0000 <= n <= 0x7FFF_FFFF_FFFF_FFFF
    case Str(s) => s == v && forall n :: Writes(v, n) ==> !(-0x8000_0000_0000_0000 <= n <= 0x7FFF_FFFF_FFFF_FFFF)
  }

  lemma NumberSnoc(s: string, d: char)
    requires (forall i :: 0 <= i < |s| ==> IsDigit(s[i])) && IsDigit(d)
    ensures forall i :: 0 <= i < |s + [d]| ==> IsDigit((s + [d])[i])
    ensures Number(s + [d]) == 10 * Number(s) + (d as int - '0' as int)
  {
    assert (s + [d])[..|s|] == s;
  }

  lemma DigitIs(n: nat)
    requires n < 10
    ensures IsDigit("0123456789"[n]) && "0123456789"[n] as int - '0' as int == n
  {
  }

  lemma {:induction false} ZerosNumber(k: nat)
    ensures (forall i :: 0 <= i < |Zeros(k)| ==> IsDigit(Zeros(k)[i])) && Number(Zeros(k)) == 0 && |Zeros(k)| == k
  {
    if k > 0 {
      ZerosNumber(k - 1);
      NumberSnoc(Zeros(k - 1), '0');
    }
  }

  /** Written out, with whatever zeros before it, a number is read back. */
  lemma {:induction false} DecimalNumber(k: nat, n: nat)
    ensures AllDigits(Zeros(k) + Decimal(n)) && Number(Zeros(k) + Decimal(n)) == n
    decreases n
  {
    DigitIs(n % 10);
    if n < 10 {
      ZerosNumber(k);
      NumberSnoc(Zeros(k), "0123456789"[n]);
    } else {
      DecimalNumber(k, n / 10);
      NumberSnoc(Zeros(k) + Decimal(n / 10), "0123456789"[n % 10]);
      Regroup(Zeros(k), Decimal(n / 10), ["0123456789"[n % 10]]);
    }
  }

  /** And digits are the number that they are read as, written out, after some zeros. */
  lemma {:induction false} DigitsAreDecimal(s: string) returns (k: nat)
    requires AllDigits(s)
    ensures s == Zeros(k) + Decimal(Number(s))
  {
    var n := |s| - 1;
    var t, d := s[..n], s[n] as int - '0' as int;
    assert IsDigit(s[n]) && s == t + [s[n]];
    DigitIs(d);
    if n == 0 {
      k := 0;
      assert t == [];
      NumberOfNothing();
      assert s == "" + s;
    } else {
      k := DigitsAreDecimal(t);
      var m := Number(t);
      assert Number(s) == 10 * m + d;
      if m == 0 {
        assert Decimal(0) == "0";
        assert t == Zeros(k + 1);
        k := k + 1;
      } else {
        assert (10 * m + d) / 10 == m && (10 * m + d) % 10 == d;
        Regroup(Zeros(k), Decimal(m), [s[n]]);
      }
    }
  }

  lemma NumberOfNothing()
    ensures Number("") == 0
  {
  }

  lemma ParsedIsWritten(v: string)
    requires ParseI64(v).Some?
    ensures Writes(v, ParseI64(v).value)
  {
    hide Number, Decimal, Zeros;
    var signed := v[0] == '-' || v[0] == '+';
    var body := if signed then v[1..] else v;
    var k := DigitsAreDecimal(body);
    var sign := if signed then [v[0]] else "";
    assert v == sign + body;
    assert WritesWith(v, ParseI64(v).value, sign, k);
  }

  lemma WrittenIsParsed(v: string, n: int)
    requires Writes(v, n)
    ensures ParseI64(v) == if -0x8000_0000_0000_0000 <= n <= 0x7FFF_FFFF_FFFF_FFFF then Some(n) else None
  {
    hide Number, Decimal, Zeros;
    var sign, k :| WritesWith(v, n, sign, k);
    var m := if n < 0 then -n else n;
    DecimalNumber(k, m);
    var body := Zeros(k) + Decimal(m);
    assert IsDigit(body[0]);
    if sign == "" {
      assert v == body;
    } else {
      assert v[0] == sign[0] && v[1..] == body;
    }
  }

  /** A text is parsed as an integer exactly if it writes one of 64 bits, and as that one. */
  lemma ParseI64Iff(v: string, n: int)
    ensures ParseI64(v) == Some(n) <==> Writes(v, n) && -0x8000_0000_0000_0000 <= n <= 0x7FFF_FFFF_FFFF_FFFF
  {
    hide ParseI64, Writes;
    if Writes(v, n) {
      WrittenIsParsed(v, n);
    }
    if ParseI64(v) == Some(n) {
      ParsedIsWritten(v);
      WrittenIsParsed(v, n);
    }
  }

  /** The value bound is the one that the text stands for, and no other is. */
  lemma BindIff(v: string, x: Sql)
    ensures x == Bind(v) <==> StandsFor(v, x)
  {
    hide ParseI64, Writes;
    if ParseI64(v).Some? {
      ParseI64Iff(v, ParseI64(v).value);
    }
    if x.Int? {
      ParseI64Iff(v, x.n);
    }
    forall n | Writes(v, n) && -0x8000_0000_0000_0000 <= n <= 0x7FFF_FFFF_FFFF_FFFF ensures ParseI64(v) == Some(n) {
      ParseI64Iff(v, n);
    }
  }

  // ----- paths

  function Split(s: string, sep: char): seq<string> {
    if s == [] then [[]]
    else
      var rest := Split(s[1..], sep);
      if s[0] == sep then [[]] + rest
      else if rest == [] then [[s[0]]]
      else [[s[0]] + rest[0]] + rest[1..]
  }

  /** `k.split('.').skip(2)` */
  function PathAfterTwo(k: string): seq<string> {
    var parts := Split(k, '.');
    if |parts| <= 2 then [] else parts[2..]
  }

  function JoinDots(parts: seq<string>): string {
    if parts == [] then "" else if |parts| == 1 then parts[0] else parts[0] + "." + JoinDots(parts[1..])
  }

  /** What comes after `head` in `k`, taken apart at its dots. */
  predicate IsPath(path: seq<string>, head: string, k: string) {
    path != [] && (forall part :: part in path ==> '.' !in part) && k == head + JoinDots(path)
  }

  lemma {:induction false} SplitKeeps(s: string, sep: char, c: char)
    requires c != sep
    ensures Split(s, sep) != [] && (c in s <==> exists part :: part in Split(s, sep) && c in part)
  {
    if s != "" {
      var rest := Split(s[1..], sep);
      SplitKeeps(s[1..], sep, c);
      assert s == [s[0]] + s[1..];
      assert rest == [rest[0]] + rest[1..];
      if s[0] == sep {
        assert forall part :: part in Split(s, sep) <==> part == [] || part in rest;
      } else {
        assert forall part :: part in Split(s, sep) <==> part == [s[0]] + rest[0] || part in rest[1..];
        assert c in [s[0]] + rest[0] <==> c == s[0] || c in rest[0];
        assert forall part :: part in rest <==> part == rest[0] || part in rest[1..];
      }
    }
  }

  lemma {:induction false} SplitAt(a: string, sep: char, b: string)
    requires sep !in a
    ensures Split(a + [sep] + b, sep) == [a] + Split(b, sep)
    decreases |a|
  {
    var s := a + [sep] + b;
    if a == "" {
      assert s[1..] == b && s[0] == sep;
    } else {
      assert s[0] == a[0] && s[1..] == a[1..] + [sep] + b && a == [a[0]] + a[1..];
      SplitAt(a[1..], sep, b);
      var rest := Split(s[1..], sep);
      assert rest[0] == a[1..] && rest[1..] == Split(b, sep);
    }
  }

  lemma {:induction false} SplitOne(a: string, sep: char)
    requires sep !in a
    ensures Split(a, sep) == [a]
  {
    if a != "" {
      assert a == [a[0]] + a[1..];
      SplitOne(a[1..], sep);
    }
  }

  lemma {:induction false} SplitOfJoined(parts: seq<string>)
    requires parts != [] && forall part :: part in parts ==> '.' !in part
    ensures Split(JoinDots(parts), '.') == parts
  {
    assert parts == [parts[0]] + parts[1..];
    assert parts[0] in parts;
    if |parts| == 1 {
      SplitOne(parts[0], '.');
    } else {
      SplitOfJoined(parts[1..]);
      SplitAt(parts[0], '.', JoinDots(parts[1..]));
    }
  }

  lemma {:induction false} JoinedOfSplit(s: string)
    ensures Split(s, '.') != [] && JoinDots(Split(s, '.')) == s
    ensures forall part :: part in Split(s, '.') ==> '.' !in part
  {
    if s != "" {
      JoinedOfSplit(s[1..]);
      JoinedCons(s, Split(s[1..], '.'));
    }
  }

  lemma JoinedCons(s: string, rest: seq<string>)
    requires s != "" && rest == Split(s[1..], '.') && rest != [] && JoinDots(rest) == s[1..]
    requires forall part :: part in rest ==> '.' !in part
    ensures JoinDots(Split(s, '.')) == s && forall part :: part in Split(s, '.') ==> '.' !in part
  {
    assert s == [s[0]] + s[1..];
    var parts := Split(s, '.');
    if s[0] == '.' {
      assert parts == [""] + rest && parts[1..] == rest && "" + "." == ".";
    } else {
      assert parts[1..] == rest[1..] && parts[0] == [s[0]] + rest[0];
      assert rest[0] in rest;
      assert forall part :: part in parts ==> part == parts[0] || part in rest;
      if |rest| > 1 {
        Regroup([s[0]], rest[0] + ".", JoinDots(rest[1..]));
        Regroup([s[0]], rest[0], ".");
      }
    }
  }

  /** The path of a key below `dns.queries.` or `dns.answers.` is the one path that the rest
      of the key writes with dots. */
  lemma PathIff(k: string, list: string, path: seq<string>)
    requires '.' !in list && "dns." + list + "." <= k
    ensures path == PathAfterTwo(k) <==> IsPath(path, "dns." + list + ".", k)
  {
    var dns, head := "dns", "dns." + list + ".";
    var rest := k[|head|..];
    assert k == head + rest;
    assert "dns." == dns + ['.'] && "." == ['.'] && '.' !in dns;
    assert k == dns + ['.'] + (list + ['.'] + rest);
    SplitAt(dns, '.', list + ['.'] + rest);
    SplitAt(list, '.', rest);
    assert Split(k, '.') == [dns] + ([list] + Split(rest, '.'));
    assert Split(k, '.')[2..] == Split(rest, '.');
    JoinedOfSplit(rest);
    if IsPath(path, head, k) {
      assert JoinDots(path) == k[|head|..];
      SplitOfJoined(path);
    }
  }
}
