/** SQLite's `LIKE`, as far as the query builder relies on it. */
module SqlLike {
  import opened QueryParser

  /** `%` stands for any run of characters, `_` for any one; letters match without
      regard to ASCII case. */
  predicate Like(p: string, t: string)
    decreases |p| + |t|
  {
    if p == [] then t == []
    else if p[0] == '%' then Like(p[1..], t) || (t != [] && Like(p, t[1..]))
    else t != [] && (p[0] == '_' || Lower(p[0]) == Lower(t[0])) && Like(p[1..], t[1..])
  }

  lemma {:induction false} AnythingMatches(t: string)
    ensures Like("%", t)
    decreases |t|
  {
    if t != [] {
      AnythingMatches(t[1..]);
    }
  }

  ghost predicate Splits(a: string, b: string, t: string) {
    exists k :: 0 <= k <= |t| && Like(a, t[..k]) && Like(b, t[k..])
  }

  /** A concatenated pattern matches exactly the texts that split accordingly. */
  lemma {:induction false} LikeConcat(a: string, b: string, t: string)
    ensures Like(a + b, t) <==> Splits(a, b, t)
    decreases |a| + |t|
  {
    if a == [] {
      assert a + b == b && t[..0] == [] && t[0..] == t;
      assert forall k :: 0 <= k <= |t| && Like(a, t[..k]) ==> k == 0;
    } else {
      assert (a + b)[0] == a[0] && (a + b)[1..] == a[1..] + b;
      if a[0] == '%' {
        LikeConcat(a[1..], b, t);
        if t != [] {
          LikeConcat(a, b, t[1..]);
        }
        PercentSplits(a, b, t);
      } else if t != [] {
        LikeConcat(a[1..], b, t[1..]);
        CharSplits(a, b, t);
      } else {
        assert forall k :: 0 <= k <= |t| ==> t[..k] == [];
      }
    }
  }

  lemma PercentSplits(a: string, b: string, t: string)
    requires a != [] && a[0] == '%'
    ensures Splits(a, b, t) <==> Splits(a[1..], b, t) || (t != [] && Splits(a, b, t[1..]))
  {
    if Splits(a, b, t) {
      var k :| 0 <= k <= |t| && Like(a, t[..k]) && Like(b, t[k..]);
      if !Like(a[1..], t[..k]) {
        assert t[..k][1..] == t[1..][..k - 1] && t[k..] == t[1..][k - 1..];
      }
    }
    if Splits(a[1..], b, t) {
      var k :| 0 <= k <= |t| && Like(a[1..], t[..k]) && Like(b, t[k..]);
      assert Like(a, t[..k]);
    }
    if t != [] && Splits(a, b, t[1..]) {
      var k :| 0 <= k <= |t[1..]| && Like(a, t[1..][..k]) && Like(b, t[1..][k..]);
      assert t[..k + 1][1..] == t[1..][..k] && t[k + 1..] == t[1..][k..];
      assert Like(a, t[..k + 1]);
    }
  }

  lemma CharSplits(a: string, b: string, t: string)
    requires a != [] && a[0] != '%' && t != []
    ensures Splits(a, b, t) <==> (a[0] == '_' || Lower(a[0]) == Lower(t[0])) && Splits(a[1..], b, t[1..])
  {
    if Splits(a, b, t) {
      var k :| 0 <= k <= |t| && Like(a, t[..k]) && Like(b, t[k..]);
      assert t[..k][1..] == t[1..][..k - 1] && t[k..] == t[1..][k - 1..];
    }
    if (a[0] == '_' || Lower(a[0]) == Lower(t[0])) && Splits(a[1..], b, t[1..]) {
      var k :| 0 <= k <= |t[1..]| && Like(a[1..], t[1..][..k]) && Like(b, t[1..][k..]);
      assert t[..k + 1][1..] == t[1..][..k] && t[k + 1..] == t[1..][k..];
      assert Like(a, t[..k + 1]);
    }
  }

  predicate Plain(s: string) {
    forall i :: 0 <= i < |s| ==> s[i] != '%' && s[i] != '_'
  }

  lemma {:induction false} PlainLike(s: string, t: string)
    requires Plain(s)
    ensures Like(s, t) <==> EqIgnoreCase(s, t)
    decreases |s|
  {
    if s != [] && t != [] {
      PlainLike(s[1..], t[1..]);
      assert s == [s[0]] + s[1..] && t == [t[0]] + t[1..];
      if EqIgnoreCase(s[1..], t[1..]) && Lower(s[0]) == Lower(t[0]) {
        forall i | 0 <= i < |s| ensures Lower(s[i]) == Lower(t[i]) {
          assert i > 0 ==> s[i] == s[1..][i - 1] && t[i] == t[1..][i - 1];
        }
      }
      if EqIgnoreCase(s, t) {
        assert forall i :: 0 <= i < |s[1..]| ==> s[1..][i] == s[i + 1] && t[1..][i] == t[i + 1];
      }
    }
  }

  /** Some part of `t` equals `s`, without regard to ASCII case. */
  ghost predicate Contains(t: string, s: string) {
    exists i, j :: 0 <= i <= j <= |t| && EqIgnoreCase(s, t[i..j])
  }

  /** The pattern that the builder makes of a search text. */
  function Pattern(s: string): string { "%" + s + "%" }

  /** For a text without wildcards, the pattern matches exactly the sources that
      contain the text. */
  lemma PatternMeansContains(s: string, t: string)
    requires Plain(s)
    ensures Like(Pattern(s), t) <==> Contains(t, s)
  {
    hide Like, EqIgnoreCase;
    assert Pattern(s) == "%" + (s + "%");
    LikeConcat("%", s + "%", t);
    if Like(Pattern(s), t) {
      var i :| 0 <= i <= |t| && Like("%", t[..i]) && Like(s + "%", t[i..]);
      LikeConcat(s, "%", t[i..]);
      var k :| 0 <= k <= |t[i..]| && Like(s, t[i..][..k]) && Like("%", t[i..][k..]);
      PlainLike(s, t[i..][..k]);
      assert t[i..][..k] == t[i..i + k];
    }
    if Contains(t, s) {
      var i, j :| 0 <= i <= j <= |t| && EqIgnoreCase(s, t[i..j]);
      PlainLike(s, t[i..j]);
      AnythingMatches(t[..i]);
      AnythingMatches(t[i..][j - i..]);
      assert t[i..][..j - i] == t[i..j];
      assert Splits(s, "%", t[i..]);
      LikeConcat(s, "%", t[i..]);
      assert Splits("%", s + "%", t);
    }
  }

  /** A text that the wildcards of `s` match though it does not contain `s`. */
  function Filled(s: string): string {
    if s == "" then "" else (if s[0] == '%' then "" else if s[0] == '_' then "x" else [s[0]]) + Filled(s[1..])
  }

  lemma {:induction false} FilledMatches(s: string)
    ensures Like(s, Filled(s)) && |Filled(s)| <= |s|
    ensures |Filled(s)| == |s| <==> '%' !in s
  {
    if s != "" {
      FilledMatches(s[1..]);
      assert s == [s[0]] + s[1..];
      assert s[0] == '%' ==> Filled(s) == Filled(s[1..]);
      assert s[0] != '%' ==> Filled(s)[1..] == Filled(s[1..]);
    }
  }

  lemma {:induction false} FilledDiffers(s: string)
    requires '%' !in s
    ensures |Filled(s)| == |s| && (EqIgnoreCase(s, Filled(s)) ==> Plain(s))
  {
    if s != "" {
      var rest := s[1..];
      assert s == [s[0]] + rest;
      FilledDiffers(rest);
      if EqIgnoreCase(s, Filled(s)) {
        assert Filled(s)[1..] == Filled(rest);
        assert forall i :: 0 <= i < |rest| ==> rest[i] == s[i + 1] && Filled(rest)[i] == Filled(s)[i + 1];
        assert EqIgnoreCase(rest, Filled(rest));
        assert Lower(s[0]) == Lower(Filled(s)[0]);
        assert forall i :: 1 <= i < |s| ==> s[i] == rest[i - 1];
      }
    }
  }

  /** The wildcards match what they stand for, so the text is found where it does not
      occur. */
  lemma WildcardsMatchMore(s: string)
    requires !Plain(s)
    ensures Like(Pattern(s), Filled(s)) && !Contains(Filled(s), s)
  {
    var t := Filled(s);
    FilledMatches(s);
    hide Like, Filled, EqIgnoreCase;
    AnythingMatches("");
    assert t[..0] == "" && t[0..] == t && t[..|t|] == t && t[|t|..] == "";
    LikeConcat(s, "%", t);
    assert Splits(s, "%", t);
    LikeConcat("%", s + "%", t);
    assert Splits("%", s + "%", t);
    assert Pattern(s) == "%" + (s + "%");
    if Contains(t, s) {
      var i, j :| 0 <= i <= j <= |t| && EqIgnoreCase(s, t[i..j]);
      SameLengths(s, t[i..j]);
      assert i == 0 && j == |t| && t[i..j] == t;
      FilledDiffers(s);
    }
  }

  lemma SameLengths(a: string, b: string)
    requires EqIgnoreCase(a, b)
    ensures |a| == |b|
  {
  }

  /** The pattern for a text matches exactly the sources that contain it, if and only if
      the text has no wildcard. */
  lemma PatternMeansContainsIff(s: string)
    ensures (forall t :: Like(Pattern(s), t) <==> Contains(t, s)) <==> Plain(s)
  {
    hide Like, Pattern, Contains;
    if Plain(s) {
      forall t ensures Like(Pattern(s), t) <==> Contains(t, s) {
        PatternMeansContains(s, t);
      }
    } else {
      WildcardsMatchMore(s);
    }
  }
}
