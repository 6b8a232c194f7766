/** `escapeHtml`: five successive `replaceAll` calls, ampersand first, so that
    text can be placed into markup. */
module Html {

  const AmpEntity: string := "&amp;"
  const LtEntity: string := "&lt;"
  const GtEntity: string := "&gt;"
  const QuotEntity: string := "&quot;"
  const AposEntity: string := "&#039;"

  /** `s.replaceAll(c, rep)` for a one-character pattern. */
  function ReplaceAll(s: string, c: char, rep: string): string {
    if s == [] then [] else (if s[0] == c then rep else [s[0]]) + ReplaceAll(s[1..], c, rep)
  }

  lemma {:induction false} ReplaceAllConcat(a: string, b: string, c: char, rep: string)
    ensures ReplaceAll(a + b, c, rep) == ReplaceAll(a, c, rep) + ReplaceAll(b, c, rep)
    decreases |a|
  {
    if a == [] {
      assert a + b == b;
    } else {
      assert (a + b)[0] == a[0];
      assert (a + b)[1..] == a[1..] + b;
      ReplaceAllConcat(a[1..], b, c, rep);
      var h := if a[0] == c then rep else [a[0]];
      assert ReplaceAll(a + b, c, rep) == h + ReplaceAll(a[1..] + b, c, rep);
      assert ReplaceAll(a, c, rep) == h + ReplaceAll(a[1..], c, rep);
      assert h + (ReplaceAll(a[1..], c, rep) + ReplaceAll(b, c, rep))
          == (h + ReplaceAll(a[1..], c, rep)) + ReplaceAll(b, c, rep);
    }
  }

  /** The source's `escapeHtml`, as written: the replacements run one after the
      other over the whole string. */
  function EscapeHtml(s: string): string {
    var s1 := ReplaceAll(s, '&', AmpEntity);
    var s2 := ReplaceAll(s1, '<', LtEntity);
    var s3 := ReplaceAll(s2, '>', GtEntity);
    var s4 := ReplaceAll(s3, '"', QuotEntity);
    ReplaceAll(s4, '\'', AposEntity)
  }

  /** Reference definition: each character is escaped on its own. */
  function EscapeChar(c: char): string {
    if c == '&' then AmpEntity
    else if c == '<' then LtEntity
    else if c == '>' then GtEntity
    else if c == '"' then QuotEntity
    else if c == '\'' then AposEntity
    else [c]
  }

  function EscapeEach(s: string): string {
    if s == [] then [] else EscapeChar(s[0]) + EscapeEach(s[1..])
  }

  lemma EscapeOne(c: char)
    ensures EscapeHtml([c]) == EscapeChar(c)
  {
    if c == '&' {
      EscapeOneAmp();
    } else if c == '<' {
      EscapeOneLt();
    } else if c == '>' {
      EscapeOneGt();
    } else if c == '"' {
      EscapeOneQuot();
    } else {
      ReplaceOne(c, '&', AmpEntity);
      ReplaceOne(c, '<', LtEntity);
      ReplaceOne(c, '>', GtEntity);
      ReplaceOne(c, '"', QuotEntity);
      ReplaceOne(c, '\'', AposEntity);
    }
  }

  lemma EscapeOneAmp()
    ensures EscapeHtml("&") == AmpEntity
  {
    var e :| e == AmpEntity;
    ReplaceOne('&', '&', e);
    var s1 := ReplaceAll("&", '&', e);
    assert s1 == e;
    UntouchedBy(e, '<', LtEntity);
    var s2 := ReplaceAll(s1, '<', LtEntity);
    assert s2 == e;
    UntouchedBy(e, '>', GtEntity);
    var s3 := ReplaceAll(s2, '>', GtEntity);
    assert s3 == e;
    UntouchedBy(e, '"', QuotEntity);
    var s4 := ReplaceAll(s3, '"', QuotEntity);
    assert s4 == e;
    UntouchedBy(e, '\'', AposEntity);
  }

  lemma EscapeOneLt()
    ensures EscapeHtml("<") == LtEntity
  {
    ReplaceOne('<', '&', AmpEntity);
    var s1 := ReplaceAll("<", '&', AmpEntity);
    assert s1 == "<";
    ReplaceOne('<', '<', LtEntity);
    var s2 := ReplaceAll(s1, '<', LtEntity);
    assert s2 == LtEntity;
    UntouchedBy(LtEntity, '>', GtEntity);
    var s3 := ReplaceAll(s2, '>', GtEntity);
    assert s3 == LtEntity;
    UntouchedBy(LtEntity, '"', QuotEntity);
    var s4 := ReplaceAll(s3, '"', QuotEntity);
    assert s4 == LtEntity;
    UntouchedBy(LtEntity, '\'', AposEntity);
  }

  lemma EscapeOneGt()
    ensures EscapeHtml(">") == GtEntity
  {
    ReplaceOne('>', '&', AmpEntity);
    var s1 := ReplaceAll(">", '&', AmpEntity);
    assert s1 == ">";
    ReplaceOne('>', '<', LtEntity);
    var s2 := ReplaceAll(s1, '<', LtEntity);
    assert s2 == ">";
    ReplaceOne('>', '>', GtEntity);
    var s3 := ReplaceAll(s2, '>', GtEntity);
    assert s3 == GtEntity;
    UntouchedBy(GtEntity, '"', QuotEntity);
    var s4 := ReplaceAll(s3, '"', QuotEntity);
    assert s4 == GtEntity;
    UntouchedBy(GtEntity, '\'', AposEntity);
  }

  lemma EscapeOneQuot()
    ensures EscapeHtml("\"") == QuotEntity
  {
    ReplaceOne('"', '&', AmpEntity);
    var s1 := ReplaceAll("\"", '&', AmpEntity);
    assert s1 == "\"";
    ReplaceOne('"', '<', LtEntity);
    var s2 := ReplaceAll(s1, '<', LtEntity);
    assert s2 == "\"";
    ReplaceOne('"', '>', GtEntity);
    var s3 := ReplaceAll(s2, '>', GtEntity);
    assert s3 == "\"";
    ReplaceOne('"', '"', QuotEntity);
    var s4 := ReplaceAll(s3, '"', QuotEntity);
    assert s4 == QuotEntity;
    UntouchedBy(QuotEntity, '\'', AposEntity);
  }

  lemma ReplaceOne(c: char, x: char, rep: string)
    ensures ReplaceAll([c], x, rep) == if c == x then rep else [c]
  {
    assert [c][1..] == [];
  }

  lemma {:induction false} UntouchedBy(s: string, c: char, rep: string)
    requires forall i :: 0 <= i < |s| ==> s[i] != c
    ensures ReplaceAll(s, c, rep) == s
    decreases |s|
  {
    if s != [] {
      assert forall i :: 0 <= i < |s[1..]| ==> s[1..][i] == s[i + 1];
      UntouchedBy(s[1..], c, rep);
    }
  }

  lemma EscapeHtmlConcat(a: string, b: string)
    ensures EscapeHtml(a + b) == EscapeHtml(a) + EscapeHtml(b)
  {
    var a1, b1 := ReplaceAll(a, '&', AmpEntity), ReplaceAll(b, '&', AmpEntity);
    ReplaceAllConcat(a, b, '&', AmpEntity);
    var a2, b2 := ReplaceAll(a1, '<', LtEntity), ReplaceAll(b1, '<', LtEntity);
    ReplaceAllConcat(a1, b1, '<', LtEntity);
    var a3, b3 := ReplaceAll(a2, '>', GtEntity), ReplaceAll(b2, '>', GtEntity);
    ReplaceAllConcat(a2, b2, '>', GtEntity);
    var a4, b4 := ReplaceAll(a3, '"', QuotEntity), ReplaceAll(b3, '"', QuotEntity);
    ReplaceAllConcat(a3, b3, '"', QuotEntity);
    ReplaceAllConcat(a4, b4, '\'', AposEntity);
  }

  /** Running the replacements in sequence, ampersand first, is the same as
      escaping every character independently: no replacement re-escapes the
      ampersand an earlier one introduced. */
  lemma {:induction false} EscapeHtmlIsPerCharacter(s: string)
    ensures EscapeHtml(s) == EscapeEach(s)
    decreases |s|
  {
    if s == [] {
    } else {
      assert s == [s[0]] + s[1..];
      EscapeHtmlConcat([s[0]], s[1..]);
      EscapeOne(s[0]);
      EscapeHtmlIsPerCharacter(s[1..]);
    }
  }

  predicate IsMarkupChar(c: char) {
    c == '<' || c == '>' || c == '"' || c == '\''
  }

  /** The escaped text contains no character that could open a tag or end an
      attribute value. */
  lemma {:induction false} EscapeHtmlHasNoMarkup(s: string)
    ensures forall i :: 0 <= i < |EscapeHtml(s)| ==> !IsMarkupChar(EscapeHtml(s)[i])
  {
    EscapeHtmlIsPerCharacter(s);
    EscapeEachHasNoMarkup(s);
  }

  lemma {:induction false} EscapeEachHasNoMarkup(s: string)
    ensures forall i :: 0 <= i < |EscapeEach(s)| ==> !IsMarkupChar(EscapeEach(s)[i])
    decreases |s|
  {
    if s != [] {
      EscapeEachHasNoMarkup(s[1..]);
      var h, t := EscapeChar(s[0]), EscapeEach(s[1..]);
      assert forall i :: 0 <= i < |h| ==> !IsMarkupChar(h[i]);
      assert forall i :: 0 <= i < |h + t| ==> (h + t)[i] == if i < |h| then h[i] else t[i - |h|];
    }
  }

  /** Decoding of the five entities `escapeHtml` produces. */
  function Unescape(s: string): string
    decreases |s|
  {
    if s == [] then []
    else if s[0] != '&' then [s[0]] + Unescape(s[1..])
    else if |s| >= 5 && s[..5] == AmpEntity then "&" + Unescape(s[5..])
    else if |s| >= 4 && s[..4] == LtEntity then "<" + Unescape(s[4..])
    else if |s| >= 4 && s[..4] == GtEntity then ">" + Unescape(s[4..])
    else if |s| >= 6 && s[..6] == QuotEntity then "\"" + Unescape(s[6..])
    else if |s| >= 6 && s[..6] == AposEntity then "'" + Unescape(s[6..])
    else [s[0]] + Unescape(s[1..])
  }

  /** Escaping loses nothing: the original text is recovered from the markup. */
  lemma {:induction false} EscapeHtmlRoundTrip(s: string)
    ensures Unescape(EscapeHtml(s)) == s
  {
    EscapeHtmlIsPerCharacter(s);
    UnescapeEscapeEach(s);
  }

  lemma UnescapeAmp(t: string)
    ensures Unescape(AmpEntity + t) == "&" + Unescape(t)
  {
    var e := AmpEntity + t;
    assert e[..5] == AmpEntity && e[5..] == t;
  }

  lemma UnescapeLt(t: string)
    ensures Unescape(LtEntity + t) == "<" + Unescape(t)
  {
    var e := LtEntity + t;
    assert e[1] == 'l';
    assert e[..4] == LtEntity && e[4..] == t;
  }

  lemma UnescapeGt(t: string)
    ensures Unescape(GtEntity + t) == ">" + Unescape(t)
  {
    var e := GtEntity + t;
    assert e[1] == 'g';
    assert e[..4] == GtEntity && e[4..] == t;
  }

  lemma UnescapeQuot(t: string)
    ensures Unescape(QuotEntity + t) == "\"" + Unescape(t)
  {
    var e := QuotEntity + t;
    assert e[1] == 'q';
    assert e[..6] == QuotEntity && e[6..] == t;
  }

  lemma UnescapeApos(t: string)
    ensures Unescape(AposEntity + t) == "'" + Unescape(t)
  {
    var e := AposEntity + t;
    assert e[1] == '#';
    assert e[..6] == AposEntity && e[6..] == t;
  }

  lemma UnescapePlain(c: char, t: string)
    requires c != '&'
    ensures Unescape([c] + t) == [c] + Unescape(t)
  {
    var e := [c] + t;
    assert e[0] == c && e[1..] == t;
  }

  lemma {:induction false} UnescapeEscapeEach(s: string)
    ensures Unescape(EscapeEach(s)) == s
    decreases |s|
  {
    if s != [] {
      var t := EscapeEach(s[1..]);
      UnescapeEscapeEach(s[1..]);
      var c := s[0];
      if c == '&' {
        UnescapeAmp(t);
      } else if c == '<' {
        UnescapeLt(t);
      } else if c == '>' {
        UnescapeGt(t);
      } else if c == '"' {
        UnescapeQuot(t);
      } else if c == '\'' {
        UnescapeApos(t);
      } else {
        UnescapePlain(c, t);
      }
      assert s == [c] + s[1..];
    }
  }
}
