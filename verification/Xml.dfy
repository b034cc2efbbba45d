/** `escape_xml` against a decoder of the four entities it writes. */
module Xml {
  import opened Text

  function Escape(text: string): string {
    Replace(Replace(Replace(Replace(text, "&", "&amp;"), "<", "&lt;"), ">", "&gt;"), "\"", "&quot;")
  }

  function Entity(c: char): string {
    match c
    case '&' => "&amp;"
    case '<' => "&lt;"
    case '>' => "&gt;"
    case '"' => "&quot;"
    case _ => [c]
  }

  /** The entities of the four characters (section 4.6 of XML 1.0). */
  lemma MarkupEscaped()
    ensures Escape("&") == "&amp;" && Escape("<") == "&lt;" && Escape(">") == "&gt;" && Escape("\"") == "&quot;"
  {
    EscapeOne('&');
    EscapeOne('<');
    EscapeOne('>');
    EscapeOne('"');
  }

  /** All characters at once. */
  function PerCharacter(s: string): string {
    if s == "" then "" else Entity(s[0]) + PerCharacter(s[1..])
  }

  function Unescape(s: string): string {
    if s == "" then ""
    else if "&amp;" <= s then "&" + Unescape(s[5..])
    else if "&lt;" <= s then "<" + Unescape(s[4..])
    else if "&gt;" <= s then ">" + Unescape(s[4..])
    else if "&quot;" <= s then "\"" + Unescape(s[6..])
    else [s[0]] + Unescape(s[1..])
  }

  predicate StartsEntity(s: string) {
    "&amp;" <= s || "&lt;" <= s || "&gt;" <= s || "&quot;" <= s
  }

  /** No bare markup character, and every ampersand starts one of the four entities. */
  ghost predicate WellEscaped(s: string) {
    && '<' !in s && '>' !in s && '"' !in s
    && forall i :: 0 <= i < |s| && s[i] == '&' ==> StartsEntity(s[i..])
  }

  lemma {:induction false} ReplaceSplits(a: string, b: string, c: char, rep: string)
    ensures Replace(a + b, [c], rep) == Replace(a, [c], rep) + Replace(b, [c], rep)
  {
    if a == "" {
      assert a + b == b;
    } else {
      assert (a + b)[1..] == a[1..] + b;
      assert [c] <= a + b <==> [c] <= a;
      ReplaceSplits(a[1..], b, c, rep);
    }
  }

  lemma {:induction false} ReplaceAbsent(s: string, c: char, rep: string)
    requires c !in s
    ensures Replace(s, [c], rep) == s
  {
    if s != "" {
      assert s[0] != [c][0] && s == [s[0]] + s[1..];
      ReplaceAbsent(s[1..], c, rep);
    }
  }

  lemma EscapeSplits(a: string, b: string)
    ensures Escape(a + b) == Escape(a) + Escape(b)
  {
    ReplaceSplits(a, b, '&', "&amp;");
    var a1, b1 := Replace(a, "&", "&amp;"), Replace(b, "&", "&amp;");
    ReplaceSplits(a1, b1, '<', "&lt;");
    var a2, b2 := Replace(a1, "<", "&lt;"), Replace(b1, "<", "&lt;");
    ReplaceSplits(a2, b2, '>', "&gt;");
    ReplaceSplits(Replace(a2, ">", "&gt;"), Replace(b2, ">", "&gt;"), '"', "&quot;");
  }

  lemma EscapeOne(c: char)
    ensures Escape([c]) == Entity(c)
  {
    ReplaceStep(c, '&', "&amp;");
    var s1 := if c == '&' then "&amp;" else [c];
    if c != '<' { ReplaceAbsent(s1, '<', "&lt;"); }
    ReplaceStep(c, '<', "&lt;");
    var s2 := if c == '<' then "&lt;" else s1;
    if c != '>' { ReplaceAbsent(s2, '>', "&gt;"); }
    ReplaceStep(c, '>', "&gt;");
    var s3 := if c == '>' then "&gt;" else s2;
    if c != '"' { ReplaceAbsent(s3, '"', "&quot;"); }
    ReplaceStep(c, '"', "&quot;");
  }

  lemma ReplaceStep(c: char, d: char, rep: string)
    ensures Replace([c], [d], rep) == if c == d then rep else [c]
  {
    if c != d { ReplaceAbsent([c], d, rep); }
  }

  /** The four replacements, in this order, act on each character independently. */
  lemma {:induction false} EscapeIsPerCharacter(s: string)
    ensures Escape(s) == PerCharacter(s)
  {
    if s != "" {
      EscapeIsPerCharacter(s[1..]);
      EscapeOne(s[0]);
      EscapeSplits([s[0]], s[1..]);
      assert s == [s[0]] + s[1..];
    }
  }

  lemma EntityWellEscaped(c: char, rest: string)
    requires WellEscaped(rest)
    ensures WellEscaped(Entity(c) + rest)
  {
    var e := Entity(c);
    forall i | 0 <= i < |e + rest| && (e + rest)[i] == '&' ensures StartsEntity((e + rest)[i..]) {
      if i >= |e| {
        assert (e + rest)[i..] == rest[i - |e|..];
      } else {
        assert i == 0 && (e + rest)[i..] == e + rest;
      }
    }
  }

  lemma {:induction false} PerCharacterWellEscaped(s: string)
    ensures WellEscaped(PerCharacter(s))
  {
    if s != "" {
      PerCharacterWellEscaped(s[1..]);
      EntityWellEscaped(s[0], PerCharacter(s[1..]));
    }
  }

  lemma UnescapeEntity(c: char, rest: string)
    ensures Unescape(Entity(c) + rest) == [c] + Unescape(rest)
  {
    var s := Entity(c) + rest;
    assert s[|Entity(c)|..] == rest && s[0] == Entity(c)[0];
    if Entity(c) != [c] {
      assert s[0] == '&' && s[1] == Entity(c)[1];
    }
  }

  lemma {:induction false} UnescapePerCharacter(s: string)
    ensures Unescape(PerCharacter(s)) == s
  {
    if s != "" {
      UnescapePerCharacter(s[1..]);
      UnescapeEntity(s[0], PerCharacter(s[1..]));
    }
  }

  /** Escaping is faithful: decoding recovers every string, and the output never holds bare
      markup. */
  lemma EscapeRoundTrip(s: string)
    ensures Unescape(Escape(s)) == s && WellEscaped(Escape(s))
  {
    EscapeIsPerCharacter(s);
    UnescapePerCharacter(s);
    PerCharacterWellEscaped(s);
  }

  /** The character an escaped string starts with, and what follows its entity. */
  lemma HeadEntity(t: string) returns (c: char, rest: string)
    requires WellEscaped(t) && t != ""
    ensures t == Entity(c) + rest && WellEscaped(rest)
  {
    if t[0] == '&' {
      assert t[0..] == t && StartsEntity(t);
      c := if "&amp;" <= t then '&' else if "&lt;" <= t then '<' else if "&gt;" <= t then '>' else '"';
    } else {
      c := t[0];
    }
    rest := t[|Entity(c)|..];
    forall i | 0 <= i < |rest| && rest[i] == '&' ensures StartsEntity(rest[i..]) {
      assert rest[i..] == t[i + |Entity(c)|..];
    }
  }

  /** The outputs are exactly the well-escaped strings: re-escaping a decoded one gives it back. */
  lemma {:induction false} UnescapeRoundTrip(t: string)
    requires WellEscaped(t)
    ensures Escape(Unescape(t)) == t
    decreases |t|
  {
    if t == "" {
      assert Escape("") == "";
    } else {
      var c, rest := HeadEntity(t);
      UnescapeRoundTrip(rest);
      UnescapeEntity(c, rest);
      EscapeOne(c);
      EscapeSplits([c], Unescape(rest));
    }
  }
}
