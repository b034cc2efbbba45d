/** Command templates: literal text and `$name` placeholders. */
module Templates {
  import opened Text

  predicate Plain(s: string) {
    '$' !in s
  }

  // ----- All placeholders at once

  /** The greatest j <= k such that the first j characters of s are a name, or -1. */
  function Longest(params: map<string, string>, s: string, k: nat): (j: int)
    requires k <= |s|
    ensures -1 <= j <= k
    ensures j >= 0 ==> s[..j] in params
    ensures forall i :: j < i <= k ==> s[..i] !in params
  {
    if s[..k] in params then k else if k == 0 then -1 else Longest(params, s, k - 1)
  }

  /** Left to right, each `$` followed by a name gives way to the value of the longest such
      name; nothing is substituted inside a value. */
  function Munch(t: string, params: map<string, string>): string {
    if t == "" then ""
    else if t[0] == '$' && Longest(params, t[1..], |t| - 1) >= 0 then
      var j := Longest(params, t[1..], |t| - 1);
      params[t[1..][..j]] + Munch(t[1 + j..], params)
    else [t[0]] + Munch(t[1..], params)
  }

  // ----- Templates in pieces

  /** Literal text, or a `$` with the characters up to the next one. */
  datatype Piece = Text(text: string) | Hole(text: string)

  function Show(p: Piece): string {
    if p.Text? then p.text else "$" + p.text
  }

  function Render(ps: seq<Piece>): string {
    if ps == [] then "" else Show(ps[0]) + Render(ps[1..])
  }

  /** The text before the first `$`, then one hole for each `$`. */
  function Split(t: string): (ps: seq<Piece>)
    ensures |ps| > 0 && ps[0].Text?
  {
    if t == "" then [Text("")]
    else
      var ps := Split(t[1..]);
      if t[0] == '$' then [Text(""), Hole(ps[0].text)] + ps[1..]
      else [Text([t[0]] + ps[0].text)] + ps[1..]
  }

  ghost predicate Clean(ps: seq<Piece>) {
    forall k :: 0 <= k < |ps| ==> Plain(ps[k].text)
  }

  /** Every piece but the first starts with a `$`. */
  ghost predicate HolesAfterFirst(ps: seq<Piece>) {
    forall k :: 0 < k < |ps| ==> ps[k].Hole?
  }

  lemma {:induction false} SplitShape(t: string)
    ensures Clean(Split(t)) && HolesAfterFirst(Split(t))
  {
    if t != "" {
      SplitShape(t[1..]);
    }
  }

  lemma RenderOne(p: Piece, ps: seq<Piece>)
    ensures Render([p] + ps) == Show(p) + Render(ps)
  {
  }

  lemma RenderLonger(c: char, h: string, ps: seq<Piece>)
    ensures Render([Text(""), Hole(h)] + ps) == "$" + Render([Text(h)] + ps)
    ensures Render([Text([c] + h)] + ps) == [c] + Render([Text(h)] + ps)
  {
  }

  lemma {:induction false} SplitRenders(t: string)
    ensures Render(Split(t)) == t
  {
    if t == "" {
      RenderOne(Text(""), []);
      assert [Text("")] + [] == [Text("")];
    } else {
      SplitRenders(t[1..]);
      var ps := Split(t[1..]);
      RenderLonger(t[0], ps[0].text, ps[1..]);
      assert ps == [Text(ps[0].text)] + ps[1..];
      assert t == [t[0]] + t[1..];
    }
  }

  lemma ConcatAssociates(a: string, b: string, c: string)
    ensures (a + b) + c == a + (b + c)
  {
  }

  // ----- Replacing one name

  lemma {:induction false} ReplaceSkipsPlain(t: string, rest: string, name: string, value: string)
    requires Plain(t)
    ensures Replace(t + rest, "$" + name, value) == t + Replace(rest, "$" + name, value)
  {
    if t == "" {
      assert t + rest == rest;
    } else {
      assert (t + rest)[0] != ("$" + name)[0] && (t + rest)[1..] == t[1..] + rest;
      ReplaceSkipsPlain(t[1..], rest, name, value);
    }
  }

  /** What follows a hole cannot complete the name: there is nothing, or another `$`, or the
      hole does not start the name. */
  predicate Unextendable(s: string, rest: string, name: string) {
    rest == "" || rest[0] == '$' || !(s < name)
  }

  lemma NoMatch(s: string, rest: string, name: string)
    requires Plain(name) && !(name <= s) && Unextendable(s, rest, name)
    ensures !(name <= s + rest)
  {
    if s < name && rest != "" {
      assert (s + rest)[|s|] == '$';
    }
  }

  lemma ReplaceHit(s: string, rest: string, name: string, value: string)
    requires Plain(s) && name <= s
    ensures Replace("$" + s + rest, "$" + name, value) == value + s[|name|..] + Replace(rest, "$" + name, value)
  {
    var whole, pat := "$" + s + rest, "$" + name;
    assert pat <= whole && whole[|pat|..] == s[|name|..] + rest;
    ReplaceSkipsPlain(s[|name|..], rest, name, value);
  }

  lemma DollarPrefix(name: string, u: string)
    ensures "$" + name <= "$" + u <==> name <= u
  {
    assert ("$" + u)[1..] == u && ("$" + name)[1..] == name;
    if "$" + name <= "$" + u {
      assert ("$" + u)[..|name| + 1] == "$" + name;
      assert ("$" + u)[1..|name| + 1] == name;
    }
  }

  lemma ReplaceMiss(s: string, rest: string, name: string, value: string)
    requires Plain(s) && Plain(name) && !(name <= s) && Unextendable(s, rest, name)
    ensures Replace("$" + s + rest, "$" + name, value) == "$" + s + Replace(rest, "$" + name, value)
  {
    var u := s + rest;
    NoMatch(s, rest, name);
    DollarPrefix(name, u);
    ConcatAssociates("$", s, rest);
    assert ("$" + u)[1..] == u;
    ReplaceSkipsPlain(s, rest, name, value);
  }

  // ----- The simultaneous substitution, piece by piece

  function MunchPiece(p: Piece, params: map<string, string>): Piece {
    if p.Text? then p
    else
      var j := Longest(params, p.text, |p.text|);
      if j >= 0 then Text(params[p.text[..j]] + p.text[j..]) else p
  }

  lemma {:induction false} MunchSkipsPlain(t: string, rest: string, params: map<string, string>)
    requires Plain(t)
    ensures Munch(t + rest, params) == t + Munch(rest, params)
  {
    if t == "" {
      assert t + rest == rest;
    } else {
      assert (t + rest)[1..] == t[1..] + rest;
      MunchSkipsPlain(t[1..], rest, params);
    }
  }

  /** No name reaches over the next `$`. */
  lemma LongestStopsInside(params: map<string, string>, s: string, rest: string)
    requires (forall name :: name in params ==> Plain(name)) && (rest == "" || rest[0] == '$')
    ensures Longest(params, s + rest, |s + rest|) == Longest(params, s, |s|)
  {
    assert forall i :: 0 <= i <= |s| ==> (s + rest)[..i] == s[..i];
    forall i | |s| < i <= |s + rest| ensures (s + rest)[..i] !in params {
      assert (s + rest)[..i][|s|] == '$';
    }
  }

  lemma MunchHit(s: string, rest: string, params: map<string, string>, j: nat)
    requires Plain(s) && j <= |s| && s[..j] in params && Longest(params, s + rest, |s + rest|) == j
    ensures Munch("$" + (s + rest), params) == params[s[..j]] + s[j..] + Munch(rest, params)
  {
    var u := s + rest;
    assert u[..j] == s[..j];
    assert Munch(u[j..], params) == s[j..] + Munch(rest, params) by {
      assert u[j..] == s[j..] + rest;
      MunchSkipsPlain(s[j..], rest, params);
    }
    ConcatAssociates(params[s[..j]], s[j..], Munch(rest, params));
  }

  lemma MunchMiss(s: string, rest: string, params: map<string, string>)
    requires Plain(s) && Longest(params, s + rest, |s + rest|) < 0
    ensures Munch("$" + (s + rest), params) == "$" + s + Munch(rest, params)
  {
    MunchSkipsPlain(s, rest, params);
    ConcatAssociates("$", s, Munch(rest, params));
  }

  lemma MunchHole(s: string, rest: string, params: map<string, string>)
    requires Plain(s) && (forall name :: name in params ==> Plain(name)) && (rest == "" || rest[0] == '$')
    ensures Munch("$" + s + rest, params) == Show(MunchPiece(Hole(s), params)) + Munch(rest, params)
  {
    assert "$" + s + rest == "$" + (s + rest);
    LongestStopsInside(params, s, rest);
    var j := Longest(params, s, |s|);
    if j >= 0 {
      MunchHit(s, rest, params, j);
    } else {
      MunchMiss(s, rest, params);
    }
  }

  function MunchAll(ps: seq<Piece>, params: map<string, string>): (qs: seq<Piece>)
    ensures |qs| == |ps| && forall k :: 0 <= k < |ps| ==> qs[k] == MunchPiece(ps[k], params)
  {
    if ps == [] then [] else [MunchPiece(ps[0], params)] + MunchAll(ps[1..], params)
  }

  lemma {:induction false} MunchRendered(ps: seq<Piece>, params: map<string, string>)
    requires Clean(ps) && HolesAfterFirst(ps) && forall name :: name in params ==> Plain(name)
    ensures Munch(Render(ps), params) == Render(MunchAll(ps, params))
  {
    if ps != [] {
      var rest := Render(ps[1..]);
      MunchRendered(ps[1..], params);
      if ps[0].Text? {
        MunchSkipsPlain(ps[0].text, rest, params);
      } else {
        MunchHole(ps[0].text, rest, params);
      }
      RenderOne(MunchPiece(ps[0], params), MunchAll(ps[1..], params));
    }
  }

  /** With `$`-free names the substitution acts on each hole of the template by itself. */
  lemma MunchSplits(t: string, params: map<string, string>)
    requires forall name :: name in params ==> Plain(name)
    ensures Munch(t, params) == Render(MunchAll(Split(t), params))
  {
    SplitShape(t);
    SplitRenders(t);
    MunchRendered(Split(t), params);
  }
}
