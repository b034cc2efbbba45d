/** Lines of a netfilter dump: what the regular expressions of the scan accept, and what the
    lines say. */
module FirewallLines {

  // ----- What the regular expressions accept

  /** White space as `str.strip` and `\\s` know it. */
  predicate IsSpace(c: char) {
    var code := c as int;
    || 9 <= code <= 13 || 28 <= code <= 32 || code == 0x85 || code == 0xa0 || code == 0x1680
    || 0x2000 <= code <= 0x200a || code == 0x2028 || code == 0x2029 || code == 0x202f || code == 0x205f
    || code == 0x3000
  }

  predicate IsWordChar(c: char) {
    'a' <= c <= 'z' || 'A' <= c <= 'Z' || '0' <= c <= '9' || c == '_'
  }

  function SkipSpaces(s: string): string {
    if s != "" && IsSpace(s[0]) then SkipSpaces(s[1..]) else s
  }

  function DropTrailing(s: string): string {
    if s != "" && IsSpace(s[|s| - 1]) then DropTrailing(s[..|s| - 1]) else s
  }

  function Strip(s: string): string {
    DropTrailing(SkipSpaces(s))
  }

  /** `key`, then white space, then one of the two verdicts. */
  predicate KeyThen(s: string, key: string, verdict1: string, verdict2: string) {
    && key <= s && |s| > |key| && IsSpace(s[|key|])
    && (verdict1 <= SkipSpaces(s[|key|..]) || verdict2 <= SkipSpaces(s[|key|..]))
  }

  predicate Contains(s: string, sub: string) {
    exists i :: 0 <= i <= |s| && sub <= s[i..]
  }

  /** `-A INPUT ... -j DROP`, or an INPUT policy. */
  predicate IptablesBlocks(rule: string) {
    || ("-A INPUT " <= rule && exists i :: 9 <= i <= |rule| && KeyThen(rule[i..], "-j", "REJECT", "DROP"))
    || KeyThen(rule, ":INPUT", "DROP", "REJECT")
  }

  predicate WordAt(s: string, i: nat, word: string) {
    && i <= |s| && word <= s[i..]
    && (i == 0 || !IsWordChar(s[i - 1]))
    && (i + |word| >= |s| || !IsWordChar(s[i + |word|]))
  }

  predicate HasVerdict(rule: string) {
    exists i :: 0 <= i <= |rule| && (WordAt(rule, i, "drop") || WordAt(rule, i, "reject"))
  }

  predicate IsHook(rule: string) {
    Contains(rule, "hook input")
  }

  predicate BlockingPolicy(rule: string) {
    exists i :: 0 <= i <= |rule| && KeyThen(rule[i..], "policy", "drop", "reject")
  }

  predicate IsComment(rule: string) {
    "#" <= rule
  }

  function Count(s: string, c: char): nat {
    if s == "" then 0 else (if s[0] == c then 1 else 0) + Count(s[1..], c)
  }

  function Net(rule: string): int {
    Count(rule, '{') - Count(rule, '}')
  }

  // ----- What the lines say

  ghost predicate AllSpace(s: string) {
    forall i :: 0 <= i < |s| ==> IsSpace(s[i])
  }

  /** The ASCII letters, digits and underscore, by code. */
  ghost predicate WordCode(code: int) {
    48 <= code <= 57 || 65 <= code <= 90 || code == 95 || 97 <= code <= 122
  }

  /** `w` with `a` before it and `b` after it. */
  ghost predicate Splits(s: string, a: string, w: string, b: string) {
    s == a + w + b
  }

  ghost predicate Mentions(s: string, w: string) {
    exists a, b :: Splits(s, a, w, b)
  }

  /** `w` as a word of its own. */
  ghost predicate SplitsWord(s: string, a: string, w: string, b: string) {
    && Splits(s, a, w, b)
    && (a == "" || !WordCode(a[|a| - 1] as int))
    && (b == "" || !WordCode(b[0] as int))
  }

  ghost predicate SaysWord(s: string, w: string) {
    exists a, b :: SplitsWord(s, a, w, b)
  }

  ghost predicate SaysVerdict(rule: string) {
    SaysWord(rule, "drop") || SaysWord(rule, "reject")
  }

  /** `key`, white space, and `verdict`, with `a` before and `b` after. */
  ghost predicate SplitsKey(s: string, a: string, key: string, gap: string, verdict: string, b: string) {
    s == a + key + gap + verdict + b && gap != "" && AllSpace(gap)
  }

  ghost predicate SaysKey(s: string, a: string, key: string, verdict: string) {
    exists gap, b :: SplitsKey(s, a, key, gap, verdict, b)
  }

  ghost predicate SaysPolicy(rule: string) {
    exists a :: SaysKey(rule, a, "policy", "drop") || SaysKey(rule, a, "policy", "reject")
  }

  /** A rule of the INPUT chain that drops or rejects, or such a policy of the chain. */
  ghost predicate DropsInput(rule: string) {
    || (exists a :: SaysKey(rule, "-A INPUT " + a, "-j", "DROP") || SaysKey(rule, "-A INPUT " + a, "-j", "REJECT"))
    || SaysKey(rule, "", ":INPUT", "DROP") || SaysKey(rule, "", ":INPUT", "REJECT")
  }

  ghost predicate Comment(rule: string) {
    rule != "" && rule[0] == '#'
  }

  /** Braces opened less braces closed. */
  ghost function Balance(rule: string): int {
    multiset(rule)['{'] as int - multiset(rule)['}'] as int
  }

  // ----- The expressions accept what the lines say

  lemma PrefixSplits(s: string, i: nat, w: string)
    requires i <= |s| && w <= s[i..]
    ensures Splits(s, s[..i], w, s[i + |w|..])
  {
    assert s == s[..i] + s[i..] && s[i..] == w + s[i..][|w|..];
  }

  lemma SplitsPrefix(s: string, a: string, w: string, b: string)
    requires Splits(s, a, w, b)
    ensures |a| <= |s| && w <= s[|a|..] && s[..|a|] == a && s[|a| + |w|..] == b
  {
    assert s[|a|..] == w + b;
  }

  lemma HookMentioned(rule: string)
    ensures IsHook(rule) <==> Mentions(rule, "hook input")
  {
    if IsHook(rule) {
      var i :| 0 <= i <= |rule| && "hook input" <= rule[i..];
      PrefixSplits(rule, i, "hook input");
    }
    if a, b :| Splits(rule, a, "hook input", b) {
      SplitsPrefix(rule, a, "hook input", b);
    }
  }

  lemma WordSaid(s: string, w: string)
    ensures (exists i :: 0 <= i <= |s| && WordAt(s, i, w)) <==> SaysWord(s, w)
  {
    if i :| 0 <= i <= |s| && WordAt(s, i, w) {
      PrefixSplits(s, i, w);
      assert SplitsWord(s, s[..i], w, s[i + |w|..]);
    }
    if a, b :| SplitsWord(s, a, w, b) {
      SplitsPrefix(s, a, w, b);
      assert WordAt(s, |a|, w);
    }
  }

  lemma VerdictSaid(rule: string)
    ensures HasVerdict(rule) <==> SaysVerdict(rule)
  {
    WordSaid(rule, "drop");
    WordSaid(rule, "reject");
  }

  lemma {:induction false} SkipSpacesSplits(s: string)
    ensures exists gap :: AllSpace(gap) && s == gap + SkipSpaces(s)
    ensures SkipSpaces(s) != "" ==> !IsSpace(SkipSpaces(s)[0])
  {
    if s != "" && IsSpace(s[0]) {
      SkipSpacesSplits(s[1..]);
      var gap :| AllSpace(gap) && s[1..] == gap + SkipSpaces(s[1..]);
      assert AllSpace([s[0]] + gap) && s == [s[0]] + gap + SkipSpaces(s);
    } else {
      assert AllSpace("") && s == "" + s;
    }
  }

  lemma {:induction false} SkipSpacesOver(gap: string, rest: string)
    requires AllSpace(gap) && rest != "" && !IsSpace(rest[0])
    ensures SkipSpaces(gap + rest) == rest
  {
    if gap == "" {
      assert gap + rest == rest;
    } else {
      assert (gap + rest)[1..] == gap[1..] + rest;
      SkipSpacesOver(gap[1..], rest);
    }
  }

  /** One key and one verdict. */
  ghost predicate KeyVerdict(s: string, key: string, verdict: string) {
    key <= s && |s| > |key| && IsSpace(s[|key|]) && verdict <= SkipSpaces(s[|key|..])
  }

  lemma Flatten(a: string, key: string, gap: string, verdict: string, b: string)
    ensures a + (key + (gap + (verdict + b))) == a + key + gap + verdict + b
  {
  }

  lemma KeySplits(s: string, i: nat, key: string, verdict: string)
    requires i <= |s| && verdict != "" && !IsSpace(verdict[0]) && KeyVerdict(s[i..], key, verdict)
    ensures SaysKey(s, s[..i], key, verdict)
  {
    var u := s[i..];
    var v := u[|key|..];
    var w := SkipSpaces(v);
    SkipSpacesSplits(v);
    var gap :| AllSpace(gap) && v == gap + w;
    var b := w[|verdict|..];
    assert w == verdict + b && u == key + v && s == s[..i] + u;
    Flatten(s[..i], key, gap, verdict, b);
    assert SplitsKey(s, s[..i], key, gap, verdict, b);
  }

  lemma SplitsAccepted(s: string, a: string, key: string, verdict: string)
    requires verdict != "" && !IsSpace(verdict[0]) && SaysKey(s, a, key, verdict)
    ensures |a| <= |s| && s[..|a|] == a && KeyVerdict(s[|a|..], key, verdict)
  {
    var gap, b :| SplitsKey(s, a, key, gap, verdict, b);
    var u := key + (gap + (verdict + b));
    assert s == a + u;
    assert u[|key|..] == gap + (verdict + b);
    SkipSpacesOver(gap, verdict + b);
  }

  lemma PolicySaid(rule: string)
    ensures BlockingPolicy(rule) <==> SaysPolicy(rule)
  {
    if i :| 0 <= i <= |rule| && KeyThen(rule[i..], "policy", "drop", "reject") {
      KeySplits(rule, i, "policy", if KeyVerdict(rule[i..], "policy", "drop") then "drop" else "reject");
    }
    if a :| SaysKey(rule, a, "policy", "drop") || SaysKey(rule, a, "policy", "reject") {
      SplitsAccepted(rule, a, "policy", if SaysKey(rule, a, "policy", "drop") then "drop" else "reject");
    }
  }

  lemma InputRuleSaid(rule: string, verdict: string)
    requires verdict != "" && !IsSpace(verdict[0])
    ensures ("-A INPUT " <= rule && exists i :: 9 <= i <= |rule| && KeyVerdict(rule[i..], "-j", verdict)) <==>
            exists a :: SaysKey(rule, "-A INPUT " + a, "-j", verdict)
  {
    var head := "-A INPUT ";
    if head <= rule && exists i :: 9 <= i <= |rule| && KeyVerdict(rule[i..], "-j", verdict) {
      var i :| 9 <= i <= |rule| && KeyVerdict(rule[i..], "-j", verdict);
      KeySplits(rule, i, "-j", verdict);
      assert rule[..i] == head + rule[9..i];
    }
    if a :| SaysKey(rule, head + a, "-j", verdict) {
      SplitsAccepted(rule, head + a, "-j", verdict);
      assert |head| == 9 && head <= rule[..|head + a|];
    }
  }

  lemma ChainPolicySaid(rule: string, verdict: string)
    requires verdict != "" && !IsSpace(verdict[0])
    ensures KeyVerdict(rule, ":INPUT", verdict) <==> SaysKey(rule, "", ":INPUT", verdict)
  {
    assert rule[0..] == rule && rule[..0] == "";
    if KeyVerdict(rule, ":INPUT", verdict) {
      KeySplits(rule, 0, ":INPUT", verdict);
    }
    if SaysKey(rule, "", ":INPUT", verdict) {
      SplitsAccepted(rule, "", ":INPUT", verdict);
    }
  }

  lemma IptablesSaid(rule: string)
    ensures IptablesBlocks(rule) <==> DropsInput(rule)
  {
    InputRuleSaid(rule, "DROP");
    InputRuleSaid(rule, "REJECT");
    ChainPolicySaid(rule, "DROP");
    ChainPolicySaid(rule, "REJECT");
    assert forall i :: 9 <= i <= |rule| ==>
      (KeyThen(rule[i..], "-j", "REJECT", "DROP") <==>
       KeyVerdict(rule[i..], "-j", "REJECT") || KeyVerdict(rule[i..], "-j", "DROP"));
  }

  lemma {:induction false} CountBag(s: string, c: char)
    ensures Count(s, c) == multiset(s)[c]
  {
    if s != "" {
      CountBag(s[1..], c);
      assert s == [s[0]] + s[1..];
    }
  }

  lemma NetBalance(rule: string)
    ensures Net(rule) == Balance(rule)
  {
    CountBag(rule, '{');
    CountBag(rule, '}');
  }

  lemma CommentSaid(rule: string)
    ensures IsComment(rule) <==> Comment(rule)
  {
  }

  /** `r` is `s` without the white space around it. */
  ghost predicate Trims(s: string, p: string, r: string, q: string) {
    && s == p + r + q && AllSpace(p) && AllSpace(q)
    && (r != "" ==> !IsSpace(r[0]) && !IsSpace(r[|r| - 1]))
  }

  lemma {:induction false} DropTrailingSplits(s: string)
    ensures exists q :: AllSpace(q) && s == DropTrailing(s) + q
    ensures DropTrailing(s) != "" ==> !IsSpace(DropTrailing(s)[|DropTrailing(s)| - 1]) && DropTrailing(s)[0] == s[0]
  {
    if s != "" && IsSpace(s[|s| - 1]) {
      var init, c := s[..|s| - 1], s[|s| - 1];
      DropTrailingSplits(init);
      var q :| AllSpace(q) && init == DropTrailing(init) + q;
      assert AllSpace(q + [c]) && s == DropTrailing(s) + (q + [c]);
    } else {
      assert AllSpace("") && s == s + "";
    }
  }

  lemma StripTrims(s: string)
    ensures exists p, q :: Trims(s, p, Strip(s), q)
  {
    SkipSpacesSplits(s);
    var p :| AllSpace(p) && s == p + SkipSpaces(s);
    DropTrailingSplits(SkipSpaces(s));
    var q :| AllSpace(q) && SkipSpaces(s) == Strip(s) + q;
    assert s == p + Strip(s) + q;
    assert Trims(s, p, Strip(s), q);
  }

  /** There is only one way to trim a line. */
  lemma TrimsUnique(s: string, p: string, r: string, q: string)
    requires Trims(s, p, r, q)
    ensures r == Strip(s)
  {
    StripTrims(s);
    var p', q' :| Trims(s, p', Strip(s), q');
    TrimsAgree(s, p, r, q, p', Strip(s), q');
  }

  lemma TrimsAgree(s: string, p: string, r: string, q: string, p': string, r': string, q': string)
    requires Trims(s, p, r, q) && Trims(s, p', r', q')
    ensures r == r'
  {
    if r' != "" {
      TrimsStart(s, p', r', q', p, r, q);
    }
    if r != "" {
      TrimsStart(s, p, r, q, p', r', q');
      assert r == s[|p|..|p| + |r|] && r' == s[|p'|..|p'| + |r'|];
    }
  }

  lemma TrimsStart(s: string, p: string, r: string, q: string, p': string, r': string, q': string)
    requires Trims(s, p, r, q) && Trims(s, p', r', q') && r != ""
    ensures r' != "" && |p'| <= |p| && |p| + |r| <= |p'| + |r'|
  {
    assert s[|p|] == r[0] && s[|p| + |r| - 1] == r[|r| - 1];
    assert forall i :: 0 <= i < |p'| ==> s[i] == p'[i];
    assert forall i :: |p'| + |r'| <= i < |s| ==> s[i] == q'[i - |p'| - |r'|];
  }

  lemma SpaceCodes(c: char)
    ensures c as int < 128 ==> (IsSpace(c) <==> c as int in {9, 10, 11, 12, 13, 28, 29, 30, 31, 32})
  {
  }
}
