/** `find_blocking_firewall_rules`: a brace-counting scan of a netfilter dump, against the
    tree of tables, chains and rules the dump was printed from. */
module Firewall {
  import opened Basics
  import opened FirewallLines

  // ----- The scan

  /** `depth` open braces; `chain` is the depth of the input chain being read. */
  datatype Cursor = Cursor(depth: int, chain: Option<int>)

  const START := Cursor(0, None)

  predicate Emits(at: Cursor, rule: string) {
    && !IsComment(rule)
    && (|| IptablesBlocks(rule)
        || (at.chain == Some(at.depth) && HasVerdict(rule))
        || (IsHook(rule) && BlockingPolicy(rule)))
  }

  /** The cursor after the three branches, before the braces are counted. */
  function Chain(at: Cursor, rule: string): Option<int> {
    if IptablesBlocks(rule) || (at.chain == Some(at.depth) && HasVerdict(rule)) || !IsHook(rule)
    then at.chain else Some(at.depth)
  }

  function Next(at: Cursor, rule: string): Cursor {
    if IsComment(rule) then START
    else
      var depth := at.depth + Net(rule);
      var chain := Chain(at, rule);
      Cursor(depth, if chain.Some? && depth < chain.value then None else chain)
  }

  function Scan(lines: seq<string>, at: Cursor): seq<string>
    decreases lines
  {
    if lines == [] then []
    else
      var rule := Strip(lines[0]);
      (if Emits(at, rule) then [rule] else []) + Scan(lines[1..], Next(at, rule))
  }

  function After(lines: seq<string>, at: Cursor): Cursor
    decreases lines
  {
    if lines == [] then at else After(lines[1..], Next(at, Strip(lines[0])))
  }

  /** The body of the loop: the branches, then the brace count. */
  method ReadRule(rule: string, depth: int, inputChainDepth: Option<int>)
    returns (emit: bool, depth': int, chain': Option<int>)
    ensures emit == Emits(Cursor(depth, inputChainDepth), rule)
    ensures Cursor(depth', chain') == Next(Cursor(depth, inputChainDepth), rule)
  {
    if IsComment(rule) {
      return false, 0, None;
    }
    emit, chain' := false, inputChainDepth;
    if IptablesBlocks(rule) {
      emit := true;
    } else if inputChainDepth == Some(depth) && HasVerdict(rule) {
      emit := true;
    } else if IsHook(rule) {
      chain' := Some(depth);
      if BlockingPolicy(rule) {
        emit := true;
      }
    }
    depth' := depth + Count(rule, '{') - Count(rule, '}');
    if chain'.Some? && depth' < chain'.value {
      chain' := None;
    }
  }

  method FindBlockingFirewallRules(lines: seq<string>) returns (blocking: seq<string>)
    ensures blocking == Scan(lines, START)
    ensures forall sections :: WellFormedDump(sections) && lines == PrintDump(sections) ==>
              blocking == BlockingDump(sections)
  {
    blocking := [];
    var depth, inputChainDepth := 0, None;
    var i := 0;
    while i < |lines|
      invariant 0 <= i <= |lines|
      invariant ReadSoFar(lines, i, Cursor(depth, inputChainDepth), blocking)
    {
      var rule := Strip(lines[i]);
      ScanStep(lines, i, Cursor(depth, inputChainDepth), blocking);
      var emit;
      emit, depth, inputChainDepth := ReadRule(rule, depth, inputChainDepth);
      if emit {
        blocking := blocking + [rule];
      }
      i := i + 1;
    }
    assert lines[|lines|..] == [];
    ScanDumps(lines);
  }

  /** What has been reported and what the rest will report is what the scan reports. */
  ghost predicate ReadSoFar(lines: seq<string>, i: nat, at: Cursor, blocking: seq<string>) {
    i <= |lines| && blocking + Scan(lines[i..], at) == Scan(lines, START)
  }

  lemma {:induction false} ScanStep(lines: seq<string>, i: nat, at: Cursor, blocking: seq<string>)
    requires i < |lines| && ReadSoFar(lines, i, at, blocking)
    ensures var rule := Strip(lines[i]);
            ReadSoFar(lines, i + 1, Next(at, rule), if Emits(at, rule) then blocking + [rule] else blocking)
  {
    var rest, rule := lines[i..], Strip(lines[i]);
    assert rest[0] == lines[i] && rest[1..] == lines[i + 1..];
    var emitted := if Emits(at, rule) then [rule] else [];
    assert Scan(rest, at) == emitted + Scan(lines[i + 1..], Next(at, rule));
  }

  // ----- Composition

  lemma {:induction false} ScanAppend(a: seq<string>, b: seq<string>, at: Cursor)
    ensures Scan(a + b, at) == Scan(a, at) + Scan(b, After(a, at))
    ensures After(a + b, at) == After(b, After(a, at))
    decreases a
  {
    if a == [] {
      assert a + b == b;
    } else {
      assert (a + b)[1..] == a[1..] + b;
      ScanAppend(a[1..], b, Next(at, Strip(a[0])));
    }
  }

  /** Whatever state one dump leaves the scan in, a `#` header starts the next one afresh:
      for any lines at all, the dumps are judged independently. */
  lemma HeaderSeparates(a: seq<string>, header: string, b: seq<string>)
    requires Comment(Strip(header))
    ensures Scan(a + [header] + b, START) == Scan(a, START) + Scan(b, START)
  {
    ScanAppend(a + [header], b, START);
    ScanAppend(a, [header], START);
    CommentSaid(Strip(header));
    ScanOne(header, After(a, START));
  }

  lemma ScanOne(line: string, at: Cursor)
    ensures Scan([line], at) == if Emits(at, Strip(line)) then [Strip(line)] else []
    ensures After([line], at) == Next(at, Strip(line))
  {
  }

  // ----- A line, by what it says

  /** Which lines are reported: outside comments, those that drop from INPUT, those with a
      verdict at the depth of the input chain, and the blocking policy of a hook. */
  lemma LineReported(at: Cursor, rule: string)
    ensures Emits(at, rule) <==>
              && !Comment(rule)
              && (|| DropsInput(rule)
                  || (at.chain == Some(at.depth) && SaysVerdict(rule))
                  || (Mentions(rule, "hook input") && SaysPolicy(rule)))
  {
    CommentSaid(rule);
    IptablesSaid(rule);
    VerdictSaid(rule);
    HookMentioned(rule);
    PolicySaid(rule);
  }

  /** How a line moves the cursor: a comment starts afresh; a hook makes the depth it stands
      at the input chain; braces count, and closing below the chain ends it. */
  lemma LineMoves(at: Cursor, rule: string)
    ensures var next := Next(at, rule);
            var blocks := DropsInput(rule) || (at.chain == Some(at.depth) && SaysVerdict(rule));
            var hooks := Mentions(rule, "hook input") && !blocks;
            var chain := if hooks then Some(at.depth) else at.chain;
            if Comment(rule) then next == Cursor(0, None)
            else
              && next.depth == at.depth + Balance(rule)
              && next.chain == (if chain.Some? && next.depth < chain.value then None else chain)
  {
    CommentSaid(rule);
    IptablesSaid(rule);
    VerdictSaid(rule);
    HookMentioned(rule);
    NetBalance(rule);
  }

  // ----- The tree

  /** The contents of a block: rules and nested blocks, in order. */
  datatype Tree =
    | End
    | Rule(line: string, next: Tree)
    | Block(header: string, body: Tree, footer: string, next: Tree)

  function Print(t: Tree): seq<string> {
    match t
    case End => []
    case Rule(line, next) => [line] + Print(next)
    case Block(header, body, footer, next) => [header] + Print(body) + [footer] + Print(next)
  }

  /** A line directly inside a block blocks: an iptables rule does anywhere; in a block that
      has been hooked into input, so does a drop or reject; so does the hook's own policy. */
  ghost predicate Blocks(rule: string, hooked: bool) {
    DropsInput(rule) || (hooked && SaysVerdict(rule)) || (Mentions(rule, "hook input") && SaysPolicy(rule))
  }

  ghost predicate Hooks(rule: string, hooked: bool) {
    hooked || (Mentions(rule, "hook input") && !DropsInput(rule))
  }

  /** Whether the rest of a block leaves it hooked; hooks of nested blocks do not count. */
  ghost predicate HookedAfter(t: Tree, hooked: bool) {
    match t
    case End => hooked
    case Rule(line, next) => HookedAfter(next, Hooks(Strip(line), hooked))
    case Block(_, _, _, next) => HookedAfter(next, hooked)
  }

  ghost function Reported(line: string, hooked: bool): seq<string> {
    if Blocks(Strip(line), hooked) then [Strip(line)] else []
  }

  /** What blocks in the rest of a block, given whether the block is hooked so far. A nested
      block starts unhooked, its closing line is part of it, and its hook does not reach the
      lines after it. */
  ghost function Blocking(t: Tree, hooked: bool): seq<string> {
    match t
    case End => []
    case Rule(line, next) => Reported(line, hooked) + Blocking(next, Hooks(Strip(line), hooked))
    case Block(header, body, footer, next) =>
      Reported(header, hooked) + Blocking(body, false) + Reported(footer, HookedAfter(body, false)) +
      Blocking(next, hooked)
  }

  ghost predicate Unhooked(t: Tree) {
    match t
    case End => true
    case Rule(line, next) => !Mentions(Strip(line), "hook input") && Unhooked(next)
    case Block(_, body, _, next) => Unhooked(body) && Unhooked(next)
  }

  /** Rules balance their braces on one line, a header opens one block, the closing line ends
      it, nothing is a comment, hooks are rules, and an input chain does not enclose another. */
  ghost predicate WellFormed(t: Tree, hooked: bool) {
    match t
    case End => true
    case Rule(line, next) =>
      && !Comment(Strip(line)) && Balance(Strip(line)) == 0
      && WellFormed(next, Hooks(Strip(line), hooked))
    case Block(header, body, footer, next) =>
      && !Comment(Strip(header)) && Balance(Strip(header)) == 1 && !Mentions(Strip(header), "hook input")
      && !Comment(Strip(footer)) && Balance(Strip(footer)) == -1 && !Mentions(Strip(footer), "hook input")
      && WellFormed(body, false) && WellFormed(next, hooked)
      && (hooked ==> Unhooked(body))
  }

  /** The cursor agrees with the tree: hooked here, or not hooked at this depth, and below a
      hooked block nothing hooks. */
  ghost predicate Agrees(at: Cursor, t: Tree, hooked: bool) {
    if hooked then at.chain == Some(at.depth)
    else at.chain == None || (at.chain.value < at.depth && Unhooked(t))
  }

  lemma AgreesEmits(at: Cursor, t: Tree, hooked: bool, rule: string)
    requires Agrees(at, t, hooked) && !Comment(rule)
    ensures Emits(at, rule) == Blocks(rule, hooked)
  {
    LineReported(at, rule);
  }

  lemma {:induction false} HeaderAgrees(at: Cursor, t: Tree, hooked: bool)
    requires Agrees(at, t, hooked) && t.Block? && WellFormed(t, hooked)
    ensures Next(at, Strip(t.header)) == Cursor(at.depth + 1, at.chain)
    ensures Agrees(Cursor(at.depth + 1, at.chain), t.body, false)
  {
    LineMoves(at, Strip(t.header));
  }

  /** The depth counter follows the tree: reading a block's contents brings the depth back,
      leaves an enclosing chain alone, and reports exactly what the tree says. */
  lemma {:induction false} ScanTree(t: Tree, at: Cursor, hooked: bool)
    requires WellFormed(t, hooked) && Agrees(at, t, hooked)
    ensures Scan(Print(t), at) == Blocking(t, hooked)
    ensures After(Print(t), at).depth == at.depth
    ensures After(Print(t), at).chain == if HookedAfter(t, hooked) then Some(at.depth) else at.chain
    decreases t
  {
    match t
    case End =>
    case Rule(line, next) =>
      ScanRule(t, at, hooked);
      ScanAppend([line], Print(next), at);
      ScanTree(next, Next(at, Strip(line)), Hooks(Strip(line), hooked));
      HookedStays(next);
    case Block(header, body, footer, next) =>
      ScanBlock(t, at, hooked);
      ScanAppend([header] + Print(body) + [footer], Print(next), at);
      ScanTree(next, at, hooked);
  }

  lemma {:induction false} ScanRule(t: Tree, at: Cursor, hooked: bool)
    requires t.Rule? && WellFormed(t, hooked) && Agrees(at, t, hooked)
    ensures Scan([t.line], at) == Reported(t.line, hooked)
    ensures var next := Next(at, Strip(t.line));
            && After([t.line], at) == next && next.depth == at.depth
            && next.chain == (if Hooks(Strip(t.line), hooked) then Some(at.depth) else at.chain)
            && Agrees(next, t.next, Hooks(Strip(t.line), hooked))
  {
    AgreesEmits(at, t, hooked, Strip(t.line));
    LineMoves(at, Strip(t.line));
    ScanOne(t.line, at);
  }

  lemma {:induction false} HookedStays(t: Tree)
    ensures HookedAfter(t, true)
  {
    match t
    case End =>
    case Rule(_, next) => HookedStays(next);
    case Block(_, _, _, next) => HookedStays(next);
  }

  lemma {:induction false} UnhookedStays(t: Tree)
    requires Unhooked(t)
    ensures !HookedAfter(t, false)
  {
    match t
    case End =>
    case Rule(_, next) => UnhookedStays(next);
    case Block(_, _, _, next) => UnhookedStays(next);
  }

  /** The closing line is read inside the block, and ends its chain. */
  lemma {:induction false} FooterCloses(t: Tree, at: Cursor, hooked: bool)
    requires t.Block? && WellFormed(t, hooked) && Agrees(at, t, hooked)
    ensures var open := HookedAfter(t.body, false);
            var out := Cursor(at.depth + 1, if open then Some(at.depth + 1) else at.chain);
            Emits(out, Strip(t.footer)) == Blocks(Strip(t.footer), open) && Next(out, Strip(t.footer)) == at
  {
    if Unhooked(t.body) {
      UnhookedStays(t.body);
    }
    var open := HookedAfter(t.body, false);
    var out := Cursor(at.depth + 1, if open then Some(at.depth + 1) else at.chain);
    LineReported(out, Strip(t.footer));
    LineMoves(out, Strip(t.footer));
  }

  lemma {:induction false} ScanBlock(t: Tree, at: Cursor, hooked: bool)
    requires t.Block? && WellFormed(t, hooked) && Agrees(at, t, hooked)
    ensures Scan([t.header] + Print(t.body) + [t.footer], at) ==
            Reported(t.header, hooked) + Blocking(t.body, false) + Reported(t.footer, HookedAfter(t.body, false))
    ensures After([t.header] + Print(t.body) + [t.footer], at) == at
    decreases t, 0
  {
    AgreesEmits(at, t, hooked, Strip(t.header));
    HeaderAgrees(at, t, hooked);
    var inner := Cursor(at.depth + 1, at.chain);
    ScanTree(t.body, inner, false);
    var out := After(Print(t.body), inner);
    ScanAppend([t.header] + Print(t.body), [t.footer], at);
    ScanAppend([t.header], Print(t.body), at);
    ScanOne(t.header, at);
    ScanOne(t.footer, out);
    FooterCloses(t, at, hooked);
  }

  // ----- Whole dumps

  datatype Section = Section(header: string, tree: Tree)

  function PrintDump(sections: seq<Section>): seq<string> {
    if sections == [] then [] else [sections[0].header] + Print(sections[0].tree) + PrintDump(sections[1..])
  }

  ghost function BlockingDump(sections: seq<Section>): seq<string> {
    if sections == [] then [] else Blocking(sections[0].tree, false) + BlockingDump(sections[1..])
  }

  ghost predicate WellFormedDump(sections: seq<Section>) {
    forall k :: 0 <= k < |sections| ==> Comment(Strip(sections[k].header)) && WellFormed(sections[k].tree, false)
  }

  lemma ScanSection(header: string, tree: Tree, at: Cursor)
    requires Comment(Strip(header)) && WellFormed(tree, false)
    ensures Scan([header] + Print(tree), at) == Blocking(tree, false)
  {
    CommentSaid(Strip(header));
    ScanAppend([header], Print(tree), at);
    ScanOne(header, at);
    ScanTree(tree, START, false);
  }

  /** The scan of a dump reports, section by section, exactly what blocks in its tree. */
  lemma {:induction false} ScanDump(sections: seq<Section>, at: Cursor)
    requires WellFormedDump(sections)
    ensures Scan(PrintDump(sections), at) == BlockingDump(sections)
    decreases sections
  {
    if sections != [] {
      var Section(header, tree) := sections[0];
      ScanAppend([header] + Print(tree), PrintDump(sections[1..]), at);
      ScanSection(header, tree, at);
      ScanDump(sections[1..], After([header] + Print(tree), at));
    }
  }

  lemma ScanDumps(lines: seq<string>)
    ensures forall sections :: WellFormedDump(sections) && lines == PrintDump(sections) ==>
              Scan(lines, START) == BlockingDump(sections)
  {
    forall sections | WellFormedDump(sections) && lines == PrintDump(sections)
      ensures Scan(lines, START) == BlockingDump(sections)
    {
      ScanDump(sections, START);
    }
  }

  // ----- A chain hooked into input

  function Rules(lines: seq<string>): Tree {
    if lines == [] then End else Rule(lines[0], Rules(lines[1..]))
  }

  ghost predicate Plain(line: string) {
    !Comment(Strip(line)) && Balance(Strip(line)) == 0
  }

  /** A line that opens a block and blocks nothing itself. */
  ghost predicate Opening(line: string) {
    var rule := Strip(line);
    !Comment(rule) && Balance(rule) == 1 && !Mentions(rule, "hook input") && !DropsInput(rule)
  }

  /** The lines that block in a hooked chain. */
  ghost function Dropping(lines: seq<string>): seq<string> {
    if lines == [] then []
    else
      var rule := Strip(lines[0]);
      (if SaysWord(rule, "drop") || SaysWord(rule, "reject") || DropsInput(rule)
          || (Mentions(rule, "hook input") && SaysPolicy(rule)) then [rule] else [])
      + Dropping(lines[1..])
  }

  lemma {:induction false} RulesPrinted(lines: seq<string>)
    ensures Print(Rules(lines)) == lines
  {
    if lines != [] {
      RulesPrinted(lines[1..]);
    }
  }

  lemma {:induction false} HookedRules(lines: seq<string>)
    requires forall i :: 0 <= i < |lines| ==> Plain(lines[i])
    ensures WellFormed(Rules(lines), true) && Blocking(Rules(lines), true) == Dropping(lines)
  {
    if lines != [] {
      assert Plain(lines[0]);
      HookedRules(lines[1..]);
    }
  }

  lemma {:induction false} HookedChain(hook: string, lines: seq<string>)
    requires Plain(hook) && Mentions(Strip(hook), "hook input") && !DropsInput(Strip(hook))
    requires forall i :: 0 <= i < |lines| ==> Plain(lines[i])
    ensures WellFormed(Rule(hook, Rules(lines)), false)
    ensures Blocking(Rule(hook, Rules(lines)), false) ==
            (if SaysPolicy(Strip(hook)) then [Strip(hook)] else []) + Dropping(lines)
  {
    HookedRules(lines);
  }

  lemma BraceCloses()
    ensures !Comment("}") && Balance("}") == -1 && !Mentions("}", "hook input") && !DropsInput("}") && !SaysVerdict("}")
  {
    var brace := "}";
    assert multiset(brace) == multiset{'}'};
    HookMentioned(brace);
    IptablesSaid(brace);
    VerdictSaid(brace);
  }

  lemma {:induction false} OpenedBlock(line: string, body: Tree, close: string)
    requires Opening(line) && Strip(close) == "}" && WellFormed(body, false)
    ensures WellFormed(Block(line, body, close, End), false)
    ensures Blocking(Block(line, body, close, End), false) == Blocking(body, false)
  {
    BraceCloses();
    assert Reported(line, false) == [] && Reported(close, HookedAfter(body, false)) == [];
  }

  lemma {:induction false} BlockPrinted(line: string, body: Tree, close: string)
    ensures Print(Block(line, body, close, End)) == [line] + Print(body) + [close]
  {
  }

  lemma {:induction false} OpenBlock(line: string, body: Tree, close: string) returns (t: Tree)
    requires Opening(line) && Strip(close) == "}" && WellFormed(body, false)
    ensures WellFormed(t, false) && Blocking(t, false) == Blocking(body, false)
    ensures Print(t) == [line] + Print(body) + [close]
  {
    t := Block(line, body, close, End);
    OpenedBlock(line, body, close);
    BlockPrinted(line, body, close);
  }

  lemma {:induction false} HookBlock(hook: string, lines: seq<string>) returns (t: Tree)
    requires Plain(hook) && Mentions(Strip(hook), "hook input") && !DropsInput(Strip(hook))
    requires forall i :: 0 <= i < |lines| ==> Plain(lines[i])
    ensures WellFormed(t, false) && Print(t) == [hook] + lines
    ensures Blocking(t, false) == (if SaysPolicy(Strip(hook)) then [Strip(hook)] else []) + Dropping(lines)
  {
    t := Rule(hook, Rules(lines));
    HookedChain(hook, lines);
    RulesPrinted(lines);
  }

  lemma Nested(header: string, table: string, chain: string, inside: seq<string>, close: string)
    ensures [header] + ([table] + ([chain] + inside + [close]) + [close]) ==
            [header, table, chain] + inside + [close, close]
  {
  }

  /** A table with one chain that has these lines in it. */
  function InputTable(
    header: string, table: string, chain: string, hook: string, lines: seq<string>, close: string): seq<string>
  {
    [header, table, chain] + ([hook] + lines) + [close, close]
  }

  lemma {:induction false} InputSection(
    header: string, table: string, chain: string, hook: string, lines: seq<string>, close: string)
    returns (tree: Tree)
    requires Opening(table) && Opening(chain) && Strip(close) == "}"
    requires Plain(hook) && Mentions(Strip(hook), "hook input") && !DropsInput(Strip(hook))
    requires forall i :: 0 <= i < |lines| ==> Plain(lines[i])
    ensures WellFormed(tree, false) && [header] + Print(tree) == InputTable(header, table, chain, hook, lines, close)
    ensures Blocking(tree, false) == (if SaysPolicy(Strip(hook)) then [Strip(hook)] else []) + Dropping(lines)
  {
    var inside := HookBlock(hook, lines);
    var block := OpenBlock(chain, inside, close);
    tree := OpenBlock(table, block, close);
    Nested(header, table, chain, [hook] + lines, close);
  }

  /** A table with one chain hooked into input, for any lines of that form: reported are the
      hook, when it has a blocking policy, and then exactly the lines that drop or reject. */
  lemma {:induction false} InputChainReported(
    header: string, table: string, chain: string, hook: string, lines: seq<string>, close: string, at: Cursor)
    requires Comment(Strip(header)) && Opening(table) && Opening(chain) && Strip(close) == "}"
    requires Plain(hook) && Mentions(Strip(hook), "hook input") && !DropsInput(Strip(hook))
    requires forall i :: 0 <= i < |lines| ==> Plain(lines[i])
    ensures Scan(InputTable(header, table, chain, hook, lines, close), at) ==
            (if SaysPolicy(Strip(hook)) then [Strip(hook)] else []) + Dropping(lines)
  {
    var tree := InputSection(header, table, chain, hook, lines, close);
    ScanSection(header, tree, at);
  }

  ghost predicate NoIptables(t: Tree) {
    match t
    case End => true
    case Rule(line, next) => !DropsInput(Strip(line)) && NoIptables(next)
    case Block(header, body, footer, next) =>
      !DropsInput(Strip(header)) && NoIptables(body) && !DropsInput(Strip(footer)) && NoIptables(next)
  }

  lemma {:induction false} NothingBlocks(t: Tree)
    requires WellFormed(t, false) && Unhooked(t) && NoIptables(t)
    ensures Blocking(t, false) == []
  {
    match t
    case End =>
    case Rule(_, next) => NothingBlocks(next);
    case Block(_, body, _, next) =>
      NothingBlocks(body);
      UnhookedStays(body);
      NothingBlocks(next);
  }

  /** The scan reports nothing from nftables blocks not hooked into input, whatever they drop. */
  lemma {:induction false} UnhookedSilent(header: string, t: Tree, at: Cursor)
    requires Comment(Strip(header)) && WellFormed(t, false) && Unhooked(t) && NoIptables(t)
    ensures Scan([header] + Print(t), at) == []
  {
    NothingBlocks(t);
    ScanSection(header, t, at);
  }
}
