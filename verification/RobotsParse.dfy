/**
 * Reading robots.txt: lines, directives, groups of rules per user agent, and the group the crawler
 * obeys. The proofs go by printing a file from blocks and reading it back.
 */
module RobotsParse {
  import opened Options
  import opened RobotsMatch
  import opened Strings

  const BOT_TOKEN: string := "seogrepbot"
  const NO_RULES: Group := Group([], [], 0)

  /** What `Number` makes of a crawl-delay's text; `None` when the result is not finite. */
  type Numerals = string -> Option<real>

  // --- Text ------------------------------------------------------------------------------------------

  predicate Space(c: char) {
    c in {' ', '\t', '\n', '\r', '\U{000B}', '\U{000C}', '\U{00A0}', '\U{FEFF}', '\U{1680}',
          '\U{2028}', '\U{2029}', '\U{202F}', '\U{205F}', '\U{3000}'} || '\U{2000}' <= c <= '\U{200A}'
  }

  function TrimStart(s: string): string { if s != "" && Space(s[0]) then TrimStart(s[1..]) else s }

  function TrimEnd(s: string): string { if s != "" && Space(s[|s| - 1]) then TrimEnd(s[..|s| - 1]) else s }

  function Trim(s: string): string { TrimEnd(TrimStart(s)) }

  predicate Tidy(s: string) { s == "" || (!Space(s[0]) && !Space(s[|s| - 1])) }

  function LowerAll(agents: seq<string>): seq<string> {
    seq(|agents|, i requires 0 <= i < |agents| => Lower(agents[i]))
  }

  function CleanValue(value: string): string {
    var hash := IndexOf(value, '#');
    Trim(if hash.None? then value else value[..hash.value])
  }

  /** Lines end at a line feed, with or without a carriage return before it. */
  function Lines(text: string): seq<string>
    decreases |text|
  {
    var i := IndexOf(text, '\n');
    if i.None? then [text]
    else
      [WithoutReturn(text[..i.value])] + Lines(text[i.value + 1..])
  }

  function WithoutReturn(line: string): string {
    if line != "" && line[|line| - 1] == '\r' then line[..|line| - 1] else line
  }

  // --- One line ----------------------------------------------------------------------------------------

  datatype Entry = Entry(field: string, value: string)

  function Interpret(line: string): Option<Entry> {
    var colon := IndexOf(line, ':');
    if colon.None? then None
    else Some(Entry(Lower(Trim(line[..colon.value])), CleanValue(line[colon.value + 1..])))
  }

  datatype Parser = Parser(groups: map<string, Group>, active: seq<string>, expecting: bool)

  function GroupFor(groups: map<string, Group>, agent: string): Group {
    if agent in groups then groups[agent] else NO_RULES
  }

  function Obey(group: Group, entry: Entry, number: Numerals): Group {
    if entry.field == "disallow" && entry.value != "" then group.(disallow := group.disallow + [entry.value])
    else if entry.field == "allow" && entry.value != "" then group.(allow := group.allow + [entry.value])
    else if entry.field == "crawl-delay" && number(entry.value).Some? && number(entry.value).value > 0.0 then
      group.(crawlDelayMs := Rounded(number(entry.value).value * 1000.0))
    else group
  }

  /** To the nearest integer, a half upwards. */
  function Rounded(x: real): (r: int)
    ensures x - 0.5 < r as real <= x + 0.5
  {
    (x + 0.5).Floor
  }

  /** Give one directive to each active agent in turn. */
  function ObeyAll(groups: map<string, Group>, agents: seq<string>, entry: Entry, number: Numerals): map<string, Group> {
    if agents == [] then groups
    else
      var front, agent := agents[..|agents| - 1], agents[|agents| - 1];
      var groups' := ObeyAll(groups, front, entry, number);
      groups'[agent := Obey(GroupFor(groups', agent), entry, number)]
  }

  function ParseLine(p: Parser, line: string, number: Numerals): Parser {
    var entry := Interpret(line);
    if entry.None? then p
    else if entry.value.field == "user-agent" then
      var kept := if p.expecting then [] else p.active;
      Parser(p.groups, if entry.value.value != "" then kept + [Lower(entry.value.value)] else kept, false)
    else if p.active == [] then p
    else Parser(ObeyAll(p.groups, p.active, entry.value, number), p.active, true)
  }

  function Parse(p: Parser, lines: seq<string>, number: Numerals): Parser
    decreases |lines|
  {
    if lines == [] then p else ParseLine(Parse(p, lines[..|lines| - 1], number), lines[|lines| - 1], number)
  }

  function Fresh(): Parser { Parser(map[], [], false) }

  /** The group the crawler obeys: its own if the file has one, else the one for everybody. */
  function Selected(groups: map<string, Group>): Option<Group> {
    if BOT_TOKEN in groups then Some(groups[BOT_TOKEN]) else if "*" in groups then Some(groups["*"]) else None
  }

  /** The program's line loop. */
  method ParseRobots(text: string, number: Numerals) returns (selected: Option<Group>, crawlDelayMs: int)
    ensures selected == Selected(Parse(Fresh(), Lines(text), number).groups)
    ensures crawlDelayMs == if selected.Some? then selected.value.crawlDelayMs else 0
  {
    var lines := Lines(text);
    var groups: map<string, Group>, activeAgents: seq<string>, expectingAgents := map[], [], false;
    for n := 0 to |lines|
      invariant Parser(groups, activeAgents, expectingAgents) == Parse(Fresh(), lines[..n], number)
    {
      hide Interpret, Obey, Parse;
      ParseAppend(Fresh(), lines[..n], lines[n], number);
      assert lines[..n + 1] == lines[..n] + [lines[n]];
      var entry := Interpret(lines[n]);
      if entry.None? { continue; }
      var Entry(field, value) := entry.value;
      if field == "user-agent" {
        if expectingAgents {
          activeAgents := [];
          expectingAgents := false;
        }
        if value != "" { activeAgents := activeAgents + [Lower(value)]; }
        continue;
      }
      if |activeAgents| == 0 { continue; }
      expectingAgents := true;
      ghost var before := groups;
      for a := 0 to |activeAgents|
        invariant groups == ObeyAll(before, activeAgents[..a], entry.value, number)
      {
        assert activeAgents[..a + 1][..a] == activeAgents[..a];
        var agent := activeAgents[a];
        groups := groups[agent := Obey(GroupFor(groups, agent), entry.value, number)];
      }
      assert activeAgents[..|activeAgents|] == activeAgents;
    }
    assert lines[..|lines|] == lines;
    selected := Selected(groups);
    crawlDelayMs := if selected.Some? then selected.value.crawlDelayMs else 0;
  }

  lemma ParseAppend(p: Parser, lines: seq<string>, line: string, number: Numerals)
    ensures Parse(p, lines + [line], number) == ParseLine(Parse(p, lines, number), line, number)
  {
    assert (lines + [line])[..|lines|] == lines;
  }

  lemma {:induction false} ParseConcat(p: Parser, a: seq<string>, b: seq<string>, number: Numerals)
    ensures Parse(p, a + b, number) == Parse(Parse(p, a, number), b, number)
    decreases |b|
  {
    if b == [] {
      assert a + b == a;
    } else {
      ParseConcat(p, a, b[..|b| - 1], number);
      assert (a + b)[..|a + b| - 1] == a + b[..|b| - 1];
    }
  }

  // --- Printing a file -----------------------------------------------------------------------------------

  datatype Directive = Allow(value: string) | Disallow(value: string) | CrawlDelay(value: string)

  /** A run of user-agent lines and the directives for them, at least one. */
  datatype Block = Block(agents: seq<string>, directives: seq<Directive>)

  function Field(d: Directive): string {
    match d case Allow(_) => "Allow" case Disallow(_) => "Disallow" case CrawlDelay(_) => "Crawl-delay"
  }

  function LowerField(d: Directive): string {
    match d case Allow(_) => "allow" case Disallow(_) => "disallow" case CrawlDelay(_) => "crawl-delay"
  }

  function PrintAgents(agents: seq<string>): seq<string> {
    seq(|agents|, i requires 0 <= i < |agents| => "User-agent: " + agents[i])
  }

  function PrintDirectives(ds: seq<Directive>): seq<string> {
    seq(|ds|, i requires 0 <= i < |ds| => Field(ds[i]) + ": " + ds[i].value)
  }

  function Print(blocks: seq<Block>): seq<string> {
    if blocks == [] then []
    else
      var block := blocks[|blocks| - 1];
      Print(blocks[..|blocks| - 1]) + (PrintAgents(block.agents) + PrintDirectives(block.directives))
  }

  predicate Printable(value: string) { Tidy(value) && '#' !in value }

  predicate WellFormed(block: Block) {
    && block.agents != [] && block.directives != []
    && (forall i :: 0 <= i < |block.agents| ==> Printable(block.agents[i]) && block.agents[i] != "")
    && (forall i :: 0 <= i < |block.directives| ==> Printable(block.directives[i].value))
  }

  lemma {:induction false} TrimTidy(s: string)
    requires Tidy(s)
    ensures Trim(s) == s && TrimStart(" " + s) == s && Trim(" " + s) == s
  {
    assert (" " + s)[1..] == s;
  }

  /** A printed line reads back as its field and value. */
  lemma LineReadsBack(field: string, value: string)
    requires ':' !in field && Tidy(field) && Printable(value)
    ensures Interpret(field + ": " + value) == Some(Entry(Lower(field), value))
  {
    var line := field + ": " + value;
    assert line == field + [':'] + (" " + value);
    IndexOfFirst(field, ':', " " + value);
    assert line[..|field|] == field && line[|field| + 1..] == " " + value;
    TrimTidy(field);
    TrimTidy(value);
  }

  lemma FieldNames(d: Directive)
    ensures Lower(Field(d)) == LowerField(d) && ':' !in Field(d) && Tidy(Field(d))
  {
    match d
    case Allow(_) =>
    case Disallow(_) =>
    case CrawlDelay(_) =>
  }

  lemma AgentField()
    ensures Lower("User-agent") == "user-agent" && ':' !in "User-agent" && Tidy("User-agent")
  {
  }

  lemma ParseAgentLine(p: Parser, agent: string, number: Numerals)
    requires Printable(agent) && agent != ""
    ensures ParseLine(p, "User-agent: " + agent, number)
              == Parser(p.groups, (if p.expecting then [] else p.active) + [Lower(agent)], false)
  {
    hide Interpret, Lower, Space;
    AgentField();
    LineReadsBack("User-agent", agent);
    assert "User-agent" + ": " + agent == "User-agent: " + agent;
  }

  lemma ParseDirectiveLine(p: Parser, d: Directive, number: Numerals)
    requires Printable(d.value) && p.active != []
    ensures ParseLine(p, Field(d) + ": " + d.value, number)
              == Parser(ObeyAll(p.groups, p.active, Entry(LowerField(d), d.value), number), p.active, true)
  {
    hide Interpret, Lower, Space, ObeyAll, Field;
    FieldNames(d);
    LineReadsBack(Field(d), d.value);
  }

  // --- What a printed file means ---------------------------------------------------------------------------

  /** How often a block names an agent. */
  function Times(agents: seq<string>, agent: string): nat {
    if agents == [] then 0
    else Times(agents[..|agents| - 1], agent) + (if Lower(agents[|agents| - 1]) == agent then 1 else 0)
  }

  function Repeat(value: string, n: nat): seq<string> { seq(n, _ => value) }

  /** One directive's effect on the group of an agent its block names `n` times. */
  function Take(group: Group, d: Directive, n: nat, number: Numerals): Group {
    match d
    case Allow(v) => if v == "" then group else group.(allow := group.allow + Repeat(v, n))
    case Disallow(v) => if v == "" then group else group.(disallow := group.disallow + Repeat(v, n))
    case CrawlDelay(v) =>
      if n > 0 && number(v).Some? && number(v).value > 0.0 then group.(crawlDelayMs := Rounded(number(v).value * 1000.0)) else group
  }

  function TakeAll(group: Group, ds: seq<Directive>, n: nat, number: Numerals): Group {
    if ds == [] then group else Take(TakeAll(group, ds[..|ds| - 1], n, number), ds[|ds| - 1], n, number)
  }

  predicate Named(blocks: seq<Block>, agent: string) {
    exists i :: 0 <= i < |blocks| && Times(blocks[i].agents, agent) > 0
  }

  /** An agent's rules: those of every block that names it, concatenated in file order. */
  function RulesOf(blocks: seq<Block>, agent: string, number: Numerals): Group {
    if blocks == [] then NO_RULES
    else
      var block := blocks[|blocks| - 1];
      TakeAll(RulesOf(blocks[..|blocks| - 1], agent, number), block.directives, Times(block.agents, agent), number)
  }

  lemma {:induction false} ObeyAllEffect(groups: map<string, Group>, agents: seq<string>, d: Directive, agent: string, number: Numerals)
    ensures var groups' := ObeyAll(groups, LowerAll(agents), Entry(LowerField(d), d.value), number);
            && (agent in groups' <==> agent in groups || Times(agents, agent) > 0)
            && GroupFor(groups', agent) == Take(GroupFor(groups, agent), d, Times(agents, agent), number)
    decreases |agents|
  {
    if agents == [] {
      assert Repeat(d.value, 0) == [];
    } else {
      var n := |agents| - 1;
      ObeyAllEffect(groups, agents[..n], d, agent, number);
      assert LowerAll(agents)[..n] == LowerAll(agents[..n]);
      var k := Times(agents[..n], agent);
      if Lower(agents[n]) == agent {
        TakeOneMore(GroupFor(groups, agent), d, k, number);
      }
    }
  }

  lemma TakeOneMore(group: Group, d: Directive, n: nat, number: Numerals)
    ensures Obey(Take(group, d, n, number), Entry(LowerField(d), d.value), number) == Take(group, d, n + 1, number)
  {
    assert Repeat(d.value, n + 1) == Repeat(d.value, n) + [d.value];
  }

  lemma PrintAgentsSnoc(agents: seq<string>)
    requires agents != []
    ensures var n := |agents| - 1;
            && PrintAgents(agents) == PrintAgents(agents[..n]) + ["User-agent: " + agents[n]]
            && LowerAll(agents) == LowerAll(agents[..n]) + [Lower(agents[n])]
    ensures LowerAll([]) == [] && PrintAgents([]) == []
  {
    hide Lower;
  }

  lemma PrintDirectivesSnoc(ds: seq<Directive>)
    requires ds != []
    ensures var n := |ds| - 1; PrintDirectives(ds) == PrintDirectives(ds[..n]) + [Field(ds[n]) + ": " + ds[n].value]
  {
    hide Field;
  }

  /** The agent lines of a block, read where a block may begin, leave exactly its agents active. */
  lemma {:induction false} AgentsRead(p: Parser, agents: seq<string>, number: Numerals)
    requires p.expecting || p.active == []
    requires forall i :: 0 <= i < |agents| ==> Printable(agents[i]) && agents[i] != ""
    requires agents != []
    ensures Parse(p, PrintAgents(agents), number) == Parser(p.groups, LowerAll(agents), false)
    decreases |agents|
  {
    hide PrintAgents, LowerAll, Lower, Interpret, Parse, ParseLine, Printable;
    var n := |agents| - 1;
    PrintAgentsSnoc(agents);
    ParseAppend(p, PrintAgents(agents[..n]), "User-agent: " + agents[n], number);
    ParseAgentLine(Parse(p, PrintAgents(agents[..n]), number), agents[n], number);
    if n == 0 {
      assert agents[..n] == [];
      ParseNothing(p, number);
    } else {
      AgentsRead(p, agents[..n], number);
    }
  }

  lemma ParseNothing(p: Parser, number: Numerals)
    ensures Parse(p, [], number) == p
  {
  }

  /** The directive lines of a block give its rules to each of its agents and to nobody else. */
  lemma {:induction false} DirectivesRead(p: Parser, agents: seq<string>, ds: seq<Directive>, agent: string, number: Numerals)
    requires agents != [] && p.active == LowerAll(agents) != []
    requires forall i :: 0 <= i < |ds| ==> Printable(ds[i].value)
    ensures var after := Parse(p, PrintDirectives(ds), number);
            && after.active == p.active && after.expecting == (p.expecting || ds != [])
            && (agent in after.groups <==> agent in p.groups || (ds != [] && Times(agents, agent) > 0))
            && GroupFor(after.groups, agent) == TakeAll(GroupFor(p.groups, agent), ds, Times(agents, agent), number)
    decreases |ds|
  {
    hide PrintDirectives, LowerAll, Parse, ParseLine, Printable, Field, Take, GroupFor, Times, ObeyAll;
    if ds == [] {
      ParseNothing(p, number);
      assert PrintDirectives(ds) == [] by { PrintNothing(ds); }
    } else {
      var n := |ds| - 1;
      var before := Parse(p, PrintDirectives(ds[..n]), number);
      DirectivesRead(p, agents, ds[..n], agent, number);
      PrintDirectivesSnoc(ds);
      ParseAppend(p, PrintDirectives(ds[..n]), Field(ds[n]) + ": " + ds[n].value, number);
      ParseDirectiveLine(before, ds[n], number);
      ObeyAllEffect(before.groups, agents, ds[n], agent, number);
    }
  }

  lemma PrintNothing(ds: seq<Directive>)
    requires ds == []
    ensures PrintDirectives(ds) == []
  {
  }

  /**
   * Reading a printed file gives every agent the rules of all blocks that name it, concatenated in
   * file order, as in section 2.2.1 of RFC 9309, and gives no group to an agent no block names.
   */
  lemma {:induction false} PrintedFileReadsBack(blocks: seq<Block>, agent: string, number: Numerals)
    requires forall i :: 0 <= i < |blocks| ==> WellFormed(blocks[i])
    ensures var p := Parse(Fresh(), Print(blocks), number);
            && (p.expecting || p.active == [])
            && (agent in p.groups <==> Named(blocks, agent))
            && GroupFor(p.groups, agent) == RulesOf(blocks, agent, number)
    decreases |blocks|
  {
    hide Parse, TakeAll, PrintAgents, PrintDirectives, LowerAll, Times, GroupFor, Printable;
    if blocks == [] {
      ParseNothing(Fresh(), number);
      NobodyGrouped(agent);
    } else {
      var front, block := blocks[..|blocks| - 1], blocks[|blocks| - 1];
      PrintedFileReadsBack(front, agent, number);
      assert WellFormed(block);
      BlockRead(Parse(Fresh(), Print(front), number), block, agent, number);
      ParseConcat(Fresh(), Print(front), PrintAgents(block.agents) + PrintDirectives(block.directives), number);
      NamedSnoc(front, block, agent);
      assert blocks == front + [block];
    }
  }

  lemma NobodyGrouped(agent: string)
    ensures GroupFor(map[], agent) == NO_RULES
  {
  }

  lemma BlockRead(p: Parser, block: Block, agent: string, number: Numerals)
    requires WellFormed(block) && (p.expecting || p.active == [])
    ensures var after := Parse(p, PrintAgents(block.agents) + PrintDirectives(block.directives), number);
            && after.expecting
            && (agent in after.groups <==> agent in p.groups || Times(block.agents, agent) > 0)
            && GroupFor(after.groups, agent) == TakeAll(GroupFor(p.groups, agent), block.directives, Times(block.agents, agent), number)
  {
    hide Parse, TakeAll, PrintAgents, PrintDirectives, Times, GroupFor, Printable;
    ParseConcat(p, PrintAgents(block.agents), PrintDirectives(block.directives), number);
    AgentsRead(p, block.agents, number);
    DirectivesRead(Parser(p.groups, LowerAll(block.agents), false), block.agents, block.directives, agent, number);
  }

  lemma NamedSnoc(front: seq<Block>, block: Block, agent: string)
    ensures Named(front + [block], agent) <==> Named(front, agent) || Times(block.agents, agent) > 0
  {
    var all := front + [block];
    if Named(front, agent) {
      var i :| 0 <= i < |front| && Times(front[i].agents, agent) > 0;
      assert all[i] == front[i];
    }
    if Times(block.agents, agent) > 0 { assert all[|front|] == block; }
  }

  /** What the crawler may fetch under a printed file. */
  lemma PrintedFileObeyed(blocks: seq<Block>, number: Numerals, path: string)
    requires forall i :: 0 <= i < |blocks| ==> WellFormed(blocks[i])
    ensures Allows(Selected(Parse(Fresh(), Print(blocks), number).groups), path) <==>
              if Named(blocks, BOT_TOKEN) then Allows(Some(RulesOf(blocks, BOT_TOKEN, number)), path)
              else if Named(blocks, "*") then Allows(Some(RulesOf(blocks, "*", number)), path)
              else true
  {
    hide Allows;
    PrintedFileReadsBack(blocks, BOT_TOKEN, number);
    PrintedFileReadsBack(blocks, "*", number);
    assert Allows(None, path) by { NoGroupAllowsAll(path); }
  }

  lemma NoGroupAllowsAll(path: string)
    ensures Allows(None, path)
  {
  }

  // --- Text and lines ------------------------------------------------------------------------------------------

  function JoinLines(lines: seq<string>, eol: string): string
    requires lines != []
  {
    if |lines| == 1 then lines[0] else lines[0] + eol + JoinLines(lines[1..], eol)
  }

  lemma LinesStep(body: string, rest: string)
    requires '\n' !in body
    ensures Lines(body + ['\n'] + rest) == [WithoutReturn(body)] + Lines(rest)
  {
    hide IndexOf, WithoutReturn;
    var text := body + ['\n'] + rest;
    IndexOfFirst(body, '\n', rest);
    assert text[..|body|] == body && text[|body| + 1..] == rest;
  }

  lemma LastLine(line: string)
    requires '\n' !in line
    ensures Lines(line) == [line]
  {
  }

  /** Lines joined by either kind of line end come apart again. */
  lemma {:induction false} LinesOfJoin(lines: seq<string>, eol: string)
    requires lines != [] && eol in {"\n", "\r\n"}
    requires forall i :: 0 <= i < |lines| ==> '\n' !in lines[i]
    requires eol == "\n" ==> forall i :: 0 <= i < |lines| - 1 ==> WithoutReturn(lines[i]) == lines[i]
    ensures Lines(JoinLines(lines, eol)) == lines
    decreases |lines|
  {
    hide Lines, IndexOf;
    if |lines| == 1 {
      LastLine(lines[0]);
    } else {
      var line, rest := lines[0], JoinLines(lines[1..], eol);
      LinesOfJoin(lines[1..], eol);
      assert lines == [line] + lines[1..];
      if eol == "\n" {
        LinesStep(line, rest);
      } else {
        LinesStep(line + "\r", rest);
        assert WithoutReturn(line + "\r") == line;
        assert line + eol + rest == (line + "\r") + ['\n'] + rest;
      }
    }
  }
}
