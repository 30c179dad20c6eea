/**
 * Robots.txt as people write it: white space around fields and values, comments behind values, fields in
 * any case, blank lines and comment lines between the others. None of it changes what the crawler obeys.
 */
module RobotsFiles {
  import opened Options
  import opened RobotsMatch
  import opened RobotsParse
  import opened Strings

  // --- One line ------------------------------------------------------------------------------------

  predicate Blank(s: string) { forall i :: 0 <= i < |s| ==> Space(s[i]) }

  /** Nothing, or a hash and whatever follows it. */
  predicate Comment(s: string) { s == "" || s[0] == '#' }

  /** The white space at the four places of a line where it may stand, and the comment at its end. */
  datatype Dress = Dress(before: string, afterField: string, beforeValue: string, afterValue: string, comment: string)

  predicate IsDress(d: Dress) {
    Blank(d.before) && Blank(d.afterField) && Blank(d.beforeValue) && Blank(d.afterValue) && Comment(d.comment)
  }

  function Dressing(d: Dress, field: string, value: string): string {
    (d.before + field + d.afterField) + [':'] + (d.beforeValue + value + d.afterValue + d.comment)
  }

  lemma {:induction false} TrimStartDrops(blank: string, s: string)
    requires Blank(blank)
    ensures TrimStart(blank + s) == TrimStart(s)
  {
    if blank == "" {
      assert blank + s == s;
    } else {
      assert (blank + s)[1..] == blank[1..] + s;
      TrimStartDrops(blank[1..], s);
    }
  }

  lemma {:induction false} TrimEndDrops(s: string, blank: string)
    requires Blank(blank)
    ensures TrimEnd(s + blank) == TrimEnd(s)
  {
    if blank == "" {
      assert s + blank == s;
    } else {
      var n := |blank| - 1;
      assert (s + blank)[..|s + blank| - 1] == s + blank[..n];
      TrimEndDrops(s, blank[..n]);
    }
  }

  /** Trimming takes away what surrounds a text that begins and ends with something. */
  lemma TrimSurrounded(before: string, s: string, behind: string)
    requires Blank(before) && Blank(behind) && Tidy(s)
    ensures Trim(before + s + behind) == s
  {
    assert before + s + behind == before + (s + behind);
    TrimStartDrops(before, s + behind);
    if s == "" {
      assert s + behind == behind && behind + "" == behind;
      TrimStartDrops(behind, "");
    } else {
      assert (s + behind)[0] == s[0];
      TrimEndDrops(s, behind);
    }
  }

  lemma BlankHasNo(blank: string, c: char)
    requires Blank(blank) && !Space(c)
    ensures c !in blank
  {
  }

  lemma CleanDropsComment(text: string, comment: string)
    requires '#' !in text && Comment(comment)
    ensures CleanValue(text + comment) == Trim(text)
  {
    hide Trim;
    if comment == "" {
      assert text + comment == text;
    } else {
      assert text + comment == text + ['#'] + comment[1..];
      IndexOfFirst(text, '#', comment[1..]);
      assert (text + comment)[..|text|] == text;
    }
  }

  /** However it is dressed, a line reads as its field, lower-cased, and its value. */
  lemma DressedLineReads(d: Dress, field: string, value: string)
    requires IsDress(d) && ':' !in field && Tidy(field) && Printable(value)
    ensures Interpret(Dressing(d, field, value)) == Some(Entry(Lower(field), value))
  {
    hide Trim, Lower, CleanValue, Space, Tidy;
    var front, text := d.before + field + d.afterField, d.beforeValue + value + d.afterValue;
    assert !Space(':') && !Space('#') by { NotSpaces(); }
    BlankHasNo(d.before, ':');
    BlankHasNo(d.afterField, ':');
    BlankHasNo(d.beforeValue, '#');
    BlankHasNo(d.afterValue, '#');
    IndexOfFirst(front, ':', text + d.comment);
    var line := Dressing(d, field, value);
    assert line[..|front|] == front && line[|front| + 1..] == text + d.comment;
    TrimSurrounded(d.before, field, d.afterField);
    TrimSurrounded(d.beforeValue, value, d.afterValue);
    CleanDropsComment(text, d.comment);
  }

  lemma NotSpaces()
    ensures !Space(':') && !Space('#')
  {
  }

  // --- Whole files -----------------------------------------------------------------------------------

  /** `line` is the plain `field: value`, dressed, and with its field in any case. */
  ghost predicate Dressed(line: string, plain: string) {
    exists d, field, written, value :: IsLine(plain, field, value) && Rewritten(line, d, field, written, value)
  }

  predicate IsLine(plain: string, field: string, value: string) {
    plain == field + ": " + value && ':' !in field && Tidy(field) && Printable(value)
  }

  predicate Rewritten(line: string, d: Dress, field: string, written: string, value: string) {
    IsDress(d) && line == Dressing(d, written, value) && Lower(written) == Lower(field) && ':' !in written && Tidy(written)
  }

  /** The lines are the plain ones, each dressed in some way, with lines that have no colon among them. */
  ghost predicate WrittenAs(lines: seq<string>, plain: seq<string>)
    decreases |lines|
  {
    if lines == [] then plain == []
    else
      var front, last := lines[..|lines| - 1], lines[|lines| - 1];
      || (':' !in last && WrittenAs(front, plain))
      || (plain != [] && Dressed(last, plain[|plain| - 1]) && WrittenAs(front, plain[..|plain| - 1]))
  }

  lemma DressedSame(line: string, plain: string)
    requires Dressed(line, plain)
    ensures Interpret(line) == Interpret(plain)
  {
    hide Interpret, Lower, Tidy, Printable, IsDress, Dressing;
    var d, field, written, value :| IsLine(plain, field, value) && Rewritten(line, d, field, written, value);
    DressedLineReads(d, written, value);
    LineReadsBack(field, value);
  }

  /** The parser sees no difference. */
  lemma {:induction false} WrittenParsesSame(p: Parser, lines: seq<string>, plain: seq<string>, number: Numerals)
    requires WrittenAs(lines, plain)
    ensures Parse(p, lines, number) == Parse(p, plain, number)
    decreases |lines|
  {
    hide Interpret, Dressed, ObeyAll;
    if lines != [] {
      var front, last := lines[..|lines| - 1], lines[|lines| - 1];
      if ':' !in last && WrittenAs(front, plain) {
        NoColonNoEntry(last);
        WrittenParsesSame(p, front, plain, number);
      } else {
        DressedSame(last, plain[|plain| - 1]);
        WrittenParsesSame(p, front, plain[..|plain| - 1], number);
      }
    }
  }

  lemma NoColonNoEntry(line: string)
    requires ':' !in line
    ensures Interpret(line).None?
  {
  }

  /**
   * A text written in any of these ways, with either kind of line end, gives the crawler the rules of the
   * blocks that name it, else of those for everybody, else none, each block's in file order.
   */
  lemma WrittenFileObeyed(lines: seq<string>, eol: string, blocks: seq<Block>, number: Numerals, path: string)
    requires forall i :: 0 <= i < |blocks| ==> WellFormed(blocks[i])
    requires lines != [] && eol in {"\n", "\r\n"} && WrittenAs(lines, Print(blocks))
    requires forall i :: 0 <= i < |lines| ==> '\n' !in lines[i]
    requires eol == "\n" ==> forall i :: 0 <= i < |lines| - 1 ==> WithoutReturn(lines[i]) == lines[i]
    ensures var group := Selected(Parse(Fresh(), Lines(JoinLines(lines, eol)), number).groups);
            && (group.Some? <==> Named(blocks, BOT_TOKEN) || Named(blocks, "*"))
            && (group.Some? ==> group.value == RulesOf(blocks, if Named(blocks, BOT_TOKEN) then BOT_TOKEN else "*", number))
            && (Allows(group, path) <==>
                  if Named(blocks, BOT_TOKEN) then Allows(Some(RulesOf(blocks, BOT_TOKEN, number)), path)
                  else if Named(blocks, "*") then Allows(Some(RulesOf(blocks, "*", number)), path)
                  else true)
  {
    hide Parse, Lines, Allows, Print, RulesOf, WrittenAs, WellFormed, Named;
    LinesOfJoin(lines, eol);
    WrittenParsesSame(Fresh(), lines, Print(blocks), number);
    PrintedFileReadsBack(blocks, BOT_TOKEN, number);
    PrintedFileReadsBack(blocks, "*", number);
    PrintedFileObeyed(blocks, number, path);
  }

  /** A trailing comment is no part of a rule. */
  lemma CommentBehindRule(comment: string)
    ensures Dressed("Disallow: /a #" + comment, "Disallow: /a")
  {
    var d := Dress("", "", " ", " ", "#" + comment);
    assert Printable("/a") && Tidy("Disallow") && ':' !in "Disallow";
    assert "Disallow" + ": " + "/a" == "Disallow: /a";
    assert IsLine("Disallow: /a", "Disallow", "/a");
    assert Dressing(d, "Disallow", "/a") == "Disallow: /a #" + comment;
    assert Rewritten("Disallow: /a #" + comment, d, "Disallow", "Disallow", "/a");
  }
}
