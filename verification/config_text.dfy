/** Inserting a stages block into the text of a configuration file, line by line, so that comments and
    formatting survive.  A text is the sequence of its lines. */
module ConfigText {
  import opened Text

  // === Lines ===

  predicate IsSpace(c: char) {
    c == ' ' || c == '\t' || c == '\r'
  }

  function TrimStart(line: string): (r: string)
    ensures |r| <= |line|
  {
    if line != "" && IsSpace(line[0]) then TrimStart(line[1..]) else line
  }

  function TrimEnd(line: string): string {
    if line != "" && IsSpace(line[|line| - 1]) then TrimEnd(line[..|line| - 1]) else line
  }

  function Indent(line: string): nat {
    |line| - |TrimStart(line)|
  }

  predicate IsHeader(line: string) {
    StartsWith(TrimStart(line), "distributed:")
  }

  predicate IsComment(line: string) {
    StartsWith(TrimStart(line), "#")
  }

  /** A line that ends a section whose header has this indent. */
  predicate Exits(line: string, indent: nat) {
    !IsHeader(line) && TrimStart(line) != "" && !IsComment(line) && Indent(line) <= indent
  }

  /** Blanks followed by a text. */
  predicate Indented(line: string, pad: string, text: string) {
    line == pad + text && text != "" && text[0] !in " \t\r" && forall i :: 0 <= i < |pad| ==> pad[i] in " \t\r"
  }

  /** What the scanner makes of a line, in terms of its blanks and its text: comments and headers never
      end a section, and neither does a line deeper than the header. */
  lemma LineRoles(line: string, pad: string, text: string, indent: nat)
    requires Indented(line, pad, text)
    ensures Indent(line) == |pad|
    ensures IsHeader(line) <==> "distributed:" <= text
    ensures IsComment(line) <==> text[0] == '#'
    ensures Exits(line, indent) <==> !("distributed:" <= text) && text[0] != '#' && |pad| <= indent
  {
    TrimIndented(line, pad, text);
  }

  lemma {:induction false} TrimIndented(line: string, pad: string, text: string)
    requires Indented(line, pad, text)
    ensures TrimStart(line) == text
    decreases |pad|
  {
    if pad == "" {
      assert line == text;
    } else {
      assert line[0] == pad[0] && line[1..] == pad[1..] + text;
      TrimIndented(line[1..], pad[1..], text);
    }
  }

  /** A blank line ends nothing. */
  lemma BlankLine(line: string, indent: nat)
    requires forall i :: 0 <= i < |line| ==> line[i] in " \t\r"
    ensures TrimStart(line) == "" && !Exits(line, indent) && !IsHeader(line) && !IsComment(line)
  {
    TrimBlank(line);
  }

  lemma {:induction false} TrimBlank(line: string)
    requires forall i :: 0 <= i < |line| ==> line[i] in " \t\r"
    ensures TrimStart(line) == ""
  {
    if line != "" {
      TrimBlank(line[1..]);
    }
  }

  // === The inserted block ===

  /** A comment line at some indentation. */
  function Remark(indent: nat, text: string): string {
    seq(indent, i => ' ') + "#" + text
  }

  const BARRIER_ADVICE: seq<string> :=
    [Remark(2, " \U{26A0}\U{FE0F}  RECOMMENDED: Add barrier synchronization for distributed workloads"),
     Remark(2, " Without barriers, agents may race between stages causing incorrect results."),
     Remark(2, " Uncomment the following to enable barriers:"),
     Remark(2, ""),
     Remark(2, " barrier_sync:"),
     Remark(2, "   enabled: true"),
     Remark(2, ""),
     Remark(2, " Or add per-stage barriers (see example below with \"# ADD THIS\"):")]

  const OWN_SECTION: seq<string> :=
    ["", "# Distributed configuration (required for explicit stages)", "distributed:", "  agents: []  # Empty for standalone configs"]

  function Hint(first: bool): seq<string> {
    [if first then Remark(4, " ADD THIS (recommended for multi-agent workloads):") else Remark(4, " ADD THIS:"),
     Remark(4, " barrier:"),
     Remark(4, "   barrier_type: all_or_nothing")]
  }

  predicate IsType(line: string) {
    StartsWith(TrimEnd(TrimStart(line)), "type: ")
  }

  function WithHints(stages: seq<string>, first: bool): seq<string> {
    if stages == [] then []
    else [stages[0]] + (if IsType(stages[0]) then Hint(first) else []) + WithHints(stages[1..], first && !IsType(stages[0]))
  }

  /** `insert_stages_with_barrier_hints` */
  method InsertWithHints(text: seq<string>, stages: seq<string>) returns (result: seq<string>)
    ensures result == text + WithHints(stages, true)
  {
    hide IsType, Hint;
    result := text;
    var first := true;
    for i := 0 to |stages|
      invariant result + WithHints(stages[i..], first) == text + WithHints(stages, true)
    {
      var line := stages[i];
      assert stages[i..][1..] == stages[i + 1..];
      result := result + [line];
      if IsType(line) {
        result := result + Hint(first);
        first := false;
      }
    }
  }

  predicate NoType(lines: seq<string>) {
    forall i :: 0 <= i < |lines| ==> !IsType(lines[i])
  }

  lemma {:induction false} CopiesUntilType(before: seq<string>, rest: seq<string>, first: bool)
    requires NoType(before)
    ensures WithHints(before + rest, first) == before + WithHints(rest, first)
  {
    hide IsType, Hint;
    if before == [] {
      assert before + rest == rest;
    } else {
      assert (before + rest)[1..] == before[1..] + rest && !IsType(before[0]);
      CopiesUntilType(before[1..], rest, first);
      assert before == [before[0]] + before[1..];
    }
  }

  /** Between type lines everything is copied, and right after each comes its hint: the first time with
      the longer heading. */
  lemma HintsFollowTypes(before: seq<string>, line: string, rest: seq<string>, first: bool)
    requires NoType(before) && IsType(line)
    ensures WithHints(before, first) == before
    ensures WithHints(before + ([line] + rest), first) == before + ([line] + Hint(first) + WithHints(rest, false))
  {
    hide IsType, Hint, NoType;
    CopiesUntilType(before, [line] + rest, first);
    CopiesUntilType(before, [], first);
    assert before + [] == before && ([line] + rest)[1..] == rest;
  }

  /** Three comment lines at the depth of a stage's fields. */
  lemma HintText(first: bool)
    ensures |Hint(first)| == 3
    ensures Hint(first)[0] == "    #" + if first then " ADD THIS (recommended for multi-agent workloads):" else " ADD THIS:"
    ensures Hint(first)[1] == "    #" + " barrier:" && Hint(first)[2] == "    #" + "   barrier_type: all_or_nothing"
  {
    RemarkText(" ADD THIS (recommended for multi-agent workloads):");
    RemarkText(" ADD THIS:");
    RemarkText(" barrier:");
    RemarkText("   barrier_type: all_or_nothing");
    hide Remark;
  }

  lemma RemarkText(text: string)
    ensures Remark(4, text) == "    #" + text
  {
    assert seq(4, i => ' ') + "#" == "    #";
  }

  /** A type line: blanks, then "type: " and something more. */
  lemma TypeLine(line: string, pad: string, value: string)
    requires Indented(line, pad, "type: " + value) && value != "" && value[|value| - 1] !in " \t\r"
    ensures IsType(line)
  {
    TrimIndented(line, pad, "type: " + value);
    var text := "type: " + value;
    hide TrimStart;
    assert text[|text| - 1] == value[|value| - 1];
    assert TrimEnd(text) == text;
  }

  /** No other text makes a type line. */
  lemma OtherLine(line: string, pad: string, text: string)
    requires Indented(line, pad, text) && !("type: " <= text)
    ensures !IsType(line)
  {
    TrimIndented(line, pad, text);
    TrimEndIsPrefix(text);
    var trimmed := TrimEnd(text);
    assert trimmed == text[..|trimmed|];
    hide TrimStart, TrimEnd;
  }

  lemma {:induction false} TrimEndIsPrefix(text: string)
    ensures TrimEnd(text) <= text
  {
    if text != "" {
      TrimEndIsPrefix(text[..|text| - 1]);
    }
  }

  function Block(stages: seq<string>, multiAgent: bool): (r: seq<string>)
    ensures r != []
  {
    [""] + (if multiAgent then BARRIER_ADVICE + [""] else []) + ["  stages:"] + if multiAgent then WithHints(stages, true) else stages
  }

  /** The lines a YAML reader sees. */
  function Content(lines: seq<string>): seq<string> {
    if lines == [] then []
    else (if TrimStart(lines[0]) == "" || IsComment(lines[0]) then [] else [lines[0]]) + Content(lines[1..])
  }

  lemma {:induction false} ContentConcat(a: seq<string>, b: seq<string>)
    ensures Content(a + b) == Content(a) + Content(b)
  {
    hide IsComment, TrimStart;
    if a == [] {
      assert a + b == b;
    } else {
      assert (a + b)[1..] == a[1..] + b;
      ContentConcat(a[1..], b);
    }
  }

  lemma {:induction false} CommentsHaveNoContent(lines: seq<string>)
    requires forall i :: 0 <= i < |lines| ==> lines[i] == "" || IsComment(lines[i])
    ensures Content(lines) == []
  {
    hide IsComment;
    if lines != [] {
      CommentsHaveNoContent(lines[1..]);
    }
  }

  lemma {:induction false} RemarkIsComment(indent: nat, text: string)
    ensures IsComment(Remark(indent, text))
  {
    if indent > 0 {
      assert Remark(indent, text)[1..] == Remark(indent - 1, text);
      RemarkIsComment(indent - 1, text);
    }
  }

  lemma HintIsComment(first: bool)
    ensures Content(Hint(first)) == []
  {
    hide IsComment, Content, Remark;
    RemarkIsComment(4, " ADD THIS (recommended for multi-agent workloads):");
    RemarkIsComment(4, " ADD THIS:");
    RemarkIsComment(4, " barrier:");
    RemarkIsComment(4, "   barrier_type: all_or_nothing");
    CommentsHaveNoContent(Hint(first));
  }

  /** Barrier hints add only comment lines. */
  lemma {:induction false} HintsAddOnlyComments(stages: seq<string>, first: bool)
    ensures Content(WithHints(stages, first)) == Content(stages)
  {
    hide IsType, Hint, TrimStart, IsComment;
    if stages != [] {
      HintsAddOnlyComments(stages[1..], first && !IsType(stages[0]));
      HintIsComment(first);
      var head, hint := [stages[0]], if IsType(stages[0]) then Hint(first) else [];
      ContentConcat(head + hint, WithHints(stages[1..], first && !IsType(stages[0])));
      ContentConcat(head, hint);
      ContentConcat(head, stages[1..]);
      assert stages == head + stages[1..];
    }
  }

  lemma AdviceIsComment()
    ensures Content(BARRIER_ADVICE + [""]) == []
  {
    hide IsComment, Content, Remark;
    RemarkIsComment(2, " \U{26A0}\U{FE0F}  RECOMMENDED: Add barrier synchronization for distributed workloads");
    RemarkIsComment(2, " Without barriers, agents may race between stages causing incorrect results.");
    RemarkIsComment(2, " Uncomment the following to enable barriers:");
    RemarkIsComment(2, "");
    RemarkIsComment(2, " barrier_sync:");
    RemarkIsComment(2, "   enabled: true");
    RemarkIsComment(2, " Or add per-stage barriers (see example below with \"# ADD THIS\"):");
    CommentsHaveNoContent(BARRIER_ADVICE + [""]);
  }

  /** The advice given to multi-agent configurations leaves the content of the block the same. */
  lemma AdviceAddsOnlyComments(stages: seq<string>)
    ensures Content(Block(stages, true)) == Content(Block(stages, false))
  {
    hide Content, WithHints;
    var advice, head := BARRIER_ADVICE + [""], ["  stages:"];
    assert Block(stages, true) == ([""] + advice) + (head + WithHints(stages, true));
    assert Block(stages, false) == [""] + (head + stages);
    AdviceIsComment();
    HintsAddOnlyComments(stages, true);
    ContentConcat([""] + advice, head + WithHints(stages, true));
    ContentConcat([""], advice);
    ContentConcat(head, WithHints(stages, true));
    ContentConcat([""], head + stages);
    ContentConcat(head, stages);
  }

  /** The content of the block is the key and the stages, with and without advice. */
  lemma BlockContent(stages: seq<string>, multiAgent: bool)
    ensures Content(Block(stages, multiAgent)) == ["  stages:"] + Content(stages)
  {
    AdviceAddsOnlyComments(stages);
    var head := ["  stages:"];
    StagesLine();
    assert Block(stages, false) == [""] + (head + stages);
    ContentConcat([""], head + stages);
    ContentConcat(head, stages);
    EmptyIsNoContent();
    ContentOfOne("");
    ContentOfOne("  stages:");
    hide Content, IsContent, IsComment, TrimStart, Block;
  }

  lemma ContentOfOne(line: string)
    ensures Content([line]) == if IsContent(line) then [line] else []
  {
    assert [line][1..] == [];
  }

  // === Insertion ===

  /** The scanner's flags. */
  datatype Scan = Scan(inside: bool, indent: nat, found: bool)

  const START := Scan(false, 0, false)

  predicate Inserts(s: Scan, line: string) {
    s.inside && Exits(line, s.indent)
  }

  function Next(s: Scan, line: string): Scan {
    if IsHeader(line) then Scan(true, Indent(line), true)
    else if Inserts(s, line) then s.(inside := false)
    else s
  }

  /** What comes out for the lines that remain. */
  function Output(lines: seq<string>, block: seq<string>, s: Scan): seq<string> {
    if lines == [] then
      if s.inside then block else if s.found then [] else OWN_SECTION + block
    else
      (if Inserts(s, lines[0]) then block else []) + [lines[0]] + Output(lines[1..], block, Next(s, lines[0]))
  }

  /** `insert_stages_into_yaml` */
  method InsertStages(original: seq<string>, stages: seq<string>, multiAgent: bool) returns (result: seq<string>)
    ensures result == Output(original, Block(stages, multiAgent), START)
  {
    hide IsHeader, TrimStart, IsComment, Indent, Output, Block;
    result := [];
    var inside, indent, found := false, 0, false;
    ghost var block := Block(stages, multiAgent);
    for i := 0 to |original|
      invariant inside ==> found
      invariant result + Output(original[i..], block, Scan(inside, indent, found)) == Output(original[0..], block, START)
    {
      var line := original[i];
      OutputCons(original, i, block, Scan(inside, indent, found));
      if IsHeader(line) {
        inside, found, indent := true, true, Indent(line);
        result := result + [line];
        continue;
      }
      if inside && Exits(line, indent) {
        result := InsertSection(result, stages, multiAgent);
        inside := false;
      }
      result := result + [line];
    }
    OutputEnd(original, block, Scan(inside, indent, found));
    if inside {
      result := InsertSection(result, stages, multiAgent);
    }
    if !found {
      result := result + OWN_SECTION;
      result := InsertSection(result, stages, multiAgent);
    }
  }

  lemma OutputCons(lines: seq<string>, i: nat, block: seq<string>, s: Scan)
    requires i < |lines|
    ensures Output(lines[i..], block, s)
              == (if Inserts(s, lines[i]) then block else []) + [lines[i]] + Output(lines[i + 1..], block, Next(s, lines[i]))
  {
    hide Inserts, Next;
    assert lines[i..][1..] == lines[i + 1..];
  }

  lemma OutputEnd(lines: seq<string>, block: seq<string>, s: Scan)
    ensures Output(lines[|lines|..], block, s) == if s.inside then block else if s.found then [] else OWN_SECTION + block
    ensures lines[0..] == lines
  {}

  method InsertSection(text: seq<string>, stages: seq<string>, multiAgent: bool) returns (result: seq<string>)
    ensures result == text + Block(stages, multiAgent)
  {
    hide WithHints;
    result := text + [""];
    if multiAgent {
      result := result + BARRIER_ADVICE + [""];
    }
    result := result + ["  stages:"];
    if multiAgent {
      result := InsertWithHints(result, stages);
    } else {
      result := result + stages;
    }
  }

  predicate NoHeader(lines: seq<string>) {
    forall i :: 0 <= i < |lines| ==> !IsHeader(lines[i])
  }

  /** The first line before which the block is put, or the end of the file. */
  function ExitAt(lines: seq<string>, s: Scan): (k: nat)
    ensures k <= |lines|
  {
    if lines == [] || Inserts(s, lines[0]) then 0 else 1 + ExitAt(lines[1..], Next(s, lines[0]))
  }

  /** How often the block is put into the file. */
  function Insertions(lines: seq<string>, s: Scan): nat {
    if lines == [] then if s.inside || !s.found then 1 else 0
    else (if Inserts(s, lines[0]) then 1 else 0) + Insertions(lines[1..], Next(s, lines[0]))
  }

  lemma {:induction false} OutputLength(lines: seq<string>, block: seq<string>, s: Scan)
    requires s.found
    ensures |Output(lines, block, s)| == |lines| + Insertions(lines, s) * |block|
  {
    hide Inserts, Next;
    if lines != [] {
      assert Next(s, lines[0]).found by {
        NextFound(s, lines[0]);
      }
      OutputLength(lines[1..], block, Next(s, lines[0]));
    }
  }

  lemma NextFound(s: Scan, line: string)
    ensures s.found || IsHeader(line) <==> Next(s, line).found
    ensures (s.inside ==> s.found) ==> (Next(s, line).inside ==> Next(s, line).found)
  {}

  /** Outside any section, after one was found, lines without a header pass unchanged. */
  lemma {:induction false} OutsideCopies(lines: seq<string>, block: seq<string>, s: Scan)
    requires s.found && !s.inside
    ensures NoHeader(lines) ==> Output(lines, block, s) == lines && Insertions(lines, s) == 0
    ensures !NoHeader(lines) ==> Insertions(lines, s) >= 1
  {
    hide IsHeader, Exits, Indent;
    if lines != [] {
      NoHeaderCons(lines);
      if IsHeader(lines[0]) {
        InsideInserts(lines[1..], Next(s, lines[0]));
      } else {
        OutsideCopies(lines[1..], block, s);
      }
    }
  }

  lemma NoHeaderCons(lines: seq<string>)
    requires lines != []
    ensures NoHeader(lines) <==> !IsHeader(lines[0]) && NoHeader(lines[1..])
  {
    hide IsHeader;
    assert forall i :: 0 <= i < |lines| - 1 ==> lines[1..][i] == lines[i + 1];
    if !IsHeader(lines[0]) && NoHeader(lines[1..]) {
      forall i | 0 <= i < |lines|
        ensures !IsHeader(lines[i])
      {
        assert i > 0 ==> lines[i] == lines[1..][i - 1];
      }
    }
  }

  lemma {:induction false} InsideInserts(lines: seq<string>, s: Scan)
    requires s.inside && s.found
    ensures Insertions(lines, s) >= 1
  {
    hide IsHeader, Exits, Indent;
    if lines != [] && !Inserts(s, lines[0]) {
      InsideInserts(lines[1..], Next(s, lines[0]));
    }
  }

  /** A section that began, or will begin, gets the block at the first exit; from there on the file
      is scanned outside any section. */
  lemma {:induction false} FirstInsertion(lines: seq<string>, block: seq<string>, s: Scan)
    requires s.inside ==> s.found
    requires s.inside || !NoHeader(lines)
    ensures var k, outside := ExitAt(lines, s), Scan(false, 0, true);
            && Output(lines, block, s) == lines[..k] + block + Output(lines[k..], block, outside)
            && Insertions(lines, s) == 1 + Insertions(lines[k..], outside)
  {
    hide IsHeader, Exits, Indent;
    if lines != [] {
      var k := ExitAt(lines, s);
      if Inserts(s, lines[0]) {
        OutsideForgets(lines, block, s.(inside := false), Scan(false, 0, true));
        ExitIsNoHeader(lines[0], s.indent);
      } else {
        NoHeaderCons(lines);
        FirstInsertion(lines[1..], block, Next(s, lines[0]));
        assert lines[1..][k - 1..] == lines[k..];
        assert [lines[0]] + lines[1..][..k - 1] == lines[..k];
      }
    }
  }

  lemma ExitIsNoHeader(line: string, indent: nat)
    requires Exits(line, indent)
    ensures !IsHeader(line)
  {}

  /** Outside a section the remembered indent does not matter. */
  lemma {:induction false} OutsideForgets(lines: seq<string>, block: seq<string>, s: Scan, t: Scan)
    requires !s.inside && !t.inside && s.found && t.found
    ensures Output(lines, block, s) == Output(lines, block, t) && Insertions(lines, s) == Insertions(lines, t)
  {
    hide IsHeader, Exits, Indent;
    if lines != [] && !IsHeader(lines[0]) {
      OutsideForgets(lines[1..], block, s, t);
    }
  }

  /** The block is put in once, and the lines around it are the original file, exactly when no line
      that looks like the header follows the end of the first such section.  Any file that has a
      header gets it at least once. */
  lemma InsertedOnceIff(lines: seq<string>, block: seq<string>)
    requires block != [] && !NoHeader(lines)
    ensures var k := ExitAt(lines, START);
            && (Output(lines, block, START) == lines[..k] + block + lines[k..] <==> NoHeader(lines[k..]))
            && (Insertions(lines, START) == 1 <==> NoHeader(lines[k..]))
            && Insertions(lines, START) >= 1
  {
    hide Output, Insertions, NoHeader, ExitAt;
    var k, outside := ExitAt(lines, START), Scan(false, 0, true);
    FirstInsertion(lines, block, START);
    OutsideCopies(lines[k..], block, outside);
    OutputLength(lines[k..], block, outside);
    var n := Insertions(lines[k..], outside);
    if n >= 1 {
      assert n * |block| >= 1;
      assert |Output(lines, block, START)| > |lines| + |block|;
    }
  }

  /** A file without a header is kept whole and gets a section of its own at the end. */
  lemma {:induction false} OwnSectionAppended(lines: seq<string>, block: seq<string>, s: Scan)
    requires NoHeader(lines) && !s.found && !s.inside
    ensures Output(lines, block, s) == lines + OWN_SECTION + block
  {
    hide IsHeader, Exits, Indent;
    if lines != [] {
      NoHeaderCons(lines);
      OwnSectionAppended(lines[1..], block, s);
      assert [lines[0]] + (lines[1..] + OWN_SECTION + block) == lines + OWN_SECTION + block;
    }
  }

  /** Where the block goes when only line `d` is a header: before the first later line that is
      neither blank nor a comment nor deeper than the header, or at the end. */
  lemma BlockEndsTheSection(lines: seq<string>, d: nat)
    requires d < |lines| && IsHeader(lines[d]) && NoHeader(lines[..d]) && NoHeader(lines[d + 1..])
    ensures var k := ExitAt(lines, START);
            && d < k && NoHeader(lines[k..])
            && (forall j :: d < j < k ==> !Exits(lines[j], Indent(lines[d])))
            && (k < |lines| ==> Exits(lines[k], Indent(lines[d])))
  {
    hide Exits, Indent, IsHeader;
    BeforeHeader(lines, d, START);
    assert lines[d..][1..] == lines[d + 1..];
    var s := Next(START, lines[d]);
    var n := ExitAt(lines[d + 1..], s);
    WithinSection(lines[d + 1..], s);
    var k := d + 1 + n;
    NoneExits(lines, d + 1, n, Indent(lines[d]));
    assert lines[k..] == lines[d + 1..][n..];
  }

  lemma NoneExits(lines: seq<string>, start: nat, n: nat, indent: nat)
    requires start + n <= |lines| && forall j :: 0 <= j < n ==> !Exits(lines[start..][j], indent)
    ensures forall j :: start <= j < start + n ==> !Exits(lines[j], indent)
  {
    hide Exits;
    forall j | start <= j < start + n
      ensures !Exits(lines[j], indent)
    {
      assert lines[j] == lines[start..][j - start];
    }
  }

  lemma {:induction false} BeforeHeader(lines: seq<string>, d: nat, s: Scan)
    requires d <= |lines| && NoHeader(lines[..d]) && !s.inside
    ensures ExitAt(lines, s) == d + ExitAt(lines[d..], s)
    decreases d
  {
    hide Exits, Indent, IsHeader;
    if d > 0 {
      assert !IsHeader(lines[..d][0]);
      assert lines[1..][..d - 1] == lines[..d][1..] && lines[1..][d - 1..] == lines[d..];
      BeforeHeader(lines[1..], d - 1, s);
    } else {
      assert lines[0..] == lines;
    }
  }

  lemma {:induction false} WithinSection(lines: seq<string>, s: Scan)
    requires s.inside && NoHeader(lines)
    ensures forall j :: 0 <= j < ExitAt(lines, s) ==> !Exits(lines[j], s.indent)
    ensures ExitAt(lines, s) < |lines| ==> Exits(lines[ExitAt(lines, s)], s.indent)
  {
    hide Exits, Indent, IsHeader;
    if lines != [] && !Exits(lines[0], s.indent) {
      NoHeaderCons(lines);
      WithinSection(lines[1..], s);
      assert forall j :: 0 < j < |lines| ==> lines[j] == lines[1..][j - 1];
    }
  }

  /** Two header lines that are not in one section put the block in twice. */
  lemma SecondHeaderDuplicates()
    ensures Insertions(["distributed:", "x:", "  distributed:"], START) == 2
  {
    var lines := ["distributed:", "x:", "  distributed:"];
    assert lines[1..] == ["x:", "  distributed:"] && lines[1..][1..] == ["  distributed:"] && lines[1..][1..][1..] == [];
    var third := lines[2];
    assert third[1..] == " distributed:" && third[1..][1..] == "distributed:";
    assert TrimStart(third[1..]) == "distributed:";
    assert IsHeader(lines[0]) && Indent(lines[0]) == 0 && IsHeader(lines[2]);
    assert Exits(lines[1], 0);
    hide IsHeader, Exits, Indent;
    var s := Next(START, lines[0]);
    assert Inserts(s, lines[1]);
  }

  // === Where the block lands ===

  predicate IsContent(line: string) {
    TrimStart(line) != "" && !IsComment(line)
  }

  /** Line `i` is the first content line after line `d`. */
  predicate FirstAfter(lines: seq<string>, d: nat, i: nat) {
    d < i < |lines| && IsContent(lines[i]) && forall j :: d < j < i ==> !IsContent(lines[j])
  }

  /** Line `j` is a key of the block mapping under line `d`: deeper than `d`, with nothing shallower in
      between, and as deep as the first key of that mapping. */
  ghost predicate KeyOf(lines: seq<string>, d: nat, j: nat) {
    && d < j < |lines| && IsContent(lines[j]) && Indent(lines[d]) < Indent(lines[j])
    && (forall i :: d < i < j && IsContent(lines[i]) ==> Indent(lines[j]) <= Indent(lines[i]))
    && (forall i :: d < i <= j && FirstAfter(lines, d, i) ==> Indent(lines[i]) == Indent(lines[j]))
  }

  /** The section from `d` to `k` is indented the way the inserted text is. */
  ghost predicate IndentedByTwo(lines: seq<string>, d: nat, k: nat)
    requires d < k <= |lines|
  {
    && Indent(lines[d]) < 2
    && (forall i :: d < i < k && IsContent(lines[i]) ==> 2 <= Indent(lines[i]))
    && (forall i :: d < i < k && FirstAfter(lines, d, i) ==> Indent(lines[i]) == 2)
  }

  /** Where `stages:` stands in the block. */
  function StagesAt(multiAgent: bool): nat {
    if multiAgent then 2 + |BARRIER_ADVICE| else 1
  }

  lemma StagesLine()
    ensures IsContent("  stages:") && Indent("  stages:") == 2
  {
    var line := "  stages:";
    assert line[1..] == " stages:" && line[1..][1..] == "stages:";
    assert TrimStart(line[1..]) == "stages:";
    assert TrimStart(line) == "stages:";
  }

  lemma BlockBeforeStages(stages: seq<string>, multiAgent: bool)
    ensures var b, n := Block(stages, multiAgent), StagesAt(multiAgent);
            n < |b| && b[n] == "  stages:" && forall i :: 0 <= i < n ==> !IsContent(b[i])
  {
    AdviceLines();
    hide WithHints, IsContent, IsComment, Remark;
    EmptyIsNoContent();
  }

  lemma EmptyIsNoContent()
    ensures !IsContent("")
  {}

  lemma AdviceLines()
    ensures forall i :: 0 <= i < |BARRIER_ADVICE| ==> !IsContent(BARRIER_ADVICE[i])
  {
    hide Remark, IsComment;
    RemarkIsComment(2, " \U{26A0}\U{FE0F}  RECOMMENDED: Add barrier synchronization for distributed workloads");
    RemarkIsComment(2, " Without barriers, agents may race between stages causing incorrect results.");
    RemarkIsComment(2, " Uncomment the following to enable barriers:");
    RemarkIsComment(2, "");
    RemarkIsComment(2, " barrier_sync:");
    RemarkIsComment(2, "   enabled: true");
    RemarkIsComment(2, " Or add per-stage barriers (see example below with \"# ADD THIS\"):");
  }

  /** The inserted `stages:` becomes a key of the `distributed:` mapping exactly when the header is
      indented by less than two and the section's own keys by two. */
  lemma BlockLandsInside(lines: seq<string>, d: nat, stages: seq<string>, multiAgent: bool)
    requires d < |lines| && IsHeader(lines[d]) && NoHeader(lines[..d]) && NoHeader(lines[d + 1..])
    ensures var k, block := ExitAt(lines, START), Block(stages, multiAgent);
            && d < k && Output(lines, block, START) == lines[..k] + block + lines[k..]
            && (KeyOf(Output(lines, block, START), d, k + StagesAt(multiAgent)) <==> IndentedByTwo(lines, d, k))
  {
    hide IsHeader, NoHeader, Exits, Indent, ExitAt, Output, Block, StagesAt, KeyOf, IndentedByTwo, IsContent;
    OneHeaderOutput(lines, d, Block(stages, multiAgent));
    BlockBeforeStages(stages, multiAgent);
    LandsInsideIff(lines, d, ExitAt(lines, START), Block(stages, multiAgent), StagesAt(multiAgent));
  }

  lemma OneHeaderOutput(lines: seq<string>, d: nat, block: seq<string>)
    requires block != [] && d < |lines| && IsHeader(lines[d]) && NoHeader(lines[..d]) && NoHeader(lines[d + 1..])
    ensures var k := ExitAt(lines, START);
            d < k && Output(lines, block, START) == lines[..k] + block + lines[k..]
  {
    assert !NoHeader(lines);
    hide IsHeader, NoHeader, Exits, Indent, Output;
    BlockEndsTheSection(lines, d);
    InsertedOnceIff(lines, block);
  }

  lemma LandsInsideIff(lines: seq<string>, d: nat, k: nat, block: seq<string>, n: nat)
    requires d < k <= |lines| && n < |block| && block[n] == "  stages:" && forall i :: 0 <= i < n ==> !IsContent(block[i])
    ensures KeyOf(lines[..k] + block + lines[k..], d, k + n) <==> IndentedByTwo(lines, d, k)
  {
    StagesLine();
    hide IsContent, Indent;
    var out := lines[..k] + block + lines[k..];
    assert out[k + n] == "  stages:";
    assert forall i :: 0 <= i < k ==> out[i] == lines[i];
    forall i | k <= i < k + n
      ensures !IsContent(out[i])
    {
      assert out[i] == block[i - k];
    }
    assert forall i :: 0 <= i < k ==> (FirstAfter(out, d, i) <==> FirstAfter(lines, d, i));
  }
}
