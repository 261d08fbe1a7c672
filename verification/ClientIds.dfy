/** The client-id file: the text written for a list of ids and the list read back from a text. */
module ClientIds {
  import opened Wrappers
  import opened Text

  /** The Unicode White_Space property. */
  predicate IsWhitespace(c: char) {
    '\U{0009}' <= c <= '\U{000D}' || c == ' ' || c == '\U{0085}' || c == '\U{00A0}' || c == '\U{1680}' ||
    '\U{2000}' <= c <= '\U{200A}' || c == '\U{2028}' || c == '\U{2029}' || c == '\U{202F}' || c == '\U{205F}' ||
    c == '\U{3000}'
  }

  function TrimStart(s: string): string {
    if s != "" && IsWhitespace(s[0]) then TrimStart(s[1..]) else s
  }

  function TrimEnd(s: string): string {
    if s != "" && IsWhitespace(s[|s| - 1]) then TrimEnd(s[..|s| - 1]) else s
  }

  function Trim(s: string): string {
    TrimEnd(TrimStart(s))
  }

  /** A line that ended in a newline loses one carriage return before it. */
  function StripReturn(s: string): string {
    if s != "" && s[|s| - 1] == '\r' then s[..|s| - 1] else s
  }

  /** The lines of a text; a final line is listed only when it is not empty. */
  function Lines(s: string): seq<string> {
    var parts := Split(s, '\n');
    var n := |parts| - 1;
    seq(n, i requires 0 <= i < n => StripReturn(parts[i])) + if parts[n] == "" then [] else [parts[n]]
  }

  function TrimmedNonEmpty(lines: seq<string>): seq<string> {
    if lines == [] then []
    else (if Trim(lines[0]) == "" then [] else [Trim(lines[0])]) + TrimmedNonEmpty(lines[1..])
  }

  /** The ids in a file's text, None when there is none or the bytes were not text. */
  function ParseClientIds(content: Option<string>): Option<seq<string>> {
    if content.None? then None
    else
      var values := TrimmedNonEmpty(Lines(content.value));
      if values == [] then None else Some(values)
  }

  /** What is written for a list of ids. */
  function Print(ids: seq<string>): string {
    Join(ids, '\n') + "\n"
  }

  ghost predicate Clean(id: string) {
    id != "" && '\n' !in id && !IsWhitespace(id[0]) && !IsWhitespace(id[|id| - 1])
  }

  lemma {:induction false} TrimStartFacts(s: string)
    ensures var t := TrimStart(s); |t| <= |s| && t == s[|s| - |t|..] && (t != "" ==> !IsWhitespace(t[0]))
  {
    if s != "" && IsWhitespace(s[0]) { TrimStartFacts(s[1..]); }
  }

  lemma {:induction false} TrimEndFacts(s: string)
    ensures var t := TrimEnd(s); t <= s && (t != "" ==> !IsWhitespace(t[|t| - 1]))
  {
    if s != "" && IsWhitespace(s[|s| - 1]) { TrimEndFacts(s[..|s| - 1]); }
  }

  /** Trimming a newline-free line gives a clean id or nothing. */
  lemma TrimIsClean(line: string)
    requires '\n' !in line
    ensures Trim(line) != "" ==> Clean(Trim(line))
  {
    TrimStartFacts(line);
    TrimEndFacts(TrimStart(line));
    var t := TrimStart(line);
    forall i | 0 <= i < |Trim(line)| ensures Trim(line)[i] != '\n' {
      assert Trim(line)[i] == t[i] && t[i] == line[|line| - |t| + i];
    }
  }

  lemma {:induction false} TrimmedAreClean(lines: seq<string>)
    requires forall i :: 0 <= i < |lines| ==> '\n' !in lines[i]
    ensures forall i :: 0 <= i < |TrimmedNonEmpty(lines)| ==> Clean(TrimmedNonEmpty(lines)[i])
  {
    if lines != [] {
      TrimmedAreClean(lines[1..]);
      TrimIsClean(lines[0]);
    }
  }

  /** Whatever is parsed from a file is a nonempty list of clean ids. */
  lemma ParsedAreClean(content: string)
    requires ParseClientIds(Some(content)).Some?
    ensures var ids := ParseClientIds(Some(content)).value;
            ids != [] && forall i :: 0 <= i < |ids| ==> Clean(ids[i])
  {
    SplitPartsAreFree(content, '\n');
    TrimmedAreClean(Lines(content));
  }

  lemma {:induction false} CleanAreKept(ids: seq<string>)
    requires forall i :: 0 <= i < |ids| ==> Clean(ids[i])
    ensures TrimmedNonEmpty(ids) == ids
  {
    if ids != [] {
      CleanAreKept(ids[1..]);
      assert Trim(ids[0]) == ids[0];
      assert ids == [ids[0]] + ids[1..];
    }
  }

  lemma {:induction false} PrintIsJoin(ids: seq<string>)
    requires ids != []
    ensures Print(ids) == Join(ids + [""], '\n')
  {
    if |ids| > 1 {
      PrintIsJoin(ids[1..]);
      assert (ids + [""])[1..] == ids[1..] + [""];
    } else {
      assert (ids + [""])[1..] == [""];
    }
  }

  /** Reading back what was written gives the same list exactly for nonempty lists of clean ids. */
  lemma ParsePrint(ids: seq<string>)
    ensures ParseClientIds(Some(Print(ids))) == Some(ids) <==>
            ids != [] && forall i :: 0 <= i < |ids| ==> Clean(ids[i])
  {
    if ParseClientIds(Some(Print(ids))) == Some(ids) {
      ParsedAreClean(Print(ids));
    }
    if ids != [] && forall i :: 0 <= i < |ids| ==> Clean(ids[i]) {
      PrintIsJoin(ids);
      SplitJoinFree(ids + [""], '\n');
      CarriageReturnIsWhitespace();
      assert Lines(Print(ids)) == ids;
      CleanAreKept(ids);
    }
  }

  lemma CarriageReturnIsWhitespace()
    ensures IsWhitespace('\r')
  {}

  /** Printing what a file held and reading it again changes nothing. */
  lemma ParsePrintParse(content: string)
    requires ParseClientIds(Some(content)).Some?
    ensures ParseClientIds(Some(Print(ParseClientIds(Some(content)).value))) == ParseClientIds(Some(content))
  {
    ParsedAreClean(content);
    ParsePrint(ParseClientIds(Some(content)).value);
  }

  // ----- what a file holds, line by line -----

  /** The White_Space characters by their code points. */
  lemma WhitespaceIs(c: char)
    ensures IsWhitespace(c) <==>
            (c as int) in {0x9, 0xa, 0xb, 0xc, 0xd, 0x20, 0x85, 0xa0, 0x1680, 0x2000, 0x2001, 0x2002, 0x2003, 0x2004,
                           0x2005, 0x2006, 0x2007, 0x2008, 0x2009, 0x200a, 0x2028, 0x2029, 0x202f, 0x205f, 0x3000}
  {}

  /** The ids a text holds, [] when it holds none. */
  function IdsIn(content: string): seq<string> {
    match ParseClientIds(Some(content))
    case Some(ids) => ids
    case None => []
  }

  ghost predicate Blank(s: string) {
    forall i :: 0 <= i < |s| ==> IsWhitespace(s[i]) && s[i] != '\n'
  }

  lemma {:induction false} TrimStartDrops(lead: string, s: string)
    requires Blank(lead) && (s == "" || !IsWhitespace(s[0]))
    ensures TrimStart(lead + s) == s
  {
    if lead == "" {
      assert lead + s == s;
    } else {
      assert (lead + s)[1..] == lead[1..] + s;
      TrimStartDrops(lead[1..], s);
    }
  }

  lemma {:induction false} TrimEndDrops(s: string, trail: string)
    requires Blank(trail) && (s == "" || !IsWhitespace(s[|s| - 1]))
    ensures TrimEnd(s + trail) == s
  {
    if trail == "" {
      assert s + trail == s;
    } else {
      assert (s + trail)[..|s + trail| - 1] == s + trail[..|trail| - 1];
      TrimEndDrops(s, trail[..|trail| - 1]);
    }
  }

  /** A line is blank space around one id, or blank altogether, whose id is then the empty text. */
  ghost predicate LineHolds(line: string, lead: string, id: string, trail: string) {
    line == lead + id + trail && Blank(lead) && Blank(trail) && (if id == "" then trail == "" else Clean(id))
  }

  lemma TrimFinds(line: string, lead: string, id: string, trail: string)
    requires LineHolds(line, lead, id, trail)
    ensures Trim(line) == id
  {
    assert line == lead + (id + trail);
    assert id != "" ==> (id + trail)[0] == id[0];
    TrimStartDrops(lead, id + trail);
    TrimEndDrops(id, trail);
  }

  /** A carriage return at the end of a line belongs to the blank space. */
  lemma ReturnIsBlank(line: string, lead: string, id: string, trail: string)
    requires LineHolds(line, lead, id, trail)
    ensures Trim(StripReturn(line)) == id
  {
    CarriageReturnIsWhitespace();
    var n := |line| - 1;
    if line == "" || line[n] != '\r' {
      TrimFinds(line, lead, id, trail);
    } else if id == "" {
      TrimFinds(line[..n], lead[..n], "", "");
    } else {
      assert line[n] == (id + trail)[|id + trail| - 1];
      assert trail == "" ==> id + trail == id;
      var m := |trail| - 1;
      assert line[..n] == lead + id + trail[..m];
      TrimFinds(line[..n], lead, id, trail[..m]);
    }
  }

  lemma TrimmedFirst(line: string, rest: seq<string>)
    ensures TrimmedNonEmpty([line] + rest) ==
            (if Trim(line) == "" then [] else [Trim(line)]) + TrimmedNonEmpty(rest)
  {
    assert ([line] + rest)[1..] == rest;
  }

  lemma IdsAreTrimmed(content: string)
    ensures IdsIn(content) == TrimmedNonEmpty(Lines(content))
  {}

  /** A line ended by a newline adds its id, if it has one, before the ids of the text after it. */
  lemma LineAdds(line: string, lead: string, id: string, trail: string, rest: string)
    requires LineHolds(line, lead, id, trail)
    ensures IdsIn(line + "\n" + rest) == (if id == "" then [] else [id]) + IdsIn(rest)
  {
    CleanLine(line, lead, id, trail);
    SplitHead(line, rest, '\n');
    ReturnIsBlank(line, lead, id, trail);
    assert Lines(line + "\n" + rest) == [StripReturn(line)] + Lines(rest);
    TrimmedFirst(StripReturn(line), Lines(rest));
    IdsAreTrimmed(line + "\n" + rest);
    IdsAreTrimmed(rest);
  }

  lemma CleanLine(line: string, lead: string, id: string, trail: string)
    requires LineHolds(line, lead, id, trail)
    ensures '\n' !in line
  {
    forall i | 0 <= i < |line| ensures line[i] != '\n' {
      var n := |lead| + |id|;
      assert line[i] == if i < |lead| then lead[i] else if i < n then id[i - |lead|] else trail[i - n];
    }
  }

  /** A last line without a newline counts as well. */
  lemma LastLine(line: string, lead: string, id: string, trail: string)
    requires LineHolds(line, lead, id, trail)
    ensures IdsIn(line) == if id == "" then [] else [id]
  {
    CleanLine(line, lead, id, trail);
    SplitFree(line, '\n');
    TrimFinds(line, lead, id, trail);
    assert Lines(line) == if line == "" then [] else [line] + [];
    TrimmedFirst(line, []);
    IdsAreTrimmed(line);
  }

  /** Every line is of that form, so the last two lemmas say what any file holds. */
  lemma EveryLineHolds(line: string) returns (lead: string, id: string, trail: string)
    requires '\n' !in line
    ensures LineHolds(line, lead, id, trail)
  {
    var start := 0;
    while start < |line| && IsWhitespace(line[start])
      invariant start <= |line| && Blank(line[..start])
    {
      start := start + 1;
    }
    var end := |line|;
    while start < end && IsWhitespace(line[end - 1])
      invariant start <= end <= |line| && Blank(line[end..]) && (start < |line| ==> start < end)
    {
      end := end - 1;
    }
    lead, id, trail := line[..start], line[start..end], line[end..];
  }
}
