/**
 * The line reader getCommand of main.c.
 *
 * Standard input is a character sequence `input` and a cursor `pos` counting
 * the characters consumed; `getchar` at or past the end of the sequence
 * yields EOF, a value no 7-bit character equals. A line is read as: six
 * command characters; for anything but "end" and "report", two skipped
 * characters and a name running up to the next '"'; for "addrel" and
 * "delrel", two more such names; then everything up to and including the
 * next '\n'.
 */
module Parser {
  import opened Hash

  datatype Option<T> = None | Some(value: T)

  /** What one call of getCommand produces. */
  datatype Line =
    | End(command: string, next: nat)
    | Cmd(command: string, ent1: string, ent2: string, rel: string, next: nat)

  /** The `(char)EOF` value; outside 7-bit ASCII. */
  const EOF: char := 'ÿ'

  /** `getchar()` with `i` characters already consumed. */
  function CharAt(input: seq<char>, i: nat): (c: char)
    ensures i < |input| ==> c == input[i]
    ensures i >= |input| ==> c == EOF
    ensures c == '"' || c == '\n' ==> i < |input|
  {
    if i < |input| then input[i] else EOF
  }

  /** The six characters of the command field starting at `pos`. */
  function Command(input: seq<char>, pos: nat): (cmd: string)
    ensures |cmd| == 6
    ensures forall k :: 0 <= k < 6 ==> cmd[k] == CharAt(input, pos + k)
    ensures pos + 6 <= |input| ==> cmd == input[pos..pos + 6]
  {
    [CharAt(input, pos), CharAt(input, pos + 1), CharAt(input, pos + 2),
     CharAt(input, pos + 3), CharAt(input, pos + 4), CharAt(input, pos + 5)]
  }

  /** Position of the first `c` at or after `from`, if the input still holds one. */
  function FindFrom(input: seq<char>, from: nat, c: char): (r: Option<nat>)
    ensures r.Some? ==> from <= r.value < |input| && input[r.value] == c
    ensures r.Some? ==> forall j :: from <= j < r.value ==> input[j] != c
    ensures r.None? ==> forall j :: from <= j < |input| ==> input[j] != c
    decreases |input| - from
  {
    if from >= |input| then None
    else if input[from] == c then Some(from)
    else FindFrom(input, from + 1, c)
  }

  /**
   * A name read by one do-while loop from position `from`: the characters up
   * to the next '"', and the position after that quote. None when the input
   * ends first (the loop would read EOF forever) or when the name and its
   * terminator do not fit the 100-character buffer.
   */
  function Field(input: seq<char>, from: nat): (r: Option<(string, nat)>)
    ensures r.Some? ==> r.value.1 == from + |r.value.0| + 1 <= |input|
    ensures r.Some? ==> input[r.value.1 - 1] == '"'
    ensures r.Some? ==> '"' !in r.value.0 && |r.value.0| < MAX_STRING_SIZE
    ensures r.None? <==> FindFrom(input, from, '"').None? || FindFrom(input, from, '"').value - from >= MAX_STRING_SIZE
  {
    match FindFrom(input, from, '"')
    case None => None
    case Some(q) => if q - from < MAX_STRING_SIZE then Some((input[from..q], q + 1)) else None
  }

  /** A name read by Field is exactly the text between `from` and the closing quote, with no quote inside. */
  lemma FieldText(input: seq<char>, from: nat)
    requires Field(input, from).Some?
    ensures var (name, after) := Field(input, from).value;
      input[from..after - 1] == name && forall j :: from <= j < after - 1 ==> input[j] != '"'
  {
  }

  /** The closing `while(getchar() != '\n')`: the line ends after the next newline. */
  function Finish(input: seq<char>, command: string, e1: string, e2: string, rel: string, from: nat): (r: Option<Line>)
    ensures r.Some? ==> r == Some(Cmd(command, e1, e2, rel, r.value.next))
    ensures r.Some? ==> from < r.value.next <= |input| && input[r.value.next - 1] == '\n'
    ensures r.Some? ==> forall j :: from <= j < r.value.next - 1 ==> input[j] != '\n'
    ensures r.None? <==> forall j :: from <= j < |input| ==> input[j] != '\n'
  {
    match FindFrom(input, from, '\n')
    case None => None
    case Some(nl) => Some(Cmd(command, e1, e2, rel, nl + 1))
  }

  /** The test of main.c:82-84: only the first three command characters are compared. */
  predicate IsEnd(command: string)
    requires |command| == 6
  {
    command[0] == 'e' && command[1] == 'n' && command[2] == 'd'
  }

  /** The commands that take a second entity and a relation name. */
  predicate IsRelationCommand(command: string)
  {
    command == "addrel" || command == "delrel"
  }

  /**
   * One call of getCommand from cursor `pos`; None when the source's loops
   * would never end or a name would overflow its buffer.
   */
  function Scan(input: seq<char>, pos: nat): (r: Option<Line>)
    ensures r.Some? && r.value.End? <==>
      CharAt(input, pos) == 'e' && CharAt(input, pos + 1) == 'n' && CharAt(input, pos + 2) == 'd'
    ensures r.Some? ==> r.value.command == Command(input, pos)
    ensures r.Some? && r.value.End? ==> r.value.next == pos + 6
    ensures r.Some? && r.value.Cmd? ==> pos + 6 < r.value.next <= |input| && input[r.value.next - 1] == '\n'
  {
    var command := Command(input, pos);
    if IsEnd(command) then Some(End(command, pos + 6))
    else Arguments(input, command, pos + 6)
  }

  /**
   * The rest of a line that is not "end", read from `from` (just past the
   * command): no names for "report", three for "addrel" and "delrel", one
   * for anything else.
   */
  function Arguments(input: seq<char>, command: string, from: nat): (r: Option<Line>)
    ensures r.Some? ==> r.value.Cmd? && r.value.command == command
    ensures r.Some? ==> from < r.value.next <= |input| && input[r.value.next - 1] == '\n'
    ensures r.Some? && command == "report" ==> r.value.ent1 == r.value.ent2 == r.value.rel == ""
    ensures r.Some? && !IsRelationCommand(command) ==> r.value.ent2 == r.value.rel == ""
  {
    if command == "report" then
      Finish(input, command, "", "", "", from)
    else
      match Field(input, from + 2)
      case None => None
      case Some((e1, after1)) =>
        if IsRelationCommand(command) then RelationArguments(input, command, e1, after1)
        else Finish(input, command, e1, "", "", after1)
  }

  /** The second entity and the relation name of "addrel" and "delrel", read from `from`. */
  function RelationArguments(input: seq<char>, command: string, e1: string, from: nat): (r: Option<Line>)
    ensures r.Some? ==> r.value.Cmd? && r.value.command == command && r.value.ent1 == e1
    ensures r.Some? ==> from < r.value.next <= |input| && input[r.value.next - 1] == '\n'
  {
    match Field(input, from + 2)
    case None => None
    case Some((e2, after2)) =>
      match Field(input, after2 + 2)
      case None => None
      case Some((rel, after3)) => Finish(input, command, e1, e2, rel, after3)
  }

  /** One do-while loop of getCommand: read a name up to and including its closing '"'. */
  method ReadName(input: seq<char>, from: nat) returns (name: string, next: nat)
    requires Field(input, from).Some?
    ensures (name, next) == Field(input, from).value
  {
    ghost var q := FindFrom(input, from, '"').value;
    name := [];
    next := from;
    var c := CharAt(input, next);
    next := next + 1;
    while c != '"'
      invariant from < next <= q + 1
      invariant c == input[next - 1]
      invariant name == input[from..next - 1]
      decreases q + 1 - next
    {
      name := name + [c];
      c := CharAt(input, next);
      next := next + 1;
    }
  }

  /** The closing loop of getCommand: consume characters up to and including the next '\n'. */
  method SkipLine(input: seq<char>, from: nat) returns (next: nat)
    requires FindFrom(input, from, '\n').Some?
    ensures next == FindFrom(input, from, '\n').value + 1
  {
    ghost var nl := FindFrom(input, from, '\n').value;
    next := from;
    var c := CharAt(input, next);
    next := next + 1;
    while c != '\n'
      invariant from < next <= nl + 1
      invariant c == input[next - 1]
      decreases nl + 1 - next
    {
      c := CharAt(input, next);
      next := next + 1;
    }
  }

  /** The names of a line that is not "end", read after the command. */
  method ReadArguments(input: seq<char>, command: string, from: nat)
    returns (name1: string, name2: string, relName: string, next: nat)
    requires Arguments(input, command, from).Some?
    ensures Arguments(input, command, from) == Some(Cmd(command, name1, name2, relName, next))
  {
    name1, name2, relName, next := "", "", "", from;
    if command != "report" {
      name1, next := ReadName(input, next + 2);
      if IsRelationCommand(command) {
        name2, next := ReadName(input, next + 2);
        relName, next := ReadName(input, next + 2);
      }
    }
    next := SkipLine(input, next);
  }

  /**
   * getCommand: returns 1 on the "end" line, leaving the name buffers as
   * they were, and 0 otherwise, with the names of the line (empty when the
   * command does not take them).
   */
  method GetCommand(input: seq<char>, pos: nat, ent1: string, ent2: string, rel: string)
    returns (r: int, command: string, name1: string, name2: string, relName: string, next: nat)
    requires Scan(input, pos).Some?
    ensures r == 0 || r == 1
    ensures r == 1 ==> Scan(input, pos) == Some(End(command, next))
    ensures r == 1 ==> name1 == ent1 && name2 == ent2 && relName == rel
    ensures r == 0 ==> Scan(input, pos) == Some(Cmd(command, name1, name2, relName, next))
  {
    command := [];
    for i := 0 to 6
      invariant |command| == i
      invariant forall k :: 0 <= k < i ==> command[k] == CharAt(input, pos + k)
    {
      command := command + [CharAt(input, pos + i)];
    }
    assert command == Command(input, pos);
    if IsEnd(command) {
      return 1, command, ent1, ent2, rel, pos + 6;
    }
    name1, name2, relName, next := ReadArguments(input, command, pos + 6);
    r := 0;
  }

  lemma {:induction false} FindFromAt(input: seq<char>, from: nat, q: nat, c: char)
    requires from <= q < |input| && input[q] == c
    requires forall j :: from <= j < q ==> input[j] != c
    ensures FindFrom(input, from, c) == Some(q)
    decreases q - from
  {
    if from < q {
      FindFromAt(input, from + 1, q, c);
    }
  }

  /** `text` occurs in `input` at position `from`. */
  predicate At(input: seq<char>, from: nat, text: seq<char>)
  {
    from + |text| <= |input| && input[from..from + |text|] == text
  }

  lemma AtSuffix(a: seq<char>, b: seq<char>)
    ensures At(a + b, |a|, b)
  {
    assert (a + b)[|a|..] == b;
  }

  lemma AtExtend(s: seq<char>, t: seq<char>, k: nat, text: seq<char>)
    requires At(s, k, text)
    ensures At(s + t, k, text)
  {
    assert (s + t)[k..k + |text|] == s[k..k + |text|];
  }

  lemma AtShift(pre: seq<char>, s: seq<char>, k: nat, text: seq<char>)
    requires At(s, k, text)
    ensures At(pre + s, |pre| + k, text)
  {
    assert (pre + s)[|pre| + k..|pre| + k + |text|] == s[k..k + |text|];
  }

  /** A name followed by its closing quote is read back as itself; reading resumes after the quote. */
  lemma FieldAt(input: seq<char>, from: nat, name: string)
    requires Quotable(name) && At(input, from, name + "\"")
    ensures Field(input, from) == Some((name, from + |name| + 1))
  {
    var q := from + |name|;
    assert input[from..q] == name by {
      assert input[from..q] == input[from..q + 1][..|name|];
    }
    assert input[q] == '"' by {
      assert input[q] == input[from..q + 1][|name|];
    }
    forall j | from <= j < q ensures input[j] != '"' {
      assert input[j] == name[j - from];
    }
    FindFromAt(input, from, q, '"');
  }

  /** A newline at `from` ends the line there. */
  lemma NewlineAt(input: seq<char>, from: nat)
    requires At(input, from, "\n")
    ensures FindFrom(input, from, '\n') == Some(from)
  {
    assert input[from] == input[from..from + 1][0];
  }

  /** A name as it follows the command or the previous name on a line: a space, then the quoted name. */
  function Quoted(name: string): string
  {
    " \"" + (name + "\"")
  }

  /** A name that can be written between quotes and read back: no '"', and it fits its buffer. */
  predicate Quotable(name: string)
  {
    '"' !in name && |name| < MAX_STRING_SIZE
  }

  /** The input line that carries a command other than "end" and its names. */
  function FormatLine(command: string, e1: string, e2: string, rel: string): string
  {
    command +
    if command == "report" then "\n"
    else if IsRelationCommand(command) then Quoted(e1) + (Quoted(e2) + (Quoted(rel) + "\n"))
    else Quoted(e1) + "\n"
  }

  /** Text found inside text found in the input is found in the input. */
  lemma AtWithin(input: seq<char>, pos: nat, t: seq<char>, k: nat, u: seq<char>)
    requires At(input, pos, t) && At(t, k, u)
    ensures At(input, pos + k, u)
  {
    forall i | 0 <= i < |u| ensures input[pos + k + i] == u[i] {
      assert u[i] == t[k..k + |u|][i] == t[k + i];
      assert t[k + i] == input[pos..pos + |t|][k + i] == input[pos + k + i];
    }
    assert input[pos + k..pos + k + |u|] == u;
  }

  /** A line whose command is not "end" is read by Arguments. */
  lemma ScanNotEnd(input: seq<char>, pos: nat, command: string)
    requires |command| == 6 && !IsEnd(command) && At(input, pos, command)
    ensures Scan(input, pos) == Arguments(input, command, pos + 6)
  {
    assert Command(input, pos) == command by {
      forall k | 0 <= k < 6 ensures CharAt(input, pos + k) == command[k] {
        assert input[pos + k] == input[pos..pos + 6][k];
      }
    }
  }

  /**
   * Reading a formatted line back: wherever the line sits in the input, one
   * call of getCommand yields its command and names and stops right after
   * its newline.
   */
  lemma ScanFormatLine(input: seq<char>, pos: nat, command: string, e1: string, e2: string, rel: string)
    requires |command| == 6 && !IsEnd(command)
    requires Quotable(e1) && Quotable(e2) && Quotable(rel)
    requires At(input, pos, FormatLine(command, e1, e2, rel))
    ensures Scan(input, pos) ==
      Some(Cmd(command,
               if command == "report" then "" else e1,
               if IsRelationCommand(command) then e2 else "",
               if IsRelationCommand(command) then rel else "",
               pos + |FormatLine(command, e1, e2, rel)|))
  {
    var line := FormatLine(command, e1, e2, rel);
    assert At(line, 0, command) by {
      assert line[0..6] == command;
    }
    AtWithin(input, pos, line, 0, command);
    ScanNotEnd(input, pos, command);
    if command == "report" {
      ScanReportLine(input, pos);
    } else if IsRelationCommand(command) {
      ScanRelationLine(input, pos, command, e1, e2, rel);
    } else {
      ScanEntityLine(input, pos, command, e1);
    }
  }

  lemma ScanReportLine(input: seq<char>, pos: nat)
    requires At(input, pos, FormatLine("report", "", "", ""))
    ensures Arguments(input, "report", pos + 6) == Some(Cmd("report", "", "", "", pos + 7))
  {
    var line := FormatLine("report", "", "", "");
    assert At(line, 6, "\n") by {
      assert line == "report\n";
    }
    AtWithin(input, pos, line, 6, "\n");
    NewlineAt(input, pos + 6);
  }

  /** Where the name and the newline of a one-name line lie. */
  lemma EntityLineText(command: string, e1: string)
    requires |command| == 6 && command != "report" && !IsRelationCommand(command)
    ensures var line := FormatLine(command, e1, "", "");
      |line| == |e1| + 10 && At(line, 8, e1 + "\"") && At(line, |e1| + 9, "\n")
  {
    var t0 := Quoted(e1) + "\n";
    assert FormatLine(command, e1, "", "") == command + t0;
    AtSuffix(" \"", e1 + "\"");
    AtExtend(Quoted(e1), "\n", 2, e1 + "\"");
    AtShift(command, t0, 2, e1 + "\"");
    AtSuffix(Quoted(e1), "\n");
    AtShift(command, t0, |e1| + 3, "\n");
  }

  lemma ScanEntityLine(input: seq<char>, pos: nat, command: string, e1: string)
    requires |command| == 6 && command != "report" && !IsRelationCommand(command) && Quotable(e1)
    requires At(input, pos, FormatLine(command, e1, "", ""))
    ensures Arguments(input, command, pos + 6) == Some(Cmd(command, e1, "", "", pos + |e1| + 10))
  {
    var line := FormatLine(command, e1, "", "");
    EntityLineText(command, e1);
    AtWithin(input, pos, line, 8, e1 + "\"");
    AtWithin(input, pos, line, |e1| + 9, "\n");
    FieldAt(input, pos + 8, e1);
    NewlineAt(input, pos + |e1| + 9);
  }

  /** Where each name and the newline of a relation line lie. */
  lemma RelationLineText(command: string, e1: string, e2: string, rel: string)
    requires |command| == 6 && IsRelationCommand(command)
    ensures var line := FormatLine(command, e1, e2, rel);
      var a1 := 6 + |e1| + 3;
      var a2 := a1 + |e2| + 3;
      var a3 := a2 + |rel| + 3;
      |line| == a3 + 1 &&
      At(line, 8, e1 + "\"") && At(line, a1 + 2, e2 + "\"") &&
      At(line, a2 + 2, rel + "\"") && At(line, a3, "\n")
  {
    var t1 := Quoted(e2) + (Quoted(rel) + "\n");
    var t0 := Quoted(e1) + t1;
    assert FormatLine(command, e1, e2, rel) == command + t0;
    // the first name
    AtSuffix(" \"", e1 + "\"");
    AtExtend(Quoted(e1), t1, 2, e1 + "\"");
    AtShift(command, t0, 2, e1 + "\"");
    // the rest after the first name
    AfterFirstName(e2, rel);
    AtShift(Quoted(e1), t1, 2, e2 + "\"");
    AtShift(command, t0, |e1| + 3 + 2, e2 + "\"");
    AtShift(Quoted(e1), t1, |e2| + 3 + 2, rel + "\"");
    AtShift(command, t0, |e1| + 3 + |e2| + 3 + 2, rel + "\"");
    AtShift(Quoted(e1), t1, |e2| + 3 + |rel| + 3, "\n");
    AtShift(command, t0, |e1| + 3 + |e2| + 3 + |rel| + 3, "\n");
  }

  /** Where the second name, the relation name and the newline lie after the first name. */
  lemma AfterFirstName(e2: string, rel: string)
    ensures var t1 := Quoted(e2) + (Quoted(rel) + "\n");
      At(t1, 2, e2 + "\"") && At(t1, |e2| + 3 + 2, rel + "\"") && At(t1, |e2| + 3 + |rel| + 3, "\n")
  {
    var t2 := Quoted(rel) + "\n";
    AtSuffix(" \"", e2 + "\"");
    AtExtend(Quoted(e2), t2, 2, e2 + "\"");
    AtSuffix(" \"", rel + "\"");
    AtExtend(Quoted(rel), "\n", 2, rel + "\"");
    AtShift(Quoted(e2), t2, 2, rel + "\"");
    AtSuffix(Quoted(rel), "\n");
    AtShift(Quoted(e2), t2, |rel| + 3, "\n");
  }

  lemma ScanRelationLine(input: seq<char>, pos: nat, command: string, e1: string, e2: string, rel: string)
    requires |command| == 6 && IsRelationCommand(command)
    requires Quotable(e1) && Quotable(e2) && Quotable(rel)
    requires At(input, pos, FormatLine(command, e1, e2, rel))
    ensures Arguments(input, command, pos + 6) ==
      Some(Cmd(command, e1, e2, rel, pos + |FormatLine(command, e1, e2, rel)|))
  {
    var line := FormatLine(command, e1, e2, rel);
    var a1 := pos + 6 + |e1| + 3;
    var a2 := a1 + |e2| + 3;
    var a3 := a2 + |rel| + 3;
    RelationLineText(command, e1, e2, rel);
    AtWithin(input, pos, line, 8, e1 + "\"");
    AtWithin(input, pos, line, a1 - pos + 2, e2 + "\"");
    AtWithin(input, pos, line, a2 - pos + 2, rel + "\"");
    AtWithin(input, pos, line, a3 - pos, "\n");
    RelationFields(input, command, e1, e2, rel, pos + 6, a1, a2, a3);
  }

  /** The composition step of ScanRelationLine, with the input left abstract. */
  lemma RelationFields(input: seq<char>, command: string, e1: string, e2: string, rel: string,
                       from: nat, after1: nat, after2: nat, after3: nat)
    requires command != "report" && IsRelationCommand(command)
    requires Quotable(e1) && Quotable(e2) && Quotable(rel)
    requires after1 == from + |e1| + 3 && after2 == after1 + |e2| + 3 && after3 == after2 + |rel| + 3
    requires At(input, from + 2, e1 + "\"") && At(input, after1 + 2, e2 + "\"")
    requires At(input, after2 + 2, rel + "\"") && At(input, after3, "\n")
    ensures Arguments(input, command, from) == Some(Cmd(command, e1, e2, rel, after3 + 1))
  {
    FieldAt(input, from + 2, e1);
    FieldAt(input, after1 + 2, e2);
    FieldAt(input, after2 + 2, rel);
    NewlineAt(input, after3);
    RelationArgumentsFrom(input, command, e1, e2, rel, from, after1, after2, after3);
  }

  lemma RelationArgumentsFrom(input: seq<char>, command: string, e1: string, e2: string, rel: string,
                              from: nat, after1: nat, after2: nat, after3: nat)
    requires command != "report" && IsRelationCommand(command)
    requires Field(input, from + 2) == Some((e1, after1))
    requires Field(input, after1 + 2) == Some((e2, after2))
    requires Field(input, after2 + 2) == Some((rel, after3))
    requires FindFrom(input, after3, '\n') == Some(after3)
    ensures Arguments(input, command, from) == Some(Cmd(command, e1, e2, rel, after3 + 1))
  {
    assert RelationArguments(input, command, e1, after1) == Some(Cmd(command, e1, e2, rel, after3 + 1));
  }
}
