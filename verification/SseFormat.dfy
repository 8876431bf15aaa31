/** The event-stream text format: the printer of `agent_service/internal/sse/sse.go`, the block
    splitter and block parser of `web/src/api/agent.ts`, and the laws that connect them. */
module SseFormat {
  import opened Options
  import opened Text

  datatype Event = Event(name: string, data: string)

  // ---------------------------------------------------------------- printing

  function Digits(n: nat): string {
    (if n < 10 then "" else Digits(n / 10)) + ["0123456789"[n % 10]]
  }

  /** The `%d` rendering of a nanosecond timestamp. */
  function Decimal(n: int): string {
    if n < 0 then "-" + Digits(-n) else Digits(n)
  }

  function DataLines(lines: seq<string>): seq<string> {
    if lines == [] then [] else ["data: " + lines[0]] + DataLines(lines[1..])
  }

  function FrameLines(id: int, e: Event): seq<string> {
    ["id: " + Decimal(id), "event: " + e.name] + DataLines(SplitOn(e.data, '\n'))
  }

  /** Each line followed by its line feed. */
  function Terminated(lines: seq<string>): string {
    if lines == [] then "" else lines[0] + "\n" + Terminated(lines[1..])
  }

  function Frame(id: int, e: Event): string {
    Terminated(FrameLines(id, e)) + "\n"
  }

  /** `SendToClient`: writes the frame line by line. */
  method SendToClient(writer: string, id: int, e: Event) returns (written: string)
    ensures written == writer + Frame(id, e)
  {
    var lines := SplitOn(e.data, '\n');
    var body := "id: " + Decimal(id) + "\n" + "event: " + e.name + "\n";
    ghost var head := body;
    var i := 0;
    while i < |lines|
      invariant 0 <= i <= |lines|
      invariant body + Terminated(DataLines(lines[i..])) == head + Terminated(DataLines(lines))
    {
      var line := "data: " + lines[i] + "\n";
      assert lines[i..][0] == lines[i] && lines[i..][1..] == lines[i + 1..];
      assert Terminated(DataLines(lines[i..])) == line + Terminated(DataLines(lines[i + 1..]));
      body := body + line;
      i := i + 1;
    }
    FrameText(id, e);
    assert lines[|lines|..] == [] && Terminated([]) == "";
    written := writer + (body + "\n");
  }

  lemma {:induction false} TerminatedAppend(a: seq<string>, b: seq<string>)
    ensures Terminated(a + b) == Terminated(a) + Terminated(b)
  {
    if a == [] {
      assert a + b == b;
    } else {
      assert (a + b)[1..] == a[1..] + b;
      TerminatedAppend(a[1..], b);
    }
  }

  lemma FrameText(id: int, e: Event)
    ensures Frame(id, e) == "id: " + Decimal(id) + "\n" + "event: " + e.name + "\n" +
                            Terminated(DataLines(SplitOn(e.data, '\n'))) + "\n"
  {
    TerminatedAppend(["id: " + Decimal(id), "event: " + e.name], DataLines(SplitOn(e.data, '\n')));
  }

  // --------------------------------------------------------------- splitting

  /** Length of the match of `\r?\n\r?\n` at the start of the text, zero when there is none. */
  function Separator(s: string): (len: nat)
    ensures len <= |s|
  {
    if "\n\n" <= s then 2
    else if "\n\r\n" <= s || "\r\n\n" <= s then 3
    else if "\r\n\r\n" <= s then 4
    else 0
  }

  /** Complete blocks, and the unterminated text after the last of them. */
  datatype Blocks = Blocks(done: seq<string>, rest: string)

  function Push(c: char, b: Blocks): Blocks {
    if b.done == [] then Blocks([], [c] + b.rest)
    else Blocks([[c] + b.done[0]] + b.done[1..], b.rest)
  }

  /** `buffer.split(/\r?\n\r?\n/)` with the last piece popped back into the buffer: a left-to-right
      scan that cuts at the leftmost match. */
  function SplitBlocks(s: string): Blocks
    decreases |s|
  {
    if s == "" then Blocks([], "")
    else if Separator(s) > 0 then
      var tail := SplitBlocks(s[Separator(s)..]);
      Blocks([""] + tail.done, tail.rest)
    else Push(s[0], SplitBlocks(s[1..]))
  }

  lemma SplitStep(s: string)
    requires s != "" && Separator(s) == 0
    ensures SplitBlocks(s) == Push(s[0], SplitBlocks(s[1..]))
  {
  }

  lemma {:induction false} NoBlockYet(s: string)
    ensures SplitBlocks(s).done == [] ==> SplitBlocks(s).rest == s
    decreases |s|
  {
    if s != "" && Separator(s) == 0 {
      NoBlockYet(s[1..]);
      assert s == [s[0]] + s[1..];
    }
  }

  /** Once a block is complete, more text cannot turn an earlier position into a separator. */
  lemma SeparatorIsStable(a: string, b: string)
    requires SplitBlocks(a).done != [] || Separator(a) > 0
    ensures Separator(a + b) == Separator(a)
  {
    assert a <= a + b;
    if Separator(a) == 0 && Separator(a + b) > 0 {
      ProperPrefix(a, a + b);
      ShortHasNoBlock(a);
    }
  }

  lemma ProperPrefix(a: string, s: string)
    requires a <= s && Separator(a) == 0 && Separator(s) > 0
    ensures a in ["", "\n", "\r", "\r\n", "\n\r", "\r\n\r"]
  {
    assert |a| < 4;
    if |a| == 1 { assert a == [s[0]]; }
    if |a| == 2 { assert a == [s[0], s[1]]; }
    if |a| == 3 { assert a == [s[0], s[1], s[2]]; }
  }

  lemma ShortHasNoBlock(a: string)
    requires a in ["", "\n", "\r", "\r\n", "\n\r", "\r\n\r"]
    ensures SplitBlocks(a).done == []
  {
    assert |a| <= 3 && (|a| == 3 ==> a[2] == '\r') && (|a| == 2 ==> a[0] == '\r' || a[1] == '\r');
    assert Separator(a) == 0;
    if a != "" {
      assert a[1..] in ["", "\n", "\r", "\r\n", "\n\r", "\r\n\r"] by {
        assert "\n"[1..] == "" && "\r"[1..] == "" && "\r\n"[1..] == "\n";
        assert "\n\r"[1..] == "\r" && "\r\n\r"[1..] == "\n\r";
      }
      ShortHasNoBlock(a[1..]);
    }
  }

  /** Splitting an extended text is splitting the first part, then its remainder with the rest:
      blocks already delivered are never revised. No assumption on carriage returns is needed. */
  lemma {:induction false} SplitBlocksExtend(a: string, b: string)
    ensures var x := SplitBlocks(a);
            var y := SplitBlocks(x.rest + b);
            SplitBlocks(a + b) == Blocks(x.done + y.done, y.rest)
    decreases |a|
  {
    var x := SplitBlocks(a);
    if x.done == [] {
      NoBlockYet(a);
      assert x.done + SplitBlocks(a + b).done == SplitBlocks(a + b).done;
    } else {
      SeparatorIsStable(a, b);
      var n := if Separator(a) > 0 then Separator(a) else 1;
      assert (a + b)[n..] == a[n..] + b && (a + b)[0] == a[0];
      SplitBlocksExtend(a[n..], b);
      PrependBlocks(x.done, SplitBlocks(a[n..]), SplitBlocks(SplitBlocks(a[n..]).rest + b), a[0]);
    }
  }

  lemma PrependBlocks(done: seq<string>, x: Blocks, y: Blocks, c: char)
    ensures [""] + (x.done + y.done) == ([""] + x.done) + y.done
    ensures x.done != [] ==>
              Push(c, Blocks(x.done + y.done, y.rest)) == Blocks(Push(c, x).done + y.done, y.rest)
  {
    if x.done != [] {
      assert (x.done + y.done)[1..] == x.done[1..] + y.done;
    }
  }

  // ----------------------------------------------------------------- parsing

  /** Drops one trailing carriage return. */
  function Chomp(line: string): string {
    if line != "" && line[|line| - 1] == '\r' then line[..|line| - 1] else line
  }

  /** `block.split(/\r?\n/)`: a carriage return before a line feed goes with the line feed. */
  function SplitLines(block: string): seq<string> {
    var i := IndexOf(block, '\n');
    if i == |block| then [block] else [Chomp(block[..i])] + SplitLines(block[i + 1..])
  }

  /** `line.slice(5).replace(/^ /, "")`. */
  function DataField(line: string): string
    requires "data:" <= line
  {
    if |line| > 5 && line[5] == ' ' then line[6..] else line[5..]
  }

  /** The event name after reading `lines`, starting from `name`. */
  function NameOf(lines: seq<string>, name: string): string {
    if lines == [] then name
    else NameOf(lines[1..], if "event:" <= lines[0] then Trim(JsSpace, lines[0][6..]) else name)
  }

  function DataOf(lines: seq<string>): seq<string> {
    if lines == [] then []
    else (if "data:" <= lines[0] then [DataField(lines[0])] else []) + DataOf(lines[1..])
  }

  function ParseBlock(block: string): Option<Event> {
    var lines := SplitLines(block);
    var data := DataOf(lines);
    if data == [] then None else Some(Event(NameOf(lines, "message"), Join(data, "\n")))
  }

  /** `parseSseBlock`: one pass over the lines, with the event name overwritten and data pushed. */
  method ParseSseBlock(block: string) returns (parsed: Option<Event>)
    ensures parsed == ParseBlock(block)
  {
    hide SplitLines;
    hide Trim;
    hide JsSpace;
    var lines := SplitLines(block);
    var name := "message";
    var data: seq<string> := [];
    var i := 0;
    while i < |lines|
      invariant 0 <= i <= |lines|
      invariant NameOf(lines[i..], name) == NameOf(lines, "message")
      invariant data + DataOf(lines[i..]) == DataOf(lines)
    {
      var line := lines[i];
      LineStep(lines, i, name);
      hide NameOf;
      hide DataOf;
      if "event:" <= line { name := Trim(JsSpace, line[6..]); }
      if "data:" <= line { data := data + [DataField(line)]; }
      i := i + 1;
    }
    assert lines[|lines|..] == [] && data == DataOf(lines);
    if data == [] { return None; }
    return Some(Event(name, Join(data, "\n")));
  }

  lemma LineStep(lines: seq<string>, i: nat, name: string)
    requires i < |lines|
    ensures NameOf(lines[i..], name) ==
            NameOf(lines[i + 1..], if "event:" <= lines[i] then Trim(JsSpace, lines[i][6..]) else name)
    ensures DataOf(lines[i..]) ==
            (if "data:" <= lines[i] then [DataField(lines[i])] else []) + DataOf(lines[i + 1..])
  {
    hide Trim;
    hide DataField;
    assert lines[i..][0] == lines[i] && lines[i..][1..] == lines[i + 1..];
  }

  // ------------------------------------------------------------ the framing law

  /** A line that cannot be mistaken for a block end: no line feed, and not starting with CR. */
  predicate Solid(line: string) {
    line != "" && line[0] != '\r' && '\n' !in line
  }

  /** The text of a block made of `lines`: the carriage return that ends the last line, if any,
      belongs to the separator. */
  function BlockText(lines: seq<string>): string
    requires lines != []
  {
    if |lines| == 1 then Chomp(lines[0]) else lines[0] + "\n" + BlockText(lines[1..])
  }

  lemma NoSeparatorEnd(line: string, rest: string)
    requires line != "" && line != "\r" && '\n' !in line
    ensures Separator(line + "\n\n" + rest) == 0
  {
    var s := line + "\n\n" + rest;
    assert s[0] == line[0] && line[0] in line;
    if |line| > 1 {
      assert s[1] == line[1] && line[1] in line;
    } else {
      assert line == [line[0]];
    }
  }

  /** The last line of a frame: the separator takes its carriage return with it. */
  lemma {:induction false} EndLine(line: string, rest: string)
    requires '\n' !in line
    ensures SplitBlocks(line + "\n\n" + rest) ==
            Blocks([Chomp(line)] + SplitBlocks(rest).done, SplitBlocks(rest).rest)
  {
    hide Separator;
    hide SplitBlocks;
    if line == "" || line == "\r" {
      SeparatorFirst(line, rest);
    } else {
      NoSeparatorEnd(line, rest);
      SplitStep(line + "\n\n" + rest);
      TailOfText(line, "\n\n", rest);
      hide Push;
      EndLine(line[1..], rest);
      ChompTail(line);
      PushOntoFirst(line[0], Chomp(line[1..]), SplitBlocks(rest).done, SplitBlocks(rest).rest);
    }
  }

  lemma TailOfText(line: string, end: string, rest: string)
    requires line != ""
    ensures var s := line + end + rest; s != "" && s[0] == line[0] && s[1..] == line[1..] + end + rest
  {
  }

  lemma ChompTail(line: string)
    requires line != "" && line != "\r"
    ensures Chomp(line) == [line[0]] + Chomp(line[1..])
  {
    if |line| == 1 { assert line == [line[0]]; }
  }

  lemma PushOntoFirst(c: char, first: string, more: seq<string>, rest: string)
    ensures Push(c, Blocks([first] + more, rest)) == Blocks([[c] + first] + more, rest)
  {
    assert ([first] + more)[1..] == more;
  }

  lemma SeparatorFirst(line: string, rest: string)
    requires line == "" || line == "\r"
    ensures SplitBlocks(line + "\n\n" + rest) == Blocks([""] + SplitBlocks(rest).done, SplitBlocks(rest).rest)
  {
    var s := line + "\n\n" + rest;
    if line == "" {
      assert s[..2] == "\n\n" && s[2..] == rest;
    } else {
      assert s[..3] == "\r\n\n" && s[3..] == rest;
      assert s[0] == '\r';
      assert Separator(s) == 3;
    }
  }

  lemma NoSeparator(line: string, u: string)
    requires line != "" && '\n' !in line && u != "" && u[0] == '\n'
    requires Separator("\r" + u) == 0
    ensures Separator(line + u) == 0
  {
    var s := line + u;
    assert s[0] == line[0] && line[0] in line;
    if |line| > 1 {
      assert s[1] == line[1] && line[1] in line;
    } else {
      assert line == "\r" ==> s == "\r" + u;
    }
  }

  /** A line before text that starts no separator joins the first block of that text. */
  lemma {:induction false} PrependLine(line: string, u: string)
    requires '\n' !in line && u != "" && u[0] == '\n'
    requires Separator("\r" + u) == 0
    requires SplitBlocks(u).done != []
    ensures var x := SplitBlocks(u);
            SplitBlocks(line + u) == Blocks([line + x.done[0]] + x.done[1..], x.rest)
  {
    var x := SplitBlocks(u);
    if line == "" {
      assert line + u == u && line + x.done[0] == x.done[0];
    } else {
      NoSeparator(line, u);
      SplitStep(line + u);
      hide Separator;
      hide SplitBlocks;
      hide Push;
      TailOfText(line, u, "");
      assert line + u + "" == line + u && line[1..] + u + "" == line[1..] + u;
      PrependLine(line[1..], u);
      PushOntoFirst(line[0], line[1..] + x.done[0], x.done[1..], x.rest);
      HeadOfText(line, x.done[0]);
    }
  }

  lemma HeadOfText(line: string, rest: string)
    requires line != ""
    ensures [line[0]] + (line[1..] + rest) == line + rest
  {
  }

  /** Before text that is not a line end, a line feed ends no block: the first block of the whole
      starts with the line. */
  lemma SplitAfterLine(line: string, t: string)
    requires '\n' !in line
    requires t != "" && t[0] != '\r' && t[0] != '\n'
    requires SplitBlocks(t).done != []
    ensures var x := SplitBlocks(t);
            SplitBlocks(line + "\n" + t) == Blocks([line + "\n" + x.done[0]] + x.done[1..], x.rest)
  {
    var u := "\n" + t;
    var x := SplitBlocks(t);
    assert u[1] == t[0] && u[1..] == t && Separator(u) == 0;
    assert ("\r" + u)[0] == '\r' && ("\r" + u)[1] == '\n' && ("\r" + u)[2] == t[0];
    PrependLine(line, u);
    SplitStep(u);
    hide SplitBlocks;
    hide Separator;
    assert line + u == line + "\n" + t;
    assert line + ("\n" + x.done[0]) == line + "\n" + x.done[0];
  }

  /** A frame of solid lines is cut off as exactly one block, whatever follows it; in particular
      its only blank line is its last one. */
  lemma {:induction false} FrameIsOneBlock(lines: seq<string>, rest: string)
    requires lines != [] && forall line | line in lines :: Solid(line)
    ensures SplitBlocks(Terminated(lines) + "\n" + rest) ==
            Blocks([BlockText(lines)] + SplitBlocks(rest).done, SplitBlocks(rest).rest)
  {
    assert lines[0] in lines;
    if |lines| == 1 {
      assert Terminated(lines) + "\n" + rest == lines[0] + "\n\n" + rest;
      EndLine(lines[0], rest);
    } else {
      assert lines[1] in lines;
      var t := Terminated(lines[1..]) + "\n" + rest;
      assert Terminated(lines) + "\n" + rest == lines[0] + "\n" + t;
      FrameIsOneBlock(lines[1..], rest);
      assert t[0] == lines[1][0];
      SplitAfterLine(lines[0], t);
    }
  }

  function Chomped(lines: seq<string>): seq<string> {
    if lines == [] then [] else [Chomp(lines[0])] + Chomped(lines[1..])
  }

  lemma {:induction false} BlockTextLines(lines: seq<string>)
    requires lines != [] && forall line | line in lines :: Solid(line)
    ensures SplitLines(BlockText(lines)) == Chomped(lines)
  {
    assert lines[0] in lines;
    var block := BlockText(lines);
    if |lines| == 1 {
      assert IndexOf(block, '\n') == |block|;
    } else {
      assert forall k | 0 <= k < |lines[0]| :: block[k] == lines[0][k];
      assert block[|lines[0]|] == '\n';
      assert IndexOf(block, '\n') == |lines[0]|;
      assert block[..|lines[0]|] == lines[0];
      assert block[|lines[0]| + 1..] == BlockText(lines[1..]);
      BlockTextLines(lines[1..]);
    }
  }

  lemma {:induction false} DigitsAreDigits(n: nat)
    ensures forall c | c in Digits(n) :: '0' <= c <= '9'
  {
    if n >= 10 { DigitsAreDigits(n / 10); }
  }

  lemma {:induction false} DataLinesSolid(lines: seq<string>)
    requires forall line | line in lines :: '\n' !in line
    ensures forall line | line in DataLines(lines) :: Solid(line)
  {
    if lines != [] {
      assert lines[0] in lines;
      DataLinesSolid(lines[1..]);
    }
  }

  lemma FrameLinesSolid(id: int, e: Event)
    requires '\n' !in e.name
    ensures forall line | line in FrameLines(id, e) :: Solid(line)
  {
    DigitsAreDigits(if id < 0 then -id else id);
    SplitJoin(e.data, '\n');
    DataLinesSolid(SplitOn(e.data, '\n'));
  }

  // --------------------------------------------------------------- round trip

  /** What survives of `data`: every line loses one trailing carriage return. */
  function Clean(data: string): string {
    Join(Chomped(SplitOn(data, '\n')), "\n")
  }

  /** No carriage return ends a line: none is last, none stands directly before a line feed. */
  predicate NoCrAtLineEnd(data: string) {
    forall i | 0 <= i < |data| && data[i] == '\r' :: i + 1 < |data| && data[i + 1] != '\n'
  }

  lemma CleanLine(line: string)
    requires '\n' !in line
    ensures Clean(line) == Chomp(line)
    ensures NoCrAtLineEnd(line) <==> Chomp(line) == line
  {
    assert SplitOn(line, '\n') == [line];
    assert Chomped([line]) == [Chomp(line)];
    assert forall k | 0 <= k < |line| :: line[k] in line;
  }

  lemma CleanCons(head: string, tail: string)
    requires '\n' !in head
    ensures Clean(head + "\n" + tail) == Chomp(head) + "\n" + Clean(tail)
  {
    var data := head + "\n" + tail;
    var parts := SplitOn(tail, '\n');
    assert forall k | 0 <= k < |head| :: data[k] == head[k] && head[k] in head;
    assert data[|head|] == '\n' && IndexOf(data, '\n') == |head|;
    assert data[..|head|] == head && data[|head| + 1..] == tail;
    assert SplitOn(data, '\n') == [head] + parts;
    ChompedCons(head, parts);
    assert ([Chomp(head)] + Chomped(parts))[1..] == Chomped(parts);
  }

  /** Cleaning never lengthens, and keeps exactly the texts without a CR at a line end. */
  lemma {:induction false} CleanKeeps(data: string)
    ensures |Clean(data)| <= |data|
    ensures Clean(data) == data <==> NoCrAtLineEnd(data)
    ensures |Clean(data)| == |data| ==> Clean(data) == data
  {
    hide Clean;
    hide NoCrAtLineEnd;
    var i := IndexOf(data, '\n');
    if i == |data| {
      CleanLine(data);
    } else {
      var head, tail := data[..i], data[i + 1..];
      assert data == head + "\n" + tail;
      CleanKeeps(tail);
      CleanCons(head, tail);
      NoCrSplit(head, tail);
      if Chomp(head) == head && Clean(data) == data {
        assert Clean(data)[i + 1..] == Clean(tail) && data[i + 1..] == tail;
      } else if Chomp(head) != head {
        assert |Clean(data)| < |data|;
      }
    }
  }

  lemma NoCrSplit(head: string, tail: string)
    requires '\n' !in head
    ensures NoCrAtLineEnd(head + "\n" + tail) <==> Chomp(head) == head && NoCrAtLineEnd(tail)
  {
    var s := head + "\n" + tail;
    var n := |head| + 1;
    assert forall k | 0 <= k < |head| :: s[k] == head[k] && head[k] != '\n';
    assert s[|head|] == '\n';
    assert forall k | 0 <= k < |tail| :: s[n + k] == tail[k];
    if NoCrAtLineEnd(s) {
      if head != "" { assert s[|head| - 1] == head[|head| - 1]; }
      forall k | 0 <= k < |tail| && tail[k] == '\r'
        ensures k + 1 < |tail| && tail[k + 1] != '\n'
      {
        assert s[n + k] == '\r';
        assert n + k + 1 < |s| && s[n + k + 1] != '\n';
        assert s[n + (k + 1)] == tail[k + 1];
      }
    }
    if Chomp(head) == head && NoCrAtLineEnd(tail) {
      forall k | 0 <= k < |s| && s[k] == '\r' ensures k + 1 < |s| && s[k + 1] != '\n' {
        if k >= n {
          assert tail[k - n] == '\r';
          assert s[n + (k - n + 1)] == tail[k - n + 1];
        }
      }
    }
  }

  lemma {:induction false} DataLinesParse(lines: seq<string>)
    ensures DataOf(Chomped(DataLines(lines))) == Chomped(lines)
    ensures forall name :: NameOf(Chomped(DataLines(lines)), name) == name
  {
    if lines != [] {
      var printed := "data: " + lines[0];
      assert Chomp(printed) == "data: " + Chomp(lines[0]);
      assert DataLines(lines)[0] == printed && DataLines(lines)[1..] == DataLines(lines[1..]);
      var c := Chomped(DataLines(lines));
      assert c[0] == "data: " + Chomp(lines[0]) && c[1..] == Chomped(DataLines(lines[1..]));
      assert "data:" <= c[0] && c[0][0] == 'd';
      assert DataField(c[0]) == Chomp(lines[0]);
      DataLinesParse(lines[1..]);
    }
  }

  lemma NameLineParse(space: char -> bool, name: string)
    requires space(' ') && space('\r')
    ensures var line := Chomp("event: " + name);
            "event:" <= line && !("data:" <= line) && Trim(space, line[6..]) == Trim(space, name)
  {
    var line := Chomp("event: " + name);
    assert line == "event: " + Chomp(name);
    assert line[0] == 'e';
    assert line[6..] == " " + Chomp(name);
    assert (" " + Chomp(name))[1..] == Chomp(name);
    if Chomp(name) != name {
      assert name == Chomp(name) + "\r";
      TrimDropsTrailing(space, Chomp(name), '\r');
    }
  }

  /** The lines of a printed frame, after the splitter removed their carriage returns, parse to
      the trimmed event name and the cleaned data. */
  lemma FrameLinesParse(id: int, e: Event)
    ensures var c := Chomped(FrameLines(id, e));
            NameOf(c, "message") == Trim(JsSpace, e.name) && DataOf(c) == Chomped(SplitOn(e.data, '\n'))
  {
    var lines := FrameLines(id, e);
    var data := DataLines(SplitOn(e.data, '\n'));
    var nameLine := "event: " + e.name;
    assert lines == ["id: " + Decimal(id)] + ([nameLine] + data);
    var c := Chomped(lines);
    ChompedCons("id: " + Decimal(id), [nameLine] + data);
    ChompedCons(nameLine, data);
    var idLine := Chomp("id: " + Decimal(id));
    assert c == [idLine, Chomp(nameLine)] + Chomped(data);
    assert idLine[0] == 'i';
    NameLineParse(JsSpace, e.name);
    DataLinesParse(SplitOn(e.data, '\n'));
    PairParse(idLine, Chomp(nameLine), Chomped(data));
  }

  lemma PairParse(a: string, b: string, lines: seq<string>)
    requires !("event:" <= a) && !("data:" <= a) && "event:" <= b && !("data:" <= b)
    ensures NameOf([a, b] + lines, "message") == NameOf(lines, Trim(JsSpace, b[6..]))
    ensures DataOf([a, b] + lines) == DataOf(lines)
  {
    assert ([a, b] + lines)[1..] == [b] + lines && ([b] + lines)[1..] == lines;
  }

  lemma ChompedCons(line: string, lines: seq<string>)
    ensures Chomped([line] + lines) == [Chomp(line)] + Chomped(lines)
  {
  }

  /** Splitting a stream that starts with a printed frame takes off one block, and parsing it
      gives the trimmed event name and the cleaned data. */
  lemma FrameParses(id: int, e: Event, rest: string)
    requires '\n' !in e.name
    ensures var block := BlockText(FrameLines(id, e));
            SplitBlocks(Frame(id, e) + rest) ==
              Blocks([block] + SplitBlocks(rest).done, SplitBlocks(rest).rest) &&
            ParseBlock(block) == Some(Event(Trim(JsSpace, e.name), Clean(e.data)))
  {
    var lines := FrameLines(id, e);
    FrameLinesSolid(id, e);
    FrameIsOneBlock(lines, rest);
    BlockTextLines(lines);
    FrameLinesParse(id, e);
  }

  /** Printing then parsing one frame gives the event back exactly when its name is trimmed and
      no carriage return ends a line of its data. */
  lemma RoundTrip(id: int, e: Event)
    requires '\n' !in e.name
    ensures SplitBlocks(Frame(id, e)).rest == "" && |SplitBlocks(Frame(id, e)).done| == 1
    ensures ParseBlock(SplitBlocks(Frame(id, e)).done[0]) == Some(e) <==>
            Trimmed(JsSpace, e.name) && NoCrAtLineEnd(e.data)
  {
    FrameParses(id, e, "");
    assert Frame(id, e) + "" == Frame(id, e);
    TrimIsTrimmed(JsSpace, e.name);
    CleanKeeps(e.data);
  }

  // ---------------------------------------------------------- in the source's words

  /** The match of the separator expression: a line feed, twice, each with or without a carriage return
      before it. */
  lemma SeparatorMeans(s: string)
    ensures Separator(s) > 0 <==> exists first, second | first in ["", "\r"] && second in ["", "\r"] ::
              first + "\n" + second + "\n" <= s
    ensures Separator(s) > 0 ==> exists first, second | first in ["", "\r"] && second in ["", "\r"] ::
              first + "\n" + second + "\n" == s[..Separator(s)]
  {
    assert "" + "\n" + "" + "\n" == "\n\n" && "" + "\n" + "\r" + "\n" == "\n\r\n";
    assert "\r" + "\n" + "" + "\n" == "\r\n\n" && "\r" + "\n" + "\r" + "\n" == "\r\n\r\n";
    var n := Separator(s);
    if "\n\n" <= s {
      assert "" + "\n" + "" + "\n" == s[..n];
    } else if "\n\r\n" <= s {
      assert "" + "\n" + "\r" + "\n" == s[..n];
    } else if "\r\n\n" <= s {
      assert "\r" + "\n" + "" + "\n" == s[..n];
    } else if "\r\n\r\n" <= s {
      assert "\r" + "\n" + "\r" + "\n" == s[..n];
    }
  }

  /** Text without a separator anywhere is all remainder. */
  lemma {:induction false} NoSeparatorNoBlock(s: string)
    requires forall k | 0 <= k < |s| :: Separator(s[k..]) == 0
    ensures SplitBlocks(s) == Blocks([], s)
  {
    if s != "" {
      assert s[0..] == s;
      forall k | 0 <= k < |s[1..]| ensures Separator(s[1..][k..]) == 0 { assert s[1..][k..] == s[k + 1..]; }
      hide Separator;
      NoSeparatorNoBlock(s[1..]);
      assert s == [s[0]] + s[1..];
    }
  }

  /** The first separator ends the first block, and the rest of the text is split in the same way. */
  lemma {:induction false} CutsAtFirstSeparator(s: string, i: nat)
    requires i < |s| && Separator(s[i..]) > 0 && forall k | 0 <= k < i :: Separator(s[k..]) == 0
    ensures var n := i + Separator(s[i..]);
            var rest := SplitBlocks(s[n..]);
            SplitBlocks(s) == Blocks([s[..i]] + rest.done, rest.rest)
    decreases i
  {
    hide Separator;
    var n := i + Separator(s[i..]);
    assert s[0..] == s;
    if i > 0 {
      SplitStep(s);
      hide SplitBlocks;
      hide Push;
      assert s[1..][i - 1..] == s[i..] && s[1..][n - 1..] == s[n..];
      forall k | 0 <= k < i - 1 ensures Separator(s[1..][k..]) == 0 { assert s[1..][k..] == s[k + 1..]; }
      CutsAtFirstSeparator(s[1..], i - 1);
      var rest := SplitBlocks(s[n..]);
      PushOntoFirst(s[0], s[1..][..i - 1], rest.done, rest.rest);
      assert [s[0]] + s[1..][..i - 1] == s[..i];
    }
  }

  /** A data line with or without the one optional space, an event line, and any other line. */
  lemma LinesMean(text: string)
    ensures (text == "" || text[0] != ' ') ==> DataOf(["data:" + text]) == [text]
    ensures DataOf(["data: " + text]) == [text]
    ensures NameOf(["event:" + text], "message") == Trim(JsSpace, text)
    ensures !("data:" <= text) ==> DataOf([text]) == []
    ensures !("event:" <= text) ==> NameOf([text], "message") == "message"
  {
    hide Trim;
    var a, b, c := "data:" + text, "data: " + text, "event:" + text;
    assert a[5..] == text && b[6..] == text && b[5] == ' ' && c[6..] == text && (text != "" ==> a[5] == text[0]);
    assert forall line: string :: [line][1..] == [];
  }

  /** The number that a row of digits stands for. */
  function Number(digits: string): int {
    if digits == "" then 0 else 10 * Number(digits[..|digits| - 1]) + (digits[|digits| - 1] as int - '0' as int)
  }

  /** The id of a frame can be read back. */
  lemma {:induction false} DigitsStandForNumber(n: nat)
    ensures Digits(n) != "" && Number(Digits(n)) == n
  {
    var d := "0123456789"[n % 10];
    assert d as int - '0' as int == n % 10;
    if n < 10 {
      assert Digits(n) == [d] && Number([d][..0]) == 0;
    } else {
      DigitsStandForNumber(n / 10);
      assert Digits(n)[..|Digits(n)| - 1] == Digits(n / 10);
    }
  }
}
