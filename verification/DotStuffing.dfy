/** Message transparency: what a client dot-stuffs is what the server hands on. */
module DotStuffing {
  import opened Text
  import opened LmtpProtocol

  /** The client's half of section 4.5.2 of RFC 5321. */
  function Stuffed(line: string): string { if HasPrefix(line, ".") then "." + line else line }

  function WireLine(line: string): string { Stuffed(line) + "\r\n" }

  /** A message as it goes over the wire: its lines, stuffed, and the lone dot. */
  function Wire(lines: seq<string>): string {
    if lines == [] then ".\r\n" else WireLine(lines[0]) + Wire(lines[1..])
  }

  /** A line the reader neither splits nor shortens. */
  predicate Clean(line: string) { '\n' !in line && (line == "" || line[|line| - 1] != '\r') }

  /** A line as ReadString returns it: up to the first line feed. */
  predicate IsLine(s: string) { s != "" && s[|s| - 1] == '\n' && '\n' !in s[..|s| - 1] }

  // ----- Reading lines -----

  lemma SplitFirst(line: string, rest: string)
    requires IsLine(line)
    ensures SplitLines(line + rest) == [line] + SplitLines(rest)
  {
    var a := line[..|line| - 1];
    assert line == a + ['\n'];
    FirstSplit(a, '\n', rest);
    assert line + rest == a + ['\n'] + rest;
    assert (line + rest)[..|a| + 1] == line;
  }

  lemma {:induction false} EachIsLine(s: string, k: nat)
    requires k < |SplitLines(s)|
    ensures IsLine(SplitLines(s)[k])
  {
    FirstCut(s, '\n');
    var i := Index(s, "\n");
    AtChar(s, '\n', i);
    if k == 0 {
      assert s[..i + 1][..i] == s[..i];
    } else {
      EachIsLine(s[i + 1..], k - 1);
    }
  }

  // ----- One line -----

  lemma TrimAppended(s: string)
    ensures TrimLineEnd(s + "\r\n") == TrimLineEnd(s)
  {
    assert (s + "\r\n")[..|s| + 1] == s + "\r";
    assert (s + "\r")[..|s|] == s;
  }

  lemma {:induction false} TrimAfterDot(s: string)
    requires s != "" && s[0] == '.'
    ensures TrimLineEnd("." + s) == "." + TrimLineEnd(s) && TrimLineEnd(s) != ""
  {
    if IsLineEnd(s[|s| - 1]) {
      assert ("." + s)[..|s|] == "." + s[..|s| - 1];
      TrimAfterDot(s[..|s| - 1]);
    }
  }

  /** No stuffed line looks like the dot, and unstuffing takes the added dot away. */
  lemma Unstuffing(line: string)
    ensures !IsDot(WireLine(line)) && Unstuffed(WireLine(line)) == TrimLineEnd(line)
  {
    hide TrimLineEnd;
    TrimAppended(Stuffed(line));
    var t := TrimLineEnd(line);
    if HasPrefix(line, ".") {
      assert line[0] == '.';
      TrimAfterDot(line);
      assert t[0] == '.';
      assert ("." + t)[..2] == "..";
      assert ("." + t)[1..] == t;
    } else {
      assert t != "" ==> t[0] == line[0];
    }
  }

  lemma CleanWireLine(line: string)
    requires '\n' !in line
    ensures IsLine(WireLine(line)) && (TrimLineEnd(line) == line <==> Clean(line))
  {
    var s := WireLine(line);
    assert s[..|s| - 1] == Stuffed(line) + "\r";
  }

  /** Whatever is read from the wire is clean. */
  lemma ReadIsClean(line: string)
    requires IsLine(line)
    ensures Clean(Unstuffed(line))
  {
    var t := TrimLineEnd(line);
    assert |t| < |line| && t == line[..|line| - 1][..|t|];
    assert forall c :: c in t ==> c in line[..|line| - 1];
    assert HasPrefix(t, "..") ==> |t| >= 2 && t[1..][|t| - 2] == t[|t| - 1];
  }

  /** A stuffed line is read as one line, is not taken for the end of the message and
      comes out as it went in, if and only if it is clean. */
  lemma LineSurvives(line: string)
    ensures Clean(line) <==>
      && SplitLines(WireLine(line)) == [WireLine(line)]
      && !IsDot(WireLine(line)) && Unstuffed(WireLine(line)) == line
  {
    hide Unstuffed, IsDot, Clean, SplitLines, WireLine;
    var w := WireLine(line);
    Unstuffing(line);
    if Clean(line) {
      CleanHasNoLF(line);
      CleanWireLine(line);
      SplitFirst(w, "");
      assert w + "" == w;
      NothingSplit();
    } else if SplitLines(w) == [w] {
      EachIsLine(w, 0);
      ReadIsClean(w);
    }
  }

  lemma CleanHasNoLF(line: string)
    requires Clean(line)
    ensures '\n' !in line
  {
  }

  lemma NothingSplit()
    ensures SplitLines("") == []
  {
  }

  // ----- A whole message -----

  /** The lines the reader sees, if it sees the lines the client means. */
  function WireLines(lines: seq<string>): seq<string> {
    if lines == [] then [".\r\n"] else [WireLine(lines[0])] + WireLines(lines[1..])
  }

  lemma {:induction false} WireSplits(lines: seq<string>, rest: string)
    requires forall i :: 0 <= i < |lines| ==> Clean(lines[i])
    ensures SplitLines(Wire(lines) + rest) == WireLines(lines) + SplitLines(rest)
  {
    hide SplitLines, WireLine;
    if lines == [] {
      SplitFirst(".\r\n", rest);
    } else {
      CleanHasNoLF(lines[0]);
      CleanWireLine(lines[0]);
      SplitFirst(WireLine(lines[0]), Wire(lines[1..]) + rest);
      assert Wire(lines) + rest == WireLine(lines[0]) + (Wire(lines[1..]) + rest);
      WireSplits(lines[1..], rest);
    }
  }

  lemma {:induction false} WireLineAt(lines: seq<string>, i: nat)
    requires i <= |lines|
    ensures |WireLines(lines)| == |lines| + 1
    ensures WireLines(lines)[i] == if i < |lines| then WireLine(lines[i]) else ".\r\n"
  {
    hide WireLine;
    if lines != [] {
      WireLineAt(lines[1..], if i == 0 then 0 else i - 1);
    }
  }

  lemma DotIsDot()
    ensures IsDot(".\r\n")
  {
    TrimAppended(".");
    assert ".\r\n" == "." + "\r\n";
  }

  lemma BodyLine(body: seq<string>, results: seq<bool>, span: seq<string>, i: nat)
    requires Consumes(Message(body, results), span)
    ensures |span| == |body| + 2 && IsDot(span[|body| + 1])
    ensures i < |body| ==> !IsDot(span[i + 1]) && body[i] == Unstuffed(span[i + 1])
  {
    hide Parse, IsDot, Unstuffed;
    assert i < |body| ==> body[i] == Unstuffed(span[i + 1]);
  }

  lemma PrefixAt(a: seq<string>, b: seq<string>, k: nat)
    ensures k < |a| ==> (a + b)[k] == a[k]
  {
  }

  /** A message of clean lines ends at the client's dot and arrives line for line. */
  lemma CleanMessage(cmd: string, lines: seq<string>, rest: string,
                     body: seq<string>, results: seq<bool>, span: seq<string>, rest': seq<string>)
    requires IsLine(cmd) && forall i :: 0 <= i < |lines| ==> Clean(lines[i])
    requires SplitLines(cmd + Wire(lines) + rest) == span + rest'
    requires Consumes(Message(body, results), span)
    ensures body == lines && span == [cmd] + WireLines(lines) && rest' == SplitLines(rest)
  {
    hide Consumes, Wire, WireLines, WireLine, SplitLines, Clean, IsLine, Unstuffed, IsDot;
    var n, m := |lines|, |body|;
    var stream := span + rest';
    assert cmd + Wire(lines) + rest == cmd + (Wire(lines) + rest);
    SplitFirst(cmd, Wire(lines) + rest);
    WireSplits(lines, rest);
    WireLineAt(lines, n);
    assert stream == [cmd] + WireLines(lines) + SplitLines(rest);
    DotIsDot();
    BodyLine(body, results, span, n);
    PrefixAt(span, rest', n + 1);
    PrefixAt(span, rest', m + 1);
    assert stream[n + 1] == WireLines(lines)[n];
    WireLineAt(lines, if m < n then m else n);
    Unstuffing(if m < n then lines[m] else "");
    assert m == n;
    forall i | 0 <= i < n ensures body[i] == lines[i] {
      BodyLine(body, results, span, i);
      WireLineAt(lines, i);
      assert span[i + 1] == stream[i + 1] == WireLines(lines)[i];
      LineSurvives(lines[i]);
    }
    assert span == stream[..n + 2] && rest' == stream[n + 2..];
  }

  /** The client sends DATA, a stuffed message and then `rest`. What the server takes for
      the message is line for line the client's if and only if no line contains a line
      feed or ends in a carriage return; and then it also ends at the client's dot. */
  lemma MessageSurvives(cmd: string, lines: seq<string>, rest: string,
                        body: seq<string>, results: seq<bool>, span: seq<string>, rest': seq<string>)
    requires IsLine(cmd) && SplitLines(cmd + Wire(lines) + rest) == span + rest'
    requires Consumes(Message(body, results), span)
    ensures body == lines <==> forall i :: 0 <= i < |lines| ==> Clean(lines[i])
    ensures body == lines ==> span == [cmd] + WireLines(lines) && rest' == SplitLines(rest)
  {
    hide Consumes, Wire, SplitLines, Clean, IsLine, Unstuffed, IsDot;
    forall i | 0 <= i < |body| ensures Clean(body[i]) {
      BodyLine(body, results, span, i);
      EachIsLine(cmd + Wire(lines) + rest, i + 1);
      ReadIsClean(span[i + 1]);
    }
    if forall i :: 0 <= i < |lines| ==> Clean(lines[i]) {
      CleanMessage(cmd, lines, rest, body, results, span, rest');
    }
  }

  /** A line feed inside a line can end the message: of this one the server takes "x" for
      the message, and the client's own dot for a command. */
  lemma LineFeedEndsMessage(results: seq<bool>)
    ensures var stream := SplitLines("DATA\r\n" + Wire(["x\n."]) + "");
      && stream == ["DATA\r\n", "x\n", ".\r\n"] + [".\r\n"]
      && Consumes(Message(["x"], results), ["DATA\r\n", "x\n", ".\r\n"])
  {
    hide SplitLines;
    hide Wire;
    WireOfTwo();
    assert "DATA\r\n" + Wire(["x\n."]) + "" == "DATA\r\n" + ("x\n" + (".\r\n" + (".\r\n" + "")));
    SplitFirst("DATA\r\n", "x\n" + (".\r\n" + (".\r\n" + "")));
    SplitFirst("x\n", ".\r\n" + (".\r\n" + ""));
    SplitFirst(".\r\n", ".\r\n" + "");
    SplitFirst(".\r\n", "");
    NothingSplit();
    DotIsDot();
    DataLine();
    PlainLine();
    hide Parse, IsDot, Unstuffed;
  }

  lemma WireOfTwo()
    ensures Wire(["x\n."]) == "x\n" + (".\r\n" + (".\r\n" + ""))
  {
    var lines := ["x\n."];
    assert lines[1..] == [];
    assert lines[0][..1][0] == 'x';
    assert WireLine(lines[0]) == "x\n." + "\r\n";
  }

  lemma DataLine()
    ensures Parse("DATA\r\n") == Data
  {
    TrimAppended("DATA");
    assert "DATA\r\n" == "DATA" + "\r\n";
    var i := Index("DATA", " ");
    AtChar("DATA", ' ', i);
    assert Upper("DATA") == "DATA";
  }

  lemma PlainLine()
    ensures !IsDot("x\n") && Unstuffed("x\n") == "x"
  {
    assert "x\n"[..1] == "x";
  }
}
