/** The client's side of an LMTP session: how it prints commands, in any letter case, and
    what it means by them. None of it consults the server's parser. */
module LmtpClient {
  import opened Wrappers
  import opened Text
  import opened LmtpProtocol
  import opened LmtpDialogue
  import opened DotStuffing

  // ----- Words -----

  /** `word` is `verb` in any letter case. */
  predicate Spells(word: string, verb: string) {
    && |word| == |verb|
    && forall i :: 0 <= i < |verb| ==>
         word[i] == verb[i] || ('A' <= verb[i] <= 'Z' && word[i] == verb[i] - 'A' + 'a')
  }

  /** `verb` with the letters at positions `lower` in lower case. */
  function Cased(verb: string, lower: set<nat>): (word: string)
    ensures Spells(word, verb)
  {
    seq(|verb|, i requires 0 <= i < |verb| =>
      if i in lower && 'A' <= verb[i] <= 'Z' then verb[i] - 'A' + 'a' else verb[i])
  }

  lemma SpelledUpper(word: string, verb: string)
    requires forall i :: 0 <= i < |verb| ==> !('a' <= verb[i] <= 'z')
    ensures Spells(word, verb) <==> Upper(word) == verb
  {
    if Upper(word) == verb {
      forall i | 0 <= i < |verb|
        ensures word[i] == verb[i] || ('A' <= verb[i] <= 'Z' && word[i] == verb[i] - 'A' + 'a')
      {
        assert Upper(word)[i] == UpperChar(word[i]);
      }
    }
  }

  /** The line says `verb`, alone or before a space. */
  predicate Says(line: string, verb: string) {
    var s := TrimLineEnd(line);
    |verb| <= |s| && Spells(s[..|verb|], verb) && (|s| == |verb| || s[|verb|] == ' ')
  }

  lemma SpelledHasNoSpace(word: string, verb: string)
    requires Spells(word, verb) && ' ' !in verb
    ensures ' ' !in word
  {
  }

  /** A text that has its first space at `n`, or none and ends there, begins with a verb
      exactly if what lies before spells it. */
  lemma FirstWord(s: string, n: nat, verb: string)
    requires n <= |s| && ' ' !in s[..n] && (n < |s| ==> s[n] == ' ') && ' ' !in verb
    ensures |verb| <= |s| && Spells(s[..|verb|], verb) && (|s| == |verb| || s[|verb|] == ' ')
            <==> Spells(s[..n], verb)
  {
    hide Spells;
    if |verb| <= |s| && Spells(s[..|verb|], verb) {
      SpelledHasNoSpace(s[..|verb|], verb);
      assert forall i :: 0 <= i < |verb| ==> s[i] == s[..|verb|][i] != ' ';
      assert forall i :: 0 <= i < n ==> s[i] == s[..n][i] != ' ';
    }
    if Spells(s[..n], verb) {
      SpelledLength(s[..n], verb);
    }
  }

  lemma SpelledLength(word: string, verb: string)
    requires Spells(word, verb)
    ensures |word| == |verb|
  {
  }

  /** The line's word is the text before its first space, without its line end. */
  lemma SaysWord(line: string, verb: string) returns (word: string)
    requires ' ' !in verb
    ensures var s := TrimLineEnd(line);
      var space := Index(s, " ");
      && -1 <= space < |s| && word == (if space == -1 then s else s[..space])
      && (Says(line, verb) <==> Spells(word, verb))
  {
    hide TrimLineEnd, IndexFrom, Contains, Spells;
    var s := TrimLineEnd(line);
    var space := Index(s, " ");
    FirstCut(s, ' ');
    FirstWord(s, if space == -1 then |s| else space, verb);
    assert s[..|s|] == s;
    word := if space == -1 then s else s[..space];
  }

  lemma SevenVerbs()
    ensures forall verb :: verb in {"LHLO", "MAIL", "RCPT", "DATA", "RSET", "NOOP", "QUIT"} ==>
      ' ' !in verb && forall i :: 0 <= i < |verb| ==> !('a' <= verb[i] <= 'z')
  {
  }

  lemma SaysUpper(line: string, verb: string)
    requires verb in {"LHLO", "MAIL", "RCPT", "DATA", "RSET", "NOOP", "QUIT"}
    ensures var s := TrimLineEnd(line);
      var space := Index(s, " ");
      -1 <= space < |s| && (Says(line, verb) <==> Upper(if space == -1 then s else s[..space]) == verb)
  {
    hide Says, Spells, TrimLineEnd, IndexFrom, Contains, Upper;
    SevenVerbs();
    var word := SaysWord(line, verb);
    SpelledUpper(word, verb);
  }

  /** What every line means, by the word it says: seven verbs have a meaning, and all other
      words none. */
  lemma EveryLine(line: string)
    ensures Parse(line) == Lhlo <==> Says(line, "LHLO")
    ensures Parse(line).Mail? || Parse(line) == BadMail <==> Says(line, "MAIL")
    ensures Parse(line).Rcpt? || Parse(line) == BadRcpt <==> Says(line, "RCPT")
    ensures Parse(line) == Data <==> Says(line, "DATA")
    ensures Parse(line) == Rset <==> Says(line, "RSET")
    ensures Parse(line) == Noop <==> Says(line, "NOOP")
    ensures Parse(line) == Quit <==> Says(line, "QUIT")
    ensures Parse(line) == Unknown <==>
      forall verb :: verb in {"LHLO", "MAIL", "RCPT", "DATA", "RSET", "NOOP", "QUIT"} ==> !Says(line, verb)
  {
    hide Says, TrimLineEnd, Index, Upper, PathOf, HasPrefix;
    SaysUpper(line, "LHLO");
    SaysUpper(line, "MAIL");
    SaysUpper(line, "RCPT");
    SaysUpper(line, "DATA");
    SaysUpper(line, "RSET");
    SaysUpper(line, "NOOP");
    SaysUpper(line, "QUIT");
  }

  // ----- Commands -----

  /** A command as a client sends it: `lower` are the letters in lower case, `gap` the
      blanks before a path, `host` the name it greets with. */
  datatype Request = Request(cmd: Command, lower: set<nat>, gap: string, host: string)

  function Printed(r: Request): string {
    match r.cmd
    case Lhlo => Cased("LHLO ", r.lower) + r.host + "\r\n"
    case Mail(from) => Cased("MAIL FROM:", r.lower) + r.gap + "<" + from + ">" + "\r\n"
    case Rcpt(to) => Cased("RCPT TO:", r.lower) + r.gap + "<" + to + ">" + "\r\n"
    case Data => Cased("DATA", r.lower) + "\r\n"
    case Rset => Cased("RSET", r.lower) + "\r\n"
    case Noop => Cased("NOOP", r.lower) + "\r\n"
    case Quit => Cased("QUIT", r.lower) + "\r\n"
    case _ => ""
  }

  predicate IsRequest(r: Request) {
    && !r.cmd.BadMail? && !r.cmd.BadRcpt? && !r.cmd.Unknown?
    && forall c :: c in r.gap ==> c == ' ' || c == '\t'
  }

  /** No angle bracket begins or ends the path. */
  predicate PlainPath(path: string) {
    path != "" ==> path[0] !in "<>" && path[|path| - 1] !in "<>"
  }

  predicate HasPlainPath(cmd: Command) {
    match cmd
    case Mail(from) => PlainPath(from)
    case Rcpt(to) => PlainPath(to)
    case _ => true
  }

  lemma BracketsOff(path: string)
    ensures Trim("<" + path + ">", IsBracket) == TrimRight(TrimLeft(path + ">", IsBracket), IsBracket)
  {
    var s := "<" + path + ">";
    assert s[1..] == path + ">";
  }

  lemma BlanksOff(gap: string, path: string)
    requires forall c :: c in gap ==> c == ' ' || c == '\t'
    ensures TrimSpace(gap + "<" + path + ">") == "<" + path + ">"
  {
    var s := "<" + path + ">";
    assert gap + "<" + path + ">" == gap + s;
    TrimmedLeft(gap, s, IsSpace);
  }

  lemma PlainPathKept(path: string)
    requires PlainPath(path)
    ensures TrimRight(TrimLeft(path + ">", IsBracket), IsBracket) == path
  {
    if path == "" {
      assert path + ">" == ">" && (path + ">")[1..] == "";
    } else {
      assert (path + ">")[..|path|] == path;
    }
  }

  /** A path comes out of its angle brackets as it went in if and only if it has none of its
      own at either end. */
  lemma PathExact(gap: string, path: string)
    requires forall c :: c in gap ==> c == ' ' || c == '\t'
    ensures PathOf(gap + "<" + path + ">") == path <==> PlainPath(path)
  {
    hide IsBracket, IsSpace;
    BlanksOff(gap, path);
    BracketsOff(path);
    BracketsAre();
    var left := TrimLeft(path + ">", IsBracket);
    TrimmedEnds(path + ">", IsBracket);
    TrimmedEnds(left, IsBracket);
    if PlainPath(path) {
      PlainPathKept(path);
    }
  }

  lemma BracketsAre()
    ensures forall c :: IsBracket(c) <==> c in "<>"
  {
  }

  // ----- One command -----

  /** A line of a word and an argument is split between them. */
  lemma ArgumentRead(word: string, arg: string)
    requires ' ' !in word && arg != "" && !IsLineEnd(arg[|arg| - 1])
    ensures Parse(word + " " + arg + "\r\n") == CommandOf(Upper(word), arg)
  {
    hide CommandOf, Upper, IndexFrom, Contains;
    var s := word + " " + arg;
    TrimAppended(s);
    assert TrimLineEnd(s) == s;
    FirstSplit(word, ' ', arg);
  }

  lemma KeyRead(key: string, rest: string, verb: string)
    requires Spells(key, verb) && forall i :: 0 <= i < |verb| ==> !('a' <= verb[i] <= 'z')
    ensures HasPrefix(Upper(key + rest), verb) && (key + rest)[|verb|..] == rest
  {
    SpelledUpper(key, verb);
    assert Upper(key + rest)[..|verb|] == Upper(key);
  }

  lemma SpelledParts(c: string, verb: string, key: string)
    requires Spells(c, verb + " " + key)
    ensures var n := |verb|;
      n < |c| && c == c[..n] + " " + c[n + 1..] && Spells(c[..n], verb) && Spells(c[n + 1..], key)
  {
    var n, whole := |verb|, verb + " " + key;
    assert whole[n] == ' ';
    assert forall i :: 0 <= i < n ==> whole[i] == verb[i];
    assert forall i :: 0 <= i < |key| ==> whole[n + 1 + i] == key[i];
  }

  /** A verb, a key and the rest, in any letter case. */
  lemma KeyedRead(c: string, verb: string, key: string, rest: string)
    requires ' ' !in verb && Spells(c, verb + " " + key) && rest != "" && !IsLineEnd(rest[|rest| - 1])
    requires forall i :: 0 <= i < |verb| ==> !('a' <= verb[i] <= 'z')
    requires forall i :: 0 <= i < |key| ==> !('a' <= key[i] <= 'z')
    ensures var arg := c[|verb| + 1..] + rest;
      && Parse(c + rest + "\r\n") == CommandOf(verb, arg)
      && HasPrefix(Upper(arg), key) && arg[|key|..] == rest
  {
    hide Parse, HasPrefix, Upper, CommandOf, Spells;
    SpelledParts(c, verb, key);
    var word, k := c[..|verb|], c[|verb| + 1..];
    SpelledHasNoSpace(word, verb);
    SpelledUpper(word, verb);
    KeyRead(k, rest, key);
    assert c + rest + "\r\n" == word + " " + (k + rest) + "\r\n";
    ArgumentRead(word, k + rest);
  }

  lemma PathRead(c: string, gap: string, path: string)
    ensures var line, p := c + gap + "<" + path + ">" + "\r\n", PathOf(gap + "<" + path + ">");
      (Spells(c, "MAIL FROM:") ==> Parse(line) == Mail(p)) && (Spells(c, "RCPT TO:") ==> Parse(line) == Rcpt(p))
  {
    hide Parse, PathOf, HasPrefix, Upper, Spells;
    var rest := gap + "<" + path + ">";
    assert c + gap + "<" + path + ">" + "\r\n" == c + rest + "\r\n";
    if Spells(c, "MAIL FROM:") {
      assert "MAIL FROM:" == "MAIL" + " " + "FROM:";
      SpelledLength(c, "MAIL FROM:");
      KeyedRead(c, "MAIL", "FROM:", rest);
    }
    if Spells(c, "RCPT TO:") {
      assert "RCPT TO:" == "RCPT" + " " + "TO:";
      SpelledLength(c, "RCPT TO:");
      KeyedRead(c, "RCPT", "TO:", rest);
    }
  }

  lemma VerbSaid(r: Request, verb: string)
    requires verb in {"DATA", "RSET", "NOOP", "QUIT"}
    ensures Says(Cased(verb, r.lower) + "\r\n", verb)
  {
    var word := Cased(verb, r.lower);
    TrimAppended(word);
    assert TrimLineEnd(word) == word;
    assert word[..|verb|] == word;
  }

  lemma GreetingSaid(r: Request)
    ensures Says(Cased("LHLO ", r.lower) + r.host + "\r\n", "LHLO")
  {
    var line := Cased("LHLO ", r.lower) + r.host + "\r\n";
    var s := TrimLineEnd(line);
    assert line[4] == ' ';
    assert |s| > 4;
    assert s[..4] == Cased("LHLO ", r.lower)[..4];
  }

  /** The server takes a printed command for what the client means by it; a path, if and
      only if no angle bracket of its own begins or ends it. */
  lemma PrintedIsRead(r: Request)
    requires IsRequest(r)
    ensures Parse(Printed(r)) == r.cmd <==> HasPlainPath(r.cmd)
  {
    hide Parse, Says, PathOf, PlainPath;
    match r.cmd
    case Lhlo =>
      GreetingSaid(r);
      EveryLine(Printed(r));
    case Mail(from) =>
      PathRead(Cased("MAIL FROM:", r.lower), r.gap, from);
      PathExact(r.gap, from);
    case Rcpt(to) =>
      PathRead(Cased("RCPT TO:", r.lower), r.gap, to);
      PathExact(r.gap, to);
    case Data =>
      VerbSaid(r, "DATA");
      EveryLine(Printed(r));
    case Rset =>
      VerbSaid(r, "RSET");
      EveryLine(Printed(r));
    case Noop =>
      VerbSaid(r, "NOOP");
      EveryLine(Printed(r));
    case Quit =>
      VerbSaid(r, "QUIT");
      EveryLine(Printed(r));
  }

  // ----- Sessions -----

  /** A request that is one line on the wire, and comes out as it went in. */
  predicate Sendable(r: Request) {
    && IsRequest(r) && HasPlainPath(r.cmd)
    && match r.cmd
       case Lhlo => '\n' !in r.host
       case Mail(from) => '\n' !in from
       case Rcpt(to) => '\n' !in to
       case _ => true
  }

  lemma CasedOnOneLine(verb: string, lower: set<nat>)
    requires '\n' !in verb
    ensures '\n' !in Cased(verb, lower)
  {
  }

  lemma EndedIsLine(text: string)
    requires '\n' !in text
    ensures IsLine(text + "\r\n")
  {
    assert (text + "\r\n")[..|text| + 1] == text + "\r";
  }

  lemma SentIsLine(r: Request)
    requires Sendable(r)
    ensures IsLine(Printed(r))
  {
    hide Cased, IsLine, HasPlainPath;
    forall verb | verb in {"LHLO ", "MAIL FROM:", "RCPT TO:", "DATA", "RSET", "NOOP", "QUIT"}
      ensures '\n' !in Cased(verb, r.lower)
    {
      CasedOnOneLine(verb, r.lower);
    }
    var text := Printed(r)[..|Printed(r)| - 2];
    EndedIsLine(text);
    assert Printed(r) == text + "\r\n";
  }

  /** What a client sends to begin with. */
  function Transcript(rs: seq<Request>): string {
    if rs == [] then "" else Printed(rs[0]) + Transcript(rs[1..])
  }

  /** The recipients a client means, if it has a transaction open: those named since the
      last MAIL, all of them withdrawn by a RSET. */
  function Meant(rs: seq<Request>): Option<seq<string>> {
    if rs == [] then None
    else
      var before := Meant(rs[..|rs| - 1]);
      match rs[|rs| - 1].cmd
      case Mail(_) => Some([])
      case Rset => None
      case Rcpt(to) => if before.Some? then Some(before.value + [to]) else None
      case _ => before
  }

  predicate IsCommands(rs: seq<Request>) {
    forall r :: r in rs ==> Sendable(r) && r.cmd != Data && r.cmd != Quit
  }

  /** The dialogue begins with these commands, one line each. */
  ghost predicate BeginsWith(h: seq<Event>, spans: seq<seq<string>>, rs: seq<Request>) {
    |rs| <= |h| && |rs| <= |spans| && forall i :: 0 <= i < |rs| ==> h[i] == Simple(rs[i].cmd) && |spans[i]| == 1
  }

  lemma BeginsMore(h: seq<Event>, spans: seq<seq<string>>, rs: seq<Request>, n: nat)
    requires n < |rs| && BeginsWith(h, spans, rs[..n])
    requires n < |h| && n < |spans| && h[n] == Simple(rs[n].cmd) && |spans[n]| == 1
    ensures BeginsWith(h, spans, rs[..n + 1])
  {
    assert forall i :: 0 <= i < n ==> rs[..n][i] == rs[i];
  }

  /** The line at hand is a command other than DATA. */
  lemma CommandRead(e: Event, span: seq<string>, tail: seq<string>, line: string, rest: seq<string>)
    requires Consumes(e, span) && span + tail == [line] + rest && Parse(line) != Data
    ensures e == Simple(Parse(line)) && |span| == 1 && tail == rest
  {
    hide Parse, IsDot, Unstuffed;
    assert span[0] == (span + tail)[0] == line;
    assert tail == (span + tail)[1..] == rest;
  }

  lemma NextCommand(h: seq<Event>, spans: seq<seq<string>>, input: seq<string>, rest: seq<string>,
                    n: nat, r: Request, text: string)
    requires Conducts(h, spans, input, rest) && n <= |h| && (n > 0 ==> h[n - 1] != Simple(Quit))
    requires Sendable(r) && r.cmd != Data && |spans| == |h| && Tail(spans, n, rest) == SplitLines(Printed(r) + text)
    ensures n < |h| && h[n] == Simple(r.cmd) && |spans[n]| == 1 && Tail(spans, n + 1, rest) == SplitLines(text)
  {
    hide SplitLines, Fits, Consumes, Flat, Parse, Printed, IsLine, Sendable;
    SentIsLine(r);
    SplitFirst(Printed(r), text);
    SentIsRead(r);
    EventAtIfAny(h, spans, input, rest, n);
    if n < |h| {
      CommandRead(h[n], spans[n], Tail(spans, n + 1, rest), Printed(r), SplitLines(text));
    }
  }

  lemma SentIsRead(r: Request)
    requires Sendable(r)
    ensures Parse(Printed(r)) == r.cmd
  {
    PrintedIsRead(r);
  }

  lemma EventAtIfAny(h: seq<Event>, spans: seq<seq<string>>, input: seq<string>, rest: seq<string>, n: nat)
    requires Conducts(h, spans, input, rest) && n <= |h|
    ensures |spans| == |h|
    ensures n < |h| ==> Consumes(h[n], spans[n]) && Fits(h[..n], h[n])
  {
    if n < |h| {
      EventAt(h, spans, input, rest, n);
    }
  }

  /** The commands a client sends first are the first events of the dialogue. */
  lemma {:induction false} CommandsAreRead(rs: seq<Request>, k: nat, text: string, h: seq<Event>,
                                           spans: seq<seq<string>>, rest: seq<string>)
    requires IsCommands(rs) && k <= |rs| && Conducts(h, spans, SplitLines(Transcript(rs) + text), rest)
    ensures |spans| == |h| && BeginsWith(h, spans, rs[..k])
    ensures Tail(spans, k, rest) == SplitLines(Transcript(rs[k..]) + text)
  {
    hide SplitLines, Conducts, Printed, Sendable, Transcript, BeginsWith, Tail;
    var input := SplitLines(Transcript(rs) + text);
    if k == 0 {
      WholeTail(h, spans, input, rest);
      BeginsNowhere(h, spans);
      assert rs[0..] == rs && rs[..0] == [];
    } else {
      CommandsAreRead(rs, k - 1, text, h, spans, rest);
      LastBegun(h, spans, rs, k - 1);
      var more := rs[k - 1..];
      assert more[0] == rs[k - 1] && more[1..] == rs[k..];
      TranscriptOf(more, text);
      NextCommand(h, spans, input, rest, k - 1, rs[k - 1], Transcript(rs[k..]) + text);
      BeginsMore(h, spans, rs, k - 1);
    }
  }

  lemma BeginsNowhere(h: seq<Event>, spans: seq<seq<string>>)
    ensures BeginsWith(h, spans, [])
  {
  }

  lemma LastBegun(h: seq<Event>, spans: seq<seq<string>>, rs: seq<Request>, n: nat)
    requires n <= |rs| && BeginsWith(h, spans, rs[..n]) && IsCommands(rs)
    ensures n <= |h| && (n > 0 ==> h[n - 1] != Simple(Quit))
  {
    if n > 0 {
      assert rs[..n][n - 1] == rs[n - 1] && rs[n - 1] in rs;
    }
  }

  lemma TranscriptOf(rs: seq<Request>, text: string)
    requires rs != []
    ensures Transcript(rs) + text == Printed(rs[0]) + (Transcript(rs[1..]) + text)
  {
  }

  /** The server's recipients are those the client means. */
  lemma {:induction false} RecipientsAreMeant(rs: seq<Request>, h: seq<Event>)
    requires |h| == |rs| && forall i :: 0 <= i < |rs| ==> h[i] == Simple(rs[i].cmd)
    ensures Open(h) <==> Meant(rs).Some?
    ensures Recipients(h) == if Meant(rs).Some? then Meant(rs).value else []
  {
    hide Open, Recipients;
    if rs == [] {
      NothingYet();
    } else {
      var n := |rs| - 1;
      RecipientsAreMeant(rs[..n], h[..n]);
      RecipientsAfter(h[..n], h[n]);
      assert h[..n] + [h[n]] == h;
    }
  }

  function Intended(rs: seq<Request>): seq<string> {
    if Meant(rs).Some? then Meant(rs).value else []
  }

  lemma {:induction false} NothingDelivered(rs: seq<Request>, h: seq<Event>)
    requires |h| == |rs| && forall i :: 0 <= i < |rs| ==> h[i] == Simple(rs[i].cmd)
    ensures AllDeliveries(h) == []
  {
    if rs != [] {
      NothingDelivered(rs[..|rs| - 1], h[..|rs| - 1]);
    }
  }

  /** Event `e`, with the lines `span` it takes and those that follow it, is the answer to a
      line that says DATA. */
  ghost predicate IsData(h: seq<Event>, e: Event, span: seq<string>, tail: seq<string>, lines: seq<string>) {
    && Consumes(e, span) && span + tail == lines && (e.CutOff? ==> tail == [])
    && (e.RefusedData? || e.Message? || e.CutOff?)
    && (e.RefusedData? <==> Recipients(h) == [])
    && (e.Message? ==> |e.results| == |Recipients(h)|)
  }

  lemma DataOnly(h: seq<Event>, e: Event, span: seq<string>, tail: seq<string>, line: string, more: seq<string>)
    requires Fits(h, e) && Consumes(e, span) && span + tail == [line] + more && Parse(line) == Data
    requires e.CutOff? ==> tail == []
    ensures IsData(h, e, span, tail, [line] + more)
  {
    hide Parse, IsDot, Unstuffed, Recipients;
    assert span[0] == (span + tail)[0] == line;
  }

  lemma NothingPrinted(text: string)
    ensures Transcript([]) + text == text
  {
  }

  lemma MoreLines(h: seq<Event>, spans: seq<seq<string>>, input: seq<string>, rest: seq<string>, n: nat)
    requires Conducts(h, spans, input, rest) && n <= |h| == |spans| && (n > 0 ==> h[n - 1] != Simple(Quit))
    requires Tail(spans, n, rest) != []
    ensures n < |h|
  {
  }

  /** The commands, and what the server then does with a DATA. */
  lemma DataIsNext(rs: seq<Request>, d: Request, text: string,
                   h: seq<Event>, spans: seq<seq<string>>, rest: seq<string>)
    returns (tail: seq<string>)
    requires IsCommands(rs) && Sendable(d) && d.cmd == Data
    requires Conducts(h, spans, SplitLines(Transcript(rs) + (Printed(d) + text)), rest)
    ensures |rs| < |h| == |spans| && forall i :: 0 <= i < |rs| ==> h[i] == Simple(rs[i].cmd)
    ensures Recipients(h[..|rs|]) == Intended(rs) && AllDeliveries(h[..|rs|]) == []
    ensures IsData(h[..|rs|], h[|rs|], spans[|rs|], tail, SplitLines(Printed(d) + text))
  {
    hide SplitLines, Conducts, Printed, Sendable, Transcript, Meant, Consumes, Fits, Recipients,
         AllDeliveries, IsData, Parse, IsLine;
    var n, input := |rs|, SplitLines(Transcript(rs) + (Printed(d) + text));
    CommandsAreRead(rs, n, Printed(d) + text, h, spans, rest);
    assert rs[..n] == rs && rs[n..] == [];
    LastBegun(h, spans, rs, n);
    NothingPrinted(Printed(d) + text);
    SentIsLine(d);
    SentIsRead(d);
    SplitFirst(Printed(d), text);
    MoreLines(h, spans, input, rest, n);
    EventAt(h, spans, input, rest, n);
    RecipientsAreMeant(rs, h[..n]);
    NothingDelivered(rs, h[..n]);
    tail := Tail(spans, n + 1, rest);
    DataOnly(h[..n], h[n], spans[n], tail, Printed(d), SplitLines(text));
  }

  /** A message of clean lines is not cut off. */
  lemma NotCutOff(cmd: string, lines: seq<string>, text: string, span: seq<string>)
    requires IsLine(cmd) && (forall i :: 0 <= i < |lines| ==> Clean(lines[i]))
    requires span == SplitLines(cmd + Wire(lines) + text)
    ensures !Consumes(CutOff, span)
  {
    hide SplitLines, Wire, WireLines, Clean, IsLine, Parse, IsDot;
    assert cmd + Wire(lines) + text == cmd + (Wire(lines) + text);
    SplitFirst(cmd, Wire(lines) + text);
    WireSplits(lines, text);
    WireLineAt(lines, |lines|);
    DotIsDot();
    assert span[|lines| + 1] == ".\r\n";
  }

  /** The codes with which the server answers a message, by how its deliveries went. */
  function Answers(results: seq<bool>): seq<int> {
    seq(|results|, i requires 0 <= i < |results| => if results[i] then 250 else 550)
  }

  /** `delivered` is the message of these lines, each ended by CRLF, once for each of the
      recipients, in order. */
  ghost predicate IsDelivered(delivered: seq<Delivery>, rcpts: seq<string>, lines: seq<string>, results: seq<bool>) {
    && |delivered| == |rcpts| == |results|
    && forall i :: 0 <= i < |rcpts| ==> delivered[i] == Delivery(rcpts[i], Joined(lines), results[i])
  }

  lemma DataOutcome(h: seq<Event>, e: Event)
    ensures e.RefusedData? ==>
      AllReplies(h + [e]) == AllReplies(h) + [503] && AllDeliveries(h + [e]) == AllDeliveries(h)
    ensures e.Message? ==>
      && AllReplies(h + [e]) == AllReplies(h) + [354] + Answers(e.results)
      && (AllDeliveries(h) == [] && |e.results| == |Recipients(h)| ==>
            IsDelivered(AllDeliveries(h + [e]), Recipients(h), e.lines, e.results))
  {
    hide Recipients, Joined;
    assert (h + [e])[..|h|] == h;
    if e.Message? {
      assert Statuses(e.results) == Answers(e.results);
      assert AllReplies(h) + ([354] + Answers(e.results)) == AllReplies(h) + [354] + Answers(e.results);
    }
  }

  /** A client's first transaction, as text on the wire: commands in any letter case, DATA
      and a stuffed message. If the client means no recipients then DATA is answered 503 and
      nothing is delivered. Otherwise a message without stray line ends is delivered, line
      for line, to the recipients meant, in order, and answered for each. */
  lemma SessionIsUnderstood(rs: seq<Request>, d: Request, lines: seq<string>, text: string,
                            h: seq<Event>, spans: seq<seq<string>>, rest: seq<string>)
    requires IsCommands(rs) && Sendable(d) && d.cmd == Data
    requires Conducts(h, spans, SplitLines(Transcript(rs) + (Printed(d) + (Wire(lines) + text))), rest)
    ensures |rs| < |h|
    ensures Intended(rs) == [] ==>
      && AllReplies(h[..|rs| + 1]) == AllReplies(h[..|rs|]) + [503]
      && AllDeliveries(h[..|rs| + 1]) == []
    ensures Intended(rs) != [] && (forall i :: 0 <= i < |lines| ==> Clean(lines[i])) ==>
      && h[|rs|].Message?
      && AllReplies(h[..|rs| + 1]) == AllReplies(h[..|rs|]) + [354] + Answers(h[|rs|].results)
      && IsDelivered(AllDeliveries(h[..|rs| + 1]), Intended(rs), lines, h[|rs|].results)
  {
    hide SplitLines, Conducts, Printed, Sendable, Transcript, Meant, Consumes, Recipients, Wire, Clean,
         Joined, AllReplies, AllDeliveries, Answers, IsDelivered, IsLine;
    var n := |rs|;
    var tail := DataIsNext(rs, d, Wire(lines) + text, h, spans, rest);
    assert h[..n] + [h[n]] == h[..n + 1];
    DataOutcome(h[..n], h[n]);
    SentIsLine(d);
    var stream := Printed(d) + Wire(lines) + text;
    assert Printed(d) + (Wire(lines) + text) == stream;
    if forall i :: 0 <= i < |lines| ==> Clean(lines[i]) {
      NotCutOff(Printed(d), lines, text, SplitLines(stream));
      assert tail == [] ==> spans[n] + tail == spans[n];
      if h[n].Message? {
        MessageSurvives(Printed(d), lines, text, h[n].lines, h[n].results, spans[n], tail);
      }
    }
  }

  /** A RSET withdraws every recipient until the next MAIL. */
  lemma {:induction false} ResetWithdraws(rs: seq<Request>, i: nat)
    requires i < |rs| && rs[i].cmd == Rset && forall j :: i < j < |rs| ==> !rs[j].cmd.Mail?
    ensures Meant(rs).None?
  {
    if i < |rs| - 1 {
      ResetWithdraws(rs[..|rs| - 1], i);
    }
  }

  /** So a DATA that follows it before the next MAIL is answered 503, and nothing of what
      the client sent to then is delivered. */
  lemma ResetRefusesData(rs: seq<Request>, i: nat, d: Request, lines: seq<string>, text: string,
                         h: seq<Event>, spans: seq<seq<string>>, rest: seq<string>)
    requires IsCommands(rs) && Sendable(d) && d.cmd == Data
    requires i < |rs| && rs[i].cmd == Rset && forall j :: i < j < |rs| ==> !rs[j].cmd.Mail?
    requires Conducts(h, spans, SplitLines(Transcript(rs) + (Printed(d) + (Wire(lines) + text))), rest)
    ensures |rs| < |h| && AllReplies(h[..|rs| + 1]) == AllReplies(h[..|rs|]) + [503]
    ensures AllDeliveries(h[..|rs| + 1]) == []
  {
    hide Conducts, SplitLines, AllReplies, AllDeliveries, Sendable, Printed, Transcript, Wire;
    ResetWithdraws(rs, i);
    SessionIsUnderstood(rs, d, lines, text, h, spans, rest);
  }

  /** A NOOP changes nothing, wherever it comes. */
  lemma {:induction false} NoopChangesNothing(before: seq<Request>, noop: Request, after: seq<Request>)
    requires noop.cmd == Noop
    ensures Meant(before + [noop] + after) == Meant(before + after)
  {
    if after == [] {
      assert before + [noop] + after == before + [noop] && before + after == before;
      assert (before + [noop])[..|before|] == before;
    } else {
      var n := |after| - 1;
      NoopChangesNothing(before, noop, after[..n]);
      assert (before + [noop] + after)[..|before| + 1 + n] == before + [noop] + after[..n];
      assert (before + after)[..|before| + n] == before + after[..n];
    }
  }

  // ----- Any session -----

  /** Wherever in a session a line says RSET, until the next that says MAIL nothing is
      delivered, and every line that says DATA is refused. */
  lemma {:induction false} NothingAfterReset(h: seq<Event>, spans: seq<seq<string>>, input: seq<string>,
                                             rest: seq<string>, k: nat, j: nat)
    requires Conducts(h, spans, input, rest) && k < j <= |h| == |spans|
    requires spans[k] != [] && Says(spans[k][0], "RSET")
    requires forall i :: k < i < j ==> spans[i] != [] && !Says(spans[i][0], "MAIL")
    ensures !Open(h[..j]) && AllDeliveries(h[..j]) == AllDeliveries(h[..k])
    ensures forall i :: k < i < j && Says(spans[i][0], "DATA") ==> h[i] == RefusedData && Replies(h[..i], h[i]) == [503]
  {
    hide Conducts, Parse, Says, Consumes, Fits, Open, Recipients, AllDeliveries;
    var n := j - 1;
    EventAt(h, spans, input, rest, n);
    EveryLine(spans[n][0]);
    RecipientsAfter(h[..n], h[n]);
    assert h[..n] + [h[n]] == h[..j];
    EventSays(h[n], spans[n]);
    if n > k {
      NothingAfterReset(h, spans, input, rest, k, n);
      ClosedEvent(h[..n], h[n]);
    }
    DeliveredMore(h[..n], h[n]);
  }

  lemma EventSays(e: Event, span: seq<string>)
    requires Consumes(e, span)
    ensures if e.Simple? then e.cmd == Parse(span[0]) else Parse(span[0]) == Data
  {
  }

  lemma ClosedEvent(h: seq<Event>, e: Event)
    requires !Open(h) && Fits(h, e)
    ensures !e.Message? && !e.CutOff? && (e.Simple? ==> e.cmd != Data)
  {
  }

  lemma DeliveredMore(h: seq<Event>, e: Event)
    requires !e.Message?
    ensures AllDeliveries(h + [e]) == AllDeliveries(h)
  {
    assert (h + [e])[..|h|] == h;
  }

  /** A line that says NOOP leaves the transaction and its recipients alone. */
  lemma NoopLeavesRecipients(h: seq<Event>, spans: seq<seq<string>>, input: seq<string>, rest: seq<string>, k: nat)
    requires Conducts(h, spans, input, rest) && k < |h| == |spans| && spans[k] != [] && Says(spans[k][0], "NOOP")
    ensures Open(h[..k + 1]) == Open(h[..k]) && Recipients(h[..k + 1]) == Recipients(h[..k])
  {
    hide Conducts, Parse, Says, Consumes, Fits, Open, Recipients;
    EventAt(h, spans, input, rest, k);
    EveryLine(spans[k][0]);
    EventSays(h[k], spans[k]);
    RecipientsAfter(h[..k], h[k]);
    assert h[..k] + [h[k]] == h[..k + 1];
  }
}
