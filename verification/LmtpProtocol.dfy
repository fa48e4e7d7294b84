/** What an LMTP dialogue means: commands, recipients in force, and the replies due
    (section 4.2 of RFC 2033, section 4.5.2 of RFC 5321). */
module LmtpProtocol {
  import opened Text

  datatype Command =
    | Lhlo | Mail(from: string) | BadMail | Rcpt(to: string) | BadRcpt
    | Data | Rset | Noop | Quit | Unknown

  // ----- Lines -----

  predicate IsLineEnd(c: char) { c == '\r' || c == '\n' }

  /** strings.TrimRight(line, "\r\n"). */
  function TrimLineEnd(s: string): (r: string)
    ensures r <= s && (r == "" || !IsLineEnd(r[|r| - 1]))
    ensures forall i :: |r| <= i < |s| ==> IsLineEnd(s[i])
  {
    if s != "" && IsLineEnd(s[|s| - 1]) then TrimLineEnd(s[..|s| - 1]) else s
  }

  predicate IsBracket(c: char) { c == '<' || c == '>' }

  /** The address in a MAIL or RCPT argument: without spaces and angle brackets. */
  function PathOf(s: string): string { Trim(TrimSpace(s), IsBracket) }

  function ParseMail(arg: string): Command {
    if HasPrefix(Upper(arg), "FROM:") then Mail(PathOf(arg[5..])) else BadMail
  }

  function ParseRcpt(arg: string): Command {
    if HasPrefix(Upper(arg), "TO:") then Rcpt(PathOf(arg[3..])) else BadRcpt
  }

  function CommandOf(verb: string, arg: string): Command {
    if verb == "LHLO" then Lhlo
    else if verb == "MAIL" then ParseMail(arg)
    else if verb == "RCPT" then ParseRcpt(arg)
    else if verb == "DATA" then Data
    else if verb == "RSET" then Rset
    else if verb == "NOOP" then Noop
    else if verb == "QUIT" then Quit
    else Unknown
  }

  /** One command line, split at its first space and matched without regard to case. */
  function Parse(line: string): Command {
    var s := TrimLineEnd(line);
    var space := Index(s, " ");
    if space == -1 then CommandOf(Upper(s), "")
    else
      AtChar(s, ' ', space);
      CommandOf(Upper(s[..space]), s[space + 1..])
  }

  /** The complete lines of the input, each with its line feed: what successive calls of
      ReadString('\n') return. What follows the last line feed is no line. */
  function SplitLines(s: string): seq<string> {
    var i := Index(s, "\n");
    if i == -1 then []
    else
      AtChar(s, '\n', i);
      [s[..i + 1]] + SplitLines(s[i + 1..])
  }

  predicate IsDot(line: string) { TrimLineEnd(line) == "." }

  /** A received message line: without its line end and the dot a sender stuffed. */
  function Unstuffed(line: string): string {
    var s := TrimLineEnd(line);
    if HasPrefix(s, "..") then s[1..] else s
  }

  /** What a server makes of message lines, none of which is the dot. */
  ghost predicate Unstuffs(raw: seq<string>, body: seq<string>) {
    |raw| == |body| && forall i :: 0 <= i < |raw| ==> !IsDot(raw[i]) && body[i] == Unstuffed(raw[i])
  }

  lemma NoLines()
    ensures Unstuffs([], []) && Joined([]) == ""
  {
  }

  lemma UnstuffsMore(raw: seq<string>, body: seq<string>, line: string)
    requires Unstuffs(raw, body) && !IsDot(line)
    ensures Unstuffs(raw + [line], body + [Unstuffed(line)])
  {
    hide IsDot, Unstuffed;
  }

  /** The message text: every line ended by CRLF. */
  function Joined(lines: seq<string>): string {
    if lines == [] then "" else Joined(lines[..|lines| - 1]) + lines[|lines| - 1] + "\r\n"
  }

  // ----- Dialogues -----

  /** One exchange: a command other than DATA; a refused DATA; a DATA whose message was
      received, with the fate of each delivery; a DATA cut off by the end of input. */
  datatype Event =
    | Simple(cmd: Command)
    | RefusedData
    | Message(lines: seq<string>, results: seq<bool>)
    | CutOff

  /** MAIL, RSET and a received message forget all recipients. */
  predicate Resets(e: Event) { e.Message? || e == Simple(Rset) || (e.Simple? && e.cmd.Mail?) }

  /** The last event that reset the recipients, or -1. */
  function LastReset(h: seq<Event>): (r: int)
    ensures -1 <= r < |h| && (r >= 0 ==> Resets(h[r]))
    ensures forall i :: r < i < |h| ==> !Resets(h[i])
  {
    if h == [] then -1
    else if Resets(h[|h| - 1]) then |h| - 1
    else LastReset(h[..|h| - 1])
  }

  /** A transaction is open if the last reset was a MAIL, whatever its sender. */
  predicate Open(h: seq<Event>) {
    var r := LastReset(h);
    r >= 0 && h[r].Simple? && h[r].cmd.Mail?
  }

  /** The recipients named since: every well-formed RCPT, in order. */
  function Named(h: seq<Event>): seq<string> {
    if h == [] then []
    else Named(h[..|h| - 1]) +
         (if h[|h| - 1].Simple? && h[|h| - 1].cmd.Rcpt? then [h[|h| - 1].cmd.to] else [])
  }

  function Recipients(h: seq<Event>): seq<string> {
    if Open(h) then Named(h[LastReset(h) + 1..]) else []
  }

  function Status(ok: bool): int { if ok then 250 else 550 }

  function Statuses(results: seq<bool>): seq<int> {
    seq(|results|, i requires 0 <= i < |results| => Status(results[i]))
  }

  /** The reply codes due for an event after the events `h`. */
  function Replies(h: seq<Event>, e: Event): seq<int> {
    match e
    case RefusedData => [503]
    case Message(_, results) => [354] + Statuses(results)
    case CutOff => [354]
    case Simple(cmd) =>
      match cmd
      case BadMail => [501]
      case Rcpt(_) => if Open(h) then [250] else [503]
      case BadRcpt => if Open(h) then [501] else [503]
      case Quit => [221]
      case Unknown => [500]
      case _ => [250]
  }

  /** A message handed to processRecipient for one recipient. */
  datatype Delivery = Delivery(rcpt: string, message: string, ok: bool)

  /** One for each recipient, in order. */
  function Deliveries(rcpts: seq<string>, message: string, results: seq<bool>): seq<Delivery> {
    seq(|rcpts|, i requires 0 <= i < |rcpts| => Delivery(rcpts[i], message, i < |results| && results[i]))
  }

  /** QUIT ends a session, and so does input that stops inside a message. */
  predicate Ended(h: seq<Event>) {
    h != [] && (h[|h| - 1] == Simple(Quit) || h[|h| - 1].CutOff?)
  }

  /** Nothing follows the end of the session. A DATA is refused exactly when there are no
      recipients, and a received message has one result for each recipient. */
  ghost predicate Fits(h: seq<Event>, e: Event) {
    && !Ended(h)
    && match e
       case Simple(cmd) => cmd != Data
       case RefusedData => Recipients(h) == []
       case Message(_, results) => Recipients(h) != [] && |results| == |Recipients(h)|
       case CutOff => Recipients(h) != []
  }

  ghost predicate Valid(h: seq<Event>) {
    forall k :: 0 <= k < |h| ==> Fits(h[..k], h[k])
  }

  function AllReplies(h: seq<Event>): seq<int> {
    if h == [] then [220] else AllReplies(h[..|h| - 1]) + Replies(h[..|h| - 1], h[|h| - 1])
  }

  function AllDeliveries(h: seq<Event>): seq<Delivery> {
    if h == [] then []
    else
      var rest, e := h[..|h| - 1], h[|h| - 1];
      AllDeliveries(rest) + if e.Message? then Deliveries(Recipients(rest), Joined(e.lines), e.results) else []
  }

  /** The input lines an event stands for. */
  ghost predicate Consumes(e: Event, lines: seq<string>) {
    && |lines| > 0
    && match e
       case Simple(cmd) => |lines| == 1 && Parse(lines[0]) == cmd
       case RefusedData => |lines| == 1 && Parse(lines[0]) == Data
       case Message(body, _) =>
         && Parse(lines[0]) == Data && |lines| == |body| + 2 && IsDot(lines[|body| + 1])
         && forall i :: 0 <= i < |body| ==> !IsDot(lines[i + 1]) && body[i] == Unstuffed(lines[i + 1])
       case CutOff => Parse(lines[0]) == Data && forall i :: 1 <= i < |lines| ==> !IsDot(lines[i])
  }

  function Flat(spans: seq<seq<string>>): seq<string> {
    if spans == [] then [] else Flat(spans[..|spans| - 1]) + spans[|spans| - 1]
  }

  /** The dialogue `h` is what the input lines `lines` say. */
  ghost predicate Reads(h: seq<Event>, spans: seq<seq<string>>, lines: seq<string>) {
    && |spans| == |h| && Flat(spans) == lines
    && forall k :: 0 <= k < |h| ==> Consumes(h[k], spans[k])
  }

  /** `h` is the whole dialogue of a session that was sent the lines `input`, of which
      `rest` were not read: it goes on to the end of input or to a QUIT. */
  ghost predicate Conducts(h: seq<Event>, spans: seq<seq<string>>, input: seq<string>, rest: seq<string>) {
    && Valid(h) && Reads(h, spans, Flat(spans)) && input == Flat(spans) + rest
    && (rest == [] || (h != [] && h[|h| - 1] == Simple(Quit)))
  }

  lemma Completed(h: seq<Event>, spans: seq<seq<string>>, lines: seq<string>, rest: seq<string>)
    requires Valid(h) && Reads(h, spans, lines)
    requires rest == [] || (h != [] && h[|h| - 1] == Simple(Quit))
    ensures Conducts(h, spans, lines + rest, rest)
  {
  }

  lemma NothingYet()
    ensures Valid([]) && Reads([], [], []) && AllReplies([]) == [220] && AllDeliveries([]) == []
    ensures !Open([]) && Recipients([]) == []
  {
  }

  lemma RefusalRead(line: string)
    requires Parse(line) == Data
    ensures Consumes(RefusedData, [line])
  {
  }

  lemma CutOffRead(line: string, raw: seq<string>, body: seq<string>)
    requires Parse(line) == Data && Unstuffs(raw, body)
    ensures Consumes(CutOff, [line] + raw)
  {
    hide Parse, IsDot;
  }

  lemma MessageRead(line: string, raw: seq<string>, dot: string, body: seq<string>, results: seq<bool>)
    requires Parse(line) == Data && IsDot(dot) && Unstuffs(raw, body)
    ensures Consumes(Message(body, results), [line] + raw + [dot])
  {
    hide Parse, IsDot, Unstuffed;
  }

  // ----- One more event -----

  lemma Extended(h: seq<Event>, e: Event)
    requires Valid(h) && Fits(h, e)
    ensures Valid(h + [e])
    ensures AllReplies(h + [e]) == AllReplies(h) + Replies(h, e)
    ensures AllDeliveries(h + [e]) ==
      AllDeliveries(h) + if e.Message? then Deliveries(Recipients(h), Joined(e.lines), e.results) else []
  {
    var h' := h + [e];
    assert h'[..|h|] == h;
    forall k | 0 <= k < |h'| ensures Fits(h'[..k], h'[k]) {
      assert h'[..k] == h[..k];
    }
  }

  lemma ReadsMore(h: seq<Event>, spans: seq<seq<string>>, lines: seq<string>, e: Event, span: seq<string>)
    requires Reads(h, spans, lines) && Consumes(e, span)
    ensures Reads(h + [e], spans + [span], lines + span)
  {
    assert (spans + [span])[..|spans|] == spans;
  }

  lemma LastResetAfter(h: seq<Event>, e: Event)
    ensures LastReset(h + [e]) == if Resets(e) then |h| else LastReset(h)
  {
    assert (h + [e])[..|h|] == h;
  }

  lemma NamedAfter(h: seq<Event>, e: Event)
    ensures Named(h + [e]) == Named(h) + if e.Simple? && e.cmd.Rcpt? then [e.cmd.to] else []
  {
    assert (h + [e])[..|h|] == h;
  }

  lemma OpenAfter(h: seq<Event>, e: Event)
    ensures Open(h + [e]) <==> if Resets(e) then e.Simple? && e.cmd.Mail? else Open(h)
  {
    hide LastReset;
    LastResetAfter(h, e);
  }

  /** How each event moves the transaction on. */
  lemma RecipientsAfter(h: seq<Event>, e: Event)
    ensures Open(h + [e]) <==> if Resets(e) then e.Simple? && e.cmd.Mail? else Open(h)
    ensures Recipients(h + [e]) ==
      if Resets(e) then []
      else if Open(h) && e.Simple? && e.cmd.Rcpt? then Recipients(h) + [e.cmd.to]
      else Recipients(h)
  {
    hide LastReset, Named, Open, Resets;
    LastResetAfter(h, e);
    OpenAfter(h, e);
    EmptyNamed();
    if !Resets(e) {
      NamedAfter(h[LastReset(h) + 1..], e);
      assert (h + [e])[LastReset(h) + 1..] == h[LastReset(h) + 1..] + [e];
    } else {
      assert (h + [e])[|h| + 1..] == [];
    }
  }

  lemma EmptyNamed()
    ensures Named([]) == []
  {
  }

  /** Recipients exist only after a MAIL that nothing has reset since; its sender may be
      the null sender. */
  lemma RecipientsNeedMail(h: seq<Event>)
    requires Recipients(h) != []
    ensures exists i :: 0 <= i < |h| && h[i].Simple? && h[i].cmd.Mail? && forall j :: i < j < |h| ==> !Resets(h[j])
  {
    assert Open(h);
    var r := LastReset(h);
    assert h[r].Simple? && h[r].cmd.Mail?;
  }
}
