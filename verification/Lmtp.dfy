/** The LMTP connection: a loop over the lines of its input that updates the open
    transaction. */
module Lmtp {
  import opened Wrappers
  import opened Text
  import opened LmtpProtocol

  class LmtpConn {
    /** What the client has sent and the server not yet read. */
    var input: string
    var replies: seq<int>
    /** What processRecipient was called with, and what it answered. */
    var delivered: seq<Delivery>

    var mailFrom: string
    var mailSet: bool
    var rcptTos: seq<string>

    /** The dialogue so far, and the lines each of its events was read from. */
    ghost var history: seq<Event>
    ghost var spans: seq<seq<string>>

    constructor (input: string)
      ensures this.input == input && history == [] && spans == [] && replies == [] && delivered == []
      ensures !mailSet && rcptTos == [] && mailFrom == ""
    {
      this.input, replies, delivered, history, spans := input, [], [], [], [];
      mailFrom, mailSet, rcptTos := "", false, [];
    }

    /** The fields are what the dialogue so far makes them. */
    ghost predicate Current(lines: seq<string>)
      reads this
    {
      && Valid(history) && Reads(history, spans, lines)
      && replies == AllReplies(history) && delivered == AllDeliveries(history)
      && (mailSet <==> Open(history)) && rcptTos == Recipients(history)
    }

    /** The next line with its line feed. Input that stops before a line feed is lost, as
        the error that ReadString returns with it ends the session. */
    method ReadString() returns (line: Option<string>)
      modifies this`input
      ensures SplitLines(old(input)) == [] ==> line.None? && input == ""
      ensures SplitLines(old(input)) != [] ==>
        line == Some(SplitLines(old(input))[0]) && SplitLines(input) == SplitLines(old(input))[1..]
      ensures line.Some? ==> old(input) == line.value + input && |line.value| > 0
    {
      var i := Index(input, "\n");
      if i == -1 {
        input := "";
        return None;
      }
      AtChar(input, '\n', i);
      line := Some(input[..i + 1]);
      input := input[i + 1..];
    }

    method Send(code: int)
      modifies this`replies
      ensures replies == old(replies) + [code]
    {
      replies := replies + [code];
    }

    method ProcessRecipient(rcpt: string, message: string) returns (ok: bool)
      modifies this`delivered
      ensures delivered == old(delivered) + [Delivery(rcpt, message, ok)]
    {
      ok := *;
      delivered := delivered + [Delivery(rcpt, message, ok)];
    }

    /** Adds an event to the dialogue. */
    ghost method Note(e: Event, span: seq<string>, lines: seq<string>)
      requires Valid(history) && Reads(history, spans, lines) && Fits(history, e) && Consumes(e, span)
      modifies this`history, this`spans
      ensures history == old(history) + [e] && Valid(history) && Reads(history, spans, lines + span)
      ensures AllReplies(history) == AllReplies(old(history)) + Replies(old(history), e)
      ensures AllDeliveries(history) == AllDeliveries(old(history)) +
        if e.Message? then Deliveries(Recipients(old(history)), Joined(e.lines), e.results) else []
      ensures Open(history) <==> if Resets(e) then e.Simple? && e.cmd.Mail? else Open(old(history))
      ensures Recipients(history) ==
        if Resets(e) then []
        else if Open(old(history)) && e.Simple? && e.cmd.Rcpt? then Recipients(old(history)) + [e.cmd.to]
        else Recipients(old(history))
    {
      hide Valid, Reads, AllReplies, AllDeliveries, Open, Recipients, Consumes;
      Extended(history, e);
      ReadsMore(history, spans, lines, e, span);
      RecipientsAfter(history, e);
      history, spans := history + [e], spans + [span];
    }

    /** Every command except DATA. */
    method HandleSimple(line: string, ghost lines: seq<string>)
      requires Current(lines) && Parse(line) != Data && !Ended(history)
      modifies this`replies, this`mailFrom, this`mailSet, this`rcptTos, this`history, this`spans
      ensures Current(lines + [line]) && history == old(history) + [Simple(Parse(line))]
    {
      hide Valid, Reads, AllReplies, AllDeliveries, Open, Recipients, Parse;
      var cmd := Parse(line);
      Note(Simple(cmd), [line], lines);
      match cmd
      case Mail(from) =>
        mailFrom, mailSet, rcptTos := from, true, [];
        Send(250);
      case Rcpt(to) =>
        if !mailSet {
          Send(503);
        } else {
          rcptTos := rcptTos + [to];
          Send(250);
        }
      case BadRcpt =>
        if !mailSet {
          Send(503);
        } else {
          Send(501);
        }
      case BadMail => Send(501);
      case Rset =>
        mailFrom, mailSet, rcptTos := "", false, [];
        Send(250);
      case Quit => Send(221);
      case Unknown => Send(500);
      case Lhlo => Send(250);
      case Noop => Send(250);
      case Data => assert false;
    }

    /** Reads message lines up to the lone dot; `raw` are the lines read, without the
        dot. Without a dot the input is used up. */
    method ReadMessage() returns (body: seq<string>, message: string, dot: Option<string>, ghost raw: seq<string>)
      modifies this`input
      ensures message == Joined(body) && Unstuffs(raw, body)
      ensures dot.Some? ==> IsDot(dot.value) && SplitLines(old(input)) == raw + [dot.value] + SplitLines(input)
      ensures dot.None? ==> SplitLines(old(input)) == raw && input == ""
      ensures |input| <= |old(input)|
    {
      hide Unstuffs, Joined, SplitLines, TrimLineEnd;
      body, message, raw := [], "", [];
      NoLines();
      while true
        invariant message == Joined(body) && Unstuffs(raw, body)
        invariant SplitLines(old(input)) == raw + SplitLines(input)
        invariant |input| <= |old(input)|
        decreases |input|
      {
        dot := ReadString();
        if dot.None? {
          return;
        }
        var stripped := TrimLineEnd(dot.value);
        if stripped == "." {
          return;
        }
        if HasPrefix(stripped, "..") {
          stripped := stripped[1..];
        }
        assert !IsDot(dot.value) && stripped == Unstuffed(dot.value);
        JoinedMore(body, stripped);
        UnstuffsMore(raw, body, dot.value);
        raw := raw + [dot.value];
        body := body + [stripped];
        message := message + stripped + "\r\n";
      }
    }

    /** Delivers to each recipient in turn, answering each. */
    method Deliver(message: string) returns (results: seq<bool>)
      modifies this`replies, this`delivered
      ensures |results| == |rcptTos|
      ensures replies == old(replies) + Statuses(results)
      ensures delivered == old(delivered) + Deliveries(rcptTos, message, results)
    {
      results := [];
      for i := 0 to |rcptTos|
        invariant |results| == i
        invariant replies == old(replies) + Statuses(results)
        invariant delivered == old(delivered) + Deliveries(rcptTos[..i], message, results)
      {
        var ok := ProcessRecipient(rcptTos[i], message);
        results := results + [ok];
        Send(if ok then 250 else 550);
        assert Deliveries(rcptTos[..i + 1], message, results) ==
          Deliveries(rcptTos[..i], message, results[..i]) + [Delivery(rcptTos[i], message, ok)];
        assert results[..i] + [ok] == results;
      }
      assert rcptTos[..|rcptTos|] == rcptTos;
    }

    /** A message was read up to its dot: every recipient gets its reply, and the
        transaction is over. */
    method Answer(line: string, body: seq<string>, message: string, dot: string,
                  ghost raw: seq<string>, ghost lines: seq<string>)
      returns (ghost e: Event)
      requires Valid(history) && Reads(history, spans, lines) && !Ended(history)
      requires replies == AllReplies(history) + [354] && delivered == AllDeliveries(history)
      requires rcptTos == Recipients(history) != []
      requires Parse(line) == Data && IsDot(dot) && Unstuffs(raw, body) && message == Joined(body)
      modifies this`replies, this`delivered, this`mailFrom, this`mailSet, this`rcptTos, this`history, this`spans
      ensures Current(lines + ([line] + raw + [dot]))
      ensures e.Message? && e.lines == body && history == old(history) + [e]
    {
      hide Valid, Reads, AllReplies, AllDeliveries, Open, Recipients, Parse, Joined, Unstuffs, IsDot, Consumes,
           Deliveries, Statuses;
      var results := Deliver(message);
      e := Message(body, results);
      MessageRead(line, raw, dot, body, results);
      Note(e, [line] + raw + [dot], lines);
      mailFrom, mailSet, rcptTos := "", false, [];
    }

    /** Refuses without recipients; otherwise reads the message and answers for each
        recipient, unless the input stops first. */
    method HandleData(line: string, ghost lines: seq<string>) returns (ghost e: Event, ghost span: seq<string>)
      requires Current(lines) && Parse(line) == Data && !Ended(history)
      modifies this
      ensures Current(lines + span) && history == old(history) + [e]
      ensures [line] + SplitLines(old(input)) == span + SplitLines(input) && |input| <= |old(input)|
      ensures e == RefusedData <==> old(rcptTos) == []
      ensures e.RefusedData? || e.Message? || (e.CutOff? && input == "")
    {
      hide Valid, Reads, AllReplies, AllDeliveries, Open, Recipients, Parse, Joined, Unstuffs, IsDot, Consumes,
           SplitLines;
      if |rcptTos| == 0 {
        e, span := RefusedData, [line];
        RefusalRead(line);
        Note(e, span, lines);
        Send(503);
        return;
      }
      Send(354);
      var body, message, dot;
      ghost var raw;
      body, message, dot, raw := ReadMessage();
      if dot.None? {
        e, span := CutOff, [line] + raw;
        CutOffRead(line, raw, body);
        Note(e, span, lines);
        NoMoreLines();
        return;
      }
      span := [line] + raw + [dot.value];
      assert [line] + (raw + [dot.value] + SplitLines(input)) == span + SplitLines(input);
      e := Answer(line, body, message, dot.value, raw, lines);
    }

    /** One command. `all` are the lines of the session, up to the line feed that ends it. */
    method Dispatch(line: string, ghost lines: seq<string>, ghost all: seq<string>)
      returns (quit: bool, ghost lines': seq<string>)
      requires Current(lines) && !Ended(history) && all == lines + ([line] + SplitLines(input))
      modifies this
      ensures Current(lines') && all == lines' + SplitLines(input) && |input| <= |old(input)|
      ensures quit ==> history != [] && history[|history| - 1] == Simple(Quit)
      ensures !quit && Ended(history) ==> input == ""
    {
      hide Valid, Reads, AllReplies, AllDeliveries, Open, Recipients, Parse, SplitLines;
      var cmd := Parse(line);
      if cmd == Data {
        ghost var e, span := HandleData(line, lines);
        lines' := lines + span;
        Regrouped(lines, span, SplitLines(input));
      } else {
        HandleSimple(line, lines);
        lines' := lines + [line];
        Regrouped(lines, [line], SplitLines(input));
      }
      quit := cmd == Quit;
    }

    /** The whole session: its dialogue is the one the input determines, and replies and
        deliveries are exactly those due for it. Input is left over only after a QUIT. */
    method Serve()
      requires history == [] && spans == [] && replies == [] && delivered == [] && !mailSet && rcptTos == []
      modifies this
      ensures Conducts(history, spans, SplitLines(old(input)), SplitLines(input))
      ensures replies == AllReplies(history) && delivered == AllDeliveries(history)
      ensures input == "" || (history != [] && history[|history| - 1] == Simple(Quit))
    {
      hide Valid, Reads, Conducts, AllReplies, AllDeliveries, Open, Recipients, SplitLines;
      NothingYet();
      NoMoreLines();
      ghost var lines, all := [], SplitLines(input);
      Send(220);
      while true
        invariant Current(lines) && (Ended(history) ==> input == "")
        invariant all == lines + SplitLines(input)
        decreases |input|
      {
        var line := ReadString();
        if line.None? {
          Completed(history, spans, lines, SplitLines(input));
          return;
        }
        var quit;
        quit, lines := Dispatch(line.value, lines, all);
        if quit {
          Completed(history, spans, lines, SplitLines(input));
          return;
        }
      }
    }
  }

  lemma Regrouped(a: seq<string>, b: seq<string>, c: seq<string>)
    ensures a + (b + c) == (a + b) + c
  {
  }

  lemma NoMoreLines()
    ensures SplitLines("") == []
  {
  }

  lemma JoinedMore(body: seq<string>, line: string)
    ensures Joined(body + [line]) == Joined(body) + line + "\r\n"
  {
    assert (body + [line])[..|body|] == body;
  }
}
