/** What a client sends determines the dialogue. */
module LmtpDialogue {
  import opened LmtpProtocol

  /** The two events differ at most in how the deliveries of a message went. */
  predicate SameEvent(e: Event, e': Event) {
    if e.Message? then e'.Message? && e'.lines == e.lines && |e'.results| == |e.results| else e' == e
  }

  ghost predicate SameEvents(h: seq<Event>, h': seq<Event>) {
    |h| == |h'| && forall k :: 0 <= k < |h| ==> SameEvent(h[k], h'[k])
  }

  lemma {:induction false} SameRecipients(h: seq<Event>, h': seq<Event>)
    requires SameEvents(h, h')
    ensures Open(h) == Open(h') && Recipients(h) == Recipients(h')
  {
    if h != [] {
      var n := |h| - 1;
      hide Open, Recipients;
      SameRecipients(h[..n], h'[..n]);
      RecipientsAfter(h[..n], h[n]);
      RecipientsAfter(h'[..n], h'[n]);
      assert h[..n] + [h[n]] == h && h'[..n] + [h'[n]] == h';
      assert SameEvent(h[n], h'[n]);
    }
  }

  lemma OneMoreSame(h: seq<Event>, h': seq<Event>, n: nat)
    requires n < |h| && n < |h'| && SameEvents(h[..n], h'[..n]) && SameEvent(h[n], h'[n])
    ensures SameEvents(h[..n + 1], h'[..n + 1])
  {
    hide SameEvent;
    var longer, longer' := h[..n + 1], h'[..n + 1];
    forall k | 0 <= k < n + 1 ensures SameEvent(longer[k], longer'[k]) {
      if k < n {
        assert SameEvent(h[..n][k], h'[..n][k]);
      }
    }
  }

  /** What `n` events and more were read from. */
  function Tail(spans: seq<seq<string>>, n: nat, rest: seq<string>): seq<string>
    requires n <= |spans|
    decreases |spans| - n
  {
    if n == |spans| then rest else spans[n] + Tail(spans, n + 1, rest)
  }

  lemma {:induction false} FlatTail(spans: seq<seq<string>>, n: nat, rest: seq<string>)
    requires n <= |spans|
    ensures Flat(spans) + rest == Flat(spans[..n]) + Tail(spans, n, rest)
    decreases |spans| - n
  {
    if n == |spans| {
      assert spans[..n] == spans;
    } else {
      FlatTail(spans, n + 1, rest);
      assert spans[..n + 1][..n] == spans[..n];
      assert Flat(spans[..n + 1]) == Flat(spans[..n]) + spans[n];
    }
  }

  /** Event `n` of a dialogue; if it cut a message off there was nothing after it. */
  lemma EventAt(h: seq<Event>, spans: seq<seq<string>>, input: seq<string>, rest: seq<string>, n: nat)
    requires Conducts(h, spans, input, rest) && n < |h|
    ensures |spans| == |h| && Fits(h[..n], h[n]) && Consumes(h[n], spans[n])
    ensures h[n].CutOff? || h[n] == Simple(Quit) ==> n == |h| - 1
    ensures h[n].CutOff? ==> Tail(spans, n + 1, rest) == []
  {
    assert n + 1 < |h| ==> Fits(h[..n + 1], h[n + 1]);
  }

  lemma NoEarlierDot(e: Event, span: seq<string>, i: nat)
    requires e.Message? && Consumes(e, span)
    ensures i < |e.lines| ==> e.lines[i] == Unstuffed(span[i + 1]) && !IsDot(span[i + 1])
  {
    hide Parse, IsDot, Unstuffed;
    assert i < |e.lines| ==> e.lines[i] == Unstuffed(span[i + 1]);
  }

  lemma SameMessage(e: Event, span: seq<string>, e': Event, span': seq<string>, stream: seq<string>)
    requires e.Message? && e'.Message? && Consumes(e, span) && Consumes(e', span')
    requires span <= stream && span' <= stream
    ensures span == span' && e.lines == e'.lines
  {
    hide Parse, IsDot, Unstuffed;
    var m, m' := |e.lines|, |e'.lines|;
    assert IsDot(stream[m + 1]) && IsDot(stream[m' + 1]);
    NoEarlierDot(e, span, m');
    NoEarlierDot(e', span', m);
    assert span == stream[..m + 2] && span' == stream[..m' + 2];
    forall i | 0 <= i < m ensures e.lines[i] == e'.lines[i] {
      NoEarlierDot(e, span, i);
      NoEarlierDot(e', span', i);
    }
  }

  lemma CutOffHasNoDot(span: seq<string>, e: Event, span': seq<string>)
    requires Consumes(CutOff, span) && span' <= span
    ensures !(e.Message? && Consumes(e, span'))
  {
    hide Parse, IsDot, Unstuffed;
  }

  /** The event at hand and the lines it takes follow from the recipients in force and
      the lines to come. */
  lemma NextEvent(h: seq<Event>, e: Event, span: seq<string>, tail: seq<string>,
                  h': seq<Event>, e': Event, span': seq<string>, tail': seq<string>)
    requires Fits(h, e) && Fits(h', e') && Recipients(h) == Recipients(h')
    requires Consumes(e, span) && Consumes(e', span') && span + tail == span' + tail'
    requires (e.CutOff? ==> tail == []) && (e'.CutOff? ==> tail' == [])
    ensures span == span' && tail == tail' && SameEvent(e, e')
  {
    hide Recipients, Parse, IsDot, Unstuffed;
    var stream := span + tail;
    assert span == stream[..|span|] && span' == stream[..|span'|];
    assert span[0] == stream[0] == span'[0];
    if e.Message? && e'.Message? {
      SameMessage(e, span, e', span', stream);
    }
    if e.CutOff? {
      CutOffHasNoDot(span, e', span');
    }
    if e'.CutOff? {
      CutOffHasNoDot(span', e, span);
    }
    assert span == span';
    assert tail == stream[|span|..] && tail' == stream[|span'|..];
  }

  lemma {:induction false} SamePrefix(h: seq<Event>, spans: seq<seq<string>>, rest: seq<string>,
                                      h': seq<Event>, spans': seq<seq<string>>, rest': seq<string>,
                                      input: seq<string>, k: nat)
    requires Conducts(h, spans, input, rest) && Conducts(h', spans', input, rest')
    requires k <= |h| == |spans| && k <= |h'| == |spans'|
    ensures spans[..k] == spans'[..k] && SameEvents(h[..k], h'[..k])
    ensures Tail(spans, k, rest) == Tail(spans', k, rest')
  {
    hide Conducts, Flat, SameEvents, SameEvent, Fits, Consumes;
    if k == 0 {
      NoEvents();
      WholeTail(h, spans, input, rest);
      WholeTail(h', spans', input, rest');
    } else {
      var n := k - 1;
      SamePrefix(h, spans, rest, h', spans', rest', input, n);
      SameRecipients(h[..n], h'[..n]);
      EventAt(h, spans, input, rest, n);
      EventAt(h', spans', input, rest', n);
      NextEvent(h[..n], h[n], spans[n], Tail(spans, k, rest), h'[..n], h'[n], spans'[n], Tail(spans', k, rest'));
      OneMoreSame(h, h', n);
      assert spans[..k] == spans[..n] + [spans[n]] && spans'[..k] == spans'[..n] + [spans'[n]];
    }
  }

  lemma NoEvents()
    ensures SameEvents([], [])
  {
  }

  lemma WholeTail(h: seq<Event>, spans: seq<seq<string>>, input: seq<string>, rest: seq<string>)
    requires Conducts(h, spans, input, rest)
    ensures |spans| == |h| && Tail(spans, 0, rest) == input
  {
    FlatTail(spans, 0, rest);
  }

  lemma LastSame(h: seq<Event>, h': seq<Event>, k: nat)
    requires k <= |h| && k <= |h'| && SameEvents(h[..k], h'[..k])
    ensures k > 0 ==> SameEvent(h[k - 1], h'[k - 1])
  {
    assert k > 0 ==> SameEvent(h[..k][k - 1], h'[..k][k - 1]);
  }

  lemma NoEarlierQuit(h: seq<Event>, spans: seq<seq<string>>, input: seq<string>, rest: seq<string>, k: nat)
    requires Conducts(h, spans, input, rest) && k < |h|
    ensures k > 0 ==> h[k - 1] != Simple(Quit)
  {
    if k > 0 {
      EventAt(h, spans, input, rest, k - 1);
    }
  }

  lemma NotShorter(h: seq<Event>, spans: seq<seq<string>>, rest: seq<string>,
                   h': seq<Event>, spans': seq<seq<string>>, rest': seq<string>, input: seq<string>)
    requires Conducts(h, spans, input, rest) && Conducts(h', spans', input, rest')
    ensures |h| >= |h'|
  {
    var k := |h|;
    if k < |h'| {
      SamePrefix(h, spans, rest, h', spans', rest', input, k);
      EventAt(h', spans', input, rest', k);
      NoEarlierQuit(h', spans', input, rest', k);
      LastSame(h, h', k);
    }
  }

  /** The lines a client sends fix the dialogue: two sessions sent the same lines have the
      same exchanges, read from the same lines, and leave the same rest. They differ at
      most in how deliveries went. */
  lemma DialogueIsDetermined(h: seq<Event>, spans: seq<seq<string>>, rest: seq<string>,
                             h': seq<Event>, spans': seq<seq<string>>, rest': seq<string>, input: seq<string>)
    requires Conducts(h, spans, input, rest) && Conducts(h', spans', input, rest')
    ensures SameEvents(h, h') && spans == spans' && rest == rest'
  {
    NotShorter(h, spans, rest, h', spans', rest', input);
    NotShorter(h', spans', rest', h, spans, rest, input);
    var k := |h|;
    WholeTail(h, spans, input, rest);
    WholeTail(h', spans', input, rest');
    hide Conducts, SameEvents;
    SamePrefix(h, spans, rest, h', spans', rest', input, k);
    assert h[..k] == h && h'[..k] == h' && spans[..k] == spans && spans'[..k] == spans';
  }
}
