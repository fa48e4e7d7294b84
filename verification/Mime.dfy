/** The MIME walk that numbers attachments across a whole message tree. */
module Mime {
  import opened Wrappers
  import opened Text

  /** An attachment's name, type and content. */
  datatype File = File(name: string, contentType: string, bytes: string)

  /** A MIME part as the header and multipart readers deliver it. `children` are the
      parts a multipart body splits into, `message` what parsing its body as a message
      yields, if it can be parsed. */
  datatype Part = Part(
    mediaType: string,
    boundary: string,
    isFile: bool,
    text: string,
    file: File,
    headers: string,
    children: seq<Part>,
    message: Option<Part>)

  datatype Attachment = Attachment(ordinal: nat, file: File)

  datatype ParsedMessage = ParsedMessage(
    headers: string,
    text: Option<string>,
    html: Option<string>,
    nested: seq<ParsedMessage>,
    attachments: seq<Attachment>)

  datatype Kind = Multipart | Nested | FilePart | PlainText | Html

  /** The order in which parsePart asks what a part is. */
  function KindOf(part: Part): Kind {
    if HasPrefix(part.mediaType, "multipart/") then Multipart
    else if part.mediaType == "message/rfc822" then Nested
    else if part.isFile then FilePart
    else if part.mediaType == "" || part.mediaType == "text/plain" then PlainText
    else if part.mediaType == "text/html" then Html
    else FilePart
  }

  /** A part without a media type is taken for plain text. */
  lemma KindOfTyped(part: Part, mediaType: string)
    requires mediaType == if part.mediaType == "" then "text/plain" else part.mediaType
    ensures KindOf(part) ==
      if HasPrefix(mediaType, "multipart/") then Multipart
      else if mediaType == "message/rfc822" then Nested
      else if part.isFile then FilePart
      else if mediaType == "text/plain" then PlainText
      else if mediaType == "text/html" then Html
      else FilePart
  {
    assert "text/plain"[..10][0] == 't';
  }

  /** Which parts without parts of their own are files: those declared to be, whatever their
      type, and those that are no text. */
  lemma LeafFiles(part: Part)
    requires !HasPrefix(part.mediaType, "multipart/") && part.mediaType != "message/rfc822"
    ensures Files(part) ==
      if part.isFile || part.mediaType !in {"", "text/plain", "text/html"} then [part.file] else []
  {
  }

  /** Whatever they declare, a multipart and a nested message are no files themselves. */
  lemma ContainerFiles(part: Part)
    ensures HasPrefix(part.mediaType, "multipart/") ==>
      Files(part) == if part.boundary == "" then [] else FilesOf(part.children)
    ensures part.mediaType == "message/rfc822" ==>
      Files(part) == if part.message.Some? then Files(part.message.value) else []
  {
    assert part.mediaType == "message/rfc822" ==> part.mediaType[..10][1] == 'e';
  }

  /** The parts a part is walked into: none for a multipart without a boundary. */
  function Walked(part: Part): seq<Part> {
    if part.boundary == "" then [] else part.children
  }

  // ----- What a message tree contains -----

  /** The files of a tree, in document order, wherever they are nested. */
  function Files(part: Part): seq<File>
    decreases part, 1
  {
    match KindOf(part)
    case Multipart => FilesOf(Walked(part))
    case Nested => if part.message.Some? then Files(part.message.value) else []
    case FilePart => [part.file]
    case _ => []
  }

  function FilesOf(parts: seq<Part>): seq<File>
    decreases parts, 0
  {
    if parts == [] then [] else Files(parts[0]) + FilesOf(parts[1..])
  }

  /** The attachments of the message itself, numbered from `start`. */
  function Attached(part: Part, start: nat): seq<Attachment>
    decreases part, 1
  {
    match KindOf(part)
    case Multipart => AttachedOf(Walked(part), start)
    case FilePart => [Attachment(start, part.file)]
    case _ => []
  }

  function AttachedOf(parts: seq<Part>, start: nat): seq<Attachment>
    decreases parts, 0
  {
    if parts == [] then [] else Attached(parts[0], start) + AttachedOf(parts[1..], start + |Files(parts[0])|)
  }

  /** The messages nested in it, numbered likewise. */
  function NestedIn(part: Part, start: nat): seq<ParsedMessage>
    decreases part, 1
  {
    match KindOf(part)
    case Multipart => NestedInAll(Walked(part), start)
    case Nested => if part.message.Some? then [Parsed(part.message.value, start)] else []
    case _ => []
  }

  function NestedInAll(parts: seq<Part>, start: nat): seq<ParsedMessage>
    decreases parts, 0
  {
    if parts == [] then [] else NestedIn(parts[0], start) + NestedInAll(parts[1..], start + |Files(parts[0])|)
  }

  /** The first non-empty body of one kind, in document order. */
  function Body(part: Part, kind: Kind): Option<string>
    decreases part, 1
  {
    if KindOf(part) == Multipart then BodyOf(Walked(part), kind)
    else if KindOf(part) == kind && kind in {PlainText, Html} && part.text != "" then Some(part.text)
    else None
  }

  function BodyOf(parts: seq<Part>, kind: Kind): Option<string>
    decreases parts, 0
  {
    if parts == [] then None else Or(Body(parts[0], kind), BodyOf(parts[1..], kind))
  }

  function Or<T>(a: Option<T>, b: Option<T>): Option<T> { if a.Some? then a else b }

  function Parsed(message: Part, start: nat): ParsedMessage
    decreases message, 2
  {
    ParsedMessage(message.headers, Body(message, PlainText), Body(message, Html),
                  NestedIn(message, start), Attached(message, start))
  }

  lemma NoParts(start: nat)
    ensures FilesOf([]) == [] && AttachedOf([], start) == [] && NestedInAll([], start) == []
    ensures forall kind :: BodyOf([], kind) == None
  {
  }

  lemma FirstPart(parts: seq<Part>, start: nat)
    requires parts != []
    ensures var next := start + |Files(parts[0])|;
      && FilesOf(parts) == Files(parts[0]) + FilesOf(parts[1..])
      && AttachedOf(parts, start) == Attached(parts[0], start) + AttachedOf(parts[1..], next)
      && NestedInAll(parts, start) == NestedIn(parts[0], start) + NestedInAll(parts[1..], next)
      && forall kind :: BodyOf(parts, kind) == Or(Body(parts[0], kind), BodyOf(parts[1..], kind))
  {
    hide Files, Attached, NestedIn, Body;
  }

  lemma OnePart(part: Part, start: nat)
    ensures FilesOf([part]) == Files(part) && AttachedOf([part], start) == Attached(part, start)
    ensures NestedInAll([part], start) == NestedIn(part, start)
    ensures forall kind :: BodyOf([part], kind) == Body(part, kind)
  {
    hide Files, Attached, NestedIn, Body;
    assert [part][1..] == [];
    FirstPart([part], start);
  }

  /** The loop over a multipart adds its parts at the end. */
  lemma {:induction false} OneMorePart(parts: seq<Part>, part: Part, start: nat)
    ensures FilesOf(parts + [part]) == FilesOf(parts) + Files(part)
    ensures AttachedOf(parts + [part], start) == AttachedOf(parts, start) + Attached(part, start + |FilesOf(parts)|)
    ensures NestedInAll(parts + [part], start) == NestedInAll(parts, start) + NestedIn(part, start + |FilesOf(parts)|)
    ensures forall kind :: BodyOf(parts + [part], kind) == Or(BodyOf(parts, kind), Body(part, kind))
  {
    hide Files, Attached, NestedIn, Body, FilesOf, AttachedOf, NestedInAll, BodyOf;
    var all := parts + [part];
    if parts == [] {
      assert all == [part];
      NoParts(start);
      OnePart(part, start);
    } else {
      assert all[0] == parts[0] && all[1..] == parts[1..] + [part];
      FirstPart(parts, start);
      FirstPart(all, start);
      OneMorePart(parts[1..], part, start + |Files(parts[0])|);
    }
  }

  // ----- The walk -----

  class Counter {
    var next: nat

    constructor ()
      ensures next == 0
    {
      next := 0;
    }
  }

  /** A message being parsed. */
  class MessageBuilder {
    var text: Option<string>
    var html: Option<string>
    var nested: seq<ParsedMessage>
    var attachments: seq<Attachment>

    constructor ()
      ensures text == None && html == None && nested == [] && attachments == []
    {
      text, html, nested, attachments := None, None, [], [];
    }

    /** The builder holds what it held before and what `parts`, numbered from `start`, add. */
    twostate predicate Folded(parts: seq<Part>, start: nat)
      reads this
    {
      && text == Or(old(text), BodyOf(parts, PlainText)) && html == Or(old(html), BodyOf(parts, Html))
      && attachments == old(attachments) + AttachedOf(parts, start)
      && nested == old(nested) + NestedInAll(parts, start)
    }

    method ParsePart(part: Part, ordinal: Counter)
      modifies this, ordinal
      ensures ordinal.next == old(ordinal.next) + |Files(part)|
      ensures text == Or(old(text), Body(part, PlainText)) && html == Or(old(html), Body(part, Html))
      ensures attachments == old(attachments) + Attached(part, old(ordinal.next))
      ensures nested == old(nested) + NestedIn(part, old(ordinal.next))
      decreases part, 1
    {
      hide HasPrefix, KindOf;
      var mediaType := if part.mediaType == "" then "text/plain" else part.mediaType;
      KindOfTyped(part, mediaType);
      if HasPrefix(mediaType, "multipart/") {
        ParseMultipart(part.boundary, part.children, ordinal);
      } else if mediaType == "message/rfc822" {
        ParseNested(part.message, ordinal);
      } else if part.isFile {
        ReadAttachment(part.file, ordinal);
      } else if mediaType == "text/plain" {
        if text.None? && part.text != "" {
          text := Some(part.text);
        }
      } else if mediaType == "text/html" {
        if html.None? && part.text != "" {
          html := Some(part.text);
        }
      } else {
        ReadAttachment(part.file, ordinal);
      }
    }

    method ParseMultipart(boundary: string, children: seq<Part>, ordinal: Counter)
      modifies this, ordinal
      ensures var parts := if boundary == "" then [] else children;
        ordinal.next == old(ordinal.next) + |FilesOf(parts)| && Folded(parts, old(ordinal.next))
      decreases children, 0
    {
      hide Files, Attached, NestedIn, Body, FilesOf, AttachedOf, NestedInAll, BodyOf;
      NoParts(ordinal.next);
      if boundary == "" {
        return;
      }
      for i := 0 to |children|
        invariant ordinal.next == old(ordinal.next) + |FilesOf(children[..i])|
        invariant Folded(children[..i], old(ordinal.next))
      {
        OneMorePart(children[..i], children[i], old(ordinal.next));
        assert children[..i] + [children[i]] == children[..i + 1];
        ParsePart(children[i], ordinal);
      }
      assert children[..|children|] == children;
    }

    method ParseNested(message: Option<Part>, ordinal: Counter)
      modifies this, ordinal
      ensures text == old(text) && html == old(html) && attachments == old(attachments)
      ensures message.None? ==> ordinal.next == old(ordinal.next) && nested == old(nested)
      ensures message.Some? ==>
        && ordinal.next == old(ordinal.next) + |Files(message.value)|
        && nested == old(nested) + [Parsed(message.value, old(ordinal.next))]
      decreases message, 2
    {
      if message.Some? {
        var inner := new MessageBuilder();
        inner.ParsePart(message.value, ordinal);
        assert inner.nested == NestedIn(message.value, old(ordinal.next));
        assert inner.attachments == Attached(message.value, old(ordinal.next));
        nested := nested +
          [ParsedMessage(message.value.headers, inner.text, inner.html, inner.nested, inner.attachments)];
      }
    }

    method ReadAttachment(file: File, ordinal: Counter)
      modifies this`attachments, ordinal
      ensures ordinal.next == old(ordinal.next) + 1
      ensures attachments == old(attachments) + [Attachment(old(ordinal.next), file)]
    {
      attachments := attachments + [Attachment(ordinal.next, file)];
      ordinal.next := ordinal.next + 1;
    }
  }

  // ----- Ordinals -----

  /** The attachments of a whole tree: a message's own, then those of its messages. */
  function AllAttachments(m: ParsedMessage): seq<Attachment>
    decreases m, 1
  {
    m.attachments + AllOf(m.nested)
  }

  function AllOf(ms: seq<ParsedMessage>): seq<Attachment>
    decreases ms, 0
  {
    if ms == [] then [] else AllAttachments(ms[0]) + AllOf(ms[1..])
  }

  /** Document order: file i of the tree under ordinal start + i. */
  function Numbered(files: seq<File>, start: nat): seq<Attachment> {
    seq(|files|, i requires 0 <= i < |files| => Attachment(start + i, files[i]))
  }

  lemma {:induction false} AllOfConcat(a: seq<ParsedMessage>, b: seq<ParsedMessage>)
    ensures AllOf(a + b) == AllOf(a) + AllOf(b)
  {
    if a == [] {
      assert a + b == b;
    } else {
      assert (a + b)[1..] == a[1..] + b;
      AllOfConcat(a[1..], b);
    }
  }

  lemma NumberedConcat(a: seq<File>, b: seq<File>, start: nat)
    ensures Numbered(a + b, start) == Numbered(a, start) + Numbered(b, start + |a|)
  {
  }

  lemma NoFiles(start: nat)
    ensures AttachedOf([], start) + AllOf(NestedInAll([], start)) == Numbered(FilesOf([]), start) == []
  {
  }

  lemma Regrouped<T>(a: seq<T>, b: seq<T>, c: seq<T>, d: seq<T>)
    ensures multiset((a + c) + (b + d)) == multiset(a + b) + multiset(c + d)
  {
  }

  /** What a part adds, to either list, is its files in document order, each once. */
  lemma {:induction false} PartNumbered(part: Part, start: nat)
    ensures multiset(Attached(part, start) + AllOf(NestedIn(part, start))) == multiset(Numbered(Files(part), start))
    decreases part, 1
  {
    match KindOf(part)
    case Multipart => PartsNumbered(Walked(part), start);
    case Nested =>
      if part.message.Some? {
        var m := part.message.value;
        PartNumbered(m, start);
        assert AllOf([Parsed(m, start)]) == AllAttachments(Parsed(m, start)) + AllOf([]);
      }
    case FilePart =>
      assert Numbered([part.file], start) == [Attachment(start, part.file)];
    case _ =>
  }

  lemma {:induction false} PartsNumbered(parts: seq<Part>, start: nat)
    ensures multiset(AttachedOf(parts, start) + AllOf(NestedInAll(parts, start))) ==
      multiset(Numbered(FilesOf(parts), start))
    decreases parts, 0
  {
    hide Files, Attached, NestedIn, AllAttachments, Numbered, AttachedOf, NestedInAll, FilesOf, AllOf;
    if parts == [] {
      NoFiles(start);
    } else {
      var first, rest := parts[0], parts[1..];
      var next := start + |Files(first)|;
      FirstPart(parts, start);
      PartNumbered(first, start);
      PartsNumbered(rest, next);
      AllOfConcat(NestedIn(first, start), NestedInAll(rest, next));
      NumberedConcat(Files(first), FilesOf(rest), start);
      Regrouped(Attached(first, start), AllOf(NestedIn(first, start)),
                AttachedOf(rest, next), AllOf(NestedInAll(rest, next)));
      BagOfConcat(Numbered(Files(first), start), Numbered(FilesOf(rest), next));
    }
  }

  lemma BagOfConcat<T>(a: seq<T>, b: seq<T>)
    ensures multiset(a + b) == multiset(a) + multiset(b)
  {
  }

  /** For every finite MIME tree the ordinals are exactly 0..n-1 in document order. */
  lemma OrdinalsAreDocumentOrder(message: Part)
    ensures multiset(AllAttachments(Parsed(message, 0))) == multiset(Numbered(Files(message), 0))
  {
    PartNumbered(message, 0);
  }

  function FindIn(attachments: seq<Attachment>, ordinal: nat): Option<Attachment> {
    if attachments == [] then None
    else if attachments[0].ordinal == ordinal then Some(attachments[0])
    else FindIn(attachments[1..], ordinal)
  }

  /** The search of the download endpoint: own attachments first, then message by message. */
  function AttachmentByOrdinal(m: ParsedMessage, ordinal: nat): Option<Attachment>
    decreases m, 1
  {
    var own := FindIn(m.attachments, ordinal);
    if own.Some? then own else FindInAll(m.nested, ordinal)
  }

  function FindInAll(ms: seq<ParsedMessage>, ordinal: nat): Option<Attachment>
    decreases ms, 0
  {
    if ms == [] then None
    else
      var found := AttachmentByOrdinal(ms[0], ordinal);
      if found.Some? then found else FindInAll(ms[1..], ordinal)
  }

  /** On any tree the search finds the first attachment with the ordinal, if there is one. */
  lemma {:induction false} SearchFindsFirst(m: ParsedMessage, ordinal: nat)
    ensures AttachmentByOrdinal(m, ordinal) == FindIn(AllAttachments(m), ordinal)
    decreases m, 1
  {
    FindInConcat(m.attachments, AllOf(m.nested), ordinal);
    SearchFindsFirstOf(m.nested, ordinal);
  }

  lemma {:induction false} SearchFindsFirstOf(ms: seq<ParsedMessage>, ordinal: nat)
    ensures FindInAll(ms, ordinal) == FindIn(AllOf(ms), ordinal)
    decreases ms, 0
  {
    if ms != [] {
      SearchFindsFirst(ms[0], ordinal);
      SearchFindsFirstOf(ms[1..], ordinal);
      FindInConcat(AllAttachments(ms[0]), AllOf(ms[1..]), ordinal);
    }
  }

  lemma {:induction false} FindInConcat(a: seq<Attachment>, b: seq<Attachment>, ordinal: nat)
    ensures FindIn(a + b, ordinal) == Or(FindIn(a, ordinal), FindIn(b, ordinal))
  {
    if a == [] {
      assert a + b == b;
    } else {
      assert (a + b)[1..] == a[1..] + b;
      FindInConcat(a[1..], b, ordinal);
    }
  }

  lemma {:induction false} FindInMeans(attachments: seq<Attachment>, ordinal: nat)
    ensures var r := FindIn(attachments, ordinal);
            if r.Some? then r.value in attachments && r.value.ordinal == ordinal
            else forall a :: a in attachments ==> a.ordinal != ordinal
  {
    if attachments != [] {
      FindInMeans(attachments[1..], ordinal);
    }
  }

  /** Downloading: ordinal k names the k-th file of the message in document order, and
      nothing when there are no more than k. */
  lemma DownloadIsExact(message: Part, k: nat)
    ensures AttachmentByOrdinal(Parsed(message, 0), k) ==
      if k < |Files(message)| then Some(Attachment(k, Files(message)[k])) else None
  {
    var all, numbered := AllAttachments(Parsed(message, 0)), Numbered(Files(message), 0);
    OrdinalsAreDocumentOrder(message);
    SearchFindsFirst(Parsed(message, 0), k);
    FindInMeans(all, k);
    assert forall a :: a in all <==> a in multiset(all);
    assert forall a :: a in numbered <==> a in multiset(numbered);
    if k < |Files(message)| {
      assert numbered[k] in numbered;
    }
  }
}
