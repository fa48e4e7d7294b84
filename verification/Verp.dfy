/** VERP envelope senders: listname-bounces+recipient=recipientdomain@listdomain. */
module Verp {
  import opened Wrappers
  import opened Text

  const MARKER := "-bounces+"

  /** An address split at its first "@", as strings.Cut does. */
  datatype Parts = Parts(local: string, domain: string) {
    function Address(): string { local + "@" + domain }
  }

  /** The checks EncodeVERP makes on each of its arguments. */
  function Cut(addr: string): (r: Option<Parts>)
    ensures r.Some? <==> |addr| > 0 && addr[0] != '@' && '@' in addr[..|addr| - 1]
    ensures r.Some? ==> r.value.Address() == addr && '@' !in r.value.local
    ensures r.Some? ==> r.value.local != "" && r.value.domain != ""
  {
    var i := Index(addr, "@");
    FirstCut(addr, '@');
    assert i != -1 ==> addr[i] == '@';
    assert 0 < i < |addr| - 1 ==> addr[..|addr| - 1][i] == '@';
    if i <= 0 || i + 1 == |addr| then None
    else Some(Parts(addr[..i], addr[i + 1..]))
  }

  lemma CutJoined(local: string, domain: string)
    requires local != "" && domain != "" && '@' !in local
    ensures Cut(local + "@" + domain) == Some(Parts(local, domain))
  {
    FirstSplit(local, '@', domain);
  }

  function Encoded(list: Parts, rcpt: Parts): string {
    list.local + MARKER + rcpt.local + "=" + rcpt.domain + "@" + list.domain
  }

  function EncodeVERP(listAddr: string, recipientAddr: string): Option<string> {
    var list :- Cut(listAddr);
    var rcpt :- Cut(recipientAddr);
    Some(Encoded(list, rcpt))
  }

  /** The printed form of a pair of addresses, each cut at its first "@"; an address that
      has no "@" with something on both sides cannot be printed. */
  lemma PrintedForm(listLocal: string, listDomain: string, local: string, domain: string)
    requires '@' !in listLocal && '@' !in local
    ensures EncodeVERP(listLocal + "@" + listDomain, local + "@" + domain) ==
      if listLocal == "" || listDomain == "" || local == "" || domain == "" then None
      else Some(listLocal + "-bounces+" + local + "=" + domain + "@" + listDomain)
    ensures EncodeVERP(listLocal, local + "@" + domain).None?
    ensures EncodeVERP(listLocal + "@" + listDomain, local).None?
  {
    hide IndexFrom, Contains;
    FirstSplit(listLocal, '@', listDomain);
    FirstSplit(local, '@', domain);
    FirstCut(listLocal, '@');
    FirstCut(local, '@');
  }

  datatype Decoded = Decoded(listAddr: string, recipientAddr: string)

  function DecodeVERP(envelopeSender: string): Option<Decoded> {
    var atIdx := LastIndex(envelopeSender, "@");
    if atIdx < 0 then None else
    AtChar(envelopeSender, '@', atIdx);
    var localPart := envelopeSender[..atIdx];
    var listDomain := envelopeSender[atIdx + 1..];
    if localPart == "" || listDomain == "" then None else
    var recipient :- DecodeLocal(localPart);
    Some(Decoded(recipient.listLocal + "@" + listDomain, recipient.recipientAddr))
  }

  datatype DecodedLocal = DecodedLocal(listLocal: string, recipientAddr: string)

  /** The part of DecodeVERP that works on the local part. */
  function DecodeLocal(localPart: string): Option<DecodedLocal> {
    var mIdx := LastIndex(localPart, MARKER);
    if mIdx < 0 then None else
    var listLocal := localPart[..mIdx];
    var enc := localPart[mIdx + |MARKER|..];
    if listLocal == "" then None else
    var recipientAddr :- DecodeRecipient(enc);
    Some(DecodedLocal(listLocal, recipientAddr))
  }

  function DecodeRecipient(enc: string): Option<string> {
    var eqIdx := LastIndex(enc, "=");
    if eqIdx < 0 then None else
    AtChar(enc, '=', eqIdx);
    var local := enc[..eqIdx];
    var domain := enc[eqIdx + 1..];
    if local == "" || domain == "" then None else Some(local + "@" + domain)
  }

  /** What a caller can check about a recipient before encoding it. */
  ghost predicate CleanRecipient(rcpt: Parts) {
    '=' !in rcpt.domain && !Contains(rcpt.local, MARKER) && !Contains(rcpt.domain, MARKER)
  }

  /** The recipient part alone decodes back if and only if its domain has no "=". */
  lemma RecipientExact(rcpt: Parts)
    requires rcpt.local != "" && rcpt.domain != ""
    ensures DecodeRecipient(rcpt.local + "=" + rcpt.domain) == Some(rcpt.Address())
            <==> '=' !in rcpt.domain
  {
    var enc := rcpt.local + "=" + rcpt.domain;
    if '=' !in rcpt.domain {
      LastSplit(rcpt.local, '=', rcpt.domain);
    } else {
      SplitsLater(enc, |rcpt.local|);
      assert rcpt.Address()[|rcpt.local|] == '@';
    }
  }

  /** A later "=" than the one at `i` stays where it is when the last one is decoded. */
  lemma SplitsLater(enc: string, i: nat)
    requires i < |enc| && enc[i] == '=' && '=' in enc[i + 1..]
    ensures DecodeRecipient(enc).Some? ==>
      |DecodeRecipient(enc).value| > i && DecodeRecipient(enc).value[i] == '='
  {
    var k :| i < k < |enc| && enc[k] == '=' by {
      var j :| 0 <= j < |enc[i + 1..]| && enc[i + 1..][j] == '=';
      assert enc[i + 1 + j] == '=';
    }
    AtChar(enc, '=', k);
  }

  /** An occurrence of the marker in `a ++ "=" ++ b` lies inside `a` or inside `b`. */
  lemma MarkerAroundEquals(a: string, b: string, i: int)
    ensures At(a + "=" + b, MARKER, i) <==> At(a, MARKER, i) || At(b, MARKER, i - |a| - 1)
  {
    var s := a + "=" + b;
    assert s == a + ("=" + b) == (a + "=") + b;
    if i + |MARKER| <= |a| {
      AtLeft(a, "=" + b, MARKER, i);
    } else if i > |a| {
      AtRight(a + "=", b, MARKER, i);
    } else if At(s, MARKER, i) {
      AtIndex(s, MARKER, i, |a| - i);
    }
  }

  /** No occurrence of the marker overlaps another one. */
  lemma MarkerDoesNotOverlap(s: string, i: int, j: int)
    requires At(s, MARKER, i) && At(s, MARKER, j) && i < j
    ensures j >= i + |MARKER|
  {
    if j < i + |MARKER| {
      AtIndex(s, MARKER, j, 0);
      AtIndex(s, MARKER, i, j - i);
    }
  }

  /** The last marker of an encoded local part is the encoder's own if and only if
      neither recipient part contains one. */
  lemma LastMarker(listLocal: string, rcpt: Parts)
    ensures var localPart := listLocal + MARKER + rcpt.local + "=" + rcpt.domain;
            LastIndex(localPart, MARKER) >= |listLocal|
    ensures var localPart := listLocal + MARKER + rcpt.local + "=" + rcpt.domain;
            LastIndex(localPart, MARKER) == |listLocal|
            <==> !Contains(rcpt.local, MARKER) && !Contains(rcpt.domain, MARKER)
  {
    var tail := rcpt.local + "=" + rcpt.domain;
    var head := listLocal + MARKER;
    var localPart := listLocal + MARKER + rcpt.local + "=" + rcpt.domain;
    assert localPart == head + tail;
    assert localPart[|listLocal|..|listLocal| + |MARKER|] == MARKER;
    assert At(localPart, MARKER, |listLocal|);
    var m := LastIndex(localPart, MARKER);
    if m > |listLocal| {
      MarkerDoesNotOverlap(localPart, |listLocal|, m);
      AtRight(head, tail, MARKER, m);
      MarkerAroundEquals(rcpt.local, rcpt.domain, m - |head|);
    }
    if Contains(rcpt.local, MARKER) {
      var i :| At(rcpt.local, MARKER, i);
      MarkerAroundEquals(rcpt.local, rcpt.domain, i);
      AtRight(head, tail, MARKER, |head| + i);
    }
    if Contains(rcpt.domain, MARKER) {
      var i :| At(rcpt.domain, MARKER, i);
      MarkerAroundEquals(rcpt.local, rcpt.domain, i + |rcpt.local| + 1);
      AtRight(head, tail, MARKER, |head| + i + |rcpt.local| + 1);
    }
  }

  /** The local part decodes to its recipient if and only if the recipient is clean,
      and then to its list name as well. */
  lemma LocalExact(listLocal: string, rcpt: Parts)
    requires listLocal != "" && rcpt.local != "" && rcpt.domain != ""
    ensures var d := DecodeLocal(listLocal + MARKER + rcpt.local + "=" + rcpt.domain);
            && (d.Some? && d.value.recipientAddr == rcpt.Address() <==> CleanRecipient(rcpt))
            && (CleanRecipient(rcpt) ==> d == Some(DecodedLocal(listLocal, rcpt.Address())))
            && (d.Some? ==> listLocal <= d.value.listLocal)
  {
    var localPart := listLocal + MARKER + rcpt.local + "=" + rcpt.domain;
    var enc := rcpt.local + "=" + rcpt.domain;
    var m := LastIndex(localPart, MARKER);
    LastMarker(listLocal, rcpt);
    assert localPart[..m][..|listLocal|] == listLocal;
    if m == |listLocal| {
      assert localPart[..m] == listLocal;
      assert localPart[m + |MARKER|..] == enc;
      RecipientExact(rcpt);
    } else if DecodeLocal(localPart).Some? {
      // A later marker leaves fewer characters for the recipient.
      var rest := localPart[m + |MARKER|..];
      AtChar(rest, '=', LastIndex(rest, "="));
      assert |DecodeLocal(localPart).value.recipientAddr| == |rest| < |enc|;
    }
  }

  /** The list address the decoder returns, as two slices of its input. */
  lemma DecodedList(env: string) returns (at: int, m: int)
    requires DecodeVERP(env).Some?
    ensures 0 < m < at < |env| - 1 && at == LastIndex(env, "@") && '@' !in env[at + 1..]
    ensures DecodeVERP(env).value.listAddr == env[..m] + "@" + env[at + 1..]
  {
    LastCut(env, '@');
    at := LastIndex(env, "@");
    m := LastIndex(env[..at], MARKER);
    assert env[..at][..m] == env[..m];
  }

  /** When the list domain has an "@", the decoder splits inside it: a "-" stands where
      the list address has its first "@", or characters are missing. */
  lemma DomainWithAt(list: Parts, rcpt: Parts)
    requires '@' in list.domain
    ensures var d := DecodeVERP(Encoded(list, rcpt));
            d.Some? ==> d.value.listAddr != list.Address()
  {
    var env := Encoded(list, rcpt);
    var prefix := |env| - |list.domain|;
    assert env[prefix..] == list.domain;
    if DecodeVERP(env).Some? {
      var at, m := DecodedList(env);
      assert at >= prefix;
      assert m > |list.local| ==> env[..m][|list.local|] == MARKER[0];
      assert list.Address()[|list.local|] == '@';
    }
  }

  /** VERP is exact: a valid pair of addresses survives the round trip if and only if
      the list domain has no "@", the recipient domain no "=", and neither recipient
      part contains "-bounces+". */
  lemma RoundTripExact(listAddr: string, recipientAddr: string)
    requires EncodeVERP(listAddr, recipientAddr).Some?
    ensures DecodeVERP(EncodeVERP(listAddr, recipientAddr).value)
              == Some(Decoded(listAddr, recipientAddr))
            <==> '@' !in Cut(listAddr).value.domain && CleanRecipient(Cut(recipientAddr).value)
  {
    var list, rcpt := Cut(listAddr).value, Cut(recipientAddr).value;
    if '@' in list.domain {
      DomainWithAt(list, rcpt);
    } else {
      var localPart := list.local + MARKER + rcpt.local + "=" + rcpt.domain;
      assert Encoded(list, rcpt) == localPart + "@" + list.domain;
      LastSplit(localPart, '@', list.domain);
      LocalExact(list.local, rcpt);
    }
  }

  /** `env` is the printed form of these parts, and splits where they were joined. */
  ghost predicate IsPrinted(env: string, listLocal: string, listDomain: string, rcpt: Parts) {
    && listLocal != "" && listDomain != "" && '@' !in listDomain
    && rcpt.local != "" && rcpt.domain != "" && CleanRecipient(rcpt)
    && env == listLocal + "-bounces+" + rcpt.local + "=" + rcpt.domain + "@" + listDomain
  }

  lemma PrintedDecodes(env: string, listLocal: string, listDomain: string, rcpt: Parts)
    requires IsPrinted(env, listLocal, listDomain, rcpt)
    ensures DecodeVERP(env) == Some(Decoded(listLocal + "@" + listDomain, rcpt.local + "@" + rcpt.domain))
  {
    hide DecodeLocal, CleanRecipient;
    var localPart := listLocal + MARKER + rcpt.local + "=" + rcpt.domain;
    LastSplit(localPart, '@', listDomain);
    LocalExact(listLocal, rcpt);
  }

  lemma DecodedIsPrinted(env: string) returns (listLocal: string, listDomain: string, rcpt: Parts)
    requires DecodeVERP(env).Some?
    ensures IsPrinted(env, listLocal, listDomain, rcpt)
  {
    hide LastIndexUpTo, Contains;
    LastCut(env, '@');
    var at := LastIndex(env, "@");
    var localPart := env[..at];
    var m := LastIndex(localPart, MARKER);
    var enc := localPart[m + |MARKER|..];
    LastCut(enc, '=');
    var eq := LastIndex(enc, "=");
    listLocal, listDomain, rcpt := localPart[..m], env[at + 1..], Parts(enc[..eq], enc[eq + 1..]);
    assert localPart == listLocal + MARKER + enc;
    assert localPart == listLocal + MARKER + rcpt.local + "=" + rcpt.domain;
    LastMarker(listLocal, rcpt);
  }

  /** The decoder accepts exactly the printed forms that split where they were joined, and
      yields what they were printed for. */
  lemma DecodesExactly(env: string, listAddr: string, recipientAddr: string)
    ensures DecodeVERP(env) == Some(Decoded(listAddr, recipientAddr)) <==>
      exists listLocal, listDomain, rcpt ::
        && IsPrinted(env, listLocal, listDomain, rcpt)
        && listAddr == listLocal + "@" + listDomain && recipientAddr == rcpt.local + "@" + rcpt.domain
  {
    hide DecodeVERP, IsPrinted;
    if DecodeVERP(env) == Some(Decoded(listAddr, recipientAddr)) {
      var listLocal, listDomain, rcpt := DecodedIsPrinted(env);
      PrintedDecodes(env, listLocal, listDomain, rcpt);
    }
    forall listLocal, listDomain, rcpt | IsPrinted(env, listLocal, listDomain, rcpt)
      ensures DecodeVERP(env) == Some(Decoded(listLocal + "@" + listDomain, rcpt.local + "@" + rcpt.domain))
    {
      PrintedDecodes(env, listLocal, listDomain, rcpt);
    }
  }
}
