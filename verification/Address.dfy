/** The addresses xMailman answers to, and what each one is for. */
module Address {
  import opened Wrappers
  import opened Text

  datatype AddressType =
    Post | Request | Owner | Subscribe | Unsubscribe | Bounce | Confirm | Moderate

  datatype ParsedAddress = ParsedAddress(
    kind: AddressType,
    listName: string,
    domain: string,
    listAddr: string,
    encodedPart: string)

  /** The dash-suffix roles, in the order the parser tries them. */
  const ROLES: seq<AddressType> := [Request, Owner, Subscribe, Unsubscribe]

  function Suffix(kind: AddressType): string {
    match kind
    case Post => ""
    case Request => "-request"
    case Owner => "-owner"
    case Subscribe => "-subscribe"
    case Unsubscribe => "-unsubscribe"
    case Bounce => "-bounces"
    case Confirm => "-confirm"
    case Moderate => "-moderate"
  }

  /** The kind announced by what stands before the first "+". */
  function PlusKind(prefix: string): Option<AddressType> {
    if HasSuffix(prefix, Suffix(Bounce)) then Some(Bounce)
    else if HasSuffix(prefix, Suffix(Confirm)) then Some(Confirm)
    else if HasSuffix(prefix, Suffix(Moderate)) then Some(Moderate)
    else None
  }

  /** The first role whose suffix ends `local` and leaves a list name. */
  function RoleKind(local: string, roles: seq<AddressType>): (r: Option<AddressType>)
    ensures r.Some? ==> r.value in roles && HasSuffix(local, Suffix(r.value)) && local != Suffix(r.value)
    ensures r.None? ==> forall k :: k in roles && HasSuffix(local, Suffix(k)) ==> local == Suffix(k)
  {
    if roles == [] then None
    else if HasSuffix(local, Suffix(roles[0])) && TrimSuffix(local, Suffix(roles[0])) != ""
    then Some(roles[0])
    else RoleKind(local, roles[1..])
  }

  function ParseLocal(local: string, domain: string): ParsedAddress {
    var plus := Index(local, "+");
    if plus >= 0 && PlusKind(local[..plus]).Some? then
      AtChar(local, '+', plus);
      var kind := PlusKind(local[..plus]).value;
      var listName := TrimSuffix(local[..plus], Suffix(kind));
      ParsedAddress(kind, listName, domain, listName + "@" + domain, local[plus + 1..])
    else
      match RoleKind(local, ROLES)
      case Some(kind) =>
        var listName := TrimSuffix(local, Suffix(kind));
        ParsedAddress(kind, listName, domain, listName + "@" + domain, "")
      case None =>
        ParsedAddress(Post, local, domain, local + "@" + domain, "")
  }

  function ParseAddress(addr: string): Option<ParsedAddress> {
    var at := LastIndex(addr, "@");
    if at < 0 then None else
    AtChar(addr, '@', at);
    var local := addr[..at];
    var domain := addr[at + 1..];
    if local == "" || domain == "" then None else Some(ParseLocal(local, domain))
  }

  /** What a domain must be for its addresses to split where they were joined. */
  predicate PlainDomain(domain: string) { domain != "" && '@' !in domain }

  /** A "+" in the list name turns its addresses into somebody else's plus-addresses. */
  predicate PlusShadowed(name: string) {
    var plus := Index(name, "+");
    AtChar(name, '+', plus);
    plus >= 0 && PlusKind(name[..plus]).Some?
  }

  lemma ParseLocalKeepsDomain(local: string, domain: string)
    ensures ParseLocal(local, domain).domain == domain
  {
  }

  lemma ParseJoined(local: string, domain: string)
    ensures local != "" && PlainDomain(domain) ==>
      ParseAddress(local + "@" + domain) == Some(ParseLocal(local, domain))
    ensures !PlainDomain(domain) && ParseAddress(local + "@" + domain).Some? ==>
      ParseAddress(local + "@" + domain).value.domain != domain
  {
    hide ParseLocal;
    var addr := local + "@" + domain;
    if '@' !in domain {
      LastSplit(local, '@', domain);
    } else {
      LastCut(addr, '@');
      var at := LastIndex(addr, "@");
      var k :| 0 <= k < |domain| && domain[k] == '@';
      AtChar(addr, '@', |local| + 1 + k);
      ParseLocalKeepsDomain(addr[..at], addr[at + 1..]);
    }
  }

  /** An address is parsed exactly if it has something on both sides of its last "@". */
  lemma ParsedIff(addr: string)
    ensures ParseAddress(addr).Some? <==>
      exists i :: 0 < i < |addr| - 1 && addr[i] == '@' && '@' !in addr[i + 1..]
  {
    hide ParseLocal, LastIndexUpTo, Contains;
    LastCut(addr, '@');
    if i :| 0 < i < |addr| - 1 && addr[i] == '@' && '@' !in addr[i + 1..] {
      LastAt(addr, i);
    }
  }

  lemma LastAt(addr: string, i: nat)
    requires i < |addr| && addr[i] == '@' && '@' !in addr[i + 1..]
    ensures LastIndex(addr, "@") == i
  {
    assert addr == addr[..i] + ['@'] + addr[i + 1..];
    LastSplit(addr[..i], '@', addr[i + 1..]);
  }

  /** A suffix without "+" does not move the first "+" or change what precedes it. */
  lemma PlusInName(name: string, suffix: string)
    requires '+' !in suffix
    ensures Index(name + suffix, "+") == Index(name, "+")
    ensures Index(name, "+") >= 0 ==>
      (name + suffix)[..Index(name, "+")] == name[..Index(name, "+")]
  {
    FirstCut(name, '+');
    var i := Index(name, "+");
    var r := Index(name + suffix, "+");
    AtChar(name + suffix, '+', i);
    AtChar(name + suffix, '+', r);
  }

  /** Strings that end alike share their last character. */
  lemma SameEnd(s: string, a: string, b: string)
    requires HasSuffix(s, a) && HasSuffix(s, b) && |a| <= |b|
    ensures HasSuffix(b, a)
  {
    assert b == s[|s| - |b|..];
    assert b[|b| - |a|..] == s[|s| - |a|..];
  }

  lemma SuffixLetters()
    ensures |Suffix(Request)| == 8 && Suffix(Request)[7] == 't'
    ensures |Suffix(Owner)| == 6 && Suffix(Owner)[5] == 'r'
    ensures |Suffix(Subscribe)| == 10 && Suffix(Subscribe)[9] == 'e' && Suffix(Subscribe)[0] == '-'
    ensures |Suffix(Unsubscribe)| == 12 && Suffix(Unsubscribe)[11] == 'e' && Suffix(Unsubscribe)[2] == 'n'
  {
  }

  lemma SuffixChars(s: string, suffix: string)
    requires HasSuffix(s, suffix) && suffix != ""
    ensures |suffix| <= |s| && s[|s| - 1] == suffix[|suffix| - 1] && s[|s| - |suffix|] == suffix[0]
  {
    assert s[|s| - |suffix|..][|suffix| - 1] == s[|s| - 1];
    assert s[|s| - |suffix|..][0] == s[|s| - |suffix|];
  }

  /** No role suffix ends another one. */
  lemma NoRoleEndsAnother(a: AddressType, b: AddressType)
    requires a in ROLES && b in ROLES && HasSuffix(Suffix(b), Suffix(a))
    ensures a == b
  {
    hide Suffix, HasSuffix;
    SuffixLetters();
    SuffixChars(Suffix(b), Suffix(a));
  }

  lemma RoleFound(name: string, kind: AddressType)
    requires name != "" && kind in ROLES
    ensures RoleKind(name + Suffix(kind), ROLES) == Some(kind)
    ensures TrimSuffix(name + Suffix(kind), Suffix(kind)) == name
  {
    hide RoleKind, Suffix;
    var local := name + Suffix(kind);
    SuffixOfConcat(name, Suffix(kind));
    var r := RoleKind(local, ROLES);
    assert r.Some?;
    if |Suffix(r.value)| <= |Suffix(kind)| {
      SameEnd(local, Suffix(r.value), Suffix(kind));
      NoRoleEndsAnother(r.value, kind);
    } else {
      SameEnd(local, Suffix(kind), Suffix(r.value));
      NoRoleEndsAnother(kind, r.value);
    }
  }

  /** Before the first "+" decides; only then do role suffixes count. */
  lemma ParseLocalCases(local: string, domain: string)
    ensures var p := ParseLocal(local, domain);
            if PlusShadowed(local) then p.kind in {Bounce, Confirm, Moderate}
            else match RoleKind(local, ROLES)
              case Some(kind) =>
                var listName := TrimSuffix(local, Suffix(kind));
                p == ParsedAddress(kind, listName, domain, listName + "@" + domain, "")
              case None => p == ParsedAddress(Post, local, domain, local + "@" + domain, "")
  {
    hide RoleKind, Suffix, TrimSuffix, HasSuffix;
    PlusKinds(local);
  }

  lemma PlusKinds(local: string)
    ensures forall n :: 0 <= n <= |local| && PlusKind(local[..n]).Some? ==>
      PlusKind(local[..n]).value in {Bounce, Confirm, Moderate}
  {
  }

  /** Request, owner, subscribe and unsubscribe addresses parse back to the list they
      were printed for if and only if the domain is plain and the name is not shadowed. */
  lemma RoleAddressExact(kind: AddressType, name: string, domain: string)
    requires kind in ROLES && name != ""
    ensures ParseAddress(name + Suffix(kind) + "@" + domain)
              == Some(ParsedAddress(kind, name, domain, name + "@" + domain, ""))
            <==> PlainDomain(domain) && !PlusShadowed(name)
  {
    SuffixHasNoPlus(kind);
    hide ParseLocal, ParseAddress, RoleKind, PlusKind, Suffix;
    var local := name + Suffix(kind);
    ParseJoined(local, domain);
    PlusInName(name, Suffix(kind));
    RoleFound(name, kind);
    ParseLocalCases(local, domain);
  }

  lemma SuffixHasNoPlus(kind: AddressType)
    ensures '+' !in Suffix(kind) && (kind in ROLES ==> kind !in {Bounce, Confirm, Moderate})
  {
  }

  /** Bounce, confirm and moderate addresses parse back to their list and their encoded
      part if and only if the domain is plain and the name has no "+". */
  lemma PlusAddressExact(kind: AddressType, name: string, enc: string, domain: string)
    requires kind in {Bounce, Confirm, Moderate}
    ensures ParseAddress(name + Suffix(kind) + "+" + enc + "@" + domain)
              == Some(ParsedAddress(kind, name, domain, name + "@" + domain, enc))
            <==> PlainDomain(domain) && '+' !in name
  {
    var prefix := name + Suffix(kind);
    var local := prefix + "+" + enc;
    ParseJoined(local, domain);
    if '+' !in name {
      FirstSplit(prefix, '+', enc);
      SuffixOfConcat(name, Suffix(kind));
      PlusKindOf(name, kind);
    } else {
      PlusNameNotRecovered(local, domain);
    }
  }

  lemma PlusKindOf(name: string, kind: AddressType)
    requires kind in {Bounce, Confirm, Moderate}
    ensures PlusKind(name + Suffix(kind)) == Some(kind)
  {
    var prefix := name + Suffix(kind);
    SuffixOfConcat(name, Suffix(kind));
    assert prefix[|prefix| - 1] == Suffix(kind)[|Suffix(kind)| - 1];
    assert HasSuffix(prefix, "-bounces") ==> prefix[|prefix| - 8..][7] == 's';
    assert HasSuffix(prefix, "-confirm") ==> prefix[|prefix| - 8..][7] == 'm';
  }

  /** A plus-address never parses to a list name that contains "+". */
  lemma PlusNameNotRecovered(local: string, domain: string)
    ensures var p := ParseLocal(local, domain);
            p.kind in {Bounce, Confirm, Moderate} ==> '+' !in p.listName
  {
    hide RoleKind, Suffix, TrimSuffix, HasSuffix, PlusKind;
    FirstCut(local, '+');
    var plus := Index(local, "+");
    if plus >= 0 && PlusKind(local[..plus]).Some? {
      TrimmedChars(local[..plus], Suffix(PlusKind(local[..plus]).value), '+');
    } else {
      RolesAreRoles(local);
      RolesAreNotPlus();
    }
  }

  lemma TrimmedChars(s: string, suffix: string, c: char)
    requires c !in s
    ensures c !in TrimSuffix(s, suffix)
  {
    assert TrimSuffix(s, suffix) <= s;
  }

  lemma RolesAreNotPlus()
    ensures forall k :: k in ROLES ==> k !in {Bounce, Confirm, Moderate}
  {
  }

  /** The plain address is a post to the list if and only if the domain is plain, the
      name is not shadowed, and no role suffix ends it (leaving a name). */
  lemma PostAddressExact(name: string, domain: string)
    requires name != ""
    ensures ParseAddress(name + "@" + domain)
              == Some(ParsedAddress(Post, name, domain, name + "@" + domain, ""))
            <==> && PlainDomain(domain) && !PlusShadowed(name)
                 && forall k :: k in ROLES && HasSuffix(name, Suffix(k)) ==> name == Suffix(k)
  {
    ParseJoined(name, domain);
    ParseLocalCases(name, domain);
    RolesAreRoles(name);
    hide ParseLocal, ParseAddress, RoleKind, PlusKind, Suffix;
  }

  lemma RolesAreRoles(local: string)
    ensures var r := RoleKind(local, ROLES); r.Some? ==> r.value in ROLES && r.value != Post
  {
    hide RoleKind;
  }

  /** The documented conventions, for a list name without "+" that no role suffix ends. */
  lemma AddressConventions(name: string, enc: string, domain: string)
    requires name != "" && '+' !in name && PlainDomain(domain)
    requires forall k :: k in ROLES ==> !HasSuffix(name, Suffix(k))
    ensures var list := name + "@" + domain;
      && ParseAddress(list) == Some(ParsedAddress(Post, name, domain, list, ""))
      && ParseAddress(name + "-request@" + domain) == Some(ParsedAddress(Request, name, domain, list, ""))
      && ParseAddress(name + "-owner@" + domain) == Some(ParsedAddress(Owner, name, domain, list, ""))
      && ParseAddress(name + "-subscribe@" + domain) == Some(ParsedAddress(Subscribe, name, domain, list, ""))
      && ParseAddress(name + "-unsubscribe@" + domain) == Some(ParsedAddress(Unsubscribe, name, domain, list, ""))
      && ParseAddress(name + "-bounces+" + enc + "@" + domain) == Some(ParsedAddress(Bounce, name, domain, list, enc))
      && ParseAddress(name + "-confirm+" + enc + "@" + domain) == Some(ParsedAddress(Confirm, name, domain, list, enc))
      && ParseAddress(name + "-moderate+" + enc + "@" + domain) ==
           Some(ParsedAddress(Moderate, name, domain, list, enc))
  {
    hide ParseAddress, PlusShadowed;
    NotShadowed(name);
    PostAddressExact(name, domain);
    RoleAddressExact(Request, name, domain);
    RoleAddressExact(Owner, name, domain);
    RoleAddressExact(Subscribe, name, domain);
    RoleAddressExact(Unsubscribe, name, domain);
    PlusAddressExact(Bounce, name, enc, domain);
    PlusAddressExact(Confirm, name, enc, domain);
    PlusAddressExact(Moderate, name, enc, domain);
    Joints(name, enc, domain);
  }

  lemma NotShadowed(name: string)
    requires '+' !in name
    ensures !PlusShadowed(name)
  {
    FirstCut(name, '+');
  }

  /** The printed forms, cut where the parser cuts them. */
  lemma Joints(name: string, enc: string, domain: string)
    ensures name + "-request@" + domain == name + Suffix(Request) + "@" + domain
    ensures name + "-owner@" + domain == name + Suffix(Owner) + "@" + domain
    ensures name + "-subscribe@" + domain == name + Suffix(Subscribe) + "@" + domain
    ensures name + "-unsubscribe@" + domain == name + Suffix(Unsubscribe) + "@" + domain
    ensures name + "-bounces+" + enc + "@" + domain == name + Suffix(Bounce) + "+" + enc + "@" + domain
    ensures name + "-confirm+" + enc + "@" + domain == name + Suffix(Confirm) + "+" + enc + "@" + domain
    ensures name + "-moderate+" + enc + "@" + domain == name + Suffix(Moderate) + "+" + enc + "@" + domain
  {
  }

  /** The Reply-To printed in held and auto-disable notices puts "-owner@" behind the
      whole list address. No mail sent there reaches the owners of the list. */
  lemma NoticeReplyToMissesOwner(name: string, domain: string)
    requires name != "" && PlainDomain(domain)
    ensures var p := ParseAddress(name + "@" + domain + "-owner@" + domain);
            p.Some? && p.value.kind == Owner ==> p.value.listName == name + "@" + domain != name
  {
    hide ParseLocal, ParseAddress, RoleKind, PlusKind;
    var list := name + "@" + domain;
    RoleAddressExact(Owner, list, domain);
    assert list + "-owner@" + domain == list + Suffix(Owner) + "@" + domain;
    SuffixHasNoPlus(Owner);
    PlusInName(list, Suffix(Owner));
    ParseJoined(list + Suffix(Owner), domain);
    ParseLocalCases(list + Suffix(Owner), domain);
  }
}
