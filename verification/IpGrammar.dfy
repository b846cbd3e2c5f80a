/** Which texts are addresses and ranges, and which are refused, spelled out. */
module IpGrammar {
  import opened Text
  import opened IpAllowlist

  /** One to three decimal digits, at most so much. */
  predicate Small(part: string, most: nat) {
    1 <= |part| <= 3 && (forall i :: 0 <= i < |part| ==> '0' <= part[i] <= '9') && Value(part, Decimal) <= most
  }

  /** One to four hexadecimal digits. */
  predicate Group(part: string) {
    1 <= |part| <= 4 && forall i :: 0 <= i < |part| ==> '0' <= part[i] <= '9' || 'a' <= part[i] <= 'f' || 'A' <= part[i] <= 'F'
  }

  predicate AllGroups(parts: seq<string>) { forall i :: 0 <= i < |parts| ==> Group(parts[i]) }

  lemma SmallIs(part: string, most: nat)
    ensures ParseSmall(part, most).Some? <==> Small(part, most)
    ensures Small(part, most) <==> 1 <= |part| <= 3 && AllDigits(part) && Value(part, Decimal) <= most
    ensures Small(part, most) ==> ParseSmall(part, most) == Some(Value(part, Decimal))
  {
  }

  lemma GroupIs(part: string)
    ensures ParseGroup(part).Some? <==> Group(part)
    ensures Group(part) <==> 1 <= |part| <= 4 && AllHex(part)
    ensures Group(part) ==> AllHex(part) && ParseGroup(part) == Some(Value(part, Hex))
  {
  }

  // --- IPv4 -------------------------------------------------------------------

  /** Four numbers of at most 255, joined by dots, are an IPv4 address, and nothing else is. */
  lemma Ipv4Exactly(s: string)
    ensures ParseIpv4(s).Some? <==> exists parts: seq<string> :: |parts| == 4 && Dotted(parts) && s == Join(parts, '.')
  {
    hide Join, Split;
    if ParseIpv4(s).Some? {
      var parts := Split(s, '.');
      JoinSplit(s, '.');
      forall i | 0 <= i < 4 ensures Small(parts[i], 255) { SmallIs(parts[i], 255); }
      assert Dotted(parts);
    }
    if parts: seq<string> :| |parts| == 4 && Dotted(parts) && s == Join(parts, '.') {
      forall i | 0 <= i < 4 ensures '.' !in parts[i] && ParseSmall(parts[i], 255).Some? {
        assert Small(parts[i], 255);
        SmallIs(parts[i], 255);
      }
      SplitJoin(parts, '.');
      assert ParseOctets(parts).Some?;
    }
  }

  predicate Dotted(parts: seq<string>) { forall i :: 0 <= i < |parts| ==> Small(parts[i], 255) }

  // --- IPv6 -------------------------------------------------------------------

  /** Eight groups, or no more than eight about one double colon. */
  ghost predicate Spelled(s: string) {
    || (exists parts: seq<string> :: |parts| == 8 && AllGroups(parts) && s == Join(parts, ':'))
    || (exists head: seq<string>, tail: seq<string> ::
          |head| + |tail| <= 8 && AllGroups(head) && AllGroups(tail) && s == Join(head, ':') + "::" + Join(tail, ':'))
  }

  lemma GroupsParse(parts: seq<string>)
    ensures ParseGroups(parts).Some? <==> AllGroups(parts)
  {
    forall i | 0 <= i < |parts| ensures ParseGroup(parts[i]).Some? <==> Group(parts[i]) { GroupIs(parts[i]); }
    hide ParseGroup, Group;
  }

  lemma SplitBack(s: string)
    ensures Join(SplitOrNone(s), ':') == s
  {
    JoinSplit(s, ':');
    hide Split;
  }

  /** Inside its brackets, if it has any, a text is an IPv6 address exactly when it is so spelled. */
  lemma Ipv6Exactly(s: string)
    ensures ParseIpv6(s).Some? <==> Spelled(StripBrackets(s))
  {
    var t := StripBrackets(s);
    hide StripBrackets, Join, SplitOrNone, ParseGroups, GroupBytes, Spelled, AllGroups;
    if ParseIpv6(s).Some? { OnlySpelled(s); }
    if Spelled(t) { SpelledParses(s); }
  }

  lemma OnlySpelled(s: string)
    requires ParseIpv6(s).Some?
    ensures Spelled(StripBrackets(s))
  {
    var t := StripBrackets(s);
    hide StripBrackets, Join, SplitOrNone, ParseGroups, GroupBytes, AllGroups;
    var d := FirstDoubleColon(t);
    if d == -1 {
      SplitBack(t);
      GroupsParse(SplitOrNone(t));
    } else {
      var head, tail := SplitOrNone(t[..d]), SplitOrNone(t[d + 2..]);
      SplitBack(t[..d]);
      SplitBack(t[d + 2..]);
      GroupsParse(head);
      GroupsParse(tail);
      assert t == t[..d] + "::" + t[d + 2..];
    }
  }

  lemma CleanGroups(parts: seq<string>)
    requires AllGroups(parts)
    ensures Clean(Join(parts, ':')) && SplitOrNone(Join(parts, ':')) == parts && ParseGroups(parts).Some?
  {
    forall i | 0 <= i < |parts| ensures ParseGroup(parts[i]).Some? { GroupIs(parts[i]); }
    JoinClean(parts);
    GroupsParse(parts);
    hide Join, Clean;
  }

  lemma SpelledParses(s: string)
    requires Spelled(StripBrackets(s))
    ensures ParseIpv6(s).Some?
  {
    var t := StripBrackets(s);
    hide StripBrackets, Join, SplitOrNone, ParseGroups, GroupBytes, AllGroups, FirstDoubleColon, LastDoubleColon;
    if parts: seq<string> :| |parts| == 8 && AllGroups(parts) && t == Join(parts, ':') {
      CleanGroups(parts);
      assert FirstDoubleColon(t) == -1 == LastDoubleColon(t);
      GroupsParse([]);
    } else {
      var head: seq<string>, tail: seq<string> :|
        |head| + |tail| <= 8 && AllGroups(head) && AllGroups(tail) && t == Join(head, ':') + "::" + Join(tail, ':');
      CleanGroups(head);
      CleanGroups(tail);
      OneDoubleColon(Join(head, ':'), Join(tail, ':'));
      var d := |Join(head, ':')|;
      assert t[..d] == Join(head, ':') && t[d + 2..] == Join(tail, ':');
    }
  }

  /** Brackets about an address make no difference. */
  lemma BracketsDoNotMatter(s: string)
    requires '[' !in s && ']' !in s
    ensures StripBrackets(s) == s && StripBrackets("[" + s + "]") == s
  {
    assert ("[" + s + "]")[1..] == s + "]" && (s + "]")[..|s|] == s;
    assert s != [] ==> s[0] in s && s[|s| - 1] in s;
  }

  // --- mapped addresses -------------------------------------------------------

  /** Only `::ffff:`, in any letter case, ahead of four short numbers makes a text a mapped address. */
  lemma MappedExactly(address: string, dotted: string)
    ensures MappedTail(address) == Some(dotted) <==>
              exists ffff: string, parts: seq<string> ::
                && |ffff| == 4 && (forall k :: 0 <= k < 4 ==> ffff[k] == 'f' || ffff[k] == 'F')
                && |parts| == 4 && ShortNumbers(parts) && dotted == Join(parts, '.') && address == "::" + ffff + ":" + dotted
  {
    hide Split, Join;
    if MappedTail(address) == Some(dotted) {
      var ffff, parts := address[2..6], Split(dotted, '.');
      JoinSplit(dotted, '.');
      assert dotted == address[7..] && address == address[..2] + address[2..6] + [address[6]] + address[7..];
      forall k | 0 <= k < 4 ensures ffff[k] == 'f' || ffff[k] == 'F' { assert LowerHex(address[k + 2]) == 'f'; }
      assert ShortNumbers(parts);
    }
    if ffff: string, parts: seq<string> :|
      && |ffff| == 4 && (forall k :: 0 <= k < 4 ==> ffff[k] == 'f' || ffff[k] == 'F')
      && |parts| == 4 && ShortNumbers(parts) && dotted == Join(parts, '.') && address == "::" + ffff + ":" + dotted
    {
      assert forall i :: 0 <= i < 4 ==> '.' !in parts[i];
      SplitJoin(parts, '.');
      assert address[7..] == dotted && address[..2] == "::" && forall k :: 2 <= k < 6 ==> address[k] == ffff[k - 2];
    }
  }

  predicate ShortNumbers(parts: seq<string>) {
    forall i :: 0 <= i < |parts| ==> 1 <= |parts[i]| <= 3 && forall j :: 0 <= j < |parts[i]| ==> '0' <= parts[i][j] <= '9'
  }

  // --- ranges -----------------------------------------------------------------

  /**
   * A range is an address alone, which is every bit of it, or with a slash and a prefix length no longer than
   * the address.
   */
  lemma CidrExactly(address: string, prefix: string)
    requires '/' !in address && '/' !in prefix
    ensures var a := ParseAddress(address);
            && ParseCidr(address) == (if address == "" || a.None? then None else Some(Cidr(a.value.bytes, if a.value.family == V4 then 32 else 128, a.value.family)))
            && ParseCidr(address + "/" + prefix)
               == (if address != "" && a.Some? && Small(prefix, if a.value.family == V4 then 32 else 128)
                   then Some(Cidr(a.value.bytes, Value(prefix, Decimal), a.value.family)) else None)
  {
    SplitAtFirst(address, prefix, '/');
    SplitAtFirst(prefix, "", '/');
    SmallIs(prefix, 32);
    SmallIs(prefix, 128);
    hide ParseAddress, Split, ParseSmall, Small;
  }

  /** What follows a second slash is not looked at. */
  lemma SecondSlashEnds(address: string, prefix: string, rest: string)
    requires '/' !in address && '/' !in prefix
    ensures ParseCidr(address + "/" + prefix + "/" + rest) == ParseCidr(address + "/" + prefix)
  {
    SplitAtFirst(address, prefix, '/');
    SplitAtFirst(prefix, rest, '/');
    SplitAtFirst(address, prefix + "/" + rest, '/');
    assert address + "/" + (prefix + "/" + rest) == address + "/" + prefix + "/" + rest;
    hide ParseAddress, Split, ParseSmall;
  }
}
