/** Address allowlists: parsing addresses and ranges to bytes, and matching on the bytes. */
module IpAllowlist {
  import opened Text

  datatype Family = V4 | V6

  /** An element of a `Uint8Array`. */
  type Byte = x: nat | x < 256

  datatype Address = Address(bytes: seq<Byte>, family: Family)

  datatype Cidr = Cidr(bytes: seq<Byte>, prefixLength: nat, family: Family)

  function Width(family: Family): nat { if family.V4? then 32 else 128 }

  ghost predicate WellFormed(a: Address) { |a.bytes| * 8 == Width(a.family) }

  ghost predicate WellFormedRule(r: Cidr) {
    |r.bytes| * 8 == Width(r.family) && r.prefixLength <= Width(r.family)
  }

  // --- parsing ----------------------------------------------------------------

  /** `/^\d{1,3}$/` followed by `Number`, at most `most`. */
  function ParseSmall(part: string, most: nat): (r: Option<nat>)
    ensures r.Some? ==> r.value <= most
  {
    if 1 <= |part| <= 3 && AllDigits(part) && Value(part, Decimal) <= most
    then Some(Value(part, Decimal)) else None
  }

  function ParseOctets(parts: seq<string>): (r: Option<seq<Byte>>)
    ensures r.Some? ==> |r.value| == |parts|
    ensures r.Some? <==> forall i :: 0 <= i < |parts| ==> ParseSmall(parts[i], 255).Some?
    ensures r.Some? ==> forall i :: 0 <= i < |parts| ==> r.value[i] == ParseSmall(parts[i], 255).value
  {
    if parts == [] then Some([])
    else match (ParseOctets(parts[..|parts| - 1]), ParseSmall(parts[|parts| - 1], 255))
      case (Some(front), Some(octet)) => Some(front + [octet])
      case _ => None
  }

  function ParseIpv4(value: string): (r: Option<Address>)
    ensures r.Some? ==> WellFormed(r.value) && r.value.family.V4?
  {
    var parts := Split(value, '.');
    if |parts| != 4 then None
    else match ParseOctets(parts)
      case Some(bytes) => Some(Address(bytes, V4))
      case None => None
  }

  /** `/^[0-9a-fA-F]{1,4}$/` followed by `parseInt(group, 16)`. */
  function ParseGroup(group: string): (r: Option<nat>)
    ensures r.Some? ==> r.value < 0x1_0000
  {
    if 1 <= |group| <= 4 && AllHex(group) then
      GroupBound(group);
      Some(Value(group, Hex))
    else None
  }

  lemma {:induction false} GroupBound(group: string)
    requires |group| <= 4 && AllHex(group)
    ensures Value(group, Hex) < [1, 0x10, 0x100, 0x1000, 0x1_0000][|group|]
  {
    if |group| > 0 {
      GroupBound(group[..|group| - 1]);
    }
  }

  function ParseGroups(groups: seq<string>): (r: Option<seq<nat>>)
    ensures r.Some? ==> |r.value| == |groups| && forall i :: 0 <= i < |groups| ==> r.value[i] < 0x1_0000
    ensures r.Some? <==> forall i :: 0 <= i < |groups| ==> ParseGroup(groups[i]).Some?
    ensures r.Some? ==> forall i :: 0 <= i < |groups| ==> r.value[i] == ParseGroup(groups[i]).value
  {
    if groups == [] then Some([])
    else match (ParseGroups(groups[..|groups| - 1]), ParseGroup(groups[|groups| - 1]))
      case (Some(front), Some(group)) => Some(front + [group])
      case _ => None
  }

  predicate DoubleColonAt(s: string, i: int) { 0 <= i && i + 1 < |s| && s[i] == ':' && s[i + 1] == ':' }

  /** `s.indexOf('::')`. */
  function FirstDoubleColon(s: string): (r: int)
    ensures r == -1 || DoubleColonAt(s, r)
    ensures forall i :: DoubleColonAt(s, i) ==> 0 <= r <= i
  {
    if |s| < 2 then -1
    else if DoubleColonAt(s, 0) then 0
    else
      var r := FirstDoubleColon(s[1..]);
      assert forall i :: DoubleColonAt(s, i) ==> DoubleColonAt(s[1..], i - 1);
      if r == -1 then -1 else r + 1
  }

  /** `s.lastIndexOf('::')`. */
  function LastDoubleColon(s: string): (r: int)
    ensures r == -1 || DoubleColonAt(s, r)
    ensures forall i :: DoubleColonAt(s, i) ==> i <= r
  {
    if |s| < 2 then -1
    else if DoubleColonAt(s, |s| - 2) then |s| - 2
    else
      var r := LastDoubleColon(s[..|s| - 1]);
      assert forall i :: DoubleColonAt(s, i) ==> DoubleColonAt(s[..|s| - 1], i);
      r
  }

  /** `value.replace(/^\[|\]$/g, '')`. */
  function StripBrackets(value: string): string {
    var s := if value != [] && value[0] == '[' then value[1..] else value;
    if s != [] && s[|s| - 1] == ']' then s[..|s| - 1] else s
  }

  function Zeros(n: nat): (z: seq<nat>)
    ensures |z| == n && forall i :: 0 <= i < n ==> z[i] == 0
  {
    seq(n, _ => 0)
  }

  function GroupBytes(groups: seq<nat>): (bytes: seq<Byte>)
    requires forall i :: 0 <= i < |groups| ==> groups[i] < 0x1_0000
    ensures |bytes| == 2 * |groups|
  {
    if groups == [] then []
    else
      var last := groups[|groups| - 1];
      GroupBytes(groups[..|groups| - 1]) + [last / 256, last % 256]
  }

  function SplitOrNone(s: string): seq<string> { if s == [] then [] else Split(s, ':') }

  /** Each group is its two bytes, high byte first. */
  lemma {:induction false} GroupOfBytes(groups: seq<nat>, k: nat)
    requires k < |groups| && forall i :: 0 <= i < |groups| ==> groups[i] < 0x1_0000
    ensures GroupBytes(groups)[2 * k] as int * 256 + GroupBytes(groups)[2 * k + 1] as int == groups[k]
  {
    if k < |groups| - 1 { GroupOfBytes(groups[..|groups| - 1], k); }
  }

  /** The groups either side of the gap, with zeros between them, as sixteen bytes. */
  function Assemble(head: seq<string>, tail: seq<string>): (r: Option<Address>)
    ensures r.Some? ==> WellFormed(r.value) && r.value.family.V6?
  {
    if |head| + |tail| > 8 then None
    else match (ParseGroups(head), ParseGroups(tail))
      case (Some(front), Some(back)) =>
        Some(Address(GroupBytes(front + Zeros(8 - |front| - |back|) + back), V6))
      case _ => None
  }

  function ParseIpv6(value: string): (r: Option<Address>)
    ensures r.Some? ==> WellFormed(r.value) && r.value.family.V6?
  {
    var address := StripBrackets(value);
    var double := FirstDoubleColon(address);
    if double != LastDoubleColon(address) then None
    else if double == -1 then
      var head := SplitOrNone(address);
      if |head| != 8 then None else Assemble(head, [])
    else
      Assemble(SplitOrNone(address[..double]), SplitOrNone(address[double + 2..]))
  }

  function LowerHex(c: char): char { if 'A' <= c <= 'F' then 'a' + (c - 'A') else c }

  /** The part after `::ffff:` when the whole address is an IPv4-mapped one. */
  function MappedTail(address: string): Option<string> {
    if |address| >= 7 && address[..2] == "::" && address[6] == ':'
       && (forall i :: 2 <= i < 6 ==> LowerHex(address[i]) == 'f')
       && var parts := Split(address[7..], '.');
          |parts| == 4 && forall i :: 0 <= i < 4 ==> 1 <= |parts[i]| <= 3 && AllDigits(parts[i])
    then Some(address[7..]) else None
  }

  function ParseAddress(value: string): (r: Option<Address>)
    ensures r.Some? ==> WellFormed(r.value)
  {
    var address := Trim(value);
    match MappedTail(address)
    case Some(dotted) => ParseIpv4(dotted)
    case None => if ':' in address then ParseIpv6(address) else ParseIpv4(address)
  }

  function ParseCidr(entry: string): (r: Option<Cidr>)
    ensures r.Some? ==> WellFormedRule(r.value)
  {
    var pieces := Split(entry, '/');
    if pieces[0] == "" then None
    else match ParseAddress(pieces[0])
      case None => None
      case Some(a) =>
        if |pieces| == 1 then Some(Cidr(a.bytes, Width(a.family), a.family))
        else match ParseSmall(pieces[1], Width(a.family))
          case None => None
          case Some(p) => Some(Cidr(a.bytes, p, a.family))
  }

  // --- the loops that compute them --------------------------------------------

  /** The IPv4 loop: fills a four-byte array octet by octet, stopping at the first bad part. */
  method ReadIpv4(value: string) returns (r: Option<Address>)
    ensures r == ParseIpv4(value)
  {
    var parts := Split(value, '.');
    if |parts| != 4 { return None; }
    var bytes := new Byte[4];
    for index := 0 to 4
      invariant forall i :: 0 <= i < index ==>
        ParseSmall(parts[i], 255).Some? && bytes[i] == ParseSmall(parts[i], 255).value
    {
      var octet := ParseSmall(parts[index], 255);
      if octet.None? { return None; }
      bytes[index] := octet.value;
    }
    assert ParseOctets(parts).Some? && bytes[..] == ParseOctets(parts).value;
    return Some(Address(bytes[..], V4));
  }

  /** One of the two identical group loops: parses each text and pushes it onto `groups`. */
  method PushGroups(groups: seq<nat>, texts: seq<string>) returns (r: Option<seq<nat>>)
    ensures r == (match ParseGroups(texts) case Some(parsed) => Some(groups + parsed) case None => None)
  {
    var out := groups;
    for i := 0 to |texts|
      invariant |out| == |groups| + i && out[..|groups|] == groups
      invariant forall k :: 0 <= k < i ==> ParseGroup(texts[k]) == Some(out[|groups| + k])
    {
      var parsed := ParseGroup(texts[i]);
      if parsed.None? { return None; }
      out := out + [parsed.value];
    }
    assert out[|groups|..] == ParseGroups(texts).value;
    assert out == groups + out[|groups|..];
    return Some(out);
  }

  /** Two bytes per group, big end first, written into a sixteen-byte array. */
  method WriteGroups(groups: seq<nat>) returns (r: seq<Byte>)
    requires |groups| == 8 && forall k :: 0 <= k < 8 ==> groups[k] < 0x1_0000
    ensures r == GroupBytes(groups)
  {
    var bytes := new Byte[16];
    for i := 0 to 8
      invariant bytes[..2 * i] == GroupBytes(groups[..i])
    {
      bytes[2 * i] := groups[i] / 256;
      bytes[2 * i + 1] := groups[i] % 256;
      assert groups[..i + 1][..i] == groups[..i];
    }
    assert bytes[..] == bytes[..16] && groups[..8] == groups;
    return bytes[..];
  }

  /** Head groups, the zero fill, tail groups, then the sixteen bytes. */
  method AssembleInPlace(head: seq<string>, tail: seq<string>) returns (r: Option<Address>)
    ensures r == Assemble(head, tail)
  {
    hide ParseGroups, GroupBytes;
    if |head| + |tail| > 8 { return None; }
    var front := PushGroups([], head);
    if front.None? { return None; }
    var groups := front.value;
    var fill := 8 - |head| - |tail|;
    for i := 0 to fill
      invariant groups == front.value + Zeros(i)
    {
      groups := groups + [0];
    }
    var all := PushGroups(groups, tail);
    if all.None? { return None; }
    assert front.value == ParseGroups(head).value;
    assert fill == 8 - |front.value| - |ParseGroups(tail).value|;
    var bytes := WriteGroups(all.value);
    return Some(Address(bytes, V6));
  }

  // --- matching ---------------------------------------------------------------

  /** `x & y` on non-negative integers, bit by bit. */
  function BitAnd(x: nat, y: nat): nat {
    if x == 0 || y == 0 then 0 else x % 2 * (y % 2) + 2 * BitAnd(x / 2, y / 2)
  }

  function Pow2(n: nat): (p: nat)
    ensures p > 0
  {
    if n == 0 then 1 else 2 * Pow2(n - 1)
  }

  /** `0xff << (8 - bits)`: the mask is wider than a byte and is not truncated. */
  function Mask(bits: nat): nat
    requires bits <= 8
  {
    0xff * Pow2(8 - bits)
  }

  /** Whole bytes first, then the leading bits of the byte the prefix ends in. */
  predicate BytesMatch(address: Address, rule: Cidr)
    requires WellFormed(address) && WellFormedRule(rule)
  {
    && address.family == rule.family
    && var full := rule.prefixLength / 8;
       var rest := rule.prefixLength % 8;
       && address.bytes[..full] == rule.bytes[..full]
       && (rest == 0 || BitAnd(address.bytes[full], Mask(rest)) == BitAnd(rule.bytes[full], Mask(rest)))
  }

  method Matches(address: Address, rule: Cidr) returns (r: bool)
    requires WellFormed(address) && WellFormedRule(rule)
    ensures r == BytesMatch(address, rule)
  {
    if address.family != rule.family { return false; }
    var fullBytes := rule.prefixLength / 8;
    var remainingBits := rule.prefixLength % 8;
    for index := 0 to fullBytes
      invariant address.bytes[..index] == rule.bytes[..index]
    {
      if address.bytes[index] != rule.bytes[index] {
        assert address.bytes[..fullBytes][index] != rule.bytes[..fullBytes][index];
        return false;
      }
    }
    if remainingBits == 0 { return true; }
    var mask := Mask(remainingBits);
    return BitAnd(address.bytes[fullBytes], mask) == BitAnd(rule.bytes[fullBytes], mask);
  }

  /** Whether an address may use a key: an empty list permits all, an unknown address nothing. */
  predicate AddressAllowed(address: Option<string>, allowlist: seq<string>) {
    if |allowlist| == 0 then true
    else if address.None? || address.value == "" then false
    else match ParseAddress(address.value)
      case None => false
      case Some(parsed) =>
        exists i :: 0 <= i < |allowlist| &&
          var rule := ParseCidr(allowlist[i]);
          rule.Some? && BytesMatch(parsed, rule.value)
  }

  // --- the integer reading of a prefix ----------------------------------------

  /** The bytes as one big-endian integer. */
  function Number(bytes: seq<Byte>): nat {
    if bytes == [] then 0 else Number(bytes[..|bytes| - 1]) * 256 + bytes[|bytes| - 1]
  }

  /** The block an address falls in: its number with the bits past the prefix dropped. */
  function Block(bytes: seq<Byte>, prefixLength: nat): int
    requires prefixLength <= 8 * |bytes|
  {
    Number(bytes) / Pow2(8 * |bytes| - prefixLength)
  }

  lemma {:induction false} NumberInjective(x: seq<Byte>, y: seq<Byte>)
    requires |x| == |y|
    ensures Number(x) == Number(y) <==> x == y
  {
    if |x| > 0 {
      NumberInjective(x[..|x| - 1], y[..|y| - 1]);
      assert x == x[..|x| - 1] + [x[|x| - 1]] && y == y[..|y| - 1] + [y[|y| - 1]];
    }
  }

  lemma DivByProduct(x: nat, c: nat, k: nat)
    requires c > 0 && k > 0
    ensures c * k > 0 && x / (c * k) == x / c / k
  {
    var b := x / c;
    var q := b / k;
    var r := x - c * b + c * (b - k * q);
    assert b - k * q <= k - 1;
    MulAtMost(c, b - k * q, k - 1);
    assert c * (k - 1) == c * k - c;
    assert 0 <= r < c * k;
    assert x == q * (c * k) + r by { assert c * (k * q) == q * (c * k); }
    DivUnique(x, c * k, q, r);
  }

  lemma MulAtMost(c: nat, x: int, y: int)
    requires x <= y
    ensures c * x <= c * y
  {
  }

  lemma DivUnique(b: nat, k: nat, q: nat, r: nat)
    requires k > 0 && b == q * k + r && r < k
    ensures b / k == q
  {
    var d := b / k - q;
    assert d * k == r - b % k;
    if d >= 1 { MulAtMost(k, 1, d); }
    if d <= -1 { MulAtMost(k, d, -1); }
  }

  /** A last byte wholly past the prefix does not change the block. */
  lemma DropHostByte(bytes: seq<Byte>, prefixLength: nat)
    requires |bytes| > 0 && prefixLength + 8 <= 8 * |bytes|
    ensures Block(bytes, prefixLength) == Block(bytes[..|bytes| - 1], prefixLength)
  {
    hide Pow2;
    var n := 8 * |bytes| - prefixLength;
    Pow2Step(n);
    DivByProduct(Number(bytes), 256, Pow2(n - 8));
  }

  lemma Pow2Step(n: nat)
    requires n >= 8
    ensures Pow2(n) == 256 * Pow2(n - 8)
  {
    assert Pow2(n) == 2 * Pow2(n - 1) && Pow2(n - 1) == 2 * Pow2(n - 2);
    assert Pow2(n - 2) == 2 * Pow2(n - 3) && Pow2(n - 3) == 2 * Pow2(n - 4);
    assert Pow2(n - 4) == 2 * Pow2(n - 5) && Pow2(n - 5) == 2 * Pow2(n - 6);
    assert Pow2(n - 6) == 2 * Pow2(n - 7) && Pow2(n - 7) == 2 * Pow2(n - 8);
  }

  lemma {:induction false} BlockOfLeadingBytes(bytes: seq<Byte>, count: nat, prefixLength: nat)
    requires count <= |bytes| && prefixLength <= 8 * count
    ensures Block(bytes, prefixLength) == Block(bytes[..count], prefixLength)
    decreases |bytes|
  {
    if count == |bytes| {
      assert bytes[..count] == bytes;
    } else {
      DropHostByte(bytes, prefixLength);
      BlockOfLeadingBytes(bytes[..|bytes| - 1], count, prefixLength);
      assert bytes[..|bytes| - 1][..count] == bytes[..count];
    }
  }

  lemma {:induction false} AndAllOnes(x: nat, n: nat)
    requires x < Pow2(n)
    ensures BitAnd(x, Pow2(n) - 1) == x
  {
    if n > 0 && x > 0 {
      AndAllOnes(x / 2, n - 1);
      assert (Pow2(n) - 1) / 2 == Pow2(n - 1) - 1 && (Pow2(n) - 1) % 2 == 1;
    }
  }

  lemma AndEvenMask(x: nat, m: nat)
    ensures BitAnd(x, 2 * m) == 2 * BitAnd(x / 2, m)
  {
    if x > 0 && m > 0 { assert 2 * m % 2 == 0 && 2 * m / 2 == m; }
  }

  /** Masking with ones shifted left by `k` keeps the quotient by two to the `k`. */
  lemma {:induction false} AndShiftedOnes(x: nat, k: nat)
    requires x < 256
    ensures BitAnd(x, 0xff * Pow2(k)) == x / Pow2(k) * Pow2(k)
  {
    hide BitAnd;
    if k == 0 {
      assert Pow2(8) == 256 by { Pow2Step(8); }
      AndAllOnes(x, 8);
    } else {
      var h := Pow2(k - 1);
      AndShiftedOnes(x / 2, k - 1);
      DivByProduct(x, 2, h);
      AndEvenMask(x, 0xff * h);
      assert 0xff * Pow2(k) == 2 * (0xff * h);
      Doubled(x / 2 / h, h);
    }
  }

  lemma Doubled(q: nat, h: nat)
    ensures q * (2 * h) == 2 * (q * h)
  {
  }

  lemma MulCancel(x: nat, y: nat, k: nat)
    requires k > 0
    ensures x * k == y * k <==> x == y
  {
    if x < y { MulAtMost(k, x + 1, y); }
    if y < x { MulAtMost(k, y + 1, x); }
  }

  /** One byte: the masked comparison is equality of the leading `bits` bits. */
  lemma MaskedByte(x: Byte, y: Byte, bits: nat)
    requires 0 < bits < 8
    ensures BitAnd(x, Mask(bits)) == BitAnd(y, Mask(bits)) <==> x / Pow2(8 - bits) == y / Pow2(8 - bits)
  {
    AndShiftedOnes(x, 8 - bits);
    AndShiftedOnes(y, 8 - bits);
    MulCancel(x / Pow2(8 - bits), y / Pow2(8 - bits), Pow2(8 - bits));
  }

  /** The block of a prefix ending inside the last byte, split at that byte. */
  lemma BlockInsideLastByte(bytes: seq<Byte>, bits: nat)
    requires |bytes| > 0 && 0 < bits < 8
    ensures var front := bytes[..|bytes| - 1];
            Block(bytes, 8 * |front| + bits)
            == Number(front) * Pow2(bits) + bytes[|bytes| - 1] / Pow2(8 - bits)
    ensures bytes[|bytes| - 1] / Pow2(8 - bits) < Pow2(bits)
  {
    assert Pow2(1) == 2 && Pow2(2) == 4 && Pow2(3) == 8 && Pow2(4) == 16;
    assert Pow2(5) == 32 && Pow2(6) == 64 && Pow2(7) == 128;
  }

  lemma SplitEqual(a: nat, b: nat, x: nat, y: nat, k: nat)
    requires x < k && y < k
    ensures a * k + x == b * k + y <==> a == b && x == y
  {
    if a * k + x == b * k + y {
      DivUnique(a * k + x, k, a, x);
      DivUnique(b * k + y, k, b, y);
    }
  }

  /** The block of any prefix: its whole bytes, then the leading bits of the next one. */
  lemma BlockForm(x: seq<Byte>, full: nat, rest: nat)
    requires 0 < rest < 8 && full < |x|
    ensures Block(x, 8 * full + rest) == Number(x[..full]) * Pow2(rest) + x[full] / Pow2(8 - rest)
    ensures 0 <= x[full] / Pow2(8 - rest) < Pow2(rest)
  {
    hide Number, Pow2, Block;
    BlockOfLeadingBytes(x, full + 1, 8 * full + rest);
    BlockInsideLastByte(x[..full + 1], rest);
    assert x[..full + 1][..full] == x[..full];
  }

  /** Two equal-length byte strings share a block iff they agree on the whole bytes and the leading bits. */
  lemma SameBlock(x: seq<Byte>, y: seq<Byte>, full: nat, rest: nat)
    requires |x| == |y| && rest < 8 && 8 * full + rest <= 8 * |x|
    ensures Block(x, 8 * full + rest) == Block(y, 8 * full + rest) <==>
              x[..full] == y[..full]
              && (rest == 0 || x[full] / Pow2(8 - rest) == y[full] / Pow2(8 - rest))
  {
    NumberInjective(x[..full], y[..full]);
    if rest == 0 {
      BlockOfLeadingBytes(x, full, 8 * full);
      BlockOfLeadingBytes(y, full, 8 * full);
      assert Block(x[..full], 8 * full) == Number(x[..full]) && Block(y[..full], 8 * full) == Number(y[..full]);
    } else {
      BlockForm(x, full, rest);
      BlockForm(y, full, rest);
      SplitEqual(Number(x[..full]), Number(y[..full]), x[full] / Pow2(8 - rest), y[full] / Pow2(8 - rest), Pow2(rest));
    }
  }

  /** The byte-and-mask comparison decides exactly whether the two integers share a block. */
  lemma MatchIsSameBlock(address: Address, rule: Cidr)
    requires WellFormed(address) && WellFormedRule(rule)
    ensures BytesMatch(address, rule) <==>
              address.family == rule.family
              && Block(address.bytes, rule.prefixLength) == Block(rule.bytes, rule.prefixLength)
  {
    if address.family == rule.family {
      var full, rest := rule.prefixLength / 8, rule.prefixLength % 8;
      SameBlock(address.bytes, rule.bytes, full, rest);
      if rest != 0 {
        MaskedByte(address.bytes[full], rule.bytes[full], rest);
      }
    }
  }

  /** The whole decision, in integers: some entry's block holds the address. */
  lemma AddressAllowedExactly(address: Option<string>, allowlist: seq<string>)
    ensures AddressAllowed(address, allowlist) <==>
              || |allowlist| == 0
              || (&& address.Some? && address.value != "" && ParseAddress(address.value).Some?
                  && exists i :: 0 <= i < |allowlist| &&
                       var a, rule := ParseAddress(address.value).value, ParseCidr(allowlist[i]);
                       && rule.Some? && rule.value.family == a.family
                       && Block(a.bytes, rule.value.prefixLength) == Block(rule.value.bytes, rule.value.prefixLength))
  {
    if address.Some? && address.value != "" && ParseAddress(address.value).Some? {
      var a := ParseAddress(address.value).value;
      forall i | 0 <= i < |allowlist| && ParseCidr(allowlist[i]).Some?
        ensures BytesMatch(a, ParseCidr(allowlist[i]).value) <==>
                  var rule := ParseCidr(allowlist[i]).value;
                  rule.family == a.family
                  && Block(a.bytes, rule.prefixLength) == Block(rule.bytes, rule.prefixLength)
      {
        MatchIsSameBlock(a, ParseCidr(allowlist[i]).value);
      }
    }
  }

  lemma {:induction false} Pow2Sum(m: nat, n: nat)
    ensures Pow2(m + n) == Pow2(m) * Pow2(n)
  {
    if m > 0 {
      Pow2Sum(m - 1, n);
      Doubled(Pow2(n), Pow2(m - 1));
    }
  }

  /** A range covers every address of any longer range around the same rule. */
  lemma MatchMonotoneInPrefix(address: Address, rule: Cidr, shorter: nat)
    requires WellFormed(address) && WellFormedRule(rule) && shorter <= rule.prefixLength
    requires BytesMatch(address, rule)
    ensures BytesMatch(address, rule.(prefixLength := shorter))
  {
    hide Number, BytesMatch, Pow2;
    var w := Width(rule.family);
    MatchIsSameBlock(address, rule);
    MatchIsSameBlock(address, rule.(prefixLength := shorter));
    Pow2Sum(w - rule.prefixLength, rule.prefixLength - shorter);
    DivByProduct(Number(address.bytes), Pow2(w - rule.prefixLength), Pow2(rule.prefixLength - shorter));
    DivByProduct(Number(rule.bytes), Pow2(w - rule.prefixLength), Pow2(rule.prefixLength - shorter));
  }

  /** Two rules that name the same block admit the same addresses: host bits never matter. */
  lemma HostBitsIrrelevant(address: Address, rule: Cidr, other: Cidr)
    requires WellFormed(address) && WellFormedRule(rule) && WellFormedRule(other)
    requires rule.family == other.family && rule.prefixLength == other.prefixLength
    requires Block(rule.bytes, rule.prefixLength) == Block(other.bytes, rule.prefixLength)
    ensures BytesMatch(address, rule) <==> BytesMatch(address, other)
  {
    MatchIsSameBlock(address, rule);
    MatchIsSameBlock(address, other);
  }

  // --- text round trips -------------------------------------------------------

  /** Any spelling of the groups: either letter case, leading zeros up to four digits. */
  ghost predicate Spells(texts: seq<string>, groups: seq<nat>) {
    |texts| == |groups| && forall k :: 0 <= k < |texts| ==> ParseGroup(texts[k]) == Some(groups[k])
  }

  ghost predicate HexOrColon(s: string) { forall c :: c in s ==> IsHexDigit(c) || c == ':' }

  /** Colon-separated groups with nothing empty between or at either end. */
  ghost predicate Clean(s: string) {
    && HexOrColon(s)
    && (forall i :: !DoubleColonAt(s, i))
    && (s != [] ==> s[0] != ':' && s[|s| - 1] != ':')
  }

  lemma {:induction false} JoinClean(texts: seq<string>)
    requires forall k :: 0 <= k < |texts| ==> ParseGroup(texts[k]).Some?
    ensures Clean(Join(texts, ':')) && (|texts| > 0 ==> Join(texts, ':') != [])
    ensures SplitOrNone(Join(texts, ':')) == texts
  {
    if |texts| > 0 {
      forall k | 0 <= k < |texts| ensures ':' !in texts[k] {
        assert AllHex(texts[k]);
      }
      SplitJoin(texts, ':');
      var first, rest := texts[0], Join(texts[1..], ':');
      JoinClean(texts[1..]);
      if |texts| > 1 {
        var s := first + [':'] + rest;
        assert s == Join(texts, ':');
        forall i | DoubleColonAt(s, i) ensures false {
          if i > |first| { assert DoubleColonAt(rest, i - |first| - 1); }
        }
      }
    }
  }

  lemma {:induction false} TrimKeeps(s: string)
    requires s != [] && !IsSpace(s[0]) && !IsSpace(s[|s| - 1])
    ensures Trim(s) == s
  {
  }

  /** Text of hex digits and colons is read as IPv6, unchanged by trimming and unbracketing. */
  lemma ReadAsIpv6(s: string)
    requires HexOrColon(s) && ':' in s
    ensures ParseAddress(s) == ParseIpv6(s) && StripBrackets(s) == s
  {
    hide ParseIpv6, ParseIpv4;
    assert s[0] in s && s[|s| - 1] in s;
    TrimKeeps(s);
    if |s| >= 7 {
      assert forall c :: c in s[7..] ==> c in s;
      SplitAtFirst(s[7..], [], '.');
    }
  }

  lemma GroupsOfSpelling(texts: seq<string>, groups: seq<nat>)
    requires Spells(texts, groups)
    ensures ParseGroups(texts) == Some(groups)
    ensures forall k :: 0 <= k < |groups| ==> groups[k] < 0x1_0000
  {
    assert forall k :: 0 <= k < |texts| ==> ParseGroup(texts[k]).Some?;
    assert ParseGroups(texts).value == groups;
  }

  lemma AssembleKnown(head: seq<string>, tail: seq<string>, front: seq<nat>, back: seq<nat>, all: seq<nat>)
    requires ParseGroups(head) == Some(front) && ParseGroups(tail) == Some(back)
    requires |all| == 8 && |front| + |back| <= 8 && all[..|front|] == front && all[8 - |back|..] == back
    requires forall k :: |front| <= k < 8 - |back| ==> all[k] == 0
    ensures forall k :: 0 <= k < 8 ==> all[k] < 0x1_0000
    ensures Assemble(head, tail) == Some(Address(GroupBytes(all), V6))
  {
    hide ParseGroups, GroupBytes;
    var filled := front + Zeros(8 - |front| - |back|) + back;
    assert filled == all;
  }

  lemma AssembledGroups(texts: seq<string>, groups: seq<nat>, i: nat, j: nat)
    requires |groups| == 8 && Spells(texts, groups)
    requires i <= j <= 8 && forall k :: i <= k < j ==> groups[k] == 0
    ensures forall k :: 0 <= k < 8 ==> groups[k] < 0x1_0000
    ensures Assemble(texts[..i], texts[j..]) == Some(Address(GroupBytes(groups), V6))
  {
    GroupsOfSpelling(texts, groups);
    GroupsOfSpelling(texts[..i], groups[..i]);
    GroupsOfSpelling(texts[j..], groups[j..]);
    AssembleKnown(texts[..i], texts[j..], groups[..i], groups[j..], groups);
  }

  /** Eight groups written out in full parse to their sixteen bytes. */
  lemma FullFormRoundTrip(texts: seq<string>, groups: seq<nat>)
    requires |groups| == 8 && Spells(texts, groups)
    ensures forall k :: 0 <= k < 8 ==> groups[k] < 0x1_0000
    ensures ParseAddress(Join(texts, ':')) == Some(Address(GroupBytes(groups), V6))
  {
    var s := Join(texts, ':');
    hide Assemble, GroupBytes, StripBrackets, ParseAddress;
    assert forall k :: 0 <= k < 8 ==> ParseGroup(texts[k]).Some?;
    hide ParseGroup;
    JoinClean(texts);
    assert s == texts[0] + [':'] + Join(texts[1..], ':');
    assert ':' in s;
    ReadAsIpv6(s);
    AssembledGroups(texts, groups, 8, 8);
    assert texts[..8] == texts && texts[8..] == [];
  }

  /** Any run of zero groups may be written `::`, at either end or in the middle. */
  lemma CompressedFormRoundTrip(texts: seq<string>, groups: seq<nat>, i: nat, j: nat)
    requires |groups| == 8 && Spells(texts, groups)
    requires i <= j <= 8 && forall k :: i <= k < j ==> groups[k] == 0
    ensures forall k :: 0 <= k < 8 ==> groups[k] < 0x1_0000
    ensures ParseAddress(Join(texts[..i], ':') + "::" + Join(texts[j..], ':'))
            == Some(Address(GroupBytes(groups), V6))
  {
    hide FirstDoubleColon, LastDoubleColon, Assemble, GroupBytes, Join, ParseGroup, StripBrackets;
    assert forall k :: 0 <= k < 8 ==> ParseGroup(texts[k]).Some?;
    var a, b := Join(texts[..i], ':'), Join(texts[j..], ':');
    JoinClean(texts[..i]);
    JoinClean(texts[j..]);
    var s := a + "::" + b;
    assert s[|a|] == ':';
    ReadAsIpv6(s);
    OneDoubleColon(a, b);
    assert s[..|a|] == a && s[|a| + 2..] == b;
    AssembledGroups(texts, groups, i, j);
  }

  lemma OneDoubleColon(a: string, b: string)
    requires Clean(a) && Clean(b)
    ensures FirstDoubleColon(a + "::" + b) == |a| == LastDoubleColon(a + "::" + b)
  {
    hide FirstDoubleColon, LastDoubleColon;
    var s := a + "::" + b;
    assert DoubleColonAt(s, |a|);
    forall i ensures DoubleColonAt(s, i) ==> i == |a| {
      assert DoubleColonAt(s, i) && i + 1 < |a| ==> DoubleColonAt(a, i);
      assert DoubleColonAt(s, i) && i > |a| + 1 ==> DoubleColonAt(b, i - |a| - 2);
    }
  }

  lemma {:induction false} NumeralLength(n: nat, k: nat)
    requires 0 < k <= 4 && n < [1, 0x10, 0x100, 0x1000, 0x1_0000][k]
    ensures |Numeral(n, Hex)| <= k
  {
    if n >= 16 { NumeralLength(n / 16, k - 1); }
  }

  /** What `group.toString(16)` prints is one of the spellings. */
  lemma PrintedGroupsSpell(groups: seq<nat>)
    requires forall k :: 0 <= k < |groups| ==> groups[k] < 0x1_0000
    ensures Spells(seq(|groups|, k requires 0 <= k < |groups| => Numeral(groups[k], Hex)), groups)
  {
    forall k | 0 <= k < |groups| ensures ParseGroup(Numeral(groups[k], Hex)) == Some(groups[k]) {
      NumeralLength(groups[k], 4);
      NumeralValue(groups[k], Hex);
    }
  }

  ghost predicate SpellsOctets(texts: seq<string>, octets: seq<Byte>) {
    |texts| == |octets| && forall k :: 0 <= k < |texts| ==> ParseSmall(texts[k], 255) == Some(octets[k])
  }

  lemma DottedText(texts: seq<string>, octets: seq<Byte>)
    requires |octets| == 4 && SpellsOctets(texts, octets)
    ensures var t := Join(texts, '.');
            && Split(t, '.') == texts
            && t != [] && IsDigit(t[0]) && IsDigit(t[|t| - 1]) && ':' !in t
  {
    assert forall k :: 0 <= k < 4 ==> ParseSmall(texts[k], 255).Some? && AllDigits(texts[k]);
    SplitJoin(texts, '.');
    JoinChars(texts, '.');
    var tail := Join(texts[3..], '.');
    assert tail == texts[3];
    var two := Join(texts[2..], '.');
    assert texts[2..][1..] == texts[3..];
    assert two == texts[2] + ['.'] + tail;
    var three := Join(texts[1..], '.');
    assert texts[1..][1..] == texts[2..];
    assert three == texts[1] + ['.'] + two;
    assert Join(texts, '.') == texts[0] + ['.'] + three;
  }

  /** A dotted address and its `::ffff:` form, in any letter case, parse to the same four bytes. */
  lemma DottedAndMappedRoundTrip(texts: seq<string>, octets: seq<Byte>, ffff: string)
    requires |octets| == 4 && SpellsOctets(texts, octets)
    requires |ffff| == 4 && forall k :: 0 <= k < 4 ==> LowerHex(ffff[k]) == 'f'
    ensures ParseAddress(Join(texts, '.')) == Some(Address(octets, V4))
    ensures ParseAddress("::" + ffff + ":" + Join(texts, '.')) == Some(Address(octets, V4))
  {
    hide Split, Join;
    var t := Join(texts, '.');
    DottedText(texts, octets);
    assert ParseIpv4(t) == Some(Address(octets, V4)) by {
      assert ParseOctets(texts).Some?;
      assert ParseOctets(texts).value == octets;
    }
    TrimKeeps(t);
    assert t[0] != ':';
    assert MappedTail(t).None?;
    var m := "::" + ffff + ":" + t;
    TrimKeeps(m);
    assert m[7..] == t && m[..2] == "::" && forall k :: 2 <= k < 6 ==> m[k] == ffff[k - 2];
    assert MappedTail(m) == Some(t);
  }

  lemma {:induction false} PartHolds(s: string, sep: char, c: char)
    requires c in s && c != sep
    ensures exists i :: 0 <= i < |Split(s, sep)| && c in Split(s, sep)[i]
  {
    var rest, parts := Split(s[1..], sep), Split(s, sep);
    assert s == [s[0]] + s[1..];
    if c == s[0] {
      assert c in parts[0];
    } else {
      PartHolds(s[1..], sep, c);
      var i :| 0 <= i < |rest| && c in rest[i];
      if s[0] == sep { assert parts[i + 1] == rest[i]; } else { assert i == 0 || parts[i] == rest[i]; assert c in parts[i]; }
    }
  }

  lemma ColonIsNotDotted(s: string)
    requires ':' in s
    ensures ParseIpv4(s).None?
  {
    PartHolds(s, '.', ':');
    var i :| 0 <= i < |Split(s, '.')| && ':' in Split(s, '.')[i];
    assert ParseSmall(Split(s, '.')[i], 255).None?;
  }

  /** A text is read as an IPv4 address exactly when it is dotted, or dotted after `::ffff:` in any letter case. */
  lemma ReadAsV4Exactly(value: string)
    ensures var address := Trim(value);
            (ParseAddress(value).Some? && ParseAddress(value).value.family.V4?)
            <==> ParseIpv4(address).Some? || (MappedTail(address).Some? && ParseIpv4(MappedTail(address).value).Some?)
  {
    var address := Trim(value);
    hide ParseIpv4, ParseIpv6, Trim;
    if ':' in address {
      ColonIsNotDotted(address);
    } else {
      assert MappedTail(address).None?;
    }
  }

  /** So a mapped address spelled in groups, in full or compressed, is not normalised: no IPv4 rule matches it. */
  lemma GroupsNeverMatchV4(texts: seq<string>, groups: seq<nat>, i: nat, j: nat, rule: Cidr)
    requires |groups| == 8 && Spells(texts, groups)
    requires i <= j <= 8 && forall k :: i <= k < j ==> groups[k] == 0
    requires WellFormedRule(rule) && rule.family.V4?
    ensures var a := ParseAddress(Join(texts[..i], ':') + "::" + Join(texts[j..], ':'));
            a.Some? && a.value.family.V6? && !BytesMatch(a.value, rule)
    ensures var a := ParseAddress(Join(texts, ':')); a.Some? && a.value.family.V6? && !BytesMatch(a.value, rule)
  {
    hide ParseAddress, GroupBytes, Spells;
    FullFormRoundTrip(texts, groups);
    CompressedFormRoundTrip(texts, groups, i, j);
  }

  function MappedTexts(): seq<string> { ["0", "0", "0", "0", "0", "ffff", "a00", "1"] }

  function MappedGroups(): seq<nat> { [0, 0, 0, 0, 0, 0xffff, 0xa00, 1] }

  /** `::ffff:a00:1` is 10.0.0.1 mapped, and a rule for 10.0.0.1 lets only its dotted spelling in. */
  lemma MappedGroupsRefused()
    ensures AddressAllowed(Some("::ffff:10.0.0.1"), ["10.0.0.1"])
    ensures !AddressAllowed(Some("::ffff:a00:1"), ["10.0.0.1"])
  {
    hide *;
    TenRule();
    TenMapped();
    MappedReadAsV6();
    var rule := Cidr([10, 0, 0, 1], 32, V4);
    OneRule("::ffff:10.0.0.1", "10.0.0.1", Address([10, 0, 0, 1], V4), rule);
    OneRule("::ffff:a00:1", "10.0.0.1", ParseAddress("::ffff:a00:1").value, rule);
    SameAddressMatches([10, 0, 0, 1]);
  }

  lemma OneRule(text: string, entry: string, a: Address, rule: Cidr)
    requires text != "" && ParseAddress(text) == Some(a) && ParseCidr(entry) == Some(rule)
    ensures AddressAllowed(Some(text), [entry]) <==> BytesMatch(a, rule)
  {
    hide ParseAddress, ParseCidr, BytesMatch;
    assert [entry][0] == entry;
  }

  lemma SameAddressMatches(bytes: seq<Byte>)
    requires |bytes| == 4
    ensures BytesMatch(Address(bytes, V4), Cidr(bytes, 32, V4))
  {
  }

  lemma MappedReadAsV6()
    ensures "::ffff:a00:1" != "" && "::ffff:10.0.0.1" != ""
    ensures var a := ParseAddress("::ffff:a00:1"); a.Some? && !BytesMatch(a.value, Cidr([10, 0, 0, 1], 32, V4))
  {
    hide ParseAddress, Join, Spells, BytesMatch, MappedTexts;
    MappedSpells();
    MappedText();
    GroupsNeverMatchV4(MappedTexts(), MappedGroups(), 0, 5, Cidr([10, 0, 0, 1], 32, V4));
  }

  lemma MappedText()
    ensures |MappedTexts()| == 8
    ensures Join(MappedTexts()[..0], ':') + "::" + Join(MappedTexts()[5..], ':') == "::ffff:a00:1"
  {
    var t := MappedTexts()[5..];
    assert t == ["ffff", "a00", "1"] && t[1..] == ["a00", "1"] && t[1..][1..] == ["1"];
    assert Join(["1"], ':') == "1";
    assert Join(["a00", "1"], ':') == "a00" + [':'] + "1";
    assert Join(t, ':') == "ffff" + [':'] + ("a00" + [':'] + "1");
  }

  lemma MappedSpells()
    ensures Spells(MappedTexts(), MappedGroups())
  {
    HexValue("0");
    HexValue("1");
    HexValue("a00");
    HexValue("ffff");
  }

  lemma HexValue(s: string)
    requires AllHex(s) && 1 <= |s| <= 4
    ensures |s| == 1 ==> Value(s, Hex) == DigitValue(s[0])
    ensures |s| == 3 ==> Value(s, Hex) == 256 * DigitValue(s[0]) + 16 * DigitValue(s[1]) + DigitValue(s[2])
    ensures |s| == 4 ==> Value(s, Hex) == 4096 * DigitValue(s[0]) + 256 * DigitValue(s[1]) + 16 * DigitValue(s[2]) + DigitValue(s[3])
  {
    if |s| == 3 { assert s[..2][..1] == s[..1]; }
    if |s| == 4 { assert s[..3][..2] == s[..2] && s[..3][..2][..1] == s[..1]; }
  }

  function TenTexts(): seq<string> { ["10", "0", "0", "1"] }

  lemma TenDotted()
    ensures SpellsOctets(TenTexts(), [10, 0, 0, 1]) && Join(TenTexts(), '.') == "10.0.0.1"
  {
    var t := TenTexts();
    assert "10"[..1] == "1" && Value("1", Decimal) == 1 && Value("0", Decimal) == 0;
    assert Value("10", Decimal) == 10;
    assert t[1..] == ["0", "0", "1"] && t[1..][1..] == ["0", "1"] && t[1..][1..][1..] == ["1"];
    assert Join(["1"], '.') == "1";
    assert Join(["0", "1"], '.') == "0" + ['.'] + "1";
    assert Join(["0", "0", "1"], '.') == "0" + ['.'] + ("0" + ['.'] + "1");
    assert Join(t, '.') == "10" + ['.'] + ("0" + ['.'] + ("0" + ['.'] + "1"));
  }

  lemma TenMapped()
    ensures ParseAddress("10.0.0.1") == Some(Address([10, 0, 0, 1], V4))
    ensures ParseAddress("::ffff:10.0.0.1") == Some(Address([10, 0, 0, 1], V4))
  {
    hide ParseAddress, Join, TenTexts, SpellsOctets;
    TenDotted();
    DottedAndMappedRoundTrip(TenTexts(), [10, 0, 0, 1], "ffff");
    assert "::" + "ffff" + ":" + "10.0.0.1" == "::ffff:10.0.0.1";
  }

  lemma TenRule()
    ensures ParseCidr("10.0.0.1") == Some(Cidr([10, 0, 0, 1], 32, V4))
  {
    hide ParseAddress, Split;
    TenMapped();
    SplitAtFirst("10.0.0.1", [], '/');
  }
}
