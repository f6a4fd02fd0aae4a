/** Which entries of TRUSTED_PROXY_CIDRS are accepted: `isTrustedProxyEntry` and
    `matchesMappedPeer` of apps/api/src/config/env.ts. Addresses are numbers;
    reading one from its text is a parameter. */
module TrustedProxy {
  import Collections
  import opened OrderedMap
  import opened Splitting
  import opened Text

  /** What `isIP` and the address reader make of a text. */
  datatype Ip = NotIp | V4(bits: nat) | V6(bits: nat)

  /** An address without its last `drop` bits. */
  function Top(a: nat, drop: nat): nat {
    if drop == 0 then a else Top(a, drop - 1) / 2
  }

  /** The block `base/prefix` holds the addresses that agree on the first `prefix` of `width` bits. */
  predicate InBlock(a: nat, base: nat, prefix: nat, width: nat)
    requires prefix <= width
  {
    Top(a, width - prefix) == Top(base, width - prefix)
  }

  /** `::ffff:0:0` */
  const MAPPED: nat := 0xFFFF_0000_0000

  /** The IPv4-mapped address of an IPv4 peer. */
  function MappedPeer(v4: nat): nat {
    MAPPED + v4
  }

  /** Without a prefix the entry is the one address. */
  predicate MatchesMappedPeer(address: nat, prefix: Option<nat>)
    requires prefix.Some? ==> prefix.value <= 128
  {
    || (if prefix.None? then MAPPED == address else InBlock(MAPPED, address, prefix.value, 128))
    || InBlock(address, MAPPED, 96, 128)
  }

  const PROXY_PRESETS := ["loopback", "linklocal", "uniquelocal"]

  /** `s.includes(part)` */
  predicate Contains(s: string, part: string) {
    part <= s || (s != "" && Contains(s[1..], part))
  }

  /** `/^[1-9]\d*$/` */
  predicate IsPrefixText(s: string) {
    s != "" && s[0] != '0' && forall i :: 0 <= i < |s| ==> IsDigit(s[i], 10)
  }

  predicate IsTrustedProxyEntry(entry: string, parse: string -> Ip) {
    entry in PROXY_PRESETS ||
    var parts := Split(entry, '/');
    var ip := parse(parts[0]);
    if ip.NotIp? || |parts| > 2 || Contains(Lower(parts[0]), "::ffff:") then false
    else if |parts| == 1 then ip.V4? || !MatchesMappedPeer(ip.bits, None)
    else
      var (min, max) := if ip.V4? then (8, 32) else (7, 128);
      IsPrefixText(parts[1]) &&
      var prefix := NumeralValue(parts[1], 10);
      min <= prefix <= max && (ip.V4? || !MatchesMappedPeer(ip.bits, Some(prefix)))
  }

  /** The trimmed, non-empty entries of the comma-separated value. */
  function Entries(parts: seq<string>): seq<string> {
    if parts == [] then []
    else (if Trim(parts[0]) == "" then [] else [Trim(parts[0])]) + Entries(parts[1..])
  }

  function ProxyList(value: string, parse: string -> Ip): Option<seq<string>> {
    var entries := Entries(Split(value, ','));
    if forall i :: 0 <= i < |entries| ==> IsTrustedProxyEntry(entries[i], parse) then Some(entries) else None
  }

  // ---- blocks are nested or disjoint -----------------------------------------------------

  lemma {:induction false} TopTwice(a: nat, n: nat, k: nat)
    ensures Top(Top(a, n), k) == Top(a, n + k)
  {
    if k > 0 { TopTwice(a, n, k - 1); }
  }

  lemma TopAgrees(a: nat, b: nat, few: nat, many: nat)
    requires few <= many && Top(a, few) == Top(b, few)
    ensures Top(a, many) == Top(b, many)
  {
    TopTwice(a, few, many - few);
    TopTwice(b, few, many - few);
  }

  /** Two blocks share an address exactly when the wider one contains the other's
      base, and then it contains all of it. */
  lemma NestedOrDisjoint(a: nat, p: nat, b: nat, q: nat, width: nat)
    requires p <= q <= width
    ensures (exists x :: InBlock(x, a, p, width) && InBlock(x, b, q, width)) <==> InBlock(b, a, p, width)
    ensures InBlock(b, a, p, width) ==> forall x :: InBlock(x, b, q, width) ==> InBlock(x, a, p, width)
  {
    forall x | InBlock(x, b, q, width) ensures InBlock(x, a, p, width) <==> InBlock(b, a, p, width) {
      TopAgrees(x, b, width - q, width - p);
    }
    assert InBlock(b, b, q, width);
  }

  lemma OneBit(a: nat, n: nat)
    requires n > 0
    ensures Top(a, n) == Top(a, n - 1) / 2
  {
  }

  lemma EightBits(a: nat)
    ensures Top(a, 8) == a / 256
  {
    hide Top;
    assert Top(a, 0) == a by { Unmoved(a); }
    OneBit(a, 1);
    OneBit(a, 2);
    OneBit(a, 3);
    OneBit(a, 4);
    OneBit(a, 5);
    OneBit(a, 6);
    OneBit(a, 7);
    OneBit(a, 8);
  }

  lemma Unmoved(a: nat)
    ensures Top(a, 0) == a
  {
  }

  lemma ThirtyTwoBits(a: nat)
    ensures Top(a, 32) == a / 0x1_0000_0000
  {
    hide Top;
    EightBits(a);
    EightBits(a / 256);
    EightBits(a / 0x1_0000);
    EightBits(a / 0x100_0000);
    TopTwice(a, 8, 8);
    TopTwice(a, 16, 8);
    TopTwice(a, 24, 8);
  }

  /** The block ::ffff:0:0/96 is exactly the mapped addresses of the IPv4 peers. */
  lemma MappedBlock(x: nat)
    ensures InBlock(x, MAPPED, 96, 128) <==> exists v4 :: 0 <= v4 < 0x1_0000_0000 && x == MappedPeer(v4)
  {
    hide Top;
    ThirtyTwoBits(x);
    ThirtyTwoBits(MAPPED);
    if InBlock(x, MAPPED, 96, 128) {
      assert x == MappedPeer(x - MAPPED);
    }
  }

  // ---- the overlap test is exact -----------------------------------------------------------

  /** Some IPv4 peer's mapped address lies in the entry's block. */
  ghost predicate AppliesToIpv4(address: nat, prefix: nat)
    requires prefix <= 128
  {
    exists v4 :: 0 <= v4 < 0x1_0000_0000 && InBlock(MappedPeer(v4), address, prefix, 128)
  }

  /** For every address and prefix length the test says exactly whether the
      entry's block holds the mapped address of an IPv4 peer. */
  lemma MatchesMappedPeerIsExact(address: nat, prefix: nat)
    requires prefix <= 128
    ensures MatchesMappedPeer(address, Some(prefix)) <==> AppliesToIpv4(address, prefix)
    ensures MatchesMappedPeer(address, None) <==> AppliesToIpv4(address, 128)
  {
    Exact(address, prefix);
    Exact(address, 128);
  }

  lemma Exact(address: nat, prefix: nat)
    requires prefix <= 128
    ensures InBlock(MAPPED, address, prefix, 128) || InBlock(address, MAPPED, 96, 128) <==>
      AppliesToIpv4(address, prefix)
  {
    hide Top;
    if InBlock(MAPPED, address, prefix, 128) {
      assert InBlock(MappedPeer(0), address, prefix, 128);
    }
    if InBlock(address, MAPPED, 96, 128) {
      MappedBlock(address);
      var v4 :| 0 <= v4 < 0x1_0000_0000 && address == MappedPeer(v4);
      assert InBlock(MappedPeer(v4), address, prefix, 128);
    }
    if v4 :| 0 <= v4 < 0x1_0000_0000 && InBlock(MappedPeer(v4), address, prefix, 128) {
      var x := MappedPeer(v4);
      MappedBlock(x);
      assert InBlock(x, MAPPED, 96, 128);
      if prefix <= 96 {
        TopAgrees(x, MAPPED, 32, 128 - prefix);
      } else {
        TopAgrees(x, address, 128 - prefix, 32);
      }
    }
  }

  /** The block an entry stands for. */
  function EntryPrefix(entry: string): nat {
    var parts := Split(entry, '/');
    if |parts| > 1 then NumeralValue(parts[1], 10) else 128
  }

  /** An accepted IPv6 entry applies to no IPv4 peer; and one that applies to
      none is refused only for its form: a repeated `/`, the text `::ffff:`, or a
      prefix that is not a number from 7 to 128 without leading zeros. */
  lemma AcceptedIpv6Entry(entry: string, parse: string -> Ip)
    requires entry !in PROXY_PRESETS && parse(Split(entry, '/')[0]).V6?
    ensures var parts := Split(entry, '/');
      var wellFormed := |parts| <= 2 && !Contains(Lower(parts[0]), "::ffff:")
        && (|parts| == 2 ==> IsPrefixText(parts[1]) && 7 <= EntryPrefix(entry) <= 128);
      IsTrustedProxyEntry(entry, parse) <==> wellFormed && !AppliesToIpv4(parse(parts[0]).bits, EntryPrefix(entry))
  {
    hide Split, IsSpace, NumeralValue, IsPrefixText, Contains, InBlock, AppliesToIpv4;
    var parts := Split(entry, '/');
    if EntryPrefix(entry) <= 128 {
      MatchesMappedPeerIsExact(parse(parts[0]).bits, EntryPrefix(entry));
    }
  }

  /** Any other entry is accepted exactly when it is an IPv4 address, or a block of
      one with a prefix from 8 to 32 without leading zeros. */
  lemma AcceptedIpv4Entry(entry: string, parse: string -> Ip)
    requires entry !in PROXY_PRESETS && !parse(Split(entry, '/')[0]).V6?
    ensures var parts := Split(entry, '/');
      IsTrustedProxyEntry(entry, parse) <==>
        && parse(parts[0]).V4? && |parts| <= 2 && !Contains(Lower(parts[0]), "::ffff:")
        && (|parts| == 2 ==> IsPrefixText(parts[1]) && 8 <= NumeralValue(parts[1], 10) <= 32)
  {
    hide Split, IsSpace, NumeralValue, IsPrefixText, Contains;
  }

  /** The three presets are accepted as they stand, whatever they parse to. */
  lemma PresetsAreAccepted(entry: string, parse: string -> Ip)
    requires entry == "loopback" || entry == "linklocal" || entry == "uniquelocal"
    ensures IsTrustedProxyEntry(entry, parse)
  {
    hide Split;
  }

  /** A prefix is written as the decimal numeral of a positive number. */
  lemma PrefixTextIff(s: string)
    ensures IsPrefixText(s) <==> exists n: nat :: n > 0 && s == Decimal(n)
  {
    hide IsSpace;
    if IsPrefixText(s) {
      ReadBack(s);
      assert s == Decimal(NumeralValue(s, 10));
    }
    forall n: nat | n > 0 && s == Decimal(n) ensures IsPrefixText(s) { FirstDigit(n); }
  }

  lemma {:induction false} ReadBack(s: string)
    requires IsPrefixText(s)
    ensures NumeralValue(s, 10) > 0 && Numeral(NumeralValue(s, 10), 10) == s
  {
    hide IsSpace;
    var n := |s| - 1;
    DigitBack(s[n]);
    if n == 0 {
      assert s == [] + [s[0]];
      NumeralValueAppend([], s[0], 10);
    } else {
      ReadBack(s[..n]);
      assert s == s[..n] + [s[n]];
      hide IsDigit, DigitChar;
      AppendDigit(NumeralValue(s[..n], 10), DigitValue(s[n]));
    }
  }

  lemma DigitBack(c: char)
    requires IsDigit(c, 10)
    ensures DigitValue(c) < 10 && DigitChar(DigitValue(c)) == c && (c != '0' ==> DigitValue(c) > 0)
  {
  }

  lemma AppendDigit(n: nat, d: nat)
    requires n > 0 && d < 10
    ensures Numeral(n * 10 + d, 10) == Numeral(n, 10) + [DigitChar(d)]
  {
    hide DigitChar;
    assert (n * 10 + d) / 10 == n && (n * 10 + d) % 10 == d;
  }

  lemma {:induction false} FirstDigit(n: nat)
    requires n > 0
    ensures IsPrefixText(Decimal(n))
  {
    hide IsSpace;
    if n >= 10 { FirstDigit(n / 10); }
  }

  predicate HasAt(s: string, part: string, i: nat) {
    i + |part| <= |s| && s[i..i + |part|] == part
  }

  /** `includes` finds the part at some position. */
  lemma {:induction false} ContainsIff(s: string, part: string)
    ensures Contains(s, part) <==> exists i: nat :: HasAt(s, part, i)
  {
    assert part <= s <==> HasAt(s, part, 0);
    if s != "" {
      ContainsIff(s[1..], part);
      forall i: nat | HasAt(s[1..], part, i) ensures HasAt(s, part, i + 1) { OneLater(s, part, i); }
      forall i: nat | HasAt(s, part, i) && i > 0 ensures HasAt(s[1..], part, i - 1) { OneLater(s, part, i - 1); }
    }
  }

  lemma OneLater(s: string, part: string, i: nat)
    requires s != ""
    ensures HasAt(s[1..], part, i) <==> HasAt(s, part, i + 1)
  {
    if i + 1 + |part| <= |s| { assert s[1..][i..i + |part|] == s[i + 1..i + 1 + |part|]; }
  }

  /** What is read of one part between commas: nothing when it is blank. */
  function EntryOf(part: string): seq<string> {
    if Trim(part) == "" then [] else [Trim(part)]
  }

  lemma {:induction false} EntriesInPlace(before: seq<string>, part: string, after: seq<string>)
    ensures Entries(before + [part] + after) == Entries(before) + EntryOf(part) + Entries(after)
  {
    hide IsSpace, Trim;
    if before == [] {
      assert before + [part] + after == [part] + after && ([part] + after)[1..] == after;
      EntriesFirst([part] + after);
      assert Entries([]) == [] && [] + EntryOf(part) == EntryOf(part);
    } else {
      hide Entries, EntryOf;
      EntriesInPlace(before[1..], part, after);
      EntriesFirst(before);
      EntriesFirst(before + [part] + after);
      Collections.RestOf(before, part, after);
      Collections.Regroup(EntryOf(before[0]), Entries(before[1..]), EntryOf(part), Entries(after));
    }
  }

  lemma EntriesFirst(parts: seq<string>)
    requires parts != []
    ensures Entries(parts) == EntryOf(parts[0]) + Entries(parts[1..])
  {
    hide Trim;
  }

  /** The list is refused as a whole exactly when one of its entries is, and is
      otherwise all of them. */
  lemma ListAcceptedIff(value: string, parse: string -> Ip)
    ensures var entries := Entries(Split(value, ','));
      && (ProxyList(value, parse) == Some(entries) <==> forall e :: e in entries ==> IsTrustedProxyEntry(e, parse))
      && (ProxyList(value, parse) == None <==> exists e :: e in entries && !IsTrustedProxyEntry(e, parse))
  {
    hide IsTrustedProxyEntry, Entries, Split;
    var entries := Entries(Split(value, ','));
    if i :| 0 <= i < |entries| && !IsTrustedProxyEntry(entries[i], parse) {
      assert entries[i] in entries;
    }
  }

  /** Every entry of an accepted list is a preset, an IPv4 block no wider than a
      /8, or an IPv6 block that applies to no IPv4 peer. */
  lemma AcceptedList(value: string, parse: string -> Ip, i: nat)
    requires ProxyList(value, parse).Some? && i < |ProxyList(value, parse).value|
    ensures var entry := ProxyList(value, parse).value[i];
      var ip := parse(Split(entry, '/')[0]);
      entry in PROXY_PRESETS || (ip.V4? && |Split(entry, '/')| == 1) || (ip.V4? && 8 <= EntryPrefix(entry) <= 32)
        || (ip.V6? && EntryPrefix(entry) <= 128 && !AppliesToIpv4(ip.bits, EntryPrefix(entry)))
  {
    hide Split, Trim, NumeralValue, IsPrefixText, Contains, InBlock, AppliesToIpv4;
    var entry := ProxyList(value, parse).value[i];
    if entry !in PROXY_PRESETS && parse(Split(entry, '/')[0]).V6? {
      AcceptedIpv6Entry(entry, parse);
    }
  }
}
