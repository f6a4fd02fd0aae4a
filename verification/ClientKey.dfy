/** The rate-limit key of a client address: `clientKey` of
    apps/api/src/rate-limit.ts, against the spellings of section 2.2 of RFC 4291. */
module ClientKey {
  import opened OrderedMap
  import opened Splitting
  import opened Text

  // ---- the program ------------------------------------------------------------------

  /** What follows a leading `::ffff:`. */
  function MappedTail(addr: string): Option<string> {
    if |addr| >= 7 && addr[..7] == "::ffff:" then Some(addr[7..]) else None
  }

  predicate AllDigits(s: string, base: nat) {
    forall i :: 0 <= i < |s| ==> IsDigit(s[i], base)
  }

  /** `\d{1,3}(?:\.\d{1,3}){3}` */
  predicate IsDottedQuad(t: string) {
    var parts := Split(t, '.');
    |parts| == 4 && forall i :: 0 <= i < 4 ==> 1 <= |parts[i]| <= 3 && AllDigits(parts[i], 10)
  }

  /** `[0-9a-f]{1,4}` */
  predicate IsHexGroup(g: string) {
    1 <= |g| <= 4 && AllDigits(g, 16)
  }

  /** `[0-9a-f]{1,4}:[0-9a-f]{1,4}` */
  predicate IsHexPair(t: string) {
    var parts := Split(t, ':');
    |parts| == 2 && IsHexGroup(parts[0]) && IsHexGroup(parts[1])
  }

  function Dotted(bytes: seq<nat>): string
    requires |bytes| == 4
  {
    Join([Decimal(bytes[0]), Decimal(bytes[1]), Decimal(bytes[2]), Decimal(bytes[3])], '.')
  }

  /** The two 16-bit groups of an IPv4 address as its four bytes. */
  function Bytes(hi: nat, lo: nat): (bytes: seq<nat>)
    ensures |bytes| == 4
  {
    [hi / 256, hi % 256, lo / 256, lo % 256]
  }

  predicate IsLineEnd(c: char) {
    c == '\n' || c == '\r' || c == '\U{2028}' || c == '\U{2029}'
  }

  /** `g.replace(/^0+(?=.)/, '')` */
  function StripZeros(g: string): string {
    if |g| >= 2 && g[0] == '0' && !IsLineEnd(g[1]) then StripZeros(g[1..]) else g
  }

  /** Text before and after the first `::`. */
  function CutDouble(s: string): (string, Option<string>) {
    if |s| < 2 then (s, None)
    else if s[0] == ':' && s[1] == ':' then ("", Some(s[2..]))
    else
      var (head, tail) := CutDouble(s[1..]);
      ([s[0]] + head, tail)
  }

  function SplitGroups(s: string): seq<string> {
    if s == "" then [] else Split(s, ':')
  }

  function Zeros(n: int): (zeros: seq<string>)
    ensures |zeros| == if n <= 0 then 0 else n
    ensures forall i :: 0 <= i < |zeros| ==> zeros[i] == "0"
  {
    if n <= 0 then [] else seq(n, i => "0")
  }

  function Groups(addr: string): seq<string> {
    var (head, tail) := CutDouble(addr);
    if tail.None? then SplitGroups(head)
    else
      var before, after := SplitGroups(head), SplitGroups(CutDouble(tail.value).0);
      before + Zeros(8 - |before| - |after|) + after
  }

  function Stripped(groups: seq<string>): (r: seq<string>)
    ensures |r| == |groups|
    ensures forall i :: 0 <= i < |groups| ==> r[i] == StripZeros(groups[i])
  {
    seq(|groups|, i requires 0 <= i < |groups| => StripZeros(groups[i]))
  }

  function KeyOf(ip: string): string {
    var addr := Lower(Split(ip, '%')[0]);
    var mapped := MappedTail(addr);
    if mapped.Some? && IsDottedQuad(mapped.value) then mapped.value
    else if mapped.Some? && IsHexPair(mapped.value) then
      var parts := Split(mapped.value, ':');
      Dotted(Bytes(NumeralValue(parts[0], 16), NumeralValue(parts[1], 16)))
    else if ':' !in addr then addr
    else
      var groups := Groups(addr);
      Join(Stripped(if |groups| < 4 then groups else groups[..4]), ':') + "::/64"
  }

  // ---- the standard's spellings -------------------------------------------------------

  /** Eight groups, or fewer with `::` for one or more groups of zeros. */
  datatype Spelling = Full(groups: seq<string>) | Short(head: seq<string>, tail: seq<string>)

  /** One to four hexadecimal digits in either case. */
  predicate IsGroup(g: string) {
    IsHexGroup(Lower(g))
  }

  predicate AllGroups(gs: seq<string>) {
    forall i :: 0 <= i < |gs| ==> IsGroup(gs[i])
  }

  predicate Legal(sp: Spelling) {
    if sp.Full? then |sp.groups| == 8 && AllGroups(sp.groups)
    else |sp.head| + |sp.tail| <= 7 && AllGroups(sp.head) && AllGroups(sp.tail)
  }

  function Written(sp: Spelling): string {
    if sp.Full? then Join(sp.groups, ':') else Join(sp.head, ':') + "::" + Join(sp.tail, ':')
  }

  function Expanded(sp: Spelling): seq<string> {
    if sp.Full? then sp.groups else sp.head + Zeros(8 - |sp.head| - |sp.tail|) + sp.tail
  }

  /** The address: eight 16-bit numbers. */
  function Address(sp: Spelling): (a: seq<nat>)
    ensures |a| == |Expanded(sp)|
  {
    var gs := Expanded(sp);
    seq(|gs|, i requires 0 <= i < |gs| => NumeralValue(Lower(gs[i]), 16))
  }

  /** `::ffff:h:h`, the one spelling of an IPv4-mapped address the program reads as such. */
  predicate SpelledMapped(sp: Spelling) {
    sp.Short? && sp.head == [] && |sp.tail| == 3 && Lower(sp.tail[0]) == "ffff"
  }

  /** The key of a /64 network. */
  function NetworkKey(top: seq<nat>): string
    requires |top| == 4
  {
    Join([Numeral(top[0], 16), Numeral(top[1], 16), Numeral(top[2], 16), Numeral(top[3], 16)], ':') + "::/64"
  }

  // ---- numerals ------------------------------------------------------------------------

  lemma {:induction false} ValuePositive(s: string)
    requires s != "" && s[0] != '0' && AllDigits(s, 16)
    ensures NumeralValue(s, 16) > 0
  {
    hide IsSpace, NumeralValue;
    var n := |s| - 1;
    LastDigit(s);
    if n > 0 {
      ValuePositive(s[..n]);
    } else {
      FirstDigitPositive(s[0]);
    }
  }

  lemma LastDigit(s: string)
    requires s != ""
    ensures NumeralValue(s, 16) == NumeralValue(s[..|s| - 1], 16) * 16 + DigitValue(s[|s| - 1])
  {
  }

  lemma FirstDigitPositive(c: char)
    requires IsDigit(c, 16) && c != '0'
    ensures DigitValue(c) > 0
  {
  }

  lemma DigitCharOf(c: char, base: nat)
    requires IsDigit(c, base) && base <= 16
    ensures DigitChar(DigitValue(c)) == c
  {
  }

  lemma PlusDigit(v: nat, d: nat)
    requires d < 16 && v > 0
    ensures (v * 16 + d) / 16 == v && (v * 16 + d) % 16 == d && v * 16 + d >= 16
  {
  }

  /** A numeral without leading zeros is the numeral of its value. */
  lemma {:induction false} NumeralOfValue(s: string)
    requires s != "" && AllDigits(s, 16) && (|s| == 1 || s[0] != '0')
    ensures Numeral(NumeralValue(s, 16), 16) == s
  {
    hide IsSpace, IsNumeralChar, DigitChar, DigitValue;
    var t, c := s[..|s| - 1], s[|s| - 1];
    DigitCharOf(c, 16);
    if |s| == 1 {
      assert NumeralValue(t, 16) == 0;
      assert NumeralValue(s, 16) == DigitValue(c);
    } else {
      NumeralOfValue(t);
      ValuePositive(t);
      PlusDigit(NumeralValue(t, 16), DigitValue(c));
    }
  }

  lemma {:induction false} ValueDropsZero(s: string, base: nat)
    requires |s| >= 2 && s[0] == '0'
    ensures NumeralValue(s, base) == NumeralValue(s[1..], base)
  {
    hide IsSpace;
    var t := s[..|s| - 1];
    assert s[1..][..|s| - 2] == t[1..];
    if |s| > 2 { ValueDropsZero(t, base); }
    else {
      assert NumeralValue(t[..0], base) == 0;
      assert DigitValue(t[0]) == 0;
    }
  }

  /** Stripping leading zeros gives the numeral of the group's value. */
  lemma {:induction false} StripIsNumeral(g: string)
    requires g != "" && AllDigits(g, 16)
    ensures StripZeros(g) == Numeral(NumeralValue(g, 16), 16)
  {
    hide Numeral, IsSpace;
    if |g| >= 2 && g[0] == '0' {
      ValueDropsZero(g, 16);
      StripIsNumeral(g[1..]);
    } else {
      NumeralOfValue(g);
    }
  }

  // ---- reading a written address back --------------------------------------------------

  predicate AddressChar(c: char) {
    IsDigit(c, 16) || c == ':'
  }

  /** Lower-case groups joined: only digits and colons, starting and ending in a
      digit, and no two colons side by side. */
  ghost predicate Plain(s: string) {
    && (forall i :: 0 <= i < |s| ==> AddressChar(s[i]))
    && (s != "" ==> s[0] != ':' && s[|s| - 1] != ':')
    && (forall i, j :: 0 <= i < j < |s| && j == i + 1 ==> s[i] != ':' || s[j] != ':')
  }

  predicate LowGroups(gs: seq<string>) {
    forall i :: 0 <= i < |gs| ==> IsHexGroup(gs[i])
  }

  lemma {:induction false} JoinIsPlain(gs: seq<string>)
    requires LowGroups(gs)
    ensures Plain(Join(gs, ':'))
    ensures Join(gs, ':') == "" <==> gs == []
  {
    if |gs| > 1 {
      JoinIsPlain(gs[1..]);
    }
  }

  lemma {:induction false} NoDouble(s: string)
    requires forall i, j :: 0 <= i < j < |s| && j == i + 1 ==> s[i] != ':' || s[j] != ':'
    ensures CutDouble(s) == (s, None)
  {
    if |s| >= 2 {
      NoDouble(s[1..]);
      assert [s[0]] + s[1..] == s;
    }
  }

  lemma {:induction false} FirstDouble(s: string, rest: string)
    requires forall i, j :: 0 <= i < j < |s| && j == i + 1 ==> s[i] != ':' || s[j] != ':'
    requires s != "" ==> s[|s| - 1] != ':'
    ensures CutDouble(s + "::" + rest) == (s, Some(rest))
  {
    var t := s + "::" + rest;
    if s == "" {
      assert t[2..] == rest;
    } else {
      FirstDouble(s[1..], rest);
      assert t[1..] == s[1..] + "::" + rest;
      assert [s[0]] + s[1..] == s;
    }
  }

  lemma GroupsFree(gs: seq<string>)
    requires LowGroups(gs)
    ensures Free(gs, ':') && Free(gs, '.')
  {
  }

  lemma SplitGroupsOfJoin(gs: seq<string>)
    requires LowGroups(gs)
    ensures SplitGroups(Join(gs, ':')) == gs
  {
    JoinIsPlain(gs);
    if gs != [] {
      GroupsFree(gs);
      SplitOfJoin(gs, ':');
    }
  }

  /** The same spelling in lower case. */
  function LowerSpelling(sp: Spelling): Spelling {
    if sp.Full? then Full(LowerAll(sp.groups)) else Short(LowerAll(sp.head), LowerAll(sp.tail))
  }

  predicate LowLegal(sp: Spelling) {
    if sp.Full? then |sp.groups| == 8 && LowGroups(sp.groups)
    else |sp.head| + |sp.tail| <= 7 && LowGroups(sp.head) && LowGroups(sp.tail)
  }

  lemma CutPlain(s: string)
    requires Plain(s)
    ensures CutDouble(s) == (s, None)
  {
    hide AddressChar, CutDouble;
    NoDouble(s);
  }

  lemma CutAfterPlain(s: string, rest: string)
    requires Plain(s)
    ensures CutDouble(s + "::" + rest) == (s, Some(rest))
  {
    hide AddressChar, CutDouble;
    FirstDouble(s, rest);
  }

  lemma GroupsOfFull(groups: seq<string>)
    requires LowGroups(groups)
    ensures Groups(Join(groups, ':')) == groups
  {
    hide LowGroups, Plain, Join, SplitGroups, CutDouble;
    JoinIsPlain(groups);
    CutPlain(Join(groups, ':'));
    SplitGroupsOfJoin(groups);
  }

  lemma GroupsFromCut(addr: string, head: string, tail: string)
    requires CutDouble(addr) == (head, Some(tail)) && CutDouble(tail) == (tail, None)
    ensures var before, after := SplitGroups(head), SplitGroups(tail);
      Groups(addr) == before + Zeros(8 - |before| - |after|) + after
  {
    hide CutDouble, SplitGroups, Zeros;
  }

  /** Two plain texts with `::` between them. */
  lemma GroupsOfTwo(h: string, t: string, before: seq<string>, after: seq<string>)
    requires Plain(h) && Plain(t) && SplitGroups(h) == before && SplitGroups(t) == after
    ensures Groups(h + "::" + t) == before + Zeros(8 - |before| - |after|) + after
  {
    hide CutDouble, SplitGroups, Zeros, Groups, Plain;
    CutAfterPlain(h, t);
    CutPlain(t);
    GroupsFromCut(h + "::" + t, h, t);
  }

  lemma PlainGroups(gs: seq<string>)
    requires LowGroups(gs)
    ensures Plain(Join(gs, ':')) && SplitGroups(Join(gs, ':')) == gs
  {
    hide LowGroups, Plain, Join, SplitGroups;
    JoinIsPlain(gs);
    SplitGroupsOfJoin(gs);
  }

  lemma GroupsOfShort(head: seq<string>, tail: seq<string>)
    requires LowGroups(head) && LowGroups(tail)
    ensures Groups(Join(head, ':') + "::" + Join(tail, ':')) == head + Zeros(8 - |head| - |tail|) + tail
  {
    hide LowGroups, Plain, Join, SplitGroups, Zeros, Groups;
    PlainGroups(head);
    PlainGroups(tail);
    GroupsOfTwo(Join(head, ':'), Join(tail, ':'), head, tail);
  }

  /** The groups the program reads are the spelled ones. */
  lemma GroupsOfWritten(sp: Spelling)
    requires LowLegal(sp)
    ensures Groups(Written(sp)) == Expanded(sp)
  {
    hide Groups, Join, Zeros, LowGroups;
    if sp.Full? { GroupsOfFull(sp.groups); } else { GroupsOfShort(sp.head, sp.tail); }
  }

  /** A leading `::ffff:` is an empty head and a first group `ffff`. */
  lemma MappedTailOfWritten(sp: Spelling)
    requires LowLegal(sp)
    ensures var mapped := sp.Short? && sp.head == [] && |sp.tail| >= 2 && sp.tail[0] == "ffff";
      MappedTail(Written(sp)) == if mapped then Some(Join(sp.tail[1..], ':')) else None
  {
    hide IsSpace, IsDigit;
    var addr := Written(sp);
    if sp.Full? { JoinIsPlain(sp.groups); }
    else if sp.head != [] {
      JoinIsPlain(sp.head);
      assert addr[0] == Join(sp.head, ':')[0];
      assert |addr| >= 7 ==> addr[..7][0] == addr[0];
    }
    else if sp.tail != [] {
      var t := Join(sp.tail, ':');
      assert addr == "::" + t;
      FirstGroup(sp.tail);
      assert |addr| >= 7 ==> addr[2..7] == t[..5] && addr[7..] == t[5..] && addr[..7] == "::" + t[..5];
      assert |addr| >= 7 && addr[..7] == "::ffff:" ==> addr[2..7] == "ffff:";
    }
  }

  lemma FirstGroup(gs: seq<string>)
    requires gs != [] && LowGroups(gs)
    ensures var t := Join(gs, ':');
      && (|t| >= 5 && t[..5] == "ffff:" <==> |gs| >= 2 && gs[0] == "ffff")
      && (|gs| >= 2 && gs[0] == "ffff" ==> t[5..] == Join(gs[1..], ':'))
  {
    hide IsSpace;
    GroupsFree(gs);
    var t := Join(gs, ':');
    assert t[..|gs[0]|] == gs[0];
    if |gs| >= 2 && |gs[0]| < 4 && |t| >= 5 {
      assert t[|gs[0]|] == ':';
      assert t[..5][|gs[0]|] == ':';
    }
  }

  lemma NoDots(s: string)
    requires Plain(s)
    ensures !IsDottedQuad(s)
  {
    SplitFirst(s, "", '.');
  }

  lemma TailIsPair(sp: Spelling)
    requires LowLegal(sp) && sp.Short? && |sp.tail| >= 2
    ensures var rest := Join(sp.tail[1..], ':');
      !IsDottedQuad(rest) && (IsHexPair(rest) <==> |sp.tail| == 3) && Split(rest, ':') == sp.tail[1..]
  {
    hide IsSpace, IsHexGroup;
    var gs := sp.tail[1..];
    JoinIsPlain(gs);
    NoDots(Join(gs, ':'));
    GroupsFree(gs);
    SplitOfJoin(gs, ':');
  }

  // ---- from the text to lower-case groups ----------------------------------------------

  lemma {:induction false} LowerJoin(parts: seq<string>)
    ensures Lower(Join(parts, ':')) == Join(LowerAll(parts), ':')
  {
    hide IsSpace;
    if |parts| > 1 {
      LowerJoin(parts[1..]);
      assert LowerAll(parts)[1..] == LowerAll(parts[1..]);
    }
  }

  lemma LowerWritten(sp: Spelling)
    requires Legal(sp)
    ensures Lower(Written(sp)) == Written(LowerSpelling(sp)) && LowLegal(LowerSpelling(sp))
  {
    hide IsSpace, IsHexGroup;
    if sp.Full? {
      LowerJoin(sp.groups);
    } else {
      LowerJoin(sp.head);
      LowerJoin(sp.tail);
    }
  }

  lemma WrittenChars(sp: Spelling)
    requires LowLegal(sp)
    ensures forall i :: 0 <= i < |Written(sp)| ==> AddressChar(Written(sp)[i])
    ensures ':' in Written(sp)
  {
    hide IsSpace, IsHexGroup, IsDigit;
    if sp.Full? {
      JoinIsPlain(sp.groups);
      assert Written(sp)[|sp.groups[0]|] == ':';
    } else {
      JoinIsPlain(sp.head);
      JoinIsPlain(sp.tail);
      assert Written(sp)[|Join(sp.head, ':')|] == ':';
    }
  }

  lemma NoZoneMark(sp: Spelling)
    requires Legal(sp)
    ensures '%' !in Written(sp)
  {
    hide IsSpace, Written, Legal, LowLegal, LowerSpelling;
    LowerWritten(sp);
    WrittenChars(LowerSpelling(sp));
    var w := Written(sp);
    forall i | 0 <= i < |w| ensures w[i] != '%' {
      assert Lower(w)[i] == LowerChar(w[i]) && AddressChar(Lower(w)[i]);
    }
  }

  /** Zone and case do not matter. */
  lemma AddressText(sp: Spelling, zone: string)
    requires Legal(sp) && (zone == "" || zone[0] == '%')
    ensures Lower(Split(Written(sp) + zone, '%')[0]) == Written(LowerSpelling(sp))
  {
    hide IsSpace, Split, Written, Legal, LowLegal, LowerSpelling, Lower;
    LowerWritten(sp);
    NoZoneMark(sp);
    var w := Written(sp);
    if zone == "" {
      SplitFirst(w, "", '%');
      assert w + zone == w;
    } else {
      SplitFirst(w, zone[1..], '%');
      assert w + zone == w + ['%'] + zone[1..];
    }
  }

  lemma ExpandedLower(sp: Spelling)
    requires Legal(sp)
    ensures var low := Expanded(LowerSpelling(sp));
      && |low| == 8 == |Address(sp)| && LowGroups(low)
      && forall i :: 0 <= i < 8 ==> Address(sp)[i] == NumeralValue(low[i], 16)
  {
    hide IsSpace, NumeralValue;
    assert Lower("0") == "0";
    assert IsHexGroup("0");
    var low, gs := Expanded(LowerSpelling(sp)), Expanded(sp);
    forall i | 0 <= i < 8 ensures low[i] == Lower(gs[i]) && IsHexGroup(low[i]) {
    }
  }

  lemma StrippedTop(groups: seq<string>, address: seq<nat>)
    requires |groups| == 8 == |address| && LowGroups(groups)
    requires forall i :: 0 <= i < 8 ==> address[i] == NumeralValue(groups[i], 16)
    ensures Join(Stripped(groups[..4]), ':') + "::/64" == NetworkKey(address[..4])
  {
    hide IsSpace, NumeralValue, StripZeros, Join;
    forall i | 0 <= i < 4 ensures StripZeros(groups[i]) == Numeral(address[i], 16) {
      StripIsNumeral(groups[i]);
    }
    var top := address[..4];
    assert Stripped(groups[..4])
      == [Numeral(top[0], 16), Numeral(top[1], 16), Numeral(top[2], 16), Numeral(top[3], 16)];
  }

  /** The key of any legal spelling, in any case, with or without a zone: the
      IPv4 address when it is spelled `::ffff:h:h`, its /64 otherwise. */
  lemma KeyOfSpelling(sp: Spelling, zone: string)
    requires Legal(sp) && (zone == "" || zone[0] == '%')
    ensures |Address(sp)| == 8
    ensures KeyOf(Written(sp) + zone) ==
      if SpelledMapped(sp) then Dotted(Bytes(Address(sp)[6], Address(sp)[7])) else NetworkKey(Address(sp)[..4])
  {
    hide IsSpace, Groups, Written, Split, IsDottedQuad, IsHexPair, Stripped, NetworkKey, Dotted, NumeralValue;
    hide IsHexGroup, Zeros, Join, Address, MappedTail, Lower;
    var low := LowerSpelling(sp);
    AddressText(sp, zone);
    LowerWritten(sp);
    WrittenChars(low);
    MappedTailOfWritten(low);
    ExpandedLower(sp);
    GroupsOfWritten(low);
    StrippedTop(Expanded(low), Address(sp));
    if low.Short? && |low.tail| >= 2 { TailIsPair(low); }
  }

  // ---- what the keys tell apart --------------------------------------------------------

  lemma NumeralFree(n: nat, base: nat)
    requires 2 <= base <= 16
    ensures ':' !in Numeral(n, base) && '.' !in Numeral(n, base)
  {
  }

  /** Two networks share a key exactly when their top 64 bits agree. */
  lemma NetworkKeysDiffer(a: seq<nat>, b: seq<nat>)
    requires |a| == 4 == |b|
    ensures NetworkKey(a) == NetworkKey(b) <==> a == b
  {
    hide Numeral, Join;
    forall i | 0 <= i < 4 ensures ':' !in Numeral(a[i], 16) && ':' !in Numeral(b[i], 16) {
      NumeralFree(a[i], 16);
      NumeralFree(b[i], 16);
    }
    if NetworkKey(a) == NetworkKey(b) {
      var p := [Numeral(a[0], 16), Numeral(a[1], 16), Numeral(a[2], 16), Numeral(a[3], 16)];
      var q := [Numeral(b[0], 16), Numeral(b[1], 16), Numeral(b[2], 16), Numeral(b[3], 16)];
      var k := |NetworkKey(a)| - |"::/64"|;
      assert Join(p, ':') == NetworkKey(a)[..k] == Join(q, ':');
      JoinInjective(p, q, ':');
      forall i | 0 <= i < 4 ensures a[i] == b[i] {
        assert p[i] == q[i];
        NumeralInjective(a[i], b[i], 16);
      }
    }
  }

  lemma {:induction false} JoinAvoids(parts: seq<string>, sep: char, c: char)
    requires c != sep && Free(parts, c)
    ensures c !in Join(parts, sep)
  {
    if |parts| > 1 { JoinAvoids(parts[1..], sep, c); }
  }

  /** Different IPv4 addresses have different keys, and none of them is a network's. */
  lemma DottedKeysDiffer(a: seq<nat>, b: seq<nat>)
    requires |a| == 4 == |b|
    ensures Dotted(a) == Dotted(b) <==> a == b
    ensures Dotted(a) != NetworkKey(b)
  {
    hide Numeral, Join;
    forall i | 0 <= i < 4 ensures var d := Decimal(a[i]) + Decimal(b[i]); '.' !in d && ':' !in d {
      NumeralFree(a[i], 10);
      NumeralFree(b[i], 10);
    }
    var p := [Decimal(a[0]), Decimal(a[1]), Decimal(a[2]), Decimal(a[3])];
    var q := [Decimal(b[0]), Decimal(b[1]), Decimal(b[2]), Decimal(b[3])];
    JoinAvoids(p, '.', ':');
    assert NetworkKey(b)[|NetworkKey(b)| - 5] == ':';
    if Dotted(a) == Dotted(b) {
      JoinInjective(p, q, '.');
      forall i | 0 <= i < 4 ensures a[i] == b[i] {
        assert p[i] == q[i];
        NumeralInjective(a[i], b[i], 10);
      }
    }
  }

  /** Two addresses not spelled `::ffff:h:h` share a bucket exactly when they
      share their top 64 bits, however each is spelled. */
  lemma SameBucketIffSameNetwork(a: Spelling, b: Spelling, zoneA: string, zoneB: string)
    requires Legal(a) && (zoneA == "" || zoneA[0] == '%') && !SpelledMapped(a)
    requires Legal(b) && (zoneB == "" || zoneB[0] == '%') && !SpelledMapped(b)
    ensures |Address(a)| == 8 == |Address(b)|
    ensures KeyOf(Written(a) + zoneA) == KeyOf(Written(b) + zoneB) <==> Address(a)[..4] == Address(b)[..4]
  {
    hide KeyOf, NetworkKey, Address, Written, Legal;
    KeyOfSpelling(a, zoneA);
    KeyOfSpelling(b, zoneB);
    NetworkKeysDiffer(Address(a)[..4], Address(b)[..4]);
  }

  // ---- IPv4-mapped addresses -------------------------------------------------------------

  lemma DottedIsQuad(bytes: seq<nat>)
    requires |bytes| == 4 && forall i :: 0 <= i < 4 ==> bytes[i] < 256
    ensures IsDottedQuad(Dotted(bytes))
    ensures Lower(Dotted(bytes)) == Dotted(bytes) && '%' !in Dotted(bytes) && ':' !in Dotted(bytes)
  {
    hide IsSpace, Numeral, Join, Split;
    var parts := [Decimal(bytes[0]), Decimal(bytes[1]), Decimal(bytes[2]), Decimal(bytes[3])];
    forall i | 0 <= i < 4
      ensures 1 <= |parts[i]| <= 3 && AllDigits(parts[i], 10)
      ensures '.' !in parts[i] && '%' !in parts[i] && ':' !in parts[i]
    {
      ShortDecimal(bytes[i]);
    }
    SplitOfJoin(parts, '.');
    JoinAvoids(parts, '.', ':');
    JoinAvoids(parts, '.', '%');
    LowerDotted(parts);
  }

  lemma ValueOfDigits(a: string, c: char)
    ensures NumeralValue(a + [c], 16) == NumeralValue(a, 16) * 16 + DigitValue(c)
  {
    NumeralValueAppend(a, c, 16);
  }

  lemma ValueFFFF()
    ensures NumeralValue("ffff", 16) == 0xFFFF
  {
    hide IsSpace, NumeralValue;
    ValueOfDigits("fff", 'f');
    ValueOfDigits("ff", 'f');
    ValueOfDigits("f", 'f');
    ValueOfDigits("", 'f');
    assert "fff" + ['f'] == "ffff" && "ff" + ['f'] == "fff" && "f" + ['f'] == "ff" && "" + ['f'] == "f";
    assert NumeralValue("", 16) == 0 by { ValueOfNothing(); }
  }

  lemma ValueOfNothing()
    ensures NumeralValue("", 16) == 0
  {
  }

  lemma {:induction false} GroupValueBound(g: string)
    requires |g| <= 4
    ensures NumeralValue(g, 16) < [1, 16, 256, 4096, 65536][|g|]
  {
    hide IsSpace;
    if g != "" {
      GroupValueBound(g[..|g| - 1]);
    }
  }

  /** What `::ffff:h:l` spells: five zero groups, `ffff`, and two 16-bit numbers. */
  lemma MappedAddress(sp: Spelling)
    requires Legal(sp) && SpelledMapped(sp)
    ensures |Address(sp)| == 8 && Address(sp)[..6] == [0, 0, 0, 0, 0, 0xFFFF]
    ensures Address(sp)[6] < 0x10000 && Address(sp)[7] < 0x10000
  {
    hide IsSpace, NumeralValue;
    ExpandedLower(sp);
    var low := Expanded(LowerSpelling(sp));
    assert low[5] == "ffff";
    ValueFFFF();
    GroupValueBound(low[6]);
    GroupValueBound(low[7]);
    assert NumeralValue("0", 16) == 0 by { ValueOfDigits("", '0'); ValueOfNothing(); assert "" + ['0'] == "0"; }
    forall i | 0 <= i < 5 ensures Address(sp)[i] == 0 { assert low[i] == "0"; }
    var a := Address(sp);
    assert a[..6] == [a[0], a[1], a[2], a[3], a[4], a[5]];
  }

  lemma ShortDecimal(n: nat)
    requires n < 256
    ensures 1 <= |Decimal(n)| <= 3
  {
    hide IsSpace;
    if n >= 10 {
      assert |Numeral(n, 10)| == |Numeral(n / 10, 10)| + 1;
      if n >= 100 { assert |Numeral(n / 10, 10)| == |Numeral(n / 10 / 10, 10)| + 1; }
    }
  }

  lemma {:induction false} LowerDotted(parts: seq<string>)
    requires forall i :: 0 <= i < |parts| ==> AllDigits(parts[i], 10)
    ensures Lower(Join(parts, '.')) == Join(parts, '.')
  {
    hide IsSpace;
    if |parts| > 1 { LowerDotted(parts[1..]); }
  }

  /** An IPv4 address is its own key, and so is the dotted text after `::ffff:`. */
  lemma DottedKey(bytes: seq<nat>)
    requires |bytes| == 4 && forall i :: 0 <= i < 4 ==> bytes[i] < 256
    ensures KeyOf(Dotted(bytes)) == Dotted(bytes) == KeyOf("::ffff:" + Dotted(bytes))
  {
    hide IsSpace, Split, IsHexPair, Groups, Dotted, IsDottedQuad, Numeral, Lower;
    var ip := Dotted(bytes);
    DottedIsQuad(bytes);
    SplitFirst(ip, "", '%');
    var text := "::ffff:" + ip;
    SplitFirst(text, "", '%');
    LowerMapped(ip);
    assert text[..7] == "::ffff:" && text[7..] == ip;
    assert |ip| >= 7 ==> ip[..7][0] == ip[0] != ':';
  }

  lemma LowerMapped(ip: string)
    ensures Lower("::ffff:" + ip) == "::ffff:" + Lower(ip)
  {
    hide IsSpace;
  }

  /** An IPv4 address has one key: plain, `::ffff:` with dots, and `::ffff:` with
      two groups in any spelling all give its dotted text. */
  lemma MappedSpellingsAgree(sp: Spelling, zone: string)
    requires Legal(sp) && SpelledMapped(sp) && (zone == "" || zone[0] == '%')
    ensures |Address(sp)| == 8 && Address(sp)[..6] == [0, 0, 0, 0, 0, 0xFFFF]
    ensures var ip := Dotted(Bytes(Address(sp)[6], Address(sp)[7]));
      KeyOf(Written(sp) + zone) == ip && KeyOf("::ffff:" + ip) == ip && KeyOf(ip) == ip
  {
    hide KeyOf, Dotted, Address, Written, Legal, SpelledMapped, NetworkKey;
    KeyOfSpelling(sp, zone);
    MappedAddress(sp);
    DottedKey(Bytes(Address(sp)[6], Address(sp)[7]));
  }

  /** The last two groups are the four bytes, high before low. */
  lemma BytesAre(hi: nat, lo: nat)
    requires hi < 0x10000 && lo < 0x10000
    ensures var b := Bytes(hi, lo);
      && (forall i :: 0 <= i < 4 ==> b[i] < 256)
      && hi == 256 * b[0] + b[1] && lo == 256 * b[2] + b[3]
  {
  }

  /** So the key of such a spelling is the four bytes of its address, dotted. */
  lemma MappedKeyIsDotted(sp: Spelling, zone: string, a: nat, b: nat, c: nat, d: nat)
    requires Legal(sp) && SpelledMapped(sp) && (zone == "" || zone[0] == '%')
    requires a < 256 && b < 256 && c < 256 && d < 256 && |Address(sp)| == 8
    requires Address(sp)[6] == 256 * a + b && Address(sp)[7] == 256 * c + d
    ensures KeyOf(Written(sp) + zone) == Decimal(a) + "." + Decimal(b) + "." + Decimal(c) + "." + Decimal(d)
  {
    hide KeyOf, Address, Written, Legal, SpelledMapped, Decimal, Bytes;
    MappedSpellingsAgree(sp, zone);
    BytesAre(256 * a + b, 256 * c + d);
    var bytes := Bytes(256 * a + b, 256 * c + d);
    assert bytes == [a, b, c, d];
    DottedText(a, b, c, d);
  }

  lemma DottedText(a: nat, b: nat, c: nat, d: nat)
    ensures Dotted([a, b, c, d]) == Decimal(a) + "." + Decimal(b) + "." + Decimal(c) + "." + Decimal(d)
  {
    hide Decimal, Join;
    FourJoined([Decimal(a), Decimal(b), Decimal(c), Decimal(d)]);
  }

  ghost predicate IsQuad(t: string, a: string, b: string, c: string, d: string) {
    && t == a + "." + b + "." + c + "." + d
    && 1 <= |a| <= 3 && 1 <= |b| <= 3 && 1 <= |c| <= 3 && 1 <= |d| <= 3
    && AllDigits(a + b + c + d, 10)
  }

  /** What is taken for an IPv4 address as it stands: four groups of one to three digits. */
  lemma DottedQuadIff(t: string)
    ensures IsDottedQuad(t) <==> exists a, b, c, d :: IsQuad(t, a, b, c, d)
  {
    hide IsSpace, IsDigit, Split;
    if IsDottedQuad(t) {
      var parts := Split(t, '.');
      JoinOfSplit(t, '.');
      FourJoined(parts);
      assert IsQuad(t, parts[0], parts[1], parts[2], parts[3]);
    }
    forall a, b, c, d | IsQuad(t, a, b, c, d) ensures IsDottedQuad(t) {
      var parts := [a, b, c, d];
      FourJoined(parts);
      DigitsApart(a, b, c, d);
      SplitOfJoin(parts, '.');
    }
  }

  lemma FourJoined(parts: seq<string>)
    requires |parts| == 4
    ensures Join(parts, '.') == parts[0] + "." + parts[1] + "." + parts[2] + "." + parts[3]
  {
    var (a, b, c, d) := (parts[0], parts[1], parts[2], parts[3]);
    assert parts == [a, b, c, d] && [a, b, c, d][1..] == [b, c, d];
    assert [b, c, d][1..] == [c, d] && [c, d][1..] == [d];
    assert Join([c, d], '.') == c + "." + d;
    assert Join([b, c, d], '.') == b + "." + (c + "." + d);
    assert Join(parts, '.') == a + "." + (b + "." + (c + "." + d));
  }

  lemma DigitsApart(a: string, b: string, c: string, d: string)
    requires AllDigits(a + b + c + d, 10)
    ensures AllDigits(a, 10) && AllDigits(b, 10) && AllDigits(c, 10) && AllDigits(d, 10)
    ensures Free([a, b, c, d], '.')
  {
    PartDigits("", a, b + c + d);
    PartDigits(a, b, c + d);
    PartDigits(a + b, c, d);
    PartDigits(a + b + c, d, "");
    assert "" + a + (b + c + d) == a + b + c + d == a + b + (c + d) == a + b + c + d + "";
  }

  lemma PartDigits(before: string, s: string, after: string)
    ensures AllDigits(before + s + after, 10) ==> AllDigits(s, 10) && '.' !in s
  {
    var all := before + s + after;
    assert forall i :: 0 <= i < |s| ==> all[|before| + i] == s[i];
  }

  ghost predicate IsPair(t: string, a: string, b: string) {
    t == a + ":" + b && 1 <= |a| <= 4 && 1 <= |b| <= 4 && AllDigits(a + b, 16)
  }

  /** What is taken for one spelled in two groups: one to four hexadecimal digits each. */
  lemma HexPairIff(t: string)
    ensures IsHexPair(t) <==> exists a, b :: IsPair(t, a, b)
  {
    hide IsSpace, IsDigit, Split;
    if IsHexPair(t) {
      var parts := Split(t, ':');
      JoinOfSplit(t, ':');
      TwoJoined(parts);
      assert IsPair(t, parts[0], parts[1]);
    }
    forall a, b | IsPair(t, a, b) ensures IsHexPair(t) {
      TwoJoined([a, b]);
      TwoApart(a, b);
      SplitOfJoin([a, b], ':');
    }
  }

  lemma TwoJoined(parts: seq<string>)
    requires |parts| == 2
    ensures Join(parts, ':') == parts[0] + ":" + parts[1]
  {
  }

  lemma TwoApart(a: string, b: string)
    requires AllDigits(a + b, 16)
    ensures AllDigits(a, 16) && AllDigits(b, 16) && Free([a, b], ':')
  {
    assert forall i :: 0 <= i < |a| ==> (a + b)[i] == a[i];
    assert forall i :: 0 <= i < |b| ==> (a + b)[|a| + i] == b[i];
  }

  /** The spellings of the standard: eight groups of one to four hexadecimal digits
      in either case, or fewer than eight with `::` between any two of them. */
  lemma LegalIff(sp: Spelling)
    ensures Legal(sp) <==>
      && (if sp.Full? then |sp.groups| == 8 else |sp.head| + |sp.tail| < 8)
      && forall g :: g in (if sp.Full? then sp.groups else sp.head + sp.tail) ==> OneToFourHex(g)
  {
    hide IsGroup, AllGroups, OneToFourHex;
    if sp.Full? {
      GroupsIff(sp.groups);
    } else {
      GroupsIff(sp.head);
      GroupsIff(sp.tail);
      assert forall g :: g in sp.head + sp.tail <==> g in sp.head || g in sp.tail;
    }
  }

  ghost predicate OneToFourHex(g: string) {
    1 <= |g| <= 4 && forall c :: c in g ==> c in "0123456789abcdefABCDEF"
  }

  lemma GroupsIff(gs: seq<string>)
    ensures AllGroups(gs) <==> forall g :: g in gs ==> OneToFourHex(g)
  {
    forall i | 0 <= i < |gs| ensures IsGroup(gs[i]) <==> OneToFourHex(gs[i]) { GroupIff(gs[i]); }
    hide IsGroup, OneToFourHex;
  }

  lemma GroupIff(g: string)
    ensures IsGroup(g) <==> OneToFourHex(g)
  {
    hide IsSpace;
    forall c ensures IsDigit(LowerChar(c), 16) <==> c in "0123456789abcdefABCDEF" { HexCharIff(c); }
    hide IsDigit, LowerChar;
    assert AllDigits(Lower(g), 16) <==> forall i :: 0 <= i < |g| ==> IsDigit(LowerChar(g[i]), 16);
    if forall c :: c in g ==> c in "0123456789abcdefABCDEF" {
      forall i | 0 <= i < |g| ensures IsDigit(LowerChar(g[i]), 16) { assert g[i] in g; }
    }
  }

  lemma HexCharIff(c: char)
    ensures IsDigit(LowerChar(c), 16) <==> c in "0123456789abcdefABCDEF"
  {
    hide IsSpace;
  }

  /** An IPv4-mapped address spelled any other way falls into the bucket of
      the network `::/64`, which all such addresses share. */
  lemma ExpandedMappedIsNetwork(sp: Spelling, zone: string)
    requires Legal(sp) && (zone == "" || zone[0] == '%')
    requires |Address(sp)| == 8 && Address(sp)[..6] == [0, 0, 0, 0, 0, 0xFFFF]
    ensures KeyOf(Written(sp) + zone) == Dotted(Bytes(Address(sp)[6], Address(sp)[7])) <==> SpelledMapped(sp)
    ensures !SpelledMapped(sp) ==> KeyOf(Written(sp) + zone) == NetworkKey([0, 0, 0, 0])
  {
    hide KeyOf, NetworkKey, Address, Written, Legal, Dotted, Bytes, SpelledMapped;
    KeyOfSpelling(sp, zone);
    DottedKeysDiffer(Bytes(Address(sp)[6], Address(sp)[7]), [0, 0, 0, 0]);
    assert Address(sp)[..4] == Address(sp)[..6][..4] == [0, 0, 0, 0];
  }
}
