/** The text keys of the room groups: `${category}-${selfContained}-…` in
    apps/web/src/components/room-category-list.tsx. */
module RoomKeys {
  import opened OrderedMap
  import Text

  /** What a price row has in common. */
  datatype Terms = Terms(
    category: string, selfContained: bool, pricePerTermUgx: int, capacity: int, depositUgx: Option<int>)

  function Flag(b: bool): string {
    if b then "true" else "false"
  }

  function Integer(n: int): string {
    if n < 0 then "-" + Text.Decimal(-n) else Text.Decimal(n)
  }

  function Deposit(d: Option<int>): string {
    if d.None? then "unknown" else Integer(d.value)
  }

  function TypeKey(category: string, selfContained: bool): string {
    category + "-" + Flag(selfContained)
  }

  function Key(t: Terms): string {
    TypeKey(t.category, t.selfContained) + "-" + Integer(t.pricePerTermUgx) + "-" + Integer(t.capacity)
    + "-" + Deposit(t.depositUgx)
  }

  /** The text after the last dash is the last token. */
  lemma LastToken(a: string, p: string, b: string, q: string)
    requires '-' !in p && '-' !in q
    requires a + "-" + p == b + "-" + q
    ensures a == b && p == q
  {
    var s := a + "-" + p;
    assert s[|a|] == '-' && s[|b|] == '-';
    forall i | |a| < i < |s| ensures s[i] != '-' {
      assert s[i] == p[i - |a| - 1];
    }
    forall i | |b| < i < |s| ensures s[i] != '-' {
      assert s[i] == q[i - |b| - 1];
    }
    assert a == s[..|a|] && b == s[..|b|];
    assert p == s[|a| + 1..] && q == s[|b| + 1..];
  }

  ghost predicate EndsOpen(s: string) {
    s != "" && s[|s| - 1] != '-'
  }

  lemma DecimalIsDigits(n: nat)
    ensures '-' !in Text.Decimal(n) && EndsOpen(Text.Decimal(n))
    ensures Text.IsDigit(Text.Decimal(n)[|Text.Decimal(n)| - 1], 10)
  {
  }

  lemma IntegerEnds(n: int)
    ensures EndsOpen(Integer(n)) && Integer(n)[|Integer(n)| - 1] != 'n'
  {
    DecimalIsDigits(if n < 0 then -n else n);
  }

  function Signed(a: string, n: int): string {
    if n < 0 then a + "-" else a
  }

  function Size(n: int): nat {
    if n < 0 then -n else n
  }

  lemma IntegerToken(a: string, n: int)
    ensures a + "-" + Integer(n) == Signed(a, n) + "-" + Text.Decimal(Size(n))
  {
    hide Text.Decimal;
    if n < 0 { assert a + "-" + ("-" + Text.Decimal(-n)) == a + "-" + "-" + Text.Decimal(-n); }
  }

  /** A number after a dash can be read back, sign and all. */
  lemma LastNumber(a: string, x: int, b: string, y: int)
    requires EndsOpen(a) && EndsOpen(b)
    requires a + "-" + Integer(x) == b + "-" + Integer(y)
    ensures a == b && x == y
  {
    hide Text.Decimal, Integer;
    IntegerToken(a, x);
    IntegerToken(b, y);
    DecimalIsDigits(Size(x));
    DecimalIsDigits(Size(y));
    LastToken(Signed(a, x), Text.Decimal(Size(x)), Signed(b, y), Text.Decimal(Size(y)));
    Text.DecimalInjective(Size(x), Size(y));
    assert (a + "-")[|a|] == '-' && (b + "-")[|b|] == '-';
    assert x < 0 && y < 0 ==> (a + "-")[..|a|] == (b + "-")[..|b|];
  }

  lemma LastDeposit(a: string, x: Option<int>, b: string, y: Option<int>)
    requires EndsOpen(a) && EndsOpen(b)
    requires a + "-" + Deposit(x) == b + "-" + Deposit(y)
    ensures a == b && x == y
  {
    hide Integer;
    if x.Some? && y.Some? {
      LastNumber(a, x.value, b, y.value);
    } else {
      var s := a + "-" + Deposit(x);
      if x.Some? { IntegerEnds(x.value); }
      if y.Some? { IntegerEnds(y.value); }
      assert s[|s| - 1] == Deposit(x)[|Deposit(x)| - 1] == Deposit(y)[|Deposit(y)| - 1];
      LastToken(a, "unknown", b, "unknown");
    }
  }

  lemma TypeKeyInjective(category: string, selfContained: bool, category': string, selfContained': bool)
    requires TypeKey(category, selfContained) == TypeKey(category', selfContained')
    ensures category == category' && selfContained == selfContained'
  {
    LastToken(category, Flag(selfContained), category', Flag(selfContained'));
    assert Flag(selfContained)[0] == if selfContained then 't' else 'f';
    assert Flag(selfContained')[0] == if selfContained' then 't' else 'f';
  }

  lemma EndsOpenAppend(a: string, b: string)
    requires EndsOpen(b)
    ensures EndsOpen(a + b)
  {
  }

  lemma KeyPrefixesEndOpen(t: Terms)
    ensures EndsOpen(TypeKey(t.category, t.selfContained))
    ensures EndsOpen(TypeKey(t.category, t.selfContained) + "-" + Integer(t.pricePerTermUgx))
    ensures var a := TypeKey(t.category, t.selfContained);
      EndsOpen(a + "-" + Integer(t.pricePerTermUgx) + "-" + Integer(t.capacity))
  {
    hide Integer;
    IntegerEnds(t.pricePerTermUgx);
    IntegerEnds(t.capacity);
    assert EndsOpen(Flag(t.selfContained));
    hide EndsOpen;
    var a := TypeKey(t.category, t.selfContained);
    EndsOpenAppend(t.category + "-", Flag(t.selfContained));
    EndsOpenAppend(a + "-", Integer(t.pricePerTermUgx));
    EndsOpenAppend(a + "-" + Integer(t.pricePerTermUgx) + "-", Integer(t.capacity));
  }

  /** The key tells any two different terms apart, negative numbers and
      categories with dashes included. */
  lemma KeyInjective(t: Terms, u: Terms)
    requires Key(t) == Key(u)
    ensures t == u
  {
    hide Integer, Deposit, EndsOpen, TypeKey;
    KeyPrefixesEndOpen(t);
    KeyPrefixesEndOpen(u);
    var a, b := TypeKey(t.category, t.selfContained), TypeKey(u.category, u.selfContained);
    var a', b' := a + "-" + Integer(t.pricePerTermUgx), b + "-" + Integer(u.pricePerTermUgx);
    LastDeposit(a' + "-" + Integer(t.capacity), t.depositUgx, b' + "-" + Integer(u.capacity), u.depositUgx);
    LastNumber(a', t.capacity, b', u.capacity);
    LastNumber(a, t.pricePerTermUgx, b, u.pricePerTermUgx);
    TypeKeyInjective(t.category, t.selfContained, u.category, u.selfContained);
  }
}
