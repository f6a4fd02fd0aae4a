/** Spreadsheet names of room types: packages/shared/src/room-management.ts. */
module RoomLabels {
  import opened Text
  import opened Collections
  import opened OrderedMap

  datatype Version = Version(
    title: string,
    category: string,
    capacity: nat,
    bathroomType: string,
    pricePerTermUgx: nat,
    sizeSqm: Option<nat>,
    description: Option<string>)

  datatype RoomType = RoomType(id: string, currentVersion: Option<Version>, pendingVersion: Option<Version>)

  type Labels = Entries<string, string>

  // ---- the pieces of a name -------------------------------------------------

  function BathroomLabel(bathroomType: string): string {
    match bathroomType
    case "ensuite" => "self-contained"
    case "shared" => "shared bathroom"
    case "private_external" => "private bathroom outside"
    case "unspecified" => "bathroom not set"
    case _ => bathroomType
  }

  /** A quotient `units / scale` rounded half up and printed without trailing zeros. */
  function ShortTenths(tenths: nat): string {
    Decimal(tenths / 10) + if tenths % 10 == 0 then "" else "." + Decimal(tenths % 10)
  }

  function ShortHundredths(hundredths: nat): string {
    if hundredths % 10 == 0 then ShortTenths(hundredths / 10)
    else Decimal(hundredths / 100) + "." + Decimal(hundredths / 10 % 10) + Decimal(hundredths % 10)
  }

  function ShortUgx(amount: nat): string {
    if amount >= 1_000_000 then "UGX " + ShortHundredths((amount + 5_000) / 10_000) + "M"
    else if amount >= 1_000 then "UGX " + ShortTenths((amount + 50) / 100) + "k"
    else "UGX " + Decimal(amount)
  }

  function JoinWith(parts: seq<string>, separator: string): string {
    if |parts| == 0 then "" else if |parts| == 1 then parts[0]
    else parts[0] + separator + JoinWith(parts[1..], separator)
  }

  /** Whether a list holds two different values. */
  function Differs<T(==)>(xs: seq<T>): bool {
    exists i, j :: 0 <= i < |xs| && 0 <= j < |xs| && xs[i] != xs[j]
  }

  function When(condition: bool, text: string): seq<string> {
    if condition && text != "" then [text] else []
  }

  function Capacities(twins: seq<Version>): seq<nat> {
    seq(|twins|, i requires 0 <= i < |twins| => twins[i].capacity)
  }

  function Bathrooms(twins: seq<Version>): seq<string> {
    seq(|twins|, i requires 0 <= i < |twins| => twins[i].bathroomType)
  }

  function Rents(twins: seq<Version>): seq<nat> {
    seq(|twins|, i requires 0 <= i < |twins| => twins[i].pricePerTermUgx)
  }

  function Sizes(twins: seq<Version>): seq<Option<nat>> {
    seq(|twins|, i requires 0 <= i < |twins| => twins[i].sizeSqm)
  }

  function Descriptions(twins: seq<Version>): seq<Option<string>> {
    seq(|twins|, i requires 0 <= i < |twins| => twins[i].description)
  }

  function Beds(v: Version): string {
    Decimal(v.capacity) + " " + (if v.capacity == 1 then "bed" else "beds")
  }

  function RentAndSize(v: Version, twins: seq<Version>): seq<string> {
    When(Differs(Rents(twins)), ShortUgx(v.pricePerTermUgx))
    + When(Differs(Sizes(twins)) && v.sizeSqm.Some? && v.sizeSqm.value > 0,
           if v.sizeSqm.Some? then Decimal(v.sizeSqm.value) + " m\U{00B2}" else "")
  }

  function Details(v: Version, twins: seq<Version>): seq<string> {
    var told :=
      When(Differs(Capacities(twins)), Beds(v))
      + When(Differs(Bathrooms(twins)), BathroomLabel(v.bathroomType))
      + RentAndSize(v, twins);
    if told == [] && Differs(Descriptions(twins)) && v.description.Some?
    then When(true, Take(Trim(v.description.value), 100))
    else told
  }

  // ---- first pass: a name per type -------------------------------------------

  /** The version a type is named by: a pending rename, else the approved one. */
  function Named(t: RoomType): Option<Version> {
    if t.pendingVersion.Some? then t.pendingVersion else t.currentVersion
  }

  function Versions(types: seq<RoomType>): Entries<string, Version> {
    if types == [] then []
    else
      var last := types[|types| - 1];
      var rest := Versions(types[..|types| - 1]);
      if Named(last).Some? then rest + [(last.id, Named(last).value)] else rest
  }

  /** Some room type with this id has a version. */
  ghost predicate HasVersion(types: seq<RoomType>, id: string) {
    exists j :: 0 <= j < |types| && types[j].id == id && Named(types[j]).Some?
  }

  lemma {:induction false} VersionIds(types: seq<RoomType>, id: string)
    ensures HasKey(Versions(types), id) <==> HasVersion(types, id)
  {
    if types != [] {
      var n := |types| - 1;
      var init, last := types[..n], types[n];
      VersionIds(init, id);
      if Named(last).Some? { HasKeyAppend(Versions(init), (last.id, Named(last).value), id); }
      if HasVersion(init, id) {
        var j :| 0 <= j < |init| && init[j].id == id && Named(init[j]).Some?;
        assert types[j] == init[j];
      }
      if j :| 0 <= j < |types| && types[j].id == id && Named(types[j]).Some? && j != n {
        assert init[j] == types[j];
      }
    }
  }

  function Twins(versions: Entries<string, Version>, title: string): seq<Version> {
    if versions == [] then []
    else
      var rest := Twins(versions[..|versions| - 1], title);
      var last := versions[|versions| - 1].1;
      if Normalize(last.title) == Normalize(title) then rest + [last] else rest
  }

  function FirstLabel(v: Version, versions: Entries<string, Version>): string {
    var twins := Twins(versions, v.title);
    if |twins| == 1 then Trim(v.title) else JoinWith([Trim(v.title)] + Details(v, twins), " - ")
  }

  /** The names before numbering, of the first `n` versions. */
  function FirstPass(versions: Entries<string, Version>, n: nat): (r: Labels)
    requires n <= |versions|
    ensures UniqueKeys(r)
  {
    if n == 0 then []
    else Put(FirstPass(versions, n - 1), versions[n - 1].0, FirstLabel(versions[n - 1].1, versions))
  }

  lemma {:induction false} FirstPassKeys(versions: Entries<string, Version>, n: nat, id: string)
    requires n <= |versions|
    ensures HasKey(FirstPass(versions, n), id) <==> HasKey(versions[..n], id)
  {
    hide FirstLabel, HasKey, Put;
    if n == 0 {
      assert versions[..n] == [];
      NoKey<string, Version>([], id);
      NoKey<string, string>([], id);
    } else {
      FirstPassKeys(versions, n - 1, id);
      PutKeys(FirstPass(versions, n - 1), versions[n - 1].0, FirstLabel(versions[n - 1].1, versions), id);
      assert versions[..n] == versions[..n - 1] + [versions[n - 1]];
      HasKeyAppend(versions[..n - 1], versions[n - 1], id);
    }
  }

  // ---- second pass: numbering --------------------------------------------------

  /** How many names have a given normal form. */
  function CountKey(labels: Labels, key: string): nat {
    if labels == [] then 0
    else CountKey(labels[..|labels| - 1], key) + if Normalize(labels[|labels| - 1].1) == key then 1 else 0
  }

  /** Whether another name has the normal form of name `i`. */
  predicate Shared(labels: Labels, i: nat)
    requires i < |labels|
  {
    CountKey(labels, Normalize(labels[i].1)) >= 2
  }

  function LabelKeys(labels: Labels): set<string> {
    set i | 0 <= i < |labels| :: Normalize(labels[i].1)
  }

  function NumberedLabel(name: string, n: nat): string {
    name + " #" + Decimal(n)
  }

  function NumberedKey(name: string, n: nat): string {
    Normalize(NumberedLabel(name, n))
  }

  /** The least number from `n` whose name is not in the pool. */
  function FreeNumber(name: string, pool: set<string>, n: nat): nat
    decreases |pool|
  {
    if NumberedKey(name, n) in pool then FreeNumber(name, pool - {NumberedKey(name, n)}, n + 1) else n
  }

  datatype Numbered = Numbered(labels: Labels, taken: set<string>)

  /** The first `n` names once numbered where their normal form is shared, and
      the names taken by then. */
  function Number(first: Labels, n: nat): (r: Numbered)
    requires n <= |first|
    ensures |r.labels| == n
  {
    if n == 0 then Numbered([], LabelKeys(first))
    else
      var done := Number(first, n - 1);
      var (id, name) := first[n - 1];
      if !Shared(first, n - 1) then Numbered(done.labels + [first[n - 1]], done.taken)
      else
        var free := FreeNumber(name, done.taken, 1);
        Numbered(done.labels + [(id, NumberedLabel(name, free))], done.taken + {NumberedKey(name, free)})
  }

  /** The names before numbering. */
  function Unnumbered(types: seq<RoomType>): Labels {
    FirstPass(Versions(types), |Versions(types)|)
  }

  /** One spreadsheet name per room type. */
  function ImportLabels(types: seq<RoomType>): (r: Labels)
    ensures |r| == |Unnumbered(types)|
  {
    Number(Unnumbered(types), |Unnumbered(types)|).labels
  }

  // ---- the loops as the source runs them ---------------------------------------

  method CountLabels(labels: Labels) returns (counts: map<string, nat>)
    ensures forall key :: (if key in counts then counts[key] else 0) == CountKey(labels, key)
  {
    hide Normalize;
    counts := map[];
    for k := 0 to |labels|
      invariant forall key :: (if key in counts then counts[key] else 0) == CountKey(labels[..k], key)
    {
      assert labels[..k + 1][..k] == labels[..k];
      var key := Normalize(labels[k].1);
      counts := counts[key := (if key in counts then counts[key] else 0) + 1];
    }
    assert labels[..|labels|] == labels;
  }

  method SkipTaken(name: string, taken: set<string>) returns (n: nat)
    ensures n == FreeNumber(name, taken, 1)
  {
    n := 1;
    ghost var pool := taken;
    while NumberedKey(name, n) in taken
      invariant n >= 1
      invariant forall m: nat :: m >= n && NumberedKey(name, m) in taken ==> NumberedKey(name, m) in pool
      invariant FreeNumber(name, pool, n) == FreeNumber(name, taken, 1)
      invariant pool <= taken
      decreases |pool|
    {
      hide NumberedKey;
      forall m: nat | m >= n + 1 ensures NumberedKey(name, m) != NumberedKey(name, n) {
        NumberedKeyInjective(name, m, n);
      }
      pool := pool - {NumberedKey(name, n)};
      n := n + 1;
    }
  }

  method RoomTypeImportLabels(types: seq<RoomType>) returns (labels: Labels)
    ensures labels == ImportLabels(types)
  {
    hide Normalize, FirstLabel, CountKey, FreeNumber, NumberedKey, NumberedLabel, Put, LabelKeys, Versions;
    var versions := Versions(types);
    labels := [];
    for k := 0 to |versions|
      invariant labels == FirstPass(versions, k)
    {
      labels := Put(labels, versions[k].0, FirstLabel(versions[k].1, versions));
    }
    ghost var first := labels;
    var counts := CountLabels(labels);
    var taken := LabelKeys(labels);
    for k := 0 to |labels|
      invariant |labels| == |first|
      invariant forall j :: k <= j < |first| ==> labels[j] == first[j]
      invariant Numbered(labels[..k], taken) == Number(first, k)
    {
      var (id, name) := labels[k];
      PositionCounts(first, k);
      ghost var before := labels[..k];
      if counts[Normalize(name)] >= 2 {
        var n := SkipTaken(name, taken);
        taken := taken + {NumberedKey(name, n)};
        labels := labels[k := (id, NumberedLabel(name, n))];
      }
      assert labels[..k + 1] == before + [labels[k]];
    }
    assert labels[..|labels|] == labels;
  }

  // ---- what the names promise ---------------------------------------------------

  lemma NumberedKeyInjective(name: string, m: nat, n: nat)
    ensures NumberedKey(name, m) == NumberedKey(name, n) ==> m == n
  {
    var (v, w) := ("#" + Decimal(m), "#" + Decimal(n));
    NumeralIsLowerWord(m);
    NumeralIsLowerWord(n);
    assert NumberedLabel(name, m) == name + " " + v && NumberedLabel(name, n) == name + " " + w;
    NormalizeAppendWord(name, v);
    NormalizeAppendWord(name, w);
    if NumberedKey(name, m) == NumberedKey(name, n) {
      var p := if Normalize(name) == "" then "" else Normalize(name) + " ";
      assert p + v == NumberedKey(name, m) && p + w == NumberedKey(name, n);
      assert (p + v)[|p|..] == v && (p + w)[|p|..] == w;
      assert v[1..] == Decimal(m) && w[1..] == Decimal(n);
      NumeralInjective(m, n, 10);
    }
  }

  lemma NumeralIsLowerWord(n: nat)
    ensures Solid("#" + Decimal(n)) && Lower("#" + Decimal(n)) == "#" + Decimal(n)
  {
    var w := "#" + Decimal(n);
    forall i | 0 <= i < |w| ensures !IsSpace(w[i]) && LowerChar(w[i]) == w[i] {
      if i > 0 { assert w[i] == Decimal(n)[i - 1] && IsDigit(w[i], 10); }
    }
  }

  lemma {:induction false} FreeNumberSpec(name: string, pool: set<string>, n: nat)
    ensures var r := FreeNumber(name, pool, n);
      && n <= r <= n + |pool|
      && NumberedKey(name, r) !in pool
      && forall m :: n <= m < r ==> NumberedKey(name, m) in pool
    decreases |pool|
  {
    hide NumberedKey;
    var key := NumberedKey(name, n);
    if key in pool {
      FreeNumberSpec(name, pool - {key}, n + 1);
      NumberedKeyInjective(name, FreeNumber(name, pool, n), n);
    }
  }

  lemma {:induction false} PositionCounts(labels: Labels, i: nat)
    requires i < |labels|
    ensures CountKey(labels, Normalize(labels[i].1)) >= 1
  {
    if i < |labels| - 1 {
      PositionCounts(labels[..|labels| - 1], i);
    }
  }

  lemma {:induction false} TwoPositionsCount(labels: Labels, i: nat, j: nat)
    requires i < j < |labels| && Normalize(labels[i].1) == Normalize(labels[j].1)
    ensures CountKey(labels, Normalize(labels[i].1)) >= 2
  {
    if j < |labels| - 1 {
      TwoPositionsCount(labels[..|labels| - 1], i, j);
    } else {
      PositionCounts(labels[..j], i);
    }
  }

  /** What numbering has done to the first `n` names. */
  ghost predicate NumberedWell(first: Labels, n: nat, r: Numbered) {
    && n == |r.labels| <= |first|
    && LabelKeys(first) <= r.taken
    && (forall k :: 0 <= k < n ==> r.labels[k].0 == first[k].0)
    && (forall k :: 0 <= k < n && !Shared(first, k) ==> r.labels[k] == first[k])
    && (forall k :: 0 <= k < n && Shared(first, k) ==> Normalize(r.labels[k].1) in r.taken - LabelKeys(first))
    && DistinctNames(r.labels)
  }

  ghost predicate DistinctNames(labels: Labels) {
    forall j, k :: 0 <= j < k < |labels| ==> Normalize(labels[j].1) != Normalize(labels[k].1)
  }

  lemma UnsharedDiffer(labels: Labels, j: nat, k: nat)
    requires j < k < |labels| && !Shared(labels, k)
    ensures Normalize(labels[j].1) != Normalize(labels[k].1)
  {
    if Normalize(labels[j].1) == Normalize(labels[k].1) { TwoPositionsCount(labels, j, k); }
  }

  lemma KeepUnshared(first: Labels, n: nat, done: Numbered)
    requires n < |first| && NumberedWell(first, n, done) && !Shared(first, n)
    ensures NumberedWell(first, n + 1, Numbered(done.labels + [first[n]], done.taken))
  {
    hide Normalize, CountKey;
    var labels := done.labels + [first[n]];
    forall j | 0 <= j < n ensures Normalize(labels[j].1) != Normalize(labels[n].1) {
      assert Normalize(first[n].1) in LabelKeys(first);
      UnsharedDiffer(first, j, n);
    }
  }

  lemma NumberShared(first: Labels, n: nat, done: Numbered, name: string)
    requires n < |first| && NumberedWell(first, n, done) && Shared(first, n)
    requires Normalize(name) !in done.taken
    ensures NumberedWell(first, n + 1, Numbered(done.labels + [(first[n].0, name)], done.taken + {Normalize(name)}))
  {
    hide Normalize, CountKey;
    var labels := done.labels + [(first[n].0, name)];
    forall j | 0 <= j < n ensures Normalize(labels[j].1) != Normalize(labels[n].1) {
      assert Normalize(first[j].1) in LabelKeys(first);
    }
  }

  lemma {:induction false} NumberSpec(first: Labels, n: nat)
    requires n <= |first|
    ensures NumberedWell(first, n, Number(first, n))
  {
    if n > 0 {
      var done, name := Number(first, n - 1), first[n - 1].1;
      NumberSpec(first, n - 1);
      if Shared(first, n - 1) {
        var free := FreeNumber(name, done.taken, 1);
        FreeNumberSpec(name, done.taken, 1);
        NumberShared(first, n - 1, done, NumberedLabel(name, free));
      } else {
        KeepUnshared(first, n - 1, done);
      }
    }
  }

  lemma SameKeys(m: Labels, r: Labels, id: string)
    requires |m| == |r| && forall k :: 0 <= k < |m| ==> m[k].0 == r[k].0
    ensures HasKey(m, id) <==> HasKey(r, id)
  {
    if i :| 0 <= i < |m| && m[i].0 == id { assert r[i].0 == id; }
  }

  lemma LabelIds(types: seq<RoomType>, id: string)
    ensures HasKey(ImportLabels(types), id) <==> HasVersion(types, id)
  {
    var versions, first := Versions(types), Unnumbered(types);
    NumberSpec(first, |first|);
    hide Normalize, FirstPass, Number, Versions, HasKey, DistinctNames, HasVersion;
    FirstPassKeys(versions, |versions|, id);
    assert versions[..|versions|] == versions;
    SameKeys(first, ImportLabels(types), id);
    VersionIds(types, id);
  }

  /** Names are pairwise different in normal form, and every type with a
      version, and no other, has exactly one. */
  lemma LabelsAreUnique(types: seq<RoomType>)
    ensures UniqueKeys(ImportLabels(types)) && DistinctNames(ImportLabels(types))
    ensures forall id :: HasKey(ImportLabels(types), id) <==> HasVersion(types, id)
  {
    NumberSpec(Unnumbered(types), |Unnumbered(types)|);
    hide Normalize, FirstPass, Number, HasKey, DistinctNames, HasVersion;
    forall id ensures HasKey(ImportLabels(types), id) <==> HasVersion(types, id) {
      LabelIds(types, id);
    }
  }

  /** A name survives the numbering exactly when no other type was given the same one. */
  lemma LabelKeptIffUnshared(types: seq<RoomType>, i: nat)
    requires i < |Unnumbered(types)|
    ensures var first, labels := Unnumbered(types), ImportLabels(types);
      labels[i] == first[i] <==>
        forall j :: 0 <= j < |first| && j != i ==> Normalize(first[j].1) != Normalize(first[i].1)
  {
    var first, labels := Unnumbered(types), ImportLabels(types);
    NumberSpec(first, |first|);
    hide Normalize, FirstPass, Number, Unnumbered;
    assert Normalize(first[i].1) in LabelKeys(first);
    if Shared(first, i) {
      CountedTwice(first, i);
    } else {
      forall j | 0 <= j < |first| && j != i ensures Normalize(first[j].1) != Normalize(first[i].1) {
        if Normalize(first[j].1) == Normalize(first[i].1) {
          TwoPositionsCount(first, if i < j then i else j, if i < j then j else i);
        }
      }
    }
  }

  lemma {:induction false} CountedOnce(labels: Labels, key: string) returns (i: nat)
    requires CountKey(labels, key) >= 1
    ensures i < |labels| && Normalize(labels[i].1) == key
  {
    var n := |labels| - 1;
    if Normalize(labels[n].1) == key { i := n; } else { i := CountedOnce(labels[..n], key); }
  }

  lemma {:induction false} CountedTwice(labels: Labels, i: nat)
    requires i < |labels| && Shared(labels, i)
    ensures exists j :: 0 <= j < |labels| && j != i && Normalize(labels[j].1) == Normalize(labels[i].1)
  {
    hide Normalize;
    var n := |labels| - 1;
    var key := Normalize(labels[i].1);
    var init := labels[..n];
    if i == n {
      var j := CountedOnce(init, key);
      assert init[j] == labels[j];
    } else if Normalize(labels[n].1) != key {
      assert init[i] == labels[i];
      CountedTwice(init, i);
      var j :| 0 <= j < n && j != i && Normalize(init[j].1) == Normalize(init[i].1);
      assert init[j] == labels[j];
    }
  }

  /** The search for a free number looks at no more names than are taken. */
  lemma NumberingIsBounded(types: seq<RoomType>, name: string, taken: set<string>)
    ensures 1 <= FreeNumber(name, taken, 1) <= |taken| + 1
    ensures NumberedKey(name, FreeNumber(name, taken, 1)) !in taken
    ensures forall m :: 1 <= m < FreeNumber(name, taken, 1) ==> NumberedKey(name, m) in taken
  {
    FreeNumberSpec(name, taken, 1);
  }
}
