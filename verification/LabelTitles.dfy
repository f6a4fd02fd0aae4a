/** Whose title a spreadsheet name carries, told by the two versions of a room
    type: packages/shared/src/room-management.ts. */
module LabelTitles {
  import opened OrderedMap
  import opened RoomLabels
  import opened Text
  import TwinNames

  predicate DistinctIds(types: seq<RoomType>) {
    forall i, j :: 0 <= i < j < |types| ==> types[i].id != types[j].id
  }

  /** The version is the pending one, or the approved one where none is pending. */
  ghost predicate Governs(v: Version, t: RoomType) {
    t.pendingVersion == Some(v) || (t.pendingVersion == None && t.currentVersion == Some(v))
  }

  // ---- the entries of the two passes ------------------------------------------------

  /** The version of a type is listed under its id. */
  lemma {:induction false} VersionIsListed(types: seq<RoomType>, i: nat, v: Version) returns (k: nat)
    requires i < |types| && Governs(v, types[i])
    ensures k < |Versions(types)| && Versions(types)[k] == (types[i].id, v)
  {
    var n := |types| - 1;
    if i == n {
      k := |Versions(types)| - 1;
    } else {
      k := VersionIsListed(types[..n], i, v);
    }
  }

  /** Every listed version is some type's. */
  lemma {:induction false} ListedIsVersion(types: seq<RoomType>, k: nat) returns (i: nat)
    requires k < |Versions(types)|
    ensures i < |types| && Versions(types)[k].0 == types[i].id && Governs(Versions(types)[k].1, types[i])
  {
    var n := |types| - 1;
    if k < |Versions(types[..n])| {
      i := ListedIsVersion(types[..n], k);
    } else {
      i := n;
    }
  }

  lemma {:induction false} ListedOnce(types: seq<RoomType>)
    requires DistinctIds(types)
    ensures UniqueKeys(Versions(types))
  {
    if types != [] {
      var init := types[..|types| - 1];
      ListedOnce(init);
      forall k | 0 <= k < |Versions(init)| ensures Versions(init)[k].0 != types[|types| - 1].id {
        var i := ListedIsVersion(init, k);
      }
    }
  }

  /** With distinct keys the first pass names each version in its place. */
  lemma {:induction false} FirstPassEntry(versions: Entries<string, Version>, n: nat)
    requires UniqueKeys(versions) && n <= |versions|
    ensures |FirstPass(versions, n)| == n
    ensures forall k :: 0 <= k < n ==> FirstPass(versions, n)[k] == (versions[k].0, FirstLabel(versions[k].1, versions))
  {
    hide FirstLabel;
    if n > 0 {
      FirstPassEntry(versions, n - 1);
      var before := FirstPass(versions, n - 1);
      assert forall k :: 0 <= k < n - 1 ==> before[k].0 != versions[n - 1].0;
    }
  }

  /** Numbering only adds to a name. */
  lemma {:induction false} NumberingExtends(first: Labels, n: nat, k: nat)
    requires k < n <= |first|
    ensures first[k].0 == Number(first, n).labels[k].0
    ensures first[k].1 <= Number(first, n).labels[k].1
  {
    hide Normalize, Shared, FreeNumber, LabelKeys;
    if k < n - 1 { NumberingExtends(first, n - 1, k); }
  }

  /** The name of a type before numbering, and where it stands. */
  lemma NameOfType(types: seq<RoomType>, i: nat, k: nat, v: Version)
    requires DistinctIds(types) && i < |types| && Governs(v, types[i])
    requires k < |ImportLabels(types)| && ImportLabels(types)[k].0 == types[i].id
    ensures Unnumbered(types)[k].1 == FirstLabel(v, Versions(types))
    ensures Unnumbered(types)[k].1 <= ImportLabels(types)[k].1
    ensures k < |Versions(types)| && Versions(types)[k] == (types[i].id, v)
  {
    hide FirstLabel, Versions, FirstPass, Number;
    var versions := Versions(types);
    ListedOnce(types);
    FirstPassEntry(versions, |versions|);
    NumberingExtends(Unnumbered(types), |Unnumbered(types)|, k);
    var at := VersionIsListed(types, i, v);
    assert versions[k].0 == versions[at].0;
  }

  // ---- the title of a name -------------------------------------------------------------

  lemma StartsWithTitle(v: Version, versions: Entries<string, Version>)
    ensures Trim(v.title) <= FirstLabel(v, versions)
  {
    hide Trim, Details, Twins;
    assert ([Trim(v.title)] + Details(v, Twins(versions, v.title)))[0] == Trim(v.title);
  }

  /** A type with a pending rename is named by it, any other by the approved title. */
  lemma LabelCarriesTitle(types: seq<RoomType>, i: nat, k: nat)
    requires DistinctIds(types) && i < |types|
    requires k < |ImportLabels(types)| && ImportLabels(types)[k].0 == types[i].id
    ensures types[i].pendingVersion.Some? || types[i].currentVersion.Some?
    ensures types[i].pendingVersion.Some? ==> Trim(types[i].pendingVersion.value.title) <= ImportLabels(types)[k].1
    ensures types[i].pendingVersion.None? ==> Trim(types[i].currentVersion.value.title) <= ImportLabels(types)[k].1
  {
    hide Trim, FirstLabel, ImportLabels, Versions;
    LabelIds(types, types[i].id);
    assert HasKey(ImportLabels(types), types[i].id);
    assert forall j :: 0 <= j < |types| && types[j].id == types[i].id ==> j == i;
    var v := if types[i].pendingVersion.Some? then types[i].pendingVersion.value else types[i].currentVersion.value;
    NameOfType(types, i, k, v);
    StartsWithTitle(v, Versions(types));
  }

  /** No other type's title has this normal form. */
  ghost predicate OnlyTitle(types: seq<RoomType>, i: nat, title: string) {
    forall j, v :: 0 <= j < |types| && j != i && Governs(v, types[j]) ==> Normalize(v.title) != Normalize(title)
  }

  lemma {:induction false} NoTwins(versions: Entries<string, Version>, title: string, k: nat, n: nat)
    requires k < |versions| && n <= |versions| && Normalize(versions[k].1.title) == Normalize(title)
    requires forall m :: 0 <= m < |versions| && m != k ==> Normalize(versions[m].1.title) != Normalize(title)
    ensures |Twins(versions[..n], title)| == if k < n then 1 else 0
  {
    hide Normalize;
    if n > 0 {
      NoTwins(versions, title, k, n - 1);
      assert versions[..n][..n - 1] == versions[..n - 1];
    }
  }

  lemma OnlyTitleStays(types: seq<RoomType>, i: nat, k: nat, v: Version)
    requires DistinctIds(types) && i < |types| && Governs(v, types[i]) && OnlyTitle(types, i, v.title)
    requires k < |ImportLabels(types)| && ImportLabels(types)[k].0 == types[i].id
    ensures Unnumbered(types)[k].1 == Trim(v.title)
  {
    hide Trim, ImportLabels, Unnumbered, Versions, Normalize, Details, JoinWith;
    NameOfType(types, i, k, v);
    var versions := Versions(types);
    ListedOnce(types);
    forall m | 0 <= m < |versions| && m != k ensures Normalize(versions[m].1.title) != Normalize(v.title) {
      var j := ListedIsVersion(types, m);
      assert versions[m].0 != versions[k].0;
    }
    NoTwins(versions, v.title, k, |versions|);
    assert versions[..|versions|] == versions;
  }

  lemma TrimIsNormal(s: string)
    ensures Normalize(Trim(s)) == Normalize(s)
  {
    hide Normalize, Trim, Words;
    TwinNames.TrimKeepsWords(s);
    SameNormalFormIffSameWords(Trim(s), s);
  }

  /** A type whose title no other type has is named exactly by its title, the
      pending one before the approved one, if and only if no other type's name
      before numbering comes to the same. */
  lemma TitleStaysIff(types: seq<RoomType>, i: nat, k: nat, v: Version)
    requires DistinctIds(types) && i < |types| && OnlyTitle(types, i, v.title)
    requires || types[i].pendingVersion == Some(v)
             || (types[i].pendingVersion == None && types[i].currentVersion == Some(v))
    requires k < |ImportLabels(types)| && ImportLabels(types)[k].0 == types[i].id
    ensures ImportLabels(types)[k].1 == Trim(v.title) <==>
      forall m :: 0 <= m < |Unnumbered(types)| && m != k ==> Normalize(Unnumbered(types)[m].1) != Normalize(v.title)
  {
    hide Trim, ImportLabels, Unnumbered, Versions, Normalize, OnlyTitle, FirstLabel;
    OnlyTitleStays(types, i, k, v);
    TrimIsNormal(v.title);
    SameIds(types, k);
    LabelKeptIffUnshared(types, k);
  }

  lemma SameIds(types: seq<RoomType>, k: nat)
    requires k < |ImportLabels(types)|
    ensures Unnumbered(types)[k].0 == ImportLabels(types)[k].0
  {
    hide Unnumbered, Number;
    NumberingExtends(Unnumbered(types), |Unnumbered(types)|, k);
  }

  // ---- the number of a name ----------------------------------------------------------------

  /** One of the first-pass names, or of the finished ones before position `k`, has this normal form. */
  ghost predicate InUse(first: Labels, labels: Labels, k: nat, key: string)
    requires k <= |labels|
  {
    (exists j :: 0 <= j < |first| && Normalize(first[j].1) == key)
    || (exists j :: 0 <= j < k && Normalize(labels[j].1) == key)
  }

  lemma {:induction false} TakenIsInUse(first: Labels, n: nat, key: string)
    requires n <= |first|
    ensures key in Number(first, n).taken <==> InUse(first, Number(first, n).labels, n, key)
  {
    hide Normalize, FreeNumber, CountKey;
    var after := Number(first, n);
    if n > 0 {
      var done := Number(first, n - 1);
      TakenIsInUse(first, n - 1, key);
      assert after.labels[..n - 1] == done.labels;
      assert forall j :: 0 <= j < n - 1 ==> after.labels[j] == done.labels[j];
      TakenNext(first, done.labels, after.labels, n - 1, key);
      if !Shared(first, n - 1) { assert Normalize(first[n - 1].1) in LabelKeys(first); }
    }
  }

  lemma TakenNext(first: Labels, before: Labels, after: Labels, k: nat, key: string)
    requires k == |before| && k + 1 == |after| && forall j :: 0 <= j < k ==> after[j] == before[j]
    ensures InUse(first, after, k + 1, key) <==> InUse(first, before, k, key) || Normalize(after[k].1) == key
  {
    hide Normalize;
  }

  lemma {:induction false} NumberedOnce(first: Labels, n: nat, m: nat)
    requires m <= n <= |first|
    ensures Number(first, n).labels[..m] == Number(first, m).labels
  {
    hide Normalize, FreeNumber, CountKey, LabelKeys;
    if m < n {
      NumberedOnce(first, n - 1, m);
      assert Number(first, n).labels[..n - 1] == Number(first, n - 1).labels;
      assert Number(first, n).labels[..m] == Number(first, n).labels[..n - 1][..m];
    } else {
      assert Number(first, n).labels[..n] == Number(first, n).labels;
    }
  }

  /** A name that another type was given too gets the least number whose name is
      no first-pass name and none given before. */
  lemma NumberIsLeast(types: seq<RoomType>, k: nat, other: nat) returns (n: nat)
    requires k < |Unnumbered(types)| && other < |Unnumbered(types)| && other != k
    requires Normalize(Unnumbered(types)[other].1) == Normalize(Unnumbered(types)[k].1)
    ensures var first, labels := Unnumbered(types), ImportLabels(types);
      && n >= 1 && labels[k].1 == first[k].1 + " #" + Decimal(n)
      && !InUse(first, labels, k, Normalize(first[k].1 + " #" + Decimal(n)))
      && forall m :: 1 <= m < n ==> InUse(first, labels, k, Normalize(first[k].1 + " #" + Decimal(m)))
  {
    hide Normalize, FreeNumber, CountKey, LabelKeys, Unnumbered, Decimal, InUse;
    var first, labels := Unnumbered(types), ImportLabels(types);
    TwoPositionsCount(first, if k < other then k else other, if k < other then other else k);
    var done := Number(first, k);
    NumberedOnce(first, |first|, k);
    NumberedOnce(first, |first|, k + 1);
    assert labels[k] == labels[..k + 1][k];
    n := FreeNumber(first[k].1, done.taken, 1);
    FreeNumberSpec(first[k].1, done.taken, 1);
    forall key ensures key in done.taken <==> InUse(first, labels, k, key) {
      TakenIsInUse(first, k, key);
      SameUse(first, done.labels, labels, k, key);
    }
    forall m | 1 <= m < n ensures InUse(first, labels, k, Normalize(first[k].1 + " #" + Decimal(m))) {
      assert NumberedKey(first[k].1, m) in done.taken;
    }
  }

  lemma SameUse(first: Labels, before: Labels, labels: Labels, k: nat, key: string)
    requires k == |before| <= |labels| && labels[..k] == before
    ensures InUse(first, before, k, key) <==> InUse(first, labels, k, key)
  {
    hide Normalize;
    assert forall j :: 0 <= j < k ==> labels[j] == before[j];
  }
}
