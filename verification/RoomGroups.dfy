/** One row per price of a room type: `groupByCategory` of
    apps/web/src/components/room-category-list.tsx. */
module RoomGroups {
  import opened OrderedMap
  import opened RoomKeys

  datatype Bed = Bed(id: string, available: bool)

  datatype Held = Reserved | Booked

  datatype Unit = Unit(id: string, terms: Terms)

  datatype UnitPhoto = UnitPhoto(unitId: string, storageKey: string)

  datatype VerificationPhoto = VerificationPhoto(
    storageKey: string, category: Option<string>, roomCategory: Option<string>, selfContained: Option<bool>)

  /** The other arguments; the amenities of a unit are already texts. */
  datatype Listing = Listing(
    beds: map<string, seq<Bed>>, unitPhotos: seq<UnitPhoto>, verificationPhotos: seq<VerificationPhoto>,
    liveBeds: map<string, Held>, amenities: map<string, seq<string>>)

  datatype Group = Group(
    key: string, terms: Terms, freeRoomCount: nat, availableCount: nat, firstAvailableBedId: Option<string>,
    myStatus: Option<Held>, roomPhotos: seq<string>, roomAmenities: seq<string>)

  // ---- one unit --------------------------------------------------------------------------

  function Get<T>(m: map<string, seq<T>>, id: string): seq<T> {
    if id in m then m[id] else []
  }

  /** Ids of the available beds. */
  function Free(beds: seq<Bed>): seq<string> {
    if beds == [] then [] else (if beds[0].available then [beds[0].id] else []) + Free(beds[1..])
  }

  /** The first bed that the signed-in student holds. */
  function HeldBed(beds: seq<Bed>, liveBeds: map<string, Held>): Option<Held> {
    if beds == [] then None
    else if beds[0].id in liveBeds then Some(liveBeds[beds[0].id])
    else HeldBed(beds[1..], liveBeds)
  }

  function PhotosOf(photos: seq<UnitPhoto>, id: string): seq<string> {
    if photos == [] then []
    else
      var last := photos[|photos| - 1];
      PhotosOf(photos[..|photos| - 1], id) + if last.unitId == id then [last.storageKey] else []
  }

  function Belongs(photo: VerificationPhoto, category: string, selfContained: bool): bool {
    && (if photo.roomCategory.Some? && photo.roomCategory.value != "" then photo.roomCategory.value == category
        else photo.category == Some(category + "_bedroom"))
    && (photo.selfContained.None? || photo.selfContained.value == selfContained)
  }

  /** `photosForRoomType(…).map(p => p.storageKey)` */
  function PhotosForRoomType(photos: seq<VerificationPhoto>, category: string, selfContained: bool): seq<string> {
    if photos == [] then []
    else
      var rest := PhotosForRoomType(photos[1..], category, selfContained);
      (if Belongs(photos[0], category, selfContained) then [photos[0].storageKey] else []) + rest
  }

  // ---- a naive partition -------------------------------------------------------------------

  /** The units with the given terms, in input order. */
  function Of(units: seq<Unit>, t: Terms): seq<Unit> {
    if units == [] then []
    else
      var last := units[|units| - 1];
      Of(units[..|units| - 1], t) + if last.terms == t then [last] else []
  }

  /** The different terms, in the order they first come. */
  function Kinds(units: seq<Unit>): seq<Terms> {
    if units == [] then []
    else
      var before, t := Kinds(units[..|units| - 1]), units[|units| - 1].terms;
      if t in before then before else before + [t]
  }

  function AllFree(l: Listing, units: seq<Unit>): seq<string> {
    if units == [] then []
    else AllFree(l, units[..|units| - 1]) + Free(Get(l.beds, units[|units| - 1].id))
  }

  function FreeRooms(l: Listing, units: seq<Unit>): nat {
    if units == [] then 0
    else FreeRooms(l, units[..|units| - 1]) + if Free(Get(l.beds, units[|units| - 1].id)) == [] then 0 else 1
  }

  function AllPhotos(l: Listing, units: seq<Unit>): seq<string> {
    if units == [] then []
    else AllPhotos(l, units[..|units| - 1]) + PhotosOf(l.unitPhotos, units[|units| - 1].id)
  }

  function AllAmenities(l: Listing, units: seq<Unit>): seq<string> {
    if units == [] then []
    else AllAmenities(l, units[..|units| - 1]) + Get(l.amenities, units[|units| - 1].id)
  }

  /** What the last unit of the room type with a held bed says. */
  function LastHeld(l: Listing, units: seq<Unit>, category: string, selfContained: bool): Option<Held> {
    if units == [] then None
    else
      var last := units[|units| - 1];
      var held := HeldBed(Get(l.beds, last.id), l.liveBeds);
      if last.terms.category == category && last.terms.selfContained == selfContained && held.Some? then held
      else LastHeld(l, units[..|units| - 1], category, selfContained)
  }

  function First(ids: seq<string>): Option<string> {
    if ids == [] then None else Some(ids[0])
  }

  /** A row before it is finished, computed from its own units alone. */
  function Row(l: Listing, units: seq<Unit>, t: Terms): Group {
    var mine := Of(units, t);
    Group(Key(t), t, FreeRooms(l, mine), |AllFree(l, mine)|, First(AllFree(l, mine)), None,
          AllPhotos(l, mine), AllAmenities(l, mine))
  }

  /** First occurrences only. */
  function Dedupe(s: seq<string>): seq<string> {
    if s == [] then []
    else
      var rest := s[..|s| - 1];
      Dedupe(rest) + if s[|s| - 1] in rest then [] else [s[|s| - 1]]
  }

  function Finished(l: Listing, units: seq<Unit>, g: Group): Group {
    var category, selfContained := g.terms.category, g.terms.selfContained;
    g.(myStatus := LastHeld(l, units, category, selfContained),
       roomPhotos := Dedupe(PhotosForRoomType(l.verificationPhotos, category, selfContained) + g.roomPhotos),
       roomAmenities := Dedupe(g.roomAmenities))
  }

  function FinalRow(l: Listing, units: seq<Unit>, t: Terms): Group {
    Finished(l, units, Row(l, units, t))
  }

  function FinalRows(l: Listing, units: seq<Unit>, kinds: seq<Terms>): (rows: seq<Group>)
    ensures |rows| == |kinds|
    ensures forall k :: 0 <= k < |kinds| ==> rows[k] == FinalRow(l, units, kinds[k])
  {
    seq(|kinds|, k requires 0 <= k < |kinds| => FinalRow(l, units, kinds[k]))
  }

  // ---- the output order ----------------------------------------------------------------------

  /** The comparator: rows with a free bed first, then by price. */
  predicate Before(a: Group, b: Group) {
    if (a.availableCount > 0) == (b.availableCount > 0) then a.terms.pricePerTermUgx < b.terms.pricePerTermUgx
    else a.availableCount > 0
  }

  function Insert(s: seq<Group>, g: Group): seq<Group> {
    if s != [] && Before(g, s[|s| - 1]) then Insert(s[..|s| - 1], g) + [s[|s| - 1]] else s + [g]
  }

  /** A stable sort. */
  function Sorted(s: seq<Group>): seq<Group> {
    if s == [] then [] else Insert(Sorted(s[..|s| - 1]), s[|s| - 1])
  }

  // ---- the program ----------------------------------------------------------------------------

  ghost predicate IsIndex(photosByUnit: map<string, seq<string>>, photos: seq<UnitPhoto>) {
    forall id :: Get(photosByUnit, id) == PhotosOf(photos, id)
  }

  method IndexPhotos(photos: seq<UnitPhoto>) returns (photosByUnit: map<string, seq<string>>)
    ensures IsIndex(photosByUnit, photos)
  {
    photosByUnit := map[];
    for i := 0 to |photos|
      invariant IsIndex(photosByUnit, photos[..i])
    {
      var photo := photos[i];
      var list := Get(photosByUnit, photo.unitId) + [photo.storageKey];
      assert photos[..i + 1][..i] == photos[..i];
      photosByUnit := photosByUnit[photo.unitId := list];
    }
    assert photos[..|photos|] == photos;
  }

  /** One row per kind, under its key, with what its units give. */
  ghost predicate Rows(l: Listing, units: seq<Unit>, groups: Entries<string, Group>) {
    && |groups| == |Kinds(units)|
    && forall k :: 0 <= k < |groups| ==> groups[k] == (Key(Kinds(units)[k]), Row(l, units, Kinds(units)[k]))
  }

  method GroupUnits(l: Listing, units: seq<Unit>, photosByUnit: map<string, seq<string>>)
    returns (groups: Entries<string, Group>)
    requires IsIndex(photosByUnit, l.unitPhotos)
    ensures Rows(l, units, groups)
  {
    hide Rows, Key, Free, PhotosOf, Row, Kinds, First;
    groups := [];
    NoRows(l);
    for i := 0 to |units|
      invariant Rows(l, units[..i], groups)
    {
      var unit := units[i];
      var key := Key(unit.terms);
      var free := Free(Get(l.beds, unit.id));
      var photos := Get(photosByUnit, unit.id);
      var amenities := Get(l.amenities, unit.id);
      assert photos == PhotosOf(l.unitPhotos, unit.id);
      assert [] + photos == photos && [] + amenities == amenities;
      var at := Find(groups, key);
      ghost var before := groups;
      if at < |groups| {
        var g := groups[at].1;
        groups := groups[at := (key, g.(
          freeRoomCount := g.freeRoomCount + (if free != [] then 1 else 0),
          roomPhotos := g.roomPhotos + photos,
          roomAmenities := g.roomAmenities + amenities,
          availableCount := g.availableCount + |free|,
          firstAvailableBedId := if g.firstAvailableBedId.Some? then g.firstAvailableBedId else First(free)))];
      } else {
        var freeRoom := if free != [] then 1 else 0;
        groups := groups + [(key, Group(key, unit.terms, freeRoom, |free|, First(free), None, photos, amenities))];
      }
      StepKeepsRows(l, units[..i], unit, before, groups);
      assert units[..i + 1] == units[..i] + [unit];
    }
    assert units[..|units|] == units;
  }

  ghost predicate IsHeldMap(held: map<string, Held>, l: Listing, units: seq<Unit>) {
    forall category, selfContained ::
      LastHeld(l, units, category, selfContained) ==
        if TypeKey(category, selfContained) in held then Some(held[TypeKey(category, selfContained)]) else None
  }

  method HeldByType(l: Listing, units: seq<Unit>) returns (heldByType: map<string, Held>)
    ensures IsHeldMap(heldByType, l, units)
  {
    hide TypeKey, HeldBed;
    heldByType := map[];
    for i := 0 to |units|
      invariant IsHeldMap(heldByType, l, units[..i])
    {
      var unit := units[i];
      var held := HeldBed(Get(l.beds, unit.id), l.liveBeds);
      ghost var before := heldByType;
      if held.Some? { heldByType := heldByType[TypeKey(unit.terms.category, unit.terms.selfContained) := held.value]; }
      HeldStep(before, heldByType, l, units[..i], unit);
      assert units[..i + 1] == units[..i] + [unit];
    }
    assert units[..|units|] == units;
  }

  /** `filter(p => !seen.has(p) && seen.add(p))`, and `[...new Set(s)]`. */
  method KeepFirst(s: seq<string>) returns (r: seq<string>)
    ensures r == Dedupe(s)
  {
    var seen := {};
    r := [];
    for i := 0 to |s|
      invariant r == Dedupe(s[..i])
      invariant forall x :: x in seen <==> x in s[..i]
    {
      assert s[..i + 1][..i] == s[..i];
      if s[i] !in seen {
        seen := seen + {s[i]};
        r := r + [s[i]];
      }
    }
    assert s[..|s|] == s;
  }

  method GroupByCategory(l: Listing, units: seq<Unit>) returns (rows: seq<Group>)
    ensures rows == Sorted(FinalRows(l, units, Kinds(units)))
  {
    hide Kinds, Row, Key, TypeKey, LastHeld, Dedupe, PhotosForRoomType, Sorted, PhotosOf;
    var photosByUnit := IndexPhotos(l.unitPhotos);
    var groups := GroupUnits(l, units, photosByUnit);
    var heldByType := HeldByType(l, units);
    ghost var kinds := Kinds(units);
    rows := [];
    for i := 0 to |groups|
      invariant |rows| == i
      invariant forall k :: 0 <= k < i ==> rows[k] == FinalRow(l, units, kinds[k])
    {
      var g := groups[i].1;
      var category, selfContained := g.terms.category, g.terms.selfContained;
      var typeKey := TypeKey(category, selfContained);
      var status := if typeKey in heldByType then Some(heldByType[typeKey]) else None;
      var photos := KeepFirst(PhotosForRoomType(l.verificationPhotos, category, selfContained) + g.roomPhotos);
      var amenities := KeepFirst(g.roomAmenities);
      assert status == LastHeld(l, units, category, selfContained);
      rows := rows + [g.(myStatus := status, roomPhotos := photos, roomAmenities := amenities)];
    }
    assert rows == FinalRows(l, units, kinds);
    rows := Sorted(rows);
  }

  // ---- the loop refines the partition ------------------------------------------------------------

  lemma NoRows(l: Listing)
    ensures Rows(l, [], [])
  {
  }

  lemma OfAppend(units: seq<Unit>, u: Unit, t: Terms)
    ensures Of(units + [u], t) == Of(units, t) + if u.terms == t then [u] else []
  {
    assert (units + [u])[..|units|] == units;
  }

  lemma KindsAppend(units: seq<Unit>, u: Unit)
    ensures Kinds(units + [u]) == Kinds(units) + if u.terms in Kinds(units) then [] else [u.terms]
  {
    assert (units + [u])[..|units|] == units;
  }

  lemma {:induction false} KindsAreTerms(units: seq<Unit>, t: Terms)
    ensures t in Kinds(units) <==> Of(units, t) != []
    ensures forall i, j :: 0 <= i < j < |Kinds(units)| ==> Kinds(units)[i] != Kinds(units)[j]
  {
    if units != [] { KindsAreTerms(units[..|units| - 1], t); }
  }

  lemma GatherAppend(l: Listing, mine: seq<Unit>, u: Unit)
    ensures AllFree(l, mine + [u]) == AllFree(l, mine) + Free(Get(l.beds, u.id))
    ensures FreeRooms(l, mine + [u]) == FreeRooms(l, mine) + if Free(Get(l.beds, u.id)) == [] then 0 else 1
    ensures AllPhotos(l, mine + [u]) == AllPhotos(l, mine) + PhotosOf(l.unitPhotos, u.id)
    ensures AllAmenities(l, mine + [u]) == AllAmenities(l, mine) + Get(l.amenities, u.id)
  {
    assert (mine + [u])[..|mine|] == mine;
  }

  /** A row with one more unit. */
  function Extended(l: Listing, g: Group, u: Unit): Group {
    var free := Free(Get(l.beds, u.id));
    g.(freeRoomCount := g.freeRoomCount + (if free != [] then 1 else 0),
       roomPhotos := g.roomPhotos + PhotosOf(l.unitPhotos, u.id),
       roomAmenities := g.roomAmenities + Get(l.amenities, u.id),
       availableCount := g.availableCount + |free|,
       firstAvailableBedId := if g.firstAvailableBedId.Some? then g.firstAvailableBedId else First(free))
  }

  lemma RowAppend(l: Listing, units: seq<Unit>, u: Unit, t: Terms)
    ensures Row(l, units + [u], t) == if u.terms == t then Extended(l, Row(l, units, t), u) else Row(l, units, t)
  {
    hide Of, AllFree, FreeRooms, AllPhotos, AllAmenities, Free, Key, PhotosOf;
    OfAppend(units, u, t);
    if u.terms == t {
      GatherAppend(l, Of(units, t), u);
    } else {
      assert Of(units, t) + [] == Of(units, t);
    }
  }

  /** The first unit of a kind makes the row that the empty one extends to. */
  lemma FirstRow(l: Listing, units: seq<Unit>, t: Terms)
    requires t !in Kinds(units)
    ensures Row(l, units, t) == Group(Key(t), t, 0, 0, None, None, [], [])
  {
    hide Key;
    KindsAreTerms(units, t);
  }

  lemma FindRow(l: Listing, units: seq<Unit>, groups: Entries<string, Group>, t: Terms)
    requires Rows(l, units, groups)
    ensures var at := Find(groups, Key(t));
      && (at < |groups| <==> t in Kinds(units))
      && (at < |groups| ==> Kinds(units)[at] == t)
  {
    hide Key, Row, Kinds;
    var at := Find(groups, Key(t));
    if at < |groups| {
      KeyInjective(Kinds(units)[at], t);
    } else {
      forall k | 0 <= k < |groups| ensures Kinds(units)[k] != t {
        assert groups[k].0 != Key(t);
      }
    }
  }

  lemma StepKeepsRows(l: Listing, units: seq<Unit>, u: Unit, before: Entries<string, Group>,
                      after: Entries<string, Group>)
    requires Rows(l, units, before)
    requires var at := Find(before, Key(u.terms));
      after == if at < |before| then before[at := (Key(u.terms), Extended(l, before[at].1, u))]
        else before + [(Key(u.terms), Extended(l, Group(Key(u.terms), u.terms, 0, 0, None, None, [], []), u))]
    ensures Rows(l, units + [u], after)
  {
    hide Key, Row, Kinds, Extended;
    FindRow(l, units, before, u.terms);
    KindsAppend(units, u);
    KindsAreTerms(units, u.terms);
    RowAppend(l, units, u, u.terms);
    if u.terms !in Kinds(units) { FirstRow(l, units, u.terms); }
    forall k | 0 <= k < |Kinds(units)| && Kinds(units)[k] != u.terms
      ensures Row(l, units + [u], Kinds(units)[k]) == Row(l, units, Kinds(units)[k])
    {
      RowAppend(l, units, u, Kinds(units)[k]);
    }
  }

  lemma HeldStep(before: map<string, Held>, after: map<string, Held>, l: Listing, units: seq<Unit>, u: Unit)
    requires IsHeldMap(before, l, units)
    requires var held := HeldBed(Get(l.beds, u.id), l.liveBeds);
      after == if held.Some? then before[TypeKey(u.terms.category, u.terms.selfContained) := held.value] else before
    ensures IsHeldMap(after, l, units + [u])
  {
    hide TypeKey, HeldBed;
    assert (units + [u])[..|units|] == units;
    forall category, selfContained
      ensures LastHeld(l, units + [u], category, selfContained) ==
        if TypeKey(category, selfContained) in after then Some(after[TypeKey(category, selfContained)]) else None
    {
      assert LastHeld(l, units, category, selfContained) ==
        if TypeKey(category, selfContained) in before then Some(before[TypeKey(category, selfContained)]) else None;
      if TypeKey(category, selfContained) == TypeKey(u.terms.category, u.terms.selfContained) {
        TypeKeyInjective(category, selfContained, u.terms.category, u.terms.selfContained);
      }
    }
  }

  // ---- what the listing page shows ----------------------------------------------------------------

  function TotalBeds(rows: seq<Group>): nat {
    if rows == [] then 0 else TotalBeds(rows[..|rows| - 1]) + rows[|rows| - 1].availableCount
  }

  function TotalRooms(rows: seq<Group>): nat {
    if rows == [] then 0 else TotalRooms(rows[..|rows| - 1]) + rows[|rows| - 1].freeRoomCount
  }

  /** The rows of one rank, in order. */
  function OfRank(rows: seq<Group>, free: bool, price: int): seq<Group> {
    if rows == [] then []
    else
      var last := rows[|rows| - 1];
      OfRank(rows[..|rows| - 1], free, price)
        + if (last.availableCount > 0) == free && last.terms.pricePerTermUgx == price then [last] else []
  }

  ghost predicate InOrder(rows: seq<Group>) {
    forall i, j :: 0 <= i < j < |rows| ==> !Before(rows[j], rows[i])
  }

  lemma TotalsAppend(rows: seq<Group>, g: Group)
    ensures TotalBeds(rows + [g]) == TotalBeds(rows) + g.availableCount
    ensures TotalRooms(rows + [g]) == TotalRooms(rows) + g.freeRoomCount
  {
    assert (rows + [g])[..|rows|] == rows;
  }

  function RankPart(g: Group, free: bool, price: int): seq<Group> {
    if (g.availableCount > 0) == free && g.terms.pricePerTermUgx == price then [g] else []
  }

  lemma RankAppend(rows: seq<Group>, g: Group, free: bool, price: int)
    ensures OfRank(rows + [g], free, price) == OfRank(rows, free, price) + RankPart(g, free, price)
  {
    assert (rows + [g])[..|rows|] == rows;
  }

  lemma {:induction false} InsertKeeps(s: seq<Group>, g: Group, free: bool, price: int)
    ensures OfRank(Insert(s, g), free, price) == OfRank(s, free, price) + RankPart(g, free, price)
    ensures TotalBeds(Insert(s, g)) == TotalBeds(s) + g.availableCount
    ensures TotalRooms(Insert(s, g)) == TotalRooms(s) + g.freeRoomCount
  {
    hide OfRank, TotalBeds, TotalRooms;
    if s != [] && Before(g, s[|s| - 1]) {
      var rest, last := s[..|s| - 1], s[|s| - 1];
      InsertKeeps(rest, g, free, price);
      RankAppend(Insert(rest, g), last, free, price);
      RankAppend(rest, last, free, price);
      TotalsAppend(Insert(rest, g), last);
      TotalsAppend(rest, last);
      assert s == rest + [last];
      assert RankPart(g, free, price) == [] || RankPart(last, free, price) == [];
    } else {
      RankAppend(s, g, free, price);
      TotalsAppend(s, g);
    }
  }

  lemma {:induction false} InsertMembers(s: seq<Group>, g: Group)
    ensures multiset(Insert(s, g)) == multiset(s) + multiset{g}
  {
    hide Before;
    if s != [] && Before(g, s[|s| - 1]) {
      InsertMembers(s[..|s| - 1], g);
      assert s == s[..|s| - 1] + [s[|s| - 1]];
    }
  }

  lemma MembersOf(s: seq<Group>, g: Group, x: Group)
    requires x in Insert(s, g)
    ensures x == g || x in s
  {
    hide Insert, Before;
    InsertMembers(s, g);
    assert x in multiset(Insert(s, g));
  }

  lemma AppendInOrder(s: seq<Group>, g: Group)
    requires InOrder(s) && forall x :: x in s ==> !Before(g, x)
    ensures InOrder(s + [g])
  {
    hide Before;
  }

  lemma NotAfterLast(s: seq<Group>, x: Group)
    requires s != [] && InOrder(s) && x in s
    ensures !Before(s[|s| - 1], x)
  {
  }

  lemma {:induction false} InsertInOrder(s: seq<Group>, g: Group)
    requires InOrder(s)
    ensures InOrder(Insert(s, g))
  {
    if s == [] {
    } else {
      var rest, last := s[..|s| - 1], s[|s| - 1];
      if Before(g, last) {
        InsertInOrder(rest, g);
        forall x | x in Insert(rest, g) ensures !Before(last, x) {
          MembersOf(rest, g, x);
          if x in rest { NotAfterLast(s, x); }
        }
        AppendInOrder(Insert(rest, g), last);
      } else {
        forall x | x in s ensures !Before(g, x) {
          NotAfterLast(s, x);
        }
        AppendInOrder(s, g);
      }
    }
  }

  lemma NothingInOrder()
    ensures InOrder([])
  {
  }

  /** The rows come out with free ones first and then by price. */
  lemma {:induction false} SortedIsInOrder(rows: seq<Group>)
    ensures InOrder(Sorted(rows)) && multiset(Sorted(rows)) == multiset(rows)
  {
    hide Insert, Before, InOrder;
    if rows == [] {
      NothingInOrder();
    } else {
      var rest, last := rows[..|rows| - 1], rows[|rows| - 1];
      SortedIsInOrder(rest);
      InsertInOrder(Sorted(rest), last);
      InsertMembers(Sorted(rest), last);
      assert rows == rest + [last];
    }
  }

  /** Rows of equal rank keep their order. */
  lemma {:induction false} SortedIsStable(rows: seq<Group>, free: bool, price: int)
    ensures OfRank(Sorted(rows), free, price) == OfRank(rows, free, price)
  {
    hide Insert;
    if rows != [] {
      var rest, last := rows[..|rows| - 1], rows[|rows| - 1];
      SortedIsStable(rest, free, price);
      InsertKeeps(Sorted(rest), last, free, price);
    }
  }

  lemma {:induction false} SortedKeepsTotals(rows: seq<Group>)
    ensures TotalBeds(Sorted(rows)) == TotalBeds(rows) && TotalRooms(Sorted(rows)) == TotalRooms(rows)
  {
    hide Insert;
    if rows != [] {
      var rest, last := rows[..|rows| - 1], rows[|rows| - 1];
      SortedKeepsTotals(rest);
      InsertKeeps(Sorted(rest), last, true, 0);
    }
  }

  // conservation

  lemma {:induction false} TotalsOfUpdate(rows: seq<Group>, k: nat, g: Group)
    requires k < |rows|
    ensures TotalBeds(rows[k := g]) == TotalBeds(rows) - rows[k].availableCount + g.availableCount
    ensures TotalRooms(rows[k := g]) == TotalRooms(rows) - rows[k].freeRoomCount + g.freeRoomCount
  {
    var n := |rows| - 1;
    if k == n {
      assert rows[k := g][..n] == rows[..n];
    } else {
      TotalsOfUpdate(rows[..n], k, g);
      assert rows[k := g][..n] == rows[..n][k := g];
    }
  }

  /** The rows of the naive partition before they are finished. */
  function PlainRows(l: Listing, units: seq<Unit>): (rows: seq<Group>)
    ensures |rows| == |Kinds(units)|
    ensures forall k :: 0 <= k < |rows| ==> rows[k] == Row(l, units, Kinds(units)[k])
  {
    var kinds := Kinds(units);
    seq(|kinds|, k requires 0 <= k < |kinds| => Row(l, units, kinds[k]))
  }

  /** One more unit changes its own row, or starts it. */
  lemma PlainRowsAppend(l: Listing, units: seq<Unit>, u: Unit, k: nat)
    requires k < |Kinds(units)| ==> Kinds(units)[k] == u.terms
    requires k >= |Kinds(units)| ==> u.terms !in Kinds(units)
    ensures PlainRows(l, units + [u]) ==
      if k < |Kinds(units)| then PlainRows(l, units)[k := Extended(l, PlainRows(l, units)[k], u)]
      else PlainRows(l, units) + [Extended(l, Group(Key(u.terms), u.terms, 0, 0, None, None, [], []), u)]
  {
    hide Row, Kinds, Extended, Key;
    KindsAppend(units, u);
    KindsAreTerms(units, u.terms);
    RowAppend(l, units, u, u.terms);
    if k >= |Kinds(units)| { FirstRow(l, units, u.terms); }
    forall j | 0 <= j < |Kinds(units)| && Kinds(units)[j] != u.terms
      ensures Row(l, units + [u], Kinds(units)[j]) == Row(l, units, Kinds(units)[j])
    {
      RowAppend(l, units, u, Kinds(units)[j]);
    }
  }

  lemma UnitAdds(l: Listing, units: seq<Unit>, u: Unit)
    ensures TotalBeds(PlainRows(l, units + [u])) == TotalBeds(PlainRows(l, units)) + |Free(Get(l.beds, u.id))|
    ensures TotalRooms(PlainRows(l, units + [u])) ==
      TotalRooms(PlainRows(l, units)) + if Free(Get(l.beds, u.id)) == [] then 0 else 1
  {
    hide Row, Kinds, Key, TotalBeds, TotalRooms, Free;
    var rows := PlainRows(l, units);
    if k :| 0 <= k < |Kinds(units)| && Kinds(units)[k] == u.terms {
      PlainRowsAppend(l, units, u, k);
      TotalsOfUpdate(rows, k, Extended(l, rows[k], u));
    } else {
      PlainRowsAppend(l, units, u, |Kinds(units)|);
      TotalsAppend(rows, Extended(l, Group(Key(u.terms), u.terms, 0, 0, None, None, [], []), u));
    }
  }

  lemma {:induction false} PlainTotals(l: Listing, units: seq<Unit>)
    ensures TotalBeds(PlainRows(l, units)) == |AllFree(l, units)|
    ensures TotalRooms(PlainRows(l, units)) == FreeRooms(l, units)
  {
    hide PlainRows, Row, Key, Free, Kinds, TotalBeds, TotalRooms;
    if units == [] {
      NoTotals(l);
    } else {
      PlainTotals(l, units[..|units| - 1]);
      UnitAdds(l, units[..|units| - 1], units[|units| - 1]);
      assert units == units[..|units| - 1] + [units[|units| - 1]];
    }
  }

  lemma NoTotals(l: Listing)
    ensures TotalBeds(PlainRows(l, [])) == 0 == TotalRooms(PlainRows(l, []))
  {
  }

  lemma {:induction false} SameTotals(a: seq<Group>, b: seq<Group>)
    requires |a| == |b|
    requires forall k :: 0 <= k < |a| ==>
      a[k].availableCount == b[k].availableCount && a[k].freeRoomCount == b[k].freeRoomCount
    ensures TotalBeds(a) == TotalBeds(b) && TotalRooms(a) == TotalRooms(b)
  {
    if a != [] { SameTotals(a[..|a| - 1], b[..|b| - 1]); }
  }

  /** What `GroupByCategory` returns. */
  function Output(l: Listing, units: seq<Unit>): seq<Group> {
    Sorted(FinalRows(l, units, Kinds(units)))
  }

  /** No free bed and no room with a free bed is lost or counted twice. */
  lemma BedsAreConserved(l: Listing, units: seq<Unit>)
    ensures TotalBeds(Output(l, units)) == |AllFree(l, units)|
    ensures TotalRooms(Output(l, units)) == FreeRooms(l, units)
  {
    hide Sorted, Kinds, Row, AllFree, FreeRooms, TotalBeds, TotalRooms, LastHeld;
    PlainTotals(l, units);
    var rows := FinalRows(l, units, Kinds(units));
    SortedKeepsTotals(rows);
    SameTotals(rows, PlainRows(l, units));
  }

  lemma InOutput(l: Listing, units: seq<Unit>, g: Group)
    ensures g in Output(l, units) <==> exists t :: t in Kinds(units) && g == FinalRow(l, units, t)
  {
    hide Sorted, Kinds, FinalRow;
    var rows := FinalRows(l, units, Kinds(units));
    SortedIsInOrder(rows);
    assert g in Output(l, units) <==> g in multiset(rows);
    if g in rows {
      var k :| 0 <= k < |rows| && rows[k] == g;
      assert Kinds(units)[k] in Kinds(units);
    }
    if t :| t in Kinds(units) && g == FinalRow(l, units, t) {
      var k :| 0 <= k < |Kinds(units)| && Kinds(units)[k] == t;
      assert rows[k] == g;
    }
  }

  ghost predicate HasRow(rows: seq<Group>, t: Terms) {
    exists g :: g in rows && g.terms == t
  }

  /** Every row is of some unit's terms and reports exactly the units with those
      terms: its first free bed in input order, which is missing exactly when
      none is free; and every unit has its row. */
  lemma RowsPartitionUnits(l: Listing, units: seq<Unit>)
    ensures forall g :: g in Output(l, units) ==>
      var mine := Of(units, g.terms);
      && mine != [] && g.key == Key(g.terms)
      && g.availableCount == |AllFree(l, mine)| && g.freeRoomCount == FreeRooms(l, mine)
      && g.firstAvailableBedId == First(AllFree(l, mine))
      && (g.firstAvailableBedId.None? <==> g.availableCount == 0)
    ensures forall i :: 0 <= i < |units| ==> HasRow(Output(l, units), units[i].terms)
    ensures |Output(l, units)| == |Kinds(units)|
  {
    hide Output, Kinds, Key, AllFree, FreeRooms, LastHeld, Of, AllPhotos, AllAmenities, Dedupe, PhotosForRoomType;
    forall g | g in Output(l, units)
      ensures Of(units, g.terms) != [] && g.key == Key(g.terms)
      ensures g.availableCount == |AllFree(l, Of(units, g.terms))|
      ensures g.freeRoomCount == FreeRooms(l, Of(units, g.terms))
      ensures g.firstAvailableBedId == First(AllFree(l, Of(units, g.terms)))
      ensures g.firstAvailableBedId.None? <==> g.availableCount == 0
    {
      InOutput(l, units, g);
      KindsAreTerms(units, g.terms);
    }
    forall i | 0 <= i < |units| ensures HasRow(Output(l, units), units[i].terms) {
      var t := units[i].terms;
      HasKind(units, i);
      InOutput(l, units, FinalRow(l, units, t));
      assert FinalRow(l, units, t).terms == t;
    }
    OutputLength(l, units);
  }

  lemma {:induction false} HasKind(units: seq<Unit>, i: nat)
    requires i < |units|
    ensures units[i].terms in Kinds(units)
  {
    if i < |units| - 1 { HasKind(units[..|units| - 1], i); }
  }

  lemma OutputLength(l: Listing, units: seq<Unit>)
    ensures |Output(l, units)| == |Kinds(units)|
  {
    hide Sorted, Kinds, FinalRow;
    var rows := FinalRows(l, units, Kinds(units));
    SortedIsInOrder(rows);
    assert |multiset(Sorted(rows))| == |multiset(rows)|;
  }

  /** Two rows never share a key. */
  lemma KeysAreUnique(l: Listing, units: seq<Unit>, g: Group, h: Group)
    requires g in Output(l, units) && h in Output(l, units) && g.key == h.key
    ensures g == h
  {
    hide Output, Kinds, Key;
    InOutput(l, units, g);
    InOutput(l, units, h);
    KeyInjective(g.terms, h.terms);
  }

  predicate SameType(a: Terms, b: Terms) {
    a.category == b.category && a.selfContained == b.selfContained
  }

  /** The unit is of the room type and has a bed that the student holds. */
  predicate HeldIn(l: Listing, units: seq<Unit>, t: Terms, i: nat)
    requires i < |units|
  {
    SameType(units[i].terms, t) && HeldBed(Get(l.beds, units[i].id), l.liveBeds).Some?
  }

  ghost predicate NoneHeld(l: Listing, units: seq<Unit>, t: Terms) {
    forall i :: 0 <= i < |units| ==> !HeldIn(l, units, t, i)
  }

  ghost predicate IsLastHeld(l: Listing, units: seq<Unit>, t: Terms, i: nat) {
    i < |units| && HeldIn(l, units, t, i) && forall j :: i < j < |units| ==> !HeldIn(l, units, t, j)
  }

  lemma {:induction false} LastHeldNone(l: Listing, units: seq<Unit>, t: Terms)
    ensures LastHeld(l, units, t.category, t.selfContained).None? <==> NoneHeld(l, units, t)
  {
    hide HeldBed;
    if units != [] {
      var n := |units| - 1;
      LastHeldNone(l, units[..n], t);
      forall i | 0 <= i < n ensures HeldIn(l, units[..n], t, i) <==> HeldIn(l, units, t, i) {
      }
      if NoneHeld(l, units[..n], t) && !HeldIn(l, units, t, n) {
        assert NoneHeld(l, units, t);
      }
    }
  }

  lemma {:induction false} LastHeldAt(l: Listing, units: seq<Unit>, t: Terms, i: nat)
    requires IsLastHeld(l, units, t, i)
    ensures LastHeld(l, units, t.category, t.selfContained) == HeldBed(Get(l.beds, units[i].id), l.liveBeds)
  {
    hide HeldBed;
    var n := |units| - 1;
    if i < n {
      assert !HeldIn(l, units, t, n);
      forall j | 0 <= j < n ensures HeldIn(l, units[..n], t, j) <==> HeldIn(l, units, t, j) {
      }
      LastHeldAt(l, units[..n], t, i);
    }
  }

  lemma RowStatus(l: Listing, units: seq<Unit>, g: Group)
    requires g in Output(l, units)
    ensures g.myStatus == LastHeld(l, units, g.terms.category, g.terms.selfContained)
  {
    hide Output, Kinds, LastHeld, Dedupe, PhotosForRoomType, Of, AllFree, FreeRooms, AllPhotos, AllAmenities;
    InOutput(l, units, g);
  }

  /** A held bed marks every price row of its category and bathroom type, with
      what the last such unit says; a type without a held bed has no mark. */
  lemma HeldMarksEveryPrice(l: Listing, units: seq<Unit>, g: Group)
    requires g in Output(l, units)
    ensures g.myStatus.None? <==> NoneHeld(l, units, g.terms)
    ensures forall i: nat :: IsLastHeld(l, units, g.terms, i) ==>
      g.myStatus == HeldBed(Get(l.beds, units[i].id), l.liveBeds)
    ensures forall h :: h in Output(l, units) && SameType(h.terms, g.terms) ==> h.myStatus == g.myStatus
  {
    hide Output, HeldBed, LastHeld, HeldIn, NoneHeld;
    RowStatus(l, units, g);
    LastHeldNone(l, units, g.terms);
    forall i: nat | IsLastHeld(l, units, g.terms, i)
      ensures g.myStatus == HeldBed(Get(l.beds, units[i].id), l.liveBeds)
    {
      LastHeldAt(l, units, g.terms, i);
    }
    forall h | h in Output(l, units) && SameType(h.terms, g.terms) ensures h.myStatus == g.myStatus {
      RowStatus(l, units, h);
    }
  }

  /** The page lists rows with a free bed first, each part from cheap to dear, and
      rows of the same price in the order their first units came. */
  lemma OutputOrder(l: Listing, units: seq<Unit>, free: bool, price: int)
    ensures forall i, j :: 0 <= i < j < |Output(l, units)| ==>
      var a, b := Output(l, units)[i], Output(l, units)[j];
      && (b.availableCount > 0 ==> a.availableCount > 0)
      && ((a.availableCount > 0) == (b.availableCount > 0) ==> a.terms.pricePerTermUgx <= b.terms.pricePerTermUgx)
    ensures OfRank(Output(l, units), free, price) == OfRank(FinalRows(l, units, Kinds(units)), free, price)
  {
    hide Sorted, Kinds, FinalRow, OfRank;
    var rows := FinalRows(l, units, Kinds(units));
    SortedIsInOrder(rows);
    SortedIsStable(rows, free, price);
    var out := Output(l, units);
    forall i, j | 0 <= i < j < |out| ensures !Before(out[j], out[i]) {
    }
  }

  /** Photos and amenities are shown once each, and none is dropped. */
  lemma {:induction false} DedupeKeepsEach(s: seq<string>)
    ensures forall x :: x in Dedupe(s) <==> x in s
    ensures forall i, j :: 0 <= i < j < |Dedupe(s)| ==> Dedupe(s)[i] != Dedupe(s)[j]
  {
    if s != [] { DedupeKeepsEach(s[..|s| - 1]); }
  }

  /** Some inspection photo of the room type has this storage key. */
  ghost predicate VerifiedShows(photos: seq<VerificationPhoto>, t: Terms, key: string) {
    exists i :: 0 <= i < |photos| && photos[i].storageKey == key && Belongs(photos[i], t.category, t.selfContained)
  }

  /** The landlord's photo with this storage key is of one of the units. */
  ghost predicate OwnShows(l: Listing, mine: seq<Unit>, key: string) {
    exists i :: 0 <= i < |mine| && UnitPhoto(mine[i].id, key) in l.unitPhotos
  }

  lemma {:induction false} VerifiedPhotos(photos: seq<VerificationPhoto>, t: Terms, key: string)
    ensures key in PhotosForRoomType(photos, t.category, t.selfContained) <==> VerifiedShows(photos, t, key)
  {
    hide Belongs;
    if photos != [] {
      var rest := photos[1..];
      VerifiedPhotos(rest, t, key);
      forall i | 1 <= i < |photos| ensures photos[1..][i - 1] == photos[i] {
      }
      if i :| 0 <= i < |rest| && rest[i].storageKey == key && Belongs(rest[i], t.category, t.selfContained) {
        assert photos[i + 1].storageKey == key;
      }
    }
  }

  lemma {:induction false} UnitPhotos(photos: seq<UnitPhoto>, id: string, key: string)
    ensures key in PhotosOf(photos, id) <==> UnitPhoto(id, key) in photos
  {
    if photos != [] { UnitPhotos(photos[..|photos| - 1], id, key); }
  }

  lemma {:induction false} GatheredPhotos(l: Listing, mine: seq<Unit>, key: string)
    ensures key in AllPhotos(l, mine) <==> OwnShows(l, mine, key)
  {
    if mine != [] {
      var n := |mine| - 1;
      GatheredPhotos(l, mine[..n], key);
      UnitPhotos(l.unitPhotos, mine[n].id, key);
      if i :| 0 <= i < n && UnitPhoto(mine[..n][i].id, key) in l.unitPhotos {
        assert mine[i] == mine[..n][i];
      }
    }
  }

  /** A row shows exactly the inspection photos that belong to its room type and
      the landlord's photos of its own units, each once. */
  lemma RowShowsItsPhotos(l: Listing, units: seq<Unit>, g: Group, key: string)
    requires g in Output(l, units)
    ensures key in g.roomPhotos <==>
      VerifiedShows(l.verificationPhotos, g.terms, key) || OwnShows(l, Of(units, g.terms), key)
    ensures forall i, j :: 0 <= i < j < |g.roomPhotos| ==> g.roomPhotos[i] != g.roomPhotos[j]
  {
    hide Output, Kinds, LastHeld, Dedupe, PhotosForRoomType, Of, AllFree, FreeRooms, AllPhotos, AllAmenities, Belongs;
    InOutput(l, units, g);
    var verified := PhotosForRoomType(l.verificationPhotos, g.terms.category, g.terms.selfContained);
    var own := AllPhotos(l, Of(units, g.terms));
    assert g.roomPhotos == Dedupe(verified + own);
    DedupeKeepsEach(verified + own);
    VerifiedPhotos(l.verificationPhotos, g.terms, key);
    GatheredPhotos(l, Of(units, g.terms), key);
  }
}
