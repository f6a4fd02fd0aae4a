/** What a room row shows, told in the units and beds of the listing:
    apps/web/src/components/room-category-list.tsx and apps/web/src/lib/room-type-photos.ts. */
module RowContents {
  import opened OrderedMap
  import opened RoomKeys
  import opened RoomGroups

  // ---- free beds ---------------------------------------------------------------------

  /** The beds of the unit at a position. */
  function BedsOf(l: Listing, units: seq<Unit>, i: nat): seq<Bed>
    requires i < |units|
  {
    if units[i].id in l.beds then l.beds[units[i].id] else []
  }

  /** Bed `k` of unit `i` is available, and the unit has the terms. */
  predicate IsFree(l: Listing, units: seq<Unit>, t: Terms, i: nat, k: nat)
    requires i < |units|
  {
    units[i].terms == t && k < |BedsOf(l, units, i)| && BedsOf(l, units, i)[k].available
  }

  ghost function FreePlaces(l: Listing, units: seq<Unit>, t: Terms): set<(nat, nat)> {
    set i: nat, k: nat | i < |units| && k < |BedsOf(l, units, i)| && IsFree(l, units, t, i, k) :: (i, k)
  }

  ghost predicate HasFree(l: Listing, units: seq<Unit>, t: Terms, i: nat)
    requires i < |units|
  {
    exists k: nat :: IsFree(l, units, t, i, k)
  }

  /** The units with the terms and a free bed. */
  ghost function FreeUnits(l: Listing, units: seq<Unit>, t: Terms): set<nat> {
    set i: nat | i < |units| && HasFree(l, units, t, i)
  }

  /** No free bed of the terms comes before bed `k` of unit `i`. */
  ghost predicate IsFirstFree(l: Listing, units: seq<Unit>, t: Terms, i: nat, k: nat) {
    && i < |units| && IsFree(l, units, t, i, k)
    && forall j: nat, m: nat :: j < |units| && IsFree(l, units, t, j, m) ==> i < j || (i == j && k <= m)
  }

  lemma {:induction false} FreeAppend(beds: seq<Bed>, b: Bed)
    ensures Free(beds + [b]) == Free(beds) + if b.available then [b.id] else []
  {
    if beds != [] {
      assert (beds + [b])[1..] == beds[1..] + [b];
      FreeAppend(beds[1..], b);
    }
  }

  /** The free beds of one unit, as pairs with its position. */
  ghost function Places(beds: seq<Bed>, i: nat): set<(nat, nat)> {
    set k: nat | k < |beds| && beds[k].available :: (i, k)
  }

  lemma PlacesNext(beds: seq<Bed>, i: nat)
    requires beds != []
    ensures var n := |beds| - 1;
      var last := if beds[n].available then {(i, n)} else {};
      Places(beds, i) == Places(beds[..n], i) + last && Places(beds[..n], i) !! last
  {
    var n := |beds| - 1;
    assert forall k :: 0 <= k < n ==> beds[..n][k] == beds[k];
  }

  lemma {:induction false} PlacesCount(beds: seq<Bed>, i: nat)
    ensures |Places(beds, i)| == |Free(beds)|
  {
    if beds != [] {
      hide Places, Free;
      var n := |beds| - 1;
      PlacesCount(beds[..n], i);
      FreeAppend(beds[..n], beds[n]);
      assert beds == beds[..n] + [beds[n]];
      PlacesNext(beds, i);
    }
  }

  lemma {:induction false} NoneFreeIff(beds: seq<Bed>)
    ensures Free(beds) == [] <==> forall k :: 0 <= k < |beds| ==> !beds[k].available
  {
    if beds != [] {
      NoneFreeIff(beds[1..]);
      assert forall k :: 1 <= k < |beds| ==> beds[1..][k - 1] == beds[k];
    }
  }

  lemma {:induction false} FirstOfFree(beds: seq<Bed>, k: nat)
    requires k < |beds| && beds[k].available && forall m :: 0 <= m < k ==> !beds[m].available
    ensures Free(beds) != [] && Free(beds)[0] == beds[k].id
  {
    if k > 0 {
      assert beds[1..][k - 1] == beds[k];
      FirstOfFree(beds[1..], k - 1);
    }
  }

  lemma OfLast(units: seq<Unit>, t: Terms)
    requires units != []
    ensures var n := |units| - 1;
      Of(units, t) == Of(units[..n], t) + if units[n].terms == t then [units[n]] else []
  {
  }

  lemma FewerUnits(l: Listing, units: seq<Unit>, t: Terms, n: nat)
    requires n + 1 == |units|
    ensures forall i: nat, k: nat :: i < n ==> (IsFree(l, units[..n], t, i, k) <==> IsFree(l, units, t, i, k))
    ensures forall i: nat :: i < n ==> BedsOf(l, units[..n], i) == BedsOf(l, units, i)
  {
  }

  lemma GatherLast(l: Listing, units: seq<Unit>, t: Terms)
    requires units != []
    ensures var n := |units| - 1; var beds := BedsOf(l, units, n);
      && AllFree(l, Of(units, t)) == AllFree(l, Of(units[..n], t)) + (if units[n].terms == t then Free(beds) else [])
      && FreeRooms(l, Of(units, t)) ==
           FreeRooms(l, Of(units[..n], t)) + (if units[n].terms == t && Free(beds) != [] then 1 else 0)
  {
    hide Free, AllFree, FreeRooms, AllPhotos, AllAmenities, PhotosOf;
    var n := |units| - 1;
    OfLast(units, t);
    hide Of;
    if units[n].terms == t {
      GatherAppend(l, Of(units[..n], t), units[n]);
      assert BedsOf(l, units, n) == Get(l.beds, units[n].id);
    } else {
      assert Of(units, t) == Of(units[..n], t);
    }
  }

  lemma {:induction false} CountFree(l: Listing, units: seq<Unit>, t: Terms)
    ensures |FreePlaces(l, units, t)| == |AllFree(l, Of(units, t))|
  {
    if units == [] {
      assert FreePlaces(l, units, t) == {};
    } else {
      hide Free, AllFree, Of, FreeRooms;
      var n := |units| - 1;
      CountFree(l, units[..n], t);
      GatherLast(l, units, t);
      PlacesCount(BedsOf(l, units, n), n);
      LastPlaces(l, units, t);
    }
  }

  lemma LastPlaces(l: Listing, units: seq<Unit>, t: Terms)
    requires units != []
    ensures var n := |units| - 1;
      var last := if units[n].terms == t then Places(BedsOf(l, units, n), n) else {};
      FreePlaces(l, units, t) == FreePlaces(l, units[..n], t) + last && FreePlaces(l, units[..n], t) !! last
  {
    var n := |units| - 1;
    FewerUnits(l, units, t, n);
    hide BedsOf;
    var last := if units[n].terms == t then Places(BedsOf(l, units, n), n) else {};
    forall p ensures p in FreePlaces(l, units, t) <==> p in FreePlaces(l, units[..n], t) || p in last {}
  }

  lemma {:induction false} CountFreeUnits(l: Listing, units: seq<Unit>, t: Terms)
    ensures |FreeUnits(l, units, t)| == FreeRooms(l, Of(units, t))
  {
    if units == [] {
      assert FreeUnits(l, units, t) == {};
    } else {
      hide Free, AllFree, Of, FreeRooms;
      var n := |units| - 1;
      CountFreeUnits(l, units[..n], t);
      GatherLast(l, units, t);
      var beds := BedsOf(l, units, n);
      NoneFreeIff(beds);
      LastHasFree(l, units, t);
      LastFreeUnit(l, units, t);
      hide FreeUnits, HasFree, BedsOf;
    }
  }

  lemma LastFreeUnit(l: Listing, units: seq<Unit>, t: Terms)
    requires units != []
    ensures var n := |units| - 1; var last := if HasFree(l, units, t, n) then {n} else {};
      FreeUnits(l, units, t) == FreeUnits(l, units[..n], t) + last && FreeUnits(l, units[..n], t) !! last
  {
    LastHasFree(l, units, t);
    hide HasFree, BedsOf;
  }

  lemma LastHasFree(l: Listing, units: seq<Unit>, t: Terms)
    requires units != []
    ensures var n := |units| - 1; var beds := BedsOf(l, units, n);
      && (HasFree(l, units, t, n) <==> units[n].terms == t && exists k :: 0 <= k < |beds| && beds[k].available)
      && forall i: nat :: i < n ==> (HasFree(l, units[..n], t, i) <==> HasFree(l, units, t, i))
  {
    var n := |units| - 1;
    FewerUnits(l, units, t, n);
    var beds := BedsOf(l, units, n);
    if units[n].terms == t {
      forall k: nat | k < |beds| && beds[k].available ensures HasFree(l, units, t, n) {
        assert IsFree(l, units, t, n, k);
      }
    }
    hide BedsOf;
    forall i: nat | i < n ensures HasFree(l, units[..n], t, i) <==> HasFree(l, units, t, i) {
      if k: nat :| IsFree(l, units, t, i, k) { assert IsFree(l, units[..n], t, i, k); }
      if k: nat :| IsFree(l, units[..n], t, i, k) { assert IsFree(l, units, t, i, k); }
    }
  }

  lemma {:induction false} FirstFree(l: Listing, units: seq<Unit>, t: Terms, i: nat, k: nat)
    requires IsFirstFree(l, units, t, i, k)
    ensures AllFree(l, Of(units, t)) != [] && AllFree(l, Of(units, t))[0] == BedsOf(l, units, i)[k].id
  {
    hide Free, AllFree, Of, FreeRooms;
    var n := |units| - 1;
    FewerUnits(l, units, t, n);
    GatherLast(l, units, t);
    if i < n {
      assert IsFirstFree(l, units[..n], t, i, k);
      FirstFree(l, units[..n], t, i, k);
    } else {
      CountFree(l, units[..n], t);
      assert FreePlaces(l, units[..n], t) == {};
      forall m | 0 <= m < k ensures !BedsOf(l, units, n)[m].available {
        assert !IsFree(l, units, t, n, m);
      }
      FirstOfFree(BedsOf(l, units, n), k);
    }
  }

  /** A row counts the available beds of the units with its terms and the rooms
      that have one, and offers the first of these beds in the order of the units. */
  lemma RowCountsFreeBeds(l: Listing, units: seq<Unit>, g: Group)
    requires g in Output(l, units)
    ensures g.availableCount == |FreePlaces(l, units, g.terms)|
    ensures g.freeRoomCount == |FreeUnits(l, units, g.terms)|
    ensures g.firstAvailableBedId.None? <==> FreePlaces(l, units, g.terms) == {}
    ensures forall i: nat, k: nat :: IsFirstFree(l, units, g.terms, i, k) ==>
      g.firstAvailableBedId == Some(BedsOf(l, units, i)[k].id)
  {
    hide Output, Of, AllFree, FreeRooms, FreePlaces, FreeUnits, IsFirstFree;
    RowsPartitionUnits(l, units);
    CountFree(l, units, g.terms);
    CountFreeUnits(l, units, g.terms);
    forall i: nat, k: nat | IsFirstFree(l, units, g.terms, i, k)
      ensures i < |units| && k < |BedsOf(l, units, i)|
      ensures g.firstAvailableBedId == Some(BedsOf(l, units, i)[k].id)
    {
      InRange(l, units, g.terms, i, k);
      FirstFree(l, units, g.terms, i, k);
    }
  }

  lemma InRange(l: Listing, units: seq<Unit>, t: Terms, i: nat, k: nat)
    requires IsFirstFree(l, units, t, i, k)
    ensures i < |units| && k < |BedsOf(l, units, i)|
  {
  }

  // ---- held beds ----------------------------------------------------------------------

  /** Bed `k` is the first of the beds that the student holds. */
  predicate FirstHeld(beds: seq<Bed>, liveBeds: map<string, Held>, k: nat) {
    k < |beds| && beds[k].id in liveBeds && forall m :: 0 <= m < k ==> beds[m].id !in liveBeds
  }

  lemma {:induction false} HeldBedIs(beds: seq<Bed>, liveBeds: map<string, Held>)
    ensures HeldBed(beds, liveBeds).None? <==> forall k :: 0 <= k < |beds| ==> beds[k].id !in liveBeds
    ensures forall k: nat :: FirstHeld(beds, liveBeds, k) ==> HeldBed(beds, liveBeds) == Some(liveBeds[beds[k].id])
  {
    if beds != [] {
      var rest := beds[1..];
      HeldBedIs(rest, liveBeds);
      assert forall k :: 1 <= k < |beds| ==> rest[k - 1] == beds[k];
      forall k: nat | FirstHeld(beds, liveBeds, k)
        ensures HeldBed(beds, liveBeds) == Some(liveBeds[beds[k].id])
      {
        if k > 0 { assert FirstHeld(rest, liveBeds, k - 1); }
      }
    }
  }

  /** The student holds a bed of this unit, which is of the room type. */
  ghost predicate Holds(l: Listing, units: seq<Unit>, t: Terms, i: nat)
    requires i < |units|
  {
    && units[i].terms.category == t.category && units[i].terms.selfContained == t.selfContained
    && exists k :: 0 <= k < |BedsOf(l, units, i)| && BedsOf(l, units, i)[k].id in l.liveBeds
  }

  lemma HoldsIff(l: Listing, units: seq<Unit>, t: Terms, i: nat)
    requires i < |units|
    ensures Holds(l, units, t, i) <==> HeldIn(l, units, t, i)
  {
    HeldBedIs(BedsOf(l, units, i), l.liveBeds);
    hide HeldBed;
  }

  /** Every price row of a room type is marked with the student's first bed in the
      last unit of the type where there is one, and not at all without one. */
  lemma RowIsMarkedByHeldBed(l: Listing, units: seq<Unit>, g: Group)
    requires g in Output(l, units)
    ensures g.myStatus.None? <==> forall i :: 0 <= i < |units| ==> !Holds(l, units, g.terms, i)
    ensures forall i: nat, k: nat ::
      (i < |units| && Holds(l, units, g.terms, i) && (forall j :: i < j < |units| ==> !Holds(l, units, g.terms, j))
       && FirstHeld(BedsOf(l, units, i), l.liveBeds, k)) ==>
        g.myStatus == Some(l.liveBeds[BedsOf(l, units, i)[k].id])
  {
    hide Output, HeldBed, Holds;
    HeldMarksEveryPrice(l, units, g);
    forall i: nat | i < |units| ensures Holds(l, units, g.terms, i) <==> HeldIn(l, units, g.terms, i) {
      HoldsIff(l, units, g.terms, i);
    }
    hide HeldIn;
    forall i: nat, k: nat | i < |units| && Holds(l, units, g.terms, i)
      && (forall j :: i < j < |units| ==> !Holds(l, units, g.terms, j))
      && FirstHeld(BedsOf(l, units, i), l.liveBeds, k)
      ensures g.myStatus == Some(l.liveBeds[BedsOf(l, units, i)[k].id])
    {
      assert IsLastHeld(l, units, g.terms, i);
      HeldBedIs(BedsOf(l, units, i), l.liveBeds);
    }
  }

  // ---- photos and amenities ---------------------------------------------------------------

  lemma {:induction false} OfIff(units: seq<Unit>, t: Terms, u: Unit)
    ensures u in Of(units, t) <==> u in units && u.terms == t
  {
    if units != [] { OfIff(units[..|units| - 1], t, u); }
  }

  /** An inspection photo fits a room type by its own room category, or, without
      one, by being a bedroom of the category; and by its bathroom where that is known. */
  ghost predicate Fits(photo: VerificationPhoto, t: Terms) {
    && (photo.selfContained == None || photo.selfContained == Some(t.selfContained))
    && (if photo.roomCategory == None || photo.roomCategory == Some("")
        then photo.category == Some(t.category + "_bedroom") else photo.roomCategory == Some(t.category))
  }

  lemma FitsIff(photo: VerificationPhoto, t: Terms)
    ensures Belongs(photo, t.category, t.selfContained) <==> Fits(photo, t)
  {
  }

  ghost predicate Inspected(l: Listing, t: Terms, key: string) {
    exists photo :: photo in l.verificationPhotos && photo.storageKey == key && Fits(photo, t)
  }

  ghost predicate Landlords(l: Listing, units: seq<Unit>, t: Terms, key: string) {
    exists u :: u in units && u.terms == t && UnitPhoto(u.id, key) in l.unitPhotos
  }

  lemma InspectedIff(l: Listing, t: Terms, key: string)
    ensures VerifiedShows(l.verificationPhotos, t, key) <==> Inspected(l, t, key)
  {
    hide Belongs, Fits;
    forall photo ensures Belongs(photo, t.category, t.selfContained) <==> Fits(photo, t) { FitsIff(photo, t); }
    if photo :| photo in l.verificationPhotos && photo.storageKey == key && Fits(photo, t) {
      var i :| 0 <= i < |l.verificationPhotos| && l.verificationPhotos[i] == photo;
    }
  }

  lemma LandlordsIff(l: Listing, units: seq<Unit>, t: Terms, key: string)
    ensures OwnShows(l, Of(units, t), key) <==> Landlords(l, units, t, key)
  {
    hide Of;
    forall u ensures u in Of(units, t) <==> u in units && u.terms == t { OfIff(units, t, u); }
    if u :| u in units && u.terms == t && UnitPhoto(u.id, key) in l.unitPhotos {
      var i :| 0 <= i < |Of(units, t)| && Of(units, t)[i] == u;
    }
  }

  /** The position of the first occurrence, the length without one. */
  function FirstAt(s: seq<string>, x: string): (i: nat)
    ensures i <= |s| && (i < |s| ==> s[i] == x) && forall j :: 0 <= j < i ==> s[j] != x
  {
    if s == [] || s[0] == x then 0 else 1 + FirstAt(s[1..], x)
  }

  ghost predicate InOrderOf(r: seq<string>, s: seq<string>) {
    forall i, j :: 0 <= i < j < |r| ==> FirstAt(s, r[i]) < FirstAt(s, r[j])
  }

  lemma FirstAtPrefix(s: seq<string>, x: string, y: string)
    requires x in s
    ensures FirstAt(s + [y], x) == FirstAt(s, x) < |s|
  {
    var i := FirstAt(s, x);
    assert (s + [y])[..|s|] == s;
    assert i < |s| && (s + [y])[i] == x;
    assert forall j :: 0 <= j < i ==> (s + [y])[j] == s[j];
  }

  /** Showing each once keeps the order of the first occurrences. */
  lemma {:induction false} DedupeKeepsOrder(s: seq<string>)
    ensures InOrderOf(Dedupe(s), s)
  {
    hide FirstAt;
    if s != [] {
      var n := |s| - 1;
      var rest := s[..n];
      DedupeKeepsOrder(rest);
      DedupeKeepsEach(rest);
      assert s == rest + [s[n]];
      forall x | x in Dedupe(rest) ensures FirstAt(s, x) == FirstAt(rest, x) < n { FirstAtPrefix(rest, x, s[n]); }
      if s[n] !in rest { NewIsLast(rest, s[n]); }
      forall i, j | 0 <= i < j < |Dedupe(s)| ensures FirstAt(s, Dedupe(s)[i]) < FirstAt(s, Dedupe(s)[j]) {
        assert Dedupe(s)[i] == Dedupe(rest)[i] && Dedupe(rest)[i] in Dedupe(rest);
        if j < |Dedupe(rest)| {
          assert Dedupe(s)[j] == Dedupe(rest)[j] && Dedupe(rest)[j] in Dedupe(rest);
        }
      }
    }
  }

  lemma NewIsLast(s: seq<string>, x: string)
    requires x !in s
    ensures FirstAt(s + [x], x) == |s|
  {
    var i := FirstAt(s + [x], x);
    assert (s + [x])[|s|] == x;
    assert forall j :: 0 <= j < |s| ==> (s + [x])[j] == s[j];
  }

  /** The photos of a row: those of the inspection that fit its room type, then
      the landlord's of its units, each once. */
  lemma RowShowsPhotosInOrder(l: Listing, units: seq<Unit>, g: Group)
    requires g in Output(l, units)
    ensures forall key :: key in g.roomPhotos <==> Inspected(l, g.terms, key) || Landlords(l, units, g.terms, key)
    ensures forall i, j :: 0 <= i < j < |g.roomPhotos| ==> g.roomPhotos[i] != g.roomPhotos[j]
    ensures forall i, j :: 0 <= i < j < |g.roomPhotos| && Inspected(l, g.terms, g.roomPhotos[j]) ==>
      Inspected(l, g.terms, g.roomPhotos[i])
  {
    hide Output, Kinds, LastHeld, Dedupe, PhotosForRoomType, Of, AllFree, FreeRooms, AllPhotos, AllAmenities, Inspected,
         Landlords, VerifiedShows, OwnShows, FirstAt;
    forall key ensures key in g.roomPhotos <==> Inspected(l, g.terms, key) || Landlords(l, units, g.terms, key) {
      RowShowsItsPhotos(l, units, g, key);
      InspectedIff(l, g.terms, key);
      LandlordsIff(l, units, g.terms, key);
    }
    RowShowsItsPhotos(l, units, g, "");
    InOutput(l, units, g);
    var verified := PhotosForRoomType(l.verificationPhotos, g.terms.category, g.terms.selfContained);
    var own := AllPhotos(l, Of(units, g.terms));
    assert g.roomPhotos == Dedupe(verified + own);
    DedupeKeepsOrder(verified + own);
    forall key ensures Inspected(l, g.terms, key) <==> FirstAt(verified + own, key) < |verified| {
      VerifiedPhotos(l.verificationPhotos, g.terms, key);
      InspectedIff(l, g.terms, key);
      FirstInPart(verified, own, key);
    }
  }

  lemma FirstInPart(a: seq<string>, b: seq<string>, x: string)
    ensures x in a <==> FirstAt(a + b, x) < |a|
  {
    var i := FirstAt(a + b, x);
    if x in a {
      var j :| 0 <= j < |a| && a[j] == x;
      assert (a + b)[j] == x;
    }
    if i < |a| { assert (a + b)[i] == a[i]; }
  }

  lemma {:induction false} GatheredAmenities(l: Listing, mine: seq<Unit>, text: string)
    ensures text in AllAmenities(l, mine) <==>
      exists u :: u in mine && u.id in l.amenities && text in l.amenities[u.id]
  {
    if mine != [] {
      GatheredAmenities(l, mine[..|mine| - 1], text);
      assert mine == mine[..|mine| - 1] + [mine[|mine| - 1]];
    }
  }

  /** The amenities of a row are those of its units, each once. */
  lemma RowShowsItsAmenities(l: Listing, units: seq<Unit>, g: Group, text: string)
    requires g in Output(l, units)
    ensures text in g.roomAmenities <==>
      exists u :: u in units && u.terms == g.terms && u.id in l.amenities && text in l.amenities[u.id]
    ensures forall i, j :: 0 <= i < j < |g.roomAmenities| ==> g.roomAmenities[i] != g.roomAmenities[j]
  {
    hide Output, Kinds, LastHeld, Dedupe, PhotosForRoomType, Of, AllFree, FreeRooms, AllPhotos, AllAmenities;
    InOutput(l, units, g);
    var gathered := AllAmenities(l, Of(units, g.terms));
    assert g.roomAmenities == Dedupe(gathered);
    DedupeKeepsEach(gathered);
    GatheredAmenities(l, Of(units, g.terms), text);
    forall u ensures u in Of(units, g.terms) <==> u in units && u.terms == g.terms { OfIff(units, g.terms, u); }
  }
}
