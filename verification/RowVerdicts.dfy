/** Which spreadsheet rows are accepted, told in the fields of the rows:
    apps/web/src/lib/room-import.ts. */
module RowVerdicts {
  import opened Text
  import opened OrderedMap
  import opened RoomLabels
  import opened RoomImport
  import Splitting

  // ---- accepted and refused rows -----------------------------------------------------

  predicate LegalLengths(row: Row) {
    1 <= |row.roomCode| <= 100 && |row.buildingName| <= 120 && |row.floorLabel| <= 80
  }

  /** Two rooms come to the same key. */
  predicate Clash(code: string, building: string, code': string, building': string) {
    Normalize(code) + "|" + Normalize(building) == Normalize(code') + "|" + Normalize(building')
  }

  /** An earlier row with a code clashes. */
  ghost predicate Repeats(rows: seq<Row>, i: nat)
    requires i < |rows|
  {
    exists j :: 0 <= j < i && rows[j].roomCode != ""
      && Clash(rows[j].roomCode, rows[j].buildingName, rows[i].roomCode, rows[i].buildingName)
  }

  /** A room of the property clashes, one without a building with a blank one. */
  ghost predicate Exists(existing: seq<Room>, row: Row) {
    exists k :: 0 <= k < |existing|
      && Clash(existing[k].roomCode, match existing[k].buildingName case Some(b) => b case None => "",
               row.roomCode, row.buildingName)
  }

  lemma RepeatsIff(rows: seq<Row>, i: nat)
    requires i < |rows|
    ensures SeenBefore(rows, i, RowKey(rows[i])) <==> Repeats(rows, i)
  {
    hide Normalize;
    if SeenBefore(rows, i, RowKey(rows[i])) {
      var j :| 0 <= j < i && j < |rows| && rows[j].roomCode != "" && RowKey(rows[j]) == RowKey(rows[i]);
      assert Clash(rows[j].roomCode, rows[j].buildingName, rows[i].roomCode, rows[i].buildingName);
    }
    if Repeats(rows, i) {
      var j :| 0 <= j < i && rows[j].roomCode != ""
        && Clash(rows[j].roomCode, rows[j].buildingName, rows[i].roomCode, rows[i].buildingName);
      assert RowKey(rows[j]) == RowKey(rows[i]);
    }
  }

  lemma ExistsIff(existing: seq<Room>, row: Row)
    ensures RowKey(row) in ExistingKeys(existing) <==> Exists(existing, row)
  {
    hide Normalize;
    if Exists(existing, row) {
      var k :| 0 <= k < |existing|
        && Clash(existing[k].roomCode, match existing[k].buildingName case Some(b) => b case None => "",
                 row.roomCode, row.buildingName);
      var building := if existing[k].buildingName.Some? then existing[k].buildingName.value else "";
      assert RoomKey(existing[k].roomCode, building) == RowKey(row);
    }
  }

  /** A row is accepted exactly when its texts have a legal length, its text names
      a room type, and neither an earlier row nor a room there is has its key.
      It keeps what was in the file, and the type its text names. */
  lemma ValidIff(rows: seq<Row>, types: seq<RoomType>, existing: seq<Room>, planned: seq<PlannedRow>, i: nat)
    requires PlannedAll(rows, types, ExistingKeys(existing), planned) && i < |rows|
    ensures planned[i].row == rows[i]
    ensures forall id :: planned[i].roomTypeId == Some(id) <==> MatchRoomType(rows[i].roomType, types) == Id(id)
    ensures planned[i].error.None? <==>
      && LegalLengths(rows[i]) && !Repeats(rows, i) && !Exists(existing, rows[i])
      && exists id :: MatchRoomType(rows[i].roomType, types) == Id(id)
  {
    hide RowKey, MatchRoomType, SeenBefore, ExistingKeys, Repeats, Exists;
    assert PlannedFrom(rows, types, ExistingKeys(existing), i, planned[i]);
    RepeatsIff(rows, i);
    ExistsIff(existing, rows[i]);
    var found := MatchRoomType(rows[i].roomType, types);
    if found.Id? { assert found == Id(found.id); }
  }

  /** The error is of the first check that fails; an unknown type comes last. */
  lemma ErrorIsFirst(rows: seq<Row>, types: seq<RoomType>, existing: seq<Room>, planned: seq<PlannedRow>, i: nat)
    requires PlannedAll(rows, types, ExistingKeys(existing), planned) && i < |rows|
    ensures var row, error := rows[i], planned[i].error;
      && (row.roomCode == "" ==> error == Some("Room code is empty"))
      && (|row.roomCode| > 100 ==> error == Some("Room code is too long (100 characters at most)"))
      && (1 <= |row.roomCode| <= 100 && |row.buildingName| > 120 ==>
            error == Some("Building is too long (120 characters at most)"))
      && (1 <= |row.roomCode| <= 100 && |row.buildingName| <= 120 && |row.floorLabel| > 80 ==>
            error == Some("Floor is too long (80 characters at most)"))
      && (LegalLengths(row) && Repeats(rows, i) ==> error == Some("Listed twice in this file"))
      && (LegalLengths(row) && !Repeats(rows, i) && Exists(existing, row) ==>
            error == Some("Already exists in this building"))
      && (LegalLengths(row) && !Repeats(rows, i) && !Exists(existing, row) ==>
            forall m :: MatchRoomType(row.roomType, types) == Error(m) <==> error == Some(m))
  {
    hide RowKey, MatchRoomType, SeenBefore, ExistingKeys, Repeats, Exists;
    assert PlannedFrom(rows, types, ExistingKeys(existing), i, planned[i]);
    RepeatsIff(rows, i);
    ExistsIff(existing, rows[i]);
  }

  // ---- which rows go into a batch ------------------------------------------------------

  /** An empty cell is no value. */
  predicate Cell(text: string, value: Option<string>) {
    (text == "" && value == None) || (text != "" && value == Some(text))
  }

  /** The row is accepted and of this type, building and floor. */
  predicate GoesTo(p: PlannedRow, key: GroupKey) {
    && p.error == None && p.roomTypeId == Some(key.roomTypeId) && key.roomTypeId != ""
    && Cell(p.row.buildingName, key.buildingName) && Cell(p.row.floorLabel, key.floorLabel)
  }

  ghost predicate Positions(planned: seq<PlannedRow>, key: GroupKey, at: seq<nat>) {
    && (forall k :: 0 <= k < |at| ==> at[k] < |planned|)
    && (forall j, k :: 0 <= j < k < |at| ==> at[j] < at[k])
    && (forall i :: 0 <= i < |planned| ==> (GoesTo(planned[i], key) <==> i in at))
  }

  lemma GoesToIff(p: PlannedRow, key: GroupKey)
    ensures GoesTo(p, key) <==> Importable(p) && KeyOf(p) == key
  {
  }

  /** The positions of the rows that go to a type, building and floor. */
  ghost function Sent(planned: seq<PlannedRow>, key: GroupKey): (at: seq<nat>)
    ensures forall k :: 0 <= k < |at| ==> at[k] < |planned|
  {
    if planned == [] then []
    else
      var n := |planned| - 1;
      Sent(planned[..n], key) + if GoesTo(planned[n], key) then [n] else []
  }

  lemma {:induction false} SentPositions(planned: seq<PlannedRow>, key: GroupKey)
    ensures Positions(planned, key, Sent(planned, key))
  {
    hide GoesTo;
    if planned != [] {
      var n := |planned| - 1;
      SentPositions(planned[..n], key);
      var before, at := Sent(planned[..n], key), Sent(planned, key);
      assert n !in before;
      forall i | 0 <= i < |planned| ensures GoesTo(planned[i], key) <==> i in at {
        assert i in at <==> i in before || (i == n && GoesTo(planned[n], key));
        if i < n { assert planned[..n][i] == planned[i]; }
      }
    }
  }

  ghost predicate CodesAt(planned: seq<PlannedRow>, codes: seq<string>, at: seq<nat>)
    requires forall k :: 0 <= k < |at| ==> at[k] < |planned|
  {
    |codes| == |at| && forall k :: 0 <= k < |at| ==> codes[k] == planned[at[k]].row.roomCode
  }

  lemma {:induction false} SentCodes(planned: seq<PlannedRow>, key: GroupKey)
    ensures CodesAt(planned, CodesOf(planned, key), Sent(planned, key))
  {
    if planned != [] {
      SentCodes(planned[..|planned| - 1], key);
      CodesLast(planned, key);
      hide GoesTo, CodesOf;
    }
  }

  lemma CodesLast(planned: seq<PlannedRow>, key: GroupKey)
    requires planned != []
    ensures var n := |planned| - 1;
      CodesOf(planned, key) ==
        CodesOf(planned[..n], key) + if GoesTo(planned[n], key) then [planned[n].row.roomCode] else []
  {
    GoesToIff(planned[|planned| - 1], key);
    hide GoesTo, Importable, KeyOf;
  }

  /** The codes sent for a type, building and floor are those of the accepted rows
      that name them, each once and in the order of the file. */
  lemma CodesInFileOrder(planned: seq<PlannedRow>, key: GroupKey) returns (at: seq<nat>)
    ensures Positions(planned, key, at)
    ensures |CodesOf(planned, key)| == |at|
    ensures forall k :: 0 <= k < |at| ==> CodesOf(planned, key)[k] == planned[at[k]].row.roomCode
  {
    hide Sent, CodesOf, GoesTo;
    at := Sent(planned, key);
    SentPositions(planned, key);
    SentCodes(planned, key);
  }

  // ---- why a text names no type -----------------------------------------------------------

  ghost predicate Several(types: seq<RoomType>, fits: RoomType -> bool) {
    exists i, j :: 0 <= i < j < |types| && fits(types[i]) && fits(types[j])
  }

  lemma SeveralIff(types: seq<RoomType>, fits: RoomType -> bool)
    ensures |Filter(types, fits)| > 1 <==> Several(types, fits)
  {
    FilterCounts(types, fits);
    if !NoneFit(types, fits) {
      var i :| 0 <= i < |types| && fits(types[i]);
      if !OnlyAt(types, fits, i) {
        var j :| 0 <= j < |types| && j != i && fits(types[j]);
        assert Several(types, fits) by { if i < j { assert i < j; } else { assert j < i; } }
        forall k ensures !OnlyAt(types, fits, k) {}
      }
    }
    if i :| OnlyAt(types, fits, i) { assert !Several(types, fits); }
  }

  /** A text that names no type is refused with the reason: it is blank, or no
      template name and the title of several types, or of none and the category of
      several, or of none. */
  lemma UnknownTypeSays(text: string, types: seq<RoomType>)
    ensures var wanted := Normalize(text); var found := MatchRoomType(text, types);
      var titled, inCategory := (t: RoomType) => HasTitle(t, wanted), (t: RoomType) => HasCategory(t, wanted);
      && (Trim(text) == "" && |types| != 1 ==> found == Error("Add the room type"))
      && (Trim(text) != "" && NoLabelFits(types, wanted) ==>
            && (Several(types, titled) ==>
                  found == Error("Several room types are called \"" + text + "\"; pick "
                    + JoinWith(Choices(Filter(types, titled), ImportLabels(types)), " or ")
                    + " from the template list"))
            && (NoneFit(types, titled) && Several(types, inCategory) ==>
                  found == Error("\"" + text + "\" fits several room types; use the exact name"))
            && (NoneFit(types, titled) && NoneFit(types, inCategory) ==>
                  found == Error("No room type called \"" + text + "\"")))
  {
    hide Normalize, HasTitle, HasCategory, ImportLabels, Trim, Choices, JoinWith;
    var wanted := Normalize(text);
    var titled, inCategory := (t: RoomType) => HasTitle(t, wanted), (t: RoomType) => HasCategory(t, wanted);
    SeveralIff(types, titled);
    SeveralIff(types, inCategory);
    FilterCounts(types, titled);
    FilterCounts(types, inCategory);
    FindsFirst(ImportLabels(types), wanted);
  }

  /** The choices it lists are the quoted template names of these types. */
  lemma ChoicesAreNames(types: seq<RoomType>, labels: Labels, k: nat, i: nat)
    requires k < |types| && i < |labels| && UniqueKeys(labels) && labels[i].0 == types[k].id
    ensures |Choices(types, labels)| == |types| && Choices(types, labels)[k] == "\"" + labels[i].1 + "\""
  {
    assert Find(labels, types[k].id) == i;
  }

  // ---- what a text is compared with -----------------------------------------------------

  /** The version is one of the type's two. */
  predicate IsVersionOf(v: Version, t: RoomType) {
    t.pendingVersion == Some(v) || t.currentVersion == Some(v)
  }

  lemma TitleFitsIff(t: RoomType, text: string)
    ensures HasTitle(t, Normalize(text)) <==>
      exists v :: IsVersionOf(v, t) && LowerAll(Words(v.title)) == LowerAll(Words(text))
  {
    hide Normalize, Words, LowerAll;
    if t.pendingVersion.Some? { SameNormalFormIffSameWords(t.pendingVersion.value.title, text); }
    if t.currentVersion.Some? { SameNormalFormIffSameWords(t.currentVersion.value.title, text); }
    if t.pendingVersion.Some? { assert IsVersionOf(t.pendingVersion.value, t); }
    if t.currentVersion.Some? { assert IsVersionOf(t.currentVersion.value, t); }
  }

  /** The categories the service knows. */
  const CATEGORIES := [
    "single", "double", "triple", "quad", "studio", "self_contained", "bedsitter", "dormitory", "other"]

  /** The label of a known category is its name capitalised, with a hyphen for its underscore. */
  lemma CategoryLabels(category: string)
    ensures category !in CATEGORIES ==> CategoryLabel(category) == category
    ensures category in CATEGORIES ==>
      && |CategoryLabel(category)| == |category| && 'A' <= CategoryLabel(category)[0] <= 'Z'
      && Lower(CategoryLabel(category)) == if category == "self_contained" then "self-contained" else category
  {
    hide IsSpace;
    if category in CATEGORIES {
      var s := Lower(CategoryLabel(category));
      if category == "self_contained" {
        assert s == "self-contained";
      } else {
        assert s == category;
      }
    }
  }

  /** The key of a category with blanks for underscores is its parts set apart by blanks. */
  lemma {:induction false} SpacedIsJoined(parts: seq<string>)
    requires parts != [] && Splitting.Free(parts, '_')
    ensures Spaced(Splitting.Join(parts, '_')) == Splitting.Join(parts, ' ')
  {
    SpacedPlain(parts[0]);
    if |parts| > 1 {
      SpacedIsJoined(parts[1..]);
      SpacedAppend(parts[0] + ['_'], Splitting.Join(parts[1..], '_'));
      SpacedAppend(parts[0], ['_']);
    }
  }

  lemma SpacedPlain(s: string)
    requires '_' !in s
    ensures Spaced(s) == s && Spaced(['_']) == [' ']
  {
  }

  lemma SpacedAppend(s: string, t: string)
    ensures Spaced(s + t) == Spaced(s) + Spaced(t)
  {
  }

  /** A text fits a category by its label or by its key with blanks for underscores. */
  lemma CategoryFitsIff(t: RoomType, text: string)
    ensures HasCategory(t, Normalize(text)) <==>
      exists v :: IsVersionOf(v, t)
        && (LowerAll(Words(CategoryLabel(v.category))) == LowerAll(Words(text))
            || LowerAll(Words(Spaced(v.category))) == LowerAll(Words(text)))
  {
    hide Normalize, Words, LowerAll, CategoryLabel, Spaced;
    forall v | IsVersionOf(v, t)
      ensures NamesCategory(Some(v), Normalize(text)) <==>
        (LowerAll(Words(CategoryLabel(v.category))) == LowerAll(Words(text))
         || LowerAll(Words(Spaced(v.category))) == LowerAll(Words(text)))
    {
      SameNormalFormIffSameWords(CategoryLabel(v.category), text);
      SameNormalFormIffSameWords(Spaced(v.category), text);
    }
    if t.pendingVersion.Some? { assert IsVersionOf(t.pendingVersion.value, t); }
    if t.currentVersion.Some? { assert IsVersionOf(t.currentVersion.value, t); }
  }
}
