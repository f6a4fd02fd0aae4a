/** The room spreadsheet upload: apps/web/src/lib/room-import.ts. */
module RoomImport {
  import opened Text
  import opened OrderedMap
  import opened RoomLabels

  datatype Row = Row(rowNumber: nat, roomCode: string, roomType: string, buildingName: string, floorLabel: string)
  datatype Room = Room(roomCode: string, buildingName: Option<string>)
  datatype Match = Id(id: string) | Error(message: string)
  datatype PlannedRow = PlannedRow(row: Row, roomTypeId: Option<string>, error: Option<string>)
  datatype GroupKey = GroupKey(roomTypeId: string, buildingName: Option<string>, floorLabel: Option<string>)
  datatype Batch = Batch(key: GroupKey, roomCodes: seq<string>)

  const BATCH_LIMIT: nat := 200

  // ---- reading a room type back ---------------------------------------------

  function CategoryLabel(category: string): string {
    match category
    case "single" => "Single"
    case "double" => "Double"
    case "triple" => "Triple"
    case "quad" => "Quad"
    case "studio" => "Studio"
    case "self_contained" => "Self-contained"
    case "bedsitter" => "Bedsitter"
    case "dormitory" => "Dormitory"
    case "other" => "Other"
    case _ => category
  }

  function Spaced(s: string): string {
    seq(|s|, i requires 0 <= i < |s| => if s[i] == '_' then ' ' else s[i])
  }

  predicate HasTitle(t: RoomType, wanted: string) {
    || (t.pendingVersion.Some? && Normalize(t.pendingVersion.value.title) == wanted)
    || (t.currentVersion.Some? && Normalize(t.currentVersion.value.title) == wanted)
  }

  predicate NamesCategory(v: Option<Version>, wanted: string) {
    v.Some? && (Normalize(CategoryLabel(v.value.category)) == wanted || Normalize(Spaced(v.value.category)) == wanted)
  }

  predicate HasCategory(t: RoomType, wanted: string) {
    NamesCategory(t.pendingVersion, wanted) || NamesCategory(t.currentVersion, wanted)
  }

  /** `types.filter(fits)`. */
  function Filter(types: seq<RoomType>, fits: RoomType -> bool): seq<RoomType> {
    if types == [] then []
    else
      var n := |types| - 1;
      if fits(types[n]) then Filter(types[..n], fits) + [types[n]] else Filter(types[..n], fits)
  }

  /** The first name with a given normal form. */
  function FindLabel(labels: Labels, wanted: string): (i: nat)
    ensures i <= |labels|
  {
    if labels == [] || Normalize(labels[0].1) == wanted then 0 else 1 + FindLabel(labels[1..], wanted)
  }

  lemma {:induction false} FindsFirst(labels: Labels, wanted: string)
    ensures var i := FindLabel(labels, wanted);
      && (i < |labels| ==> Normalize(labels[i].1) == wanted)
      && forall j :: 0 <= j < i ==> Normalize(labels[j].1) != wanted
  {
    hide Normalize;
    if labels != [] { FindsFirst(labels[1..], wanted); }
  }

  function LabelOf(labels: Labels, id: string): string {
    var i := Find(labels, id);
    if i < |labels| then labels[i].1 else "undefined"
  }

  function MatchCategory(text: string, types: seq<RoomType>): Match {
    var wanted := Normalize(text);
    var byCategory := Filter(types, t => HasCategory(t, wanted));
    if |byCategory| == 1 then Id(byCategory[0].id)
    else if |byCategory| > 1 then Error("\"" + text + "\" fits several room types; use the exact name")
    else Error("No room type called \"" + text + "\"")
  }

  /** The names of the room types, as the error message lists them. */
  function Choices(types: seq<RoomType>, labels: Labels): seq<string> {
    seq(|types|, i requires 0 <= i < |types| => "\"" + LabelOf(labels, types[i].id) + "\"")
  }

  function MatchTitle(text: string, types: seq<RoomType>, labels: Labels): Match {
    var wanted := Normalize(text);
    var byTitle := Filter(types, t => HasTitle(t, wanted));
    if |byTitle| == 1 then Id(byTitle[0].id)
    else if |byTitle| > 1 then
      Error("Several room types are called \"" + text + "\"; pick " + JoinWith(Choices(byTitle, labels), " or ")
            + " from the template list")
    else MatchCategory(text, types)
  }

  function MatchRoomType(text: string, types: seq<RoomType>): Match {
    if Trim(text) == "" then
      if |types| == 1 then Id(types[0].id) else Error("Add the room type")
    else
      var labels := ImportLabels(types);
      var byLabel := FindLabel(labels, Normalize(text));
      if byLabel < |labels| then Id(labels[byLabel].0) else MatchTitle(text, types, labels)
  }

  /** Position `i`, and no other, fits. */
  ghost predicate OnlyAt(types: seq<RoomType>, fits: RoomType -> bool, i: int) {
    0 <= i < |types| && fits(types[i]) && forall j :: 0 <= j < |types| && j != i ==> !fits(types[j])
  }

  ghost predicate NoneFit(types: seq<RoomType>, fits: RoomType -> bool) {
    forall j :: 0 <= j < |types| ==> !fits(types[j])
  }

  lemma {:induction false} FilterCounts(types: seq<RoomType>, fits: RoomType -> bool)
    ensures |Filter(types, fits)| == 0 <==> NoneFit(types, fits)
    ensures |Filter(types, fits)| == 1 <==> exists i :: OnlyAt(types, fits, i)
    ensures forall i :: OnlyAt(types, fits, i) ==> Filter(types, fits) == [types[i]]
  {
    if types != [] {
      var n := |types| - 1;
      var init := types[..n];
      FilterCounts(init, fits);
      if fits(types[n]) {
        if NoneFit(init, fits) { assert OnlyAt(types, fits, n); }
      } else {
        if i :| OnlyAt(init, fits, i) { assert OnlyAt(types, fits, i); }
        forall i | OnlyAt(types, fits, i) ensures OnlyAt(init, fits, i) {}
      }
      forall i | OnlyAt(types, fits, i) ensures Filter(types, fits) == [types[i]] {
        if i == n {
          forall j | 0 <= j < n ensures !fits(init[j]) { assert init[j] == types[j]; }
          assert NoneFit(init, fits);
        } else {
          assert OnlyAt(init, fits, i);
        }
      }
    }
  }

  ghost predicate LabelFits(types: seq<RoomType>, wanted: string, id: string) {
    exists i :: (0 <= i < |ImportLabels(types)| && ImportLabels(types)[i].0 == id
                 && Normalize(ImportLabels(types)[i].1) == wanted)
  }

  ghost predicate NoLabelFits(types: seq<RoomType>, wanted: string) {
    forall i :: 0 <= i < |ImportLabels(types)| ==> Normalize(ImportLabels(types)[i].1) != wanted
  }

  ghost predicate OnlyTypeIs(types: seq<RoomType>, fits: RoomType -> bool, id: string) {
    exists i :: OnlyAt(types, fits, i) && types[i].id == id
  }

  /** A text names a room type exactly when it is the type's template name, or
      nobody's and the title of that type alone, or nobody's title either and
      the category of that type alone; a blank only when there is one type. */
  lemma MatchIff(text: string, types: seq<RoomType>, id: string)
    ensures MatchRoomType(text, types) == Id(id) <==>
      var wanted := Normalize(text);
      if Trim(text) == "" then |types| == 1 && types[0].id == id
      else
        || LabelFits(types, wanted, id)
        || (NoLabelFits(types, wanted) && OnlyTypeIs(types, t => HasTitle(t, wanted), id))
        || (NoLabelFits(types, wanted) && NoneFit(types, t => HasTitle(t, wanted))
            && OnlyTypeIs(types, t => HasCategory(t, wanted), id))
  {
    hide Normalize, HasTitle, HasCategory, ImportLabels, Trim, Choices, JoinWith;
    var wanted := Normalize(text);
    var labels := ImportLabels(types);
    var titled, ofCategory := (t: RoomType) => HasTitle(t, wanted), (t: RoomType) => HasCategory(t, wanted);
    FilterCounts(types, titled);
    FilterCounts(types, ofCategory);
    LabelsAreUnique(types);
    var at := FindLabel(labels, wanted);
    FindsFirst(labels, wanted);
    if at < |labels| {
      forall i | 0 <= i < |labels| && Normalize(labels[i].1) == wanted ensures i == at {}
    }
  }

  /** Template round trip: a type's name, in any case or spacing, is read back as that type. */
  lemma TemplateRoundTrip(types: seq<RoomType>, i: nat, text: string)
    requires i < |ImportLabels(types)|
    requires LowerAll(Words(text)) == LowerAll(Words(ImportLabels(types)[i].1))
    requires Trim(ImportLabels(types)[i].1) != ""
    ensures MatchRoomType(text, types) == Id(ImportLabels(types)[i].0)
  {
    var name := ImportLabels(types)[i].1;
    SameNormalFormIffSameWords(text, name);
    BlankIffNoWords(text);
    BlankIffNoWords(name);
    hide Normalize, ImportLabels, Trim, HasTitle, HasCategory;
    assert LabelFits(types, Normalize(text), ImportLabels(types)[i].0);
    MatchIff(text, types, ImportLabels(types)[i].0);
  }

  // ---- checking the rows ------------------------------------------------------

  function RoomKey(code: string, building: string): string {
    Normalize(code) + "|" + Normalize(building)
  }

  function RowKey(row: Row): string {
    RoomKey(row.roomCode, row.buildingName)
  }

  function ExistingKeys(rooms: seq<Room>): set<string> {
    set i | 0 <= i < |rooms| ::
      RoomKey(rooms[i].roomCode, if rooms[i].buildingName.Some? then rooms[i].buildingName.value else "")
  }

  function RowError(row: Row, isRepeat: bool, exists_: bool): Option<string> {
    if row.roomCode == "" then Some("Room code is empty")
    else if |row.roomCode| > 100 then Some("Room code is too long (100 characters at most)")
    else if |row.buildingName| > 120 then Some("Building is too long (120 characters at most)")
    else if |row.floorLabel| > 80 then Some("Floor is too long (80 characters at most)")
    else if isRepeat then Some("Listed twice in this file")
    else if exists_ then Some("Already exists in this building")
    else None
  }

  function Plan(row: Row, types: seq<RoomType>, isRepeat: bool, exists_: bool): PlannedRow {
    var type_ := MatchRoomType(row.roomType, types);
    var own := RowError(row, isRepeat, exists_);
    PlannedRow(row,
      if type_.Id? then Some(type_.id) else None,
      if own.Some? then own else if type_.Error? then Some(type_.message) else None)
  }

  /** An earlier row with a room code has the key. */
  ghost predicate SeenBefore(rows: seq<Row>, i: nat, key: string) {
    exists j :: 0 <= j < i && j < |rows| && rows[j].roomCode != "" && RowKey(rows[j]) == key
  }

  ghost predicate PlannedFrom(rows: seq<Row>, types: seq<RoomType>, taken: set<string>, i: nat, planned: PlannedRow)
    requires i < |rows|
  {
    planned == Plan(rows[i], types, SeenBefore(rows, i, RowKey(rows[i])), RowKey(rows[i]) in taken)
  }

  ghost predicate PlannedAll(rows: seq<Row>, types: seq<RoomType>, taken: set<string>, planned: seq<PlannedRow>) {
    |planned| == |rows| && forall i :: 0 <= i < |rows| ==> PlannedFrom(rows, types, taken, i, planned[i])
  }

  predicate SameRoom(code: string, building: string, code': string, building': string) {
    Normalize(code) == Normalize(code') && Normalize(building) == Normalize(building')
  }

  /** A bar with no blank beside it, where a key can be read as code and building. */
  predicate Tight(key: string, i: nat)
    requires i < |key|
  {
    key[i] == '|' && (i > 0 ==> key[i - 1] != ' ') && (i + 1 < |key| ==> key[i + 1] != ' ')
  }

  /** The text of a key is tidy, and its own bar is tight. */
  lemma KeyIsTidy(code: string, building: string)
    ensures var key, at := RoomKey(code, building), |Normalize(code)|;
      && key[..at] == Normalize(code) && at < |key| && Tight(key, at) && key[at + 1..] == Normalize(building)
      && TidyInside(key) && Trimmed(key)
  {
    hide Normalize, TidyChar;
    NormalIsTidy(code);
    NormalIsTidy(building);
    BarIsTidy();
  }

  lemma BarIsTidy()
    ensures TidyChar('|')
  {
  }

  lemma SplitAtTight(key: string, i: nat)
    requires TidyInside(key) && Trimmed(key) && i < |key| && Tight(key, i)
    ensures RoomKey(key[..i], key[i + 1..]) == key && Normalize(key[..i]) == key[..i]
  {
    hide Normalize, TidyChar;
    var c, b := key[..i], key[i + 1..];
    assert TidyInside(c) && TidyInside(b) && Trimmed(c) && Trimmed(b);
    TidyIsNormal(c);
    TidyIsNormal(b);
    assert key == c + "|" + b;
  }

  /** A key names one room exactly when it has no tight bar but the one that was
      put in: then equal keys mean equal code and building. */
  lemma KeyNamesOneRoomIff(code: string, building: string)
    ensures var key, at := RoomKey(code, building), |Normalize(code)|;
      (forall c, b :: RoomKey(c, b) == key ==> SameRoom(c, b, code, building)) <==>
        forall i :: 0 <= i < |key| && Tight(key, i) ==> i == at
  {
    hide Normalize, RoomKey, TidyInside, Tight;
    var key, at := RoomKey(code, building), |Normalize(code)|;
    KeyIsTidy(code, building);
    if forall i :: 0 <= i < |key| && Tight(key, i) ==> i == at {
      forall c, b | RoomKey(c, b) == key ensures SameRoom(c, b, code, building) {
        KeyIsTidy(c, b);
      }
    } else {
      var i :| 0 <= i < |key| && Tight(key, i) && i != at;
      SplitAtTight(key, i);
      assert !SameRoom(key[..i], key[i + 1..], code, building);
    }
  }

  /** Without a bar in code or building the rule is the documented one: a room
      code is unique within a building. */
  lemma PlainKeyNamesOneRoom(code: string, building: string, c: string, b: string)
    requires '|' !in code && '|' !in building
    ensures RoomKey(c, b) == RoomKey(code, building) <==> SameRoom(c, b, code, building)
  {
    hide Normalize, TidyInside;
    NormalKeepsBars(code);
    NormalKeepsBars(building);
    KeyNamesOneRoomIff(code, building);
  }

  /** A new room refused as a repeat: the keys of `a|b` in building `c` and of `a`
      in building `b|c` are the same text. */
  lemma DifferentRoomIsRefused(types: seq<RoomType>, planned: seq<PlannedRow>)
    requires PlannedAll([Row(2, "a|b", "", "c", ""), Row(3, "a", "", "b|c", "")], types, {}, planned)
    ensures !SameRoom("a|b", "c", "a", "b|c") && planned[1].error == Some("Listed twice in this file")
  {
    hide MatchRoomType, Normalize;
    TidyIsNormal("a|b");
    TidyIsNormal("c");
    TidyIsNormal("a");
    TidyIsNormal("b|c");
    var rows := [Row(2, "a|b", "", "c", ""), Row(3, "a", "", "b|c", "")];
    assert RowKey(rows[0]) == "a|b|c" == RowKey(rows[1]);
    assert SeenBefore(rows, 1, RowKey(rows[1]));
    assert PlannedFrom(rows, types, {}, 1, planned[1]);
  }

  /** A valid row's room key is no existing room's and no other valid row's,
      it has a code within the limits, and its type is the one its text names. */
  lemma ValidRowsAreNewRooms(rows: seq<Row>, types: seq<RoomType>, taken: set<string>, planned: seq<PlannedRow>, i: nat)
    requires PlannedAll(rows, types, taken, planned) && i < |rows| && planned[i].error.None?
    ensures RowKey(rows[i]) !in taken
    ensures forall j :: 0 <= j < |rows| && j != i && planned[j].error.None? ==> RowKey(rows[j]) != RowKey(rows[i])
    ensures 0 < |rows[i].roomCode| <= 100 && |rows[i].buildingName| <= 120 && |rows[i].floorLabel| <= 80
    ensures planned[i].roomTypeId.Some? && MatchRoomType(rows[i].roomType, types) == Id(planned[i].roomTypeId.value)
  {
    hide RowKey, MatchRoomType;
    assert PlannedFrom(rows, types, taken, i, planned[i]);
    forall j | 0 <= j < |rows| && j != i && planned[j].error.None? ensures RowKey(rows[j]) != RowKey(rows[i]) {
      assert PlannedFrom(rows, types, taken, j, planned[j]);
      if RowKey(rows[j]) == RowKey(rows[i]) {
        RepeatIsAnError(rows, types, taken, planned, if j < i then j else i, if j < i then i else j);
      }
    }
  }

  lemma RepeatIsAnError(rows: seq<Row>, types: seq<RoomType>, taken: set<string>, planned: seq<PlannedRow>,
                        i: nat, j: nat)
    requires PlannedAll(rows, types, taken, planned) && i < j < |rows|
    requires RowKey(rows[i]) == RowKey(rows[j]) && rows[i].roomCode != ""
    ensures planned[j].error.Some?
  {
    hide RowKey, MatchRoomType;
    assert PlannedFrom(rows, types, taken, j, planned[j]);
    assert SeenBefore(rows, j, RowKey(rows[j]));
  }

  // ---- grouping into batches -----------------------------------------------------

  function NonEmpty(s: string): Option<string> {
    if s == "" then None else Some(s)
  }

  /** The rows that go into a batch: valid, with a non-blank type id. */
  predicate Importable(p: PlannedRow) {
    p.error.None? && p.roomTypeId.Some? && p.roomTypeId.value != ""
  }

  function KeyOf(p: PlannedRow): GroupKey
    requires p.roomTypeId.Some?
  {
    GroupKey(p.roomTypeId.value, NonEmpty(p.row.buildingName), NonEmpty(p.row.floorLabel))
  }

  /** Codes of the importable rows of one type, building and floor, in file order. */
  function CodesOf(planned: seq<PlannedRow>, key: GroupKey): seq<string> {
    if planned == [] then []
    else
      var n := |planned| - 1;
      CodesOf(planned[..n], key)
        + if Importable(planned[n]) && KeyOf(planned[n]) == key then [planned[n].row.roomCode] else []
  }

  /** Codes a list of batches sends for one type, building and floor, in order. */
  function BatchCodes(batches: seq<Batch>, key: GroupKey): seq<string> {
    if batches == [] then []
    else
      var n := |batches| - 1;
      BatchCodes(batches[..n], key) + if batches[n].key == key then batches[n].roomCodes else []
  }

  /** How many batches a list sends for one type, building and floor. */
  function BatchNumber(batches: seq<Batch>, key: GroupKey): nat {
    if batches == [] then 0
    else BatchNumber(batches[..|batches| - 1], key) + if batches[|batches| - 1].key == key then 1 else 0
  }

  /** `Math.ceil(codes / BATCH_LIMIT)` */
  function BatchesFor(codes: nat): nat {
    (codes + BATCH_LIMIT - 1) / BATCH_LIMIT
  }

  function TotalCodes(batches: seq<Batch>): nat {
    if batches == [] then 0 else TotalCodes(batches[..|batches| - 1]) + |batches[|batches| - 1].roomCodes|
  }

  function Count(planned: seq<PlannedRow>, counted: PlannedRow -> bool): nat {
    if planned == [] then 0
    else Count(planned[..|planned| - 1], counted) + if counted(planned[|planned| - 1]) then 1 else 0
  }

  type Groups = Entries<GroupKey, seq<string>>

  function GroupCodes(groups: Groups, key: GroupKey): seq<string> {
    var i := Find(groups, key);
    if i < |groups| then groups[i].1 else []
  }

  function GroupTotal(groups: Groups): nat {
    if groups == [] then 0 else GroupTotal(groups[..|groups| - 1]) + |groups[|groups| - 1].1|
  }

  ghost predicate NoEmptyGroup(groups: Groups) {
    forall g :: 0 <= g < |groups| ==> groups[g].1 != []
  }

  ghost predicate BatchesWithinLimit(batches: seq<Batch>) {
    forall i :: 0 <= i < |batches| ==> 1 <= |batches[i].roomCodes| <= 200
  }

  lemma BatchAppend(batches: seq<Batch>, b: Batch)
    ensures forall key ::
      BatchCodes(batches + [b], key) == BatchCodes(batches, key) + if b.key == key then b.roomCodes else []
    ensures forall key :: BatchNumber(batches + [b], key) == BatchNumber(batches, key) + if b.key == key then 1 else 0
    ensures TotalCodes(batches + [b]) == TotalCodes(batches) + |b.roomCodes|
  {
    assert (batches + [b])[..|batches|] == batches;
  }

  lemma PlannedAppend(planned: seq<PlannedRow>, i: nat)
    requires i < |planned|
    ensures forall key :: (CodesOf(planned[..i + 1], key) == CodesOf(planned[..i], key)
      + if Importable(planned[i]) && KeyOf(planned[i]) == key then [planned[i].row.roomCode] else [])
    ensures forall counted ::
      Count(planned[..i + 1], counted) == Count(planned[..i], counted) + if counted(planned[i]) then 1 else 0
  {
    assert planned[..i + 1][..i] == planned[..i];
  }

  lemma PutCodeKeepsOthers(groups: Groups, key: GroupKey, codes: seq<string>, k: GroupKey)
    requires UniqueKeys(groups)
    ensures GroupCodes(Put(groups, key, codes), k) == if k == key then codes else GroupCodes(groups, k)
  {
    hide Put, Find;
    var i, r := Find(groups, key), Put(groups, key, codes);
    var j, j' := Find(groups, k), Find(r, k);
    if j < |groups| { assert r[j].0 == k; }
    if j' < |r| && k != key { assert groups[j'].0 == k; }
    assert r[i].0 == key;
  }

  lemma PutCodeAddsOne(groups: Groups, key: GroupKey, code: string)
    ensures GroupTotal(Put(groups, key, GroupCodes(groups, key) + [code])) == GroupTotal(groups) + 1
  {
    hide Find, GroupTotal;
    var i := Find(groups, key);
    if i < |groups| {
      TotalUpdate(groups, i, (key, groups[i].1 + [code]));
    } else {
      TotalAppend(groups, (key, [code]));
      assert [] + [code] == [code];
    }
  }

  lemma TotalAppend(groups: Groups, g: (GroupKey, seq<string>))
    ensures GroupTotal(groups + [g]) == GroupTotal(groups) + |g.1|
  {
    assert (groups + [g])[..|groups|] == groups;
  }

  /** Adding a code to its group changes that group only. */
  lemma PutCode(groups: Groups, key: GroupKey, code: string)
    requires UniqueKeys(groups)
    ensures var r := Put(groups, key, GroupCodes(groups, key) + [code]);
      && (forall k :: GroupCodes(r, k) == GroupCodes(groups, k) + if k == key then [code] else [])
      && GroupTotal(r) == GroupTotal(groups) + 1
  {
    hide Put, GroupCodes, GroupTotal;
    var r := Put(groups, key, GroupCodes(groups, key) + [code]);
    PutCodeAddsOne(groups, key, code);
    forall k ensures GroupCodes(r, k) == GroupCodes(groups, k) + if k == key then [code] else [] {
      PutCodeKeepsOthers(groups, key, GroupCodes(groups, key) + [code], k);
    }
  }

  lemma {:induction false} TotalUpdate(groups: Groups, i: nat, g: (GroupKey, seq<string>))
    requires i < |groups|
    ensures GroupTotal(groups[i := g]) == GroupTotal(groups) - |groups[i].1| + |g.1|
  {
    var n := |groups| - 1;
    if i == n {
      assert groups[i := g][..n] == groups[..n];
    } else {
      TotalUpdate(groups[..n], i, g);
      assert groups[i := g][..n] == groups[..n][i := g];
    }
  }

  method GroupRows(planned: seq<PlannedRow>) returns (groups: Groups)
    ensures UniqueKeys(groups)
    ensures forall key :: GroupCodes(groups, key) == CodesOf(planned, key)
    ensures NoEmptyGroup(groups)
    ensures GroupTotal(groups) == Count(planned, Importable)
  {
    hide Put, Find, GroupCodes, CodesOf, Count, GroupTotal, KeyOf;
    groups := [];
    NothingYet(groups, planned);
    for i := 0 to |planned|
      invariant UniqueKeys(groups)
      invariant forall key :: GroupCodes(groups, key) == CodesOf(planned[..i], key)
      invariant NoEmptyGroup(groups)
      invariant GroupTotal(groups) == Count(planned[..i], Importable)
    {
      PlannedAppend(planned, i);
      var p := planned[i];
      if Importable(p) {
        PutCode(groups, KeyOf(p), p.row.roomCode);
        groups := Put(groups, KeyOf(p), GroupCodes(groups, KeyOf(p)) + [p.row.roomCode]);
      }
    }
    assert planned[..|planned|] == planned;
  }

  lemma NothingYet(groups: Groups, planned: seq<PlannedRow>)
    requires groups == []
    ensures forall key :: GroupCodes(groups, key) == CodesOf(planned[..0], key)
    ensures GroupTotal(groups) == Count(planned[..0], Importable)
  {
  }

  /** `Array.from({ length: ceil(n / 200) }, slice)` for one group. */
  method CutGroup(key: GroupKey, codes: seq<string>, before: seq<Batch>) returns (batches: seq<Batch>)
    requires codes != [] && BatchesWithinLimit(before)
    ensures BatchesWithinLimit(batches)
    ensures forall k :: BatchCodes(batches, k) == BatchCodes(before, k) + if k == key then codes else []
    ensures forall k :: BatchNumber(batches, k) == BatchNumber(before, k) + if k == key then BatchesFor(|codes|) else 0
    ensures TotalCodes(batches) == TotalCodes(before) + |codes|
  {
    hide BatchCodes, TotalCodes, BatchNumber;
    batches := before;
    var count := BatchesFor(|codes|);
    ghost var done := 0;
    for i := 0 to count
      invariant done == (if i * BATCH_LIMIT < |codes| then i * BATCH_LIMIT else |codes|)
      invariant BatchesWithinLimit(batches)
      invariant forall k :: BatchCodes(batches, k) == BatchCodes(before, k) + if k == key then codes[..done] else []
      invariant forall k :: BatchNumber(batches, k) == BatchNumber(before, k) + if k == key then i else 0
      invariant TotalCodes(batches) == TotalCodes(before) + done
    {
      var start := i * BATCH_LIMIT;
      var stop := if start + BATCH_LIMIT < |codes| then start + BATCH_LIMIT else |codes|;
      var batch := Batch(key, codes[start..stop]);
      BatchAppend(batches, batch);
      assert codes[..start] + codes[start..stop] == codes[..stop];
      batches := batches + [batch];
      done := stop;
    }
    assert codes[..|codes|] == codes;
  }

  method CutBatches(groups: Groups) returns (batches: seq<Batch>)
    requires UniqueKeys(groups) && NoEmptyGroup(groups)
    ensures BatchesWithinLimit(batches)
    ensures forall key :: BatchCodes(batches, key) == GroupCodes(groups, key)
    ensures forall key :: BatchNumber(batches, key) == BatchesFor(|GroupCodes(groups, key)|)
    ensures TotalCodes(batches) == GroupTotal(groups)
  {
    hide BatchCodes, TotalCodes, GroupTotal, BatchNumber, GroupCodes, BatchesFor;
    batches := [];
    NoBatches(batches, groups);
    for g := 0 to |groups|
      invariant BatchesWithinLimit(batches)
      invariant forall key :: BatchCodes(batches, key) == GroupCodes(groups[..g], key)
      invariant forall key :: BatchNumber(batches, key) == BatchesFor(|GroupCodes(groups[..g], key)|)
      invariant TotalCodes(batches) == GroupTotal(groups[..g])
    {
      TakeGroup(groups, g);
      NoBatchForNothing();
      batches := CutGroup(groups[g].0, groups[g].1, batches);
    }
    assert groups[..|groups|] == groups;
  }

  lemma NoBatches(batches: seq<Batch>, groups: Groups)
    requires batches == []
    ensures forall key :: BatchCodes(batches, key) == GroupCodes(groups[..0], key)
    ensures forall key :: BatchNumber(batches, key) == BatchesFor(|GroupCodes(groups[..0], key)|)
    ensures TotalCodes(batches) == GroupTotal(groups[..0])
  {
  }

  lemma NoBatchForNothing()
    ensures BatchesFor(0) == 0
  {
  }

  lemma TakeGroup(groups: Groups, g: nat)
    requires UniqueKeys(groups) && g < |groups|
    ensures GroupCodes(groups[..g], groups[g].0) == []
    ensures forall key ::
      GroupCodes(groups[..g + 1], key)
      == GroupCodes(groups[..g], key) + if key == groups[g].0 then groups[g].1 else []
    ensures GroupTotal(groups[..g + 1]) == GroupTotal(groups[..g]) + |groups[g].1|
  {
    var small, big := groups[..g], groups[..g + 1];
    assert big[..g] == small;
    forall key ensures GroupCodes(big, key) == GroupCodes(small, key) + if key == groups[g].0 then groups[g].1 else [] {
      var i, j := Find(small, key), Find(big, key);
      if i < g { assert big[i].0 == key; }
      if j < g { assert small[j].0 == key; }
      assert big[g].0 == groups[g].0;
    }
  }

  /** Checks every row, then cuts the importable ones into batches of at most 200 codes. */
  method PlanRoomImport(rows: seq<Row>, types: seq<RoomType>, existing: seq<Room>)
    returns (planned: seq<PlannedRow>, batches: seq<Batch>, validCount: nat)
    ensures PlannedAll(rows, types, ExistingKeys(existing), planned)
    ensures BatchesWithinLimit(batches)
    ensures forall key :: BatchCodes(batches, key) == CodesOf(planned, key)
    ensures forall key :: BatchNumber(batches, key) == BatchesFor(|CodesOf(planned, key)|)
    ensures TotalCodes(batches) == Count(planned, Importable)
    ensures validCount == Count(planned, IsValid)
    ensures (forall i :: 0 <= i < |types| ==> types[i].id != "") ==> validCount == TotalCodes(batches)
  {
    hide MatchRoomType, RowKey, ExistingKeys, BatchCodes, BatchNumber, BatchesFor, TotalCodes, CodesOf, Count;
    var taken := ExistingKeys(existing);
    var seen: set<string> := {};
    planned := [];
    for i := 0 to |rows|
      invariant |planned| == i
      invariant forall key :: key in seen <==> SeenBefore(rows, i, key)
      invariant forall j :: 0 <= j < i ==> PlannedFrom(rows, types, taken, j, planned[j])
    {
      var key := RowKey(rows[i]);
      planned := planned + [Plan(rows[i], types, key in seen, key in taken)];
      SeenNext(rows, i);
      if rows[i].roomCode != "" {
        seen := seen + {key};
      }
    }
    var groups := GroupRows(planned);
    batches := CutBatches(groups);
    validCount := Count(planned, IsValid);
    if forall i :: 0 <= i < |types| ==> types[i].id != "" { EveryValidRowIsSent(rows, types, taken, planned); }
  }

  lemma {:induction false} BatchesHold(batches: seq<Batch>, key: GroupKey)
    requires BatchesWithinLimit(batches)
    ensures |BatchCodes(batches, key)| <= BatchNumber(batches, key) * BATCH_LIMIT
  {
    if batches != [] { BatchesHold(batches[..|batches| - 1], key); }
  }

  /** No other way to send the same codes within the limit takes fewer batches
      than the upload plans, for any type, building and floor. */
  lemma FewestBatches(batches: seq<Batch>, others: seq<Batch>, key: GroupKey)
    requires BatchNumber(batches, key) == BatchesFor(|BatchCodes(batches, key)|)
    requires BatchesWithinLimit(others) && |BatchCodes(others, key)| == |BatchCodes(batches, key)|
    ensures BatchNumber(batches, key) <= BatchNumber(others, key)
  {
    hide BatchNumber, BatchCodes;
    BatchesHold(others, key);
  }

  lemma SeenNext(rows: seq<Row>, i: nat)
    requires i < |rows|
    ensures forall key :: SeenBefore(rows, i + 1, key) <==>
      SeenBefore(rows, i, key) || (rows[i].roomCode != "" && key == RowKey(rows[i]))
  {
    hide RowKey;
    forall key ensures SeenBefore(rows, i + 1, key) <==>
      SeenBefore(rows, i, key) || (rows[i].roomCode != "" && key == RowKey(rows[i]))
    {
      if j :| 0 <= j < i && rows[j].roomCode != "" && RowKey(rows[j]) == key {
        assert j < i + 1;
      }
      if rows[i].roomCode != "" && key == RowKey(rows[i]) {
        assert i < i + 1;
      }
    }
  }

  predicate IsValid(p: PlannedRow) {
    p.error.None?
  }

  /** Every batched code is a valid row's; the two counts agree exactly when no
      valid row was read as a type whose id is blank. */
  lemma ValidCountIsBatchTotal(rows: seq<Row>, types: seq<RoomType>, taken: set<string>, planned: seq<PlannedRow>)
    requires PlannedAll(rows, types, taken, planned)
    ensures Count(planned, Importable) <= Count(planned, IsValid)
    ensures Count(planned, Importable) == Count(planned, IsValid) <==>
      forall i :: 0 <= i < |rows| && planned[i].error.None? ==> MatchRoomType(rows[i].roomType, types) != Id("")
  {
    hide MatchRoomType, RowKey, SeenBefore;
    forall i | 0 <= i < |planned| ensures IsValid(planned[i]) ==> planned[i].roomTypeId.Some?
    {
      assert PlannedFrom(rows, types, taken, i, planned[i]);
    }
    CountImportable(planned);
    forall i | 0 <= i < |rows| && planned[i].error.None?
      ensures Importable(planned[i]) <==> MatchRoomType(rows[i].roomType, types) != Id("")
    {
      assert PlannedFrom(rows, types, taken, i, planned[i]);
    }
    if forall i :: 0 <= i < |rows| && planned[i].error.None? ==> MatchRoomType(rows[i].roomType, types) != Id("") {
      assert forall i :: 0 <= i < |planned| ==> (IsValid(planned[i]) ==> Importable(planned[i]));
    }
  }

  /** The text of a row is only ever read as a type with a blank id when there is one. */
  lemma BlankIdIsAType(text: string, types: seq<RoomType>)
    requires MatchRoomType(text, types) == Id("")
    ensures exists i :: 0 <= i < |types| && types[i].id == ""
  {
    hide MatchRoomType, Normalize, ImportLabels, Trim, HasTitle, HasCategory, DistinctNames, UniqueKeys;
    MatchIff(text, types, "");
    LabelsAreUnique(types);
    var wanted := Normalize(text);
    if LabelFits(types, wanted, "") {
      assert HasKey(ImportLabels(types), "");
      assert HasVersion(types, "");
    }
  }

  /** With ids that are not blank, as every stored room type has, the batches
      carry exactly the valid rows. */
  lemma EveryValidRowIsSent(rows: seq<Row>, types: seq<RoomType>, taken: set<string>, planned: seq<PlannedRow>)
    requires PlannedAll(rows, types, taken, planned)
    requires forall i :: 0 <= i < |types| ==> types[i].id != ""
    ensures Count(planned, Importable) == Count(planned, IsValid)
  {
    hide MatchRoomType, PlannedAll;
    ValidCountIsBatchTotal(rows, types, taken, planned);
    forall i | 0 <= i < |rows| ensures MatchRoomType(rows[i].roomType, types) != Id("") {
      if MatchRoomType(rows[i].roomType, types) == Id("") { BlankIdIsAType(rows[i].roomType, types); }
    }
  }

  /** A valid row of a type with a blank id is in no batch. */
  lemma BlankIdIsNotImported(version: Version) returns (rows: seq<Row>, types: seq<RoomType>, planned: seq<PlannedRow>)
    ensures types == [RoomType("", Some(version), None)]
    ensures PlannedAll(rows, types, {}, planned) && Count(planned, IsValid) == 1 && Count(planned, Importable) == 0
  {
    hide RowKey;
    rows, types := [Row(2, "A1", "", "", "")], [RoomType("", Some(version), None)];
    planned := [PlannedRow(rows[0], Some(""), None)];
    assert MatchRoomType("", types) == Id("");
    assert PlannedFrom(rows, types, {}, 0, planned[0]);
    assert planned[..0] == [];
    assert Count(planned[..0], IsValid) == 0 && Count(planned[..0], Importable) == 0;
  }

  lemma {:induction false} CountImportable(planned: seq<PlannedRow>)
    requires forall i :: 0 <= i < |planned| ==> (IsValid(planned[i]) ==> planned[i].roomTypeId.Some?)
    ensures Count(planned, Importable) <= Count(planned, IsValid)
    ensures Count(planned, Importable) == Count(planned, IsValid) <==>
      forall i :: 0 <= i < |planned| ==> (IsValid(planned[i]) ==> Importable(planned[i]))
  {
    if planned != [] {
      var n := |planned| - 1;
      var init := planned[..n];
      CountImportable(init);
      assert forall i :: 0 <= i < n ==> init[i] == planned[i];
    }
  }
}
