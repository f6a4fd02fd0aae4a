/** The recently-viewed list and its snapshot cache: apps/web/src/lib/recently-viewed.ts. */
module RecentlyViewed {
  import opened Collections
  import opened OrderedMap
  import Text

  const MAX_ENTRIES: nat := 10

  datatype Entry = Entry(
    id: string, name: string, streetAddress: string, photoStorageKey: Option<string>, priceUgx: int, viewedAt: int)

  /** An element of a stored array: an object with the fields of an entry, or anything else. */
  datatype Item = Fields(entry: Entry) | Junk

  /** A stored text and what it parses to; JSON tells values apart, and the same
      value can be spelled in several ways. */
  datatype Raw = Empty | Array(items: seq<Item>, spelling: nat) | NotAnArray(spelling: nat) | Malformed(spelling: nat)

  // ---- the program --------------------------------------------------------------------

  predicate HexOrDash(c: char, dash: bool) {
    if dash then c == '-' else Text.IsDigit(Text.LowerChar(c), 16)
  }

  predicate IsUuid(id: string) {
    |id| == 36 && forall i :: 0 <= i < 36 ==> HexOrDash(id[i], i == 8 || i == 13 || i == 18 || i == 23)
  }

  function WellFormed(items: seq<Item>): seq<Entry> {
    if items == [] then []
    else (if items[0].Fields? && IsUuid(items[0].entry.id) then [items[0].entry] else []) + WellFormed(items[1..])
  }

  function Parsed(raw: Option<Raw>): seq<Entry> {
    if raw.Some? && raw.value.Array? then WellFormed(raw.value.items) else []
  }

  function Without(list: seq<Entry>, id: string): seq<Entry> {
    if list == [] then []
    else (if list[0].id != id then [list[0]] else []) + Without(list[1..], id)
  }

  function Added(list: seq<Entry>, e: Entry): seq<Entry> {
    Take([e] + Without(list, e.id), MAX_ENTRIES)
  }

  /** `JSON.stringify` */
  function Stringified(list: seq<Entry>): Raw {
    Array(seq(|list|, i requires 0 <= i < |list| => Fields(list[i])), 0)
  }

  /** `localStorage`, shared by all tabs. */
  class LocalStorage {
    var raw: Option<Raw>

    constructor ()
      ensures raw == None
    {
      raw := None;
    }
  }

  /** The array a snapshot is handed out as. */
  class EntryList {
    const items: seq<Entry>

    constructor (items: seq<Entry>)
      ensures this.items == items
    {
      this.items := items;
    }
  }

  /** The module's variables in one tab. */
  class Tab {
    const storage: LocalStorage
    var cachedRaw: Option<Raw>
    var cachedEntries: EntryList

    /** The cache is what its text parses to; it does not look at the storage,
        which other tabs write. */
    ghost predicate Valid()
      reads this
    {
      cachedEntries.items == Parsed(cachedRaw)
    }

    constructor (storage: LocalStorage)
      ensures Valid() && this.storage == storage && cachedRaw == None && fresh(cachedEntries)
    {
      this.storage := storage;
      cachedRaw := None;
      cachedEntries := new EntryList([]);
    }

    /** `readable` says whether `getItem` answers. The same array comes back as
        long as the text is the same. */
    method GetRecentlyViewed(readable: bool) returns (list: EntryList)
      requires Valid()
      modifies this
      ensures Valid() && list == cachedEntries
      ensures readable ==> list.items == Parsed(storage.raw) && cachedRaw == storage.raw
      ensures !readable || old(cachedRaw) == storage.raw ==> list == old(cachedEntries) && cachedRaw == old(cachedRaw)
      ensures readable && old(cachedRaw) != storage.raw ==> fresh(list)
    {
      if !readable { return cachedEntries; }
      var raw := storage.raw;
      if raw == cachedRaw { return cachedEntries; }
      cachedRaw := raw;
      cachedEntries := new EntryList(Parsed(raw));
      list := cachedEntries;
    }

    /** `writable` says whether `setItem` succeeds. */
    method AddRecentlyViewed(entry: Entry, now: int, readable: bool, writable: bool)
      requires Valid()
      modifies this, storage
      ensures Valid()
      ensures var known := if readable then Parsed(old(storage.raw)) else old(cachedEntries.items);
        storage.raw == if writable then Some(Stringified(Added(known, entry.(viewedAt := now)))) else old(storage.raw)
    {
      var existing := GetRecentlyViewed(readable);
      var next := Take([entry.(viewedAt := now)] + Without(existing.items, entry.id), MAX_ENTRIES);
      if writable { storage.raw := Some(Stringified(next)); }
    }

    method ClearRecentlyViewed(writable: bool)
      requires Valid()
      modifies storage
      ensures Valid() && storage.raw == if writable then None else old(storage.raw)
    {
      if writable { storage.raw := None; }
    }
  }

  // ---- the list is the recent history -----------------------------------------------------

  /** The view at a position is the last of its listing. */
  ghost predicate Final(history: seq<Entry>, i: nat)
    requires i < |history|
  {
    forall j :: i < j < |history| ==> history[j].id != history[i].id
  }

  /** The last view of every listing, latest first. */
  ghost function LastViews(history: seq<Entry>, upTo: nat): seq<Entry>
    requires upTo <= |history|
  {
    if upTo == 0 then []
    else (if Final(history, upTo - 1) then [history[upTo - 1]] else []) + LastViews(history, upTo - 1)
  }

  /** The storage after adds from empty storage, by whichever tabs. */
  function StoredAfter(history: seq<Entry>): Option<Raw> {
    if history == [] then None
    else Some(Stringified(Added(Parsed(StoredAfter(history[..|history| - 1])), history[|history| - 1])))
  }

  ghost predicate AllUuids(list: seq<Entry>) {
    forall i :: 0 <= i < |list| ==> IsUuid(list[i].id)
  }

  ghost predicate DistinctIds(list: seq<Entry>) {
    forall i, j :: 0 <= i < j < |list| ==> list[i].id != list[j].id
  }

  /** Reading back what was written. */
  lemma {:induction false} WellFormedOfList(list: seq<Entry>)
    requires AllUuids(list)
    ensures Parsed(Some(Stringified(list))) == list
  {
    hide IsUuid;
    if list != [] {
      WellFormedOfList(list[1..]);
      assert Stringified(list).items[1..] == Stringified(list[1..]).items;
    }
  }

  /** A text of hexadecimal digits in either case. */
  ghost predicate IsHex(s: string, length: nat) {
    |s| == length && forall c :: c in s ==> c in "0123456789abcdefABCDEF"
  }

  ghost predicate IsGroups(id: string, a: string, b: string, c: string, d: string, e: string) {
    && id == a + "-" + b + "-" + c + "-" + d + "-" + e
    && IsHex(a, 8) && IsHex(b, 4) && IsHex(c, 4) && IsHex(d, 4) && IsHex(e, 12)
  }

  lemma HexIff(c: char)
    ensures HexOrDash(c, false) <==> c in "0123456789abcdefABCDEF"
  {
  }

  /** A UUID is five groups of hexadecimal digits with dashes between them. */
  lemma UuidIff(id: string)
    ensures IsUuid(id) <==>
      exists a, b, c, d, e :: IsGroups(id, a, b, c, d, e)
  {
    if IsUuid(id) {
      UuidGroups(id);
    }
    forall a, b, c, d, e | IsGroups(id, a, b, c, d, e) ensures IsUuid(id)
    {
      GroupsAreUuid(id, a, b, c, d, e);
    }
  }

  lemma HexPart(id: string, from: nat, to: nat)
    requires from <= to <= |id| && forall i :: from <= i < to ==> HexOrDash(id[i], false)
    ensures IsHex(id[from..to], to - from)
  {
    forall c | c in id[from..to] ensures c in "0123456789abcdefABCDEF" {
      var i :| 0 <= i < to - from && id[from..to][i] == c;
      HexIff(id[from + i]);
    }
  }

  lemma UuidGroups(id: string)
    requires IsUuid(id)
    ensures exists a, b, c, d, e :: IsGroups(id, a, b, c, d, e)
  {
    hide IsHex;
    var a, b, c, d, e := id[0..8], id[9..13], id[14..18], id[19..23], id[24..36];
    HexPart(id, 0, 8);
    HexPart(id, 9, 13);
    HexPart(id, 14, 18);
    HexPart(id, 19, 23);
    HexPart(id, 24, 36);
    hide HexOrDash;
    assert id[8] == id[13] == id[18] == id[23] == '-' by { DashesAt(id); }
    assert id == a + "-" + b + "-" + c + "-" + d + "-" + e;
    assert IsGroups(id, a, b, c, d, e);
  }

  lemma DashesAt(id: string)
    requires IsUuid(id)
    ensures id[8] == id[13] == id[18] == id[23] == '-'
  {
    assert HexOrDash(id[8], true) && HexOrDash(id[13], true) && HexOrDash(id[18], true) && HexOrDash(id[23], true);
  }

  lemma GroupsAreUuid(id: string, a: string, b: string, c: string, d: string, e: string)
    requires IsGroups(id, a, b, c, d, e)
    ensures IsUuid(id)
  {
    HexAt(a, 8);
    HexAt(b, 4);
    HexAt(c, 4);
    HexAt(d, 4);
    HexAt(e, 12);
    hide IsHex;
    forall i | 0 <= i < 36 ensures HexOrDash(id[i], i == 8 || i == 13 || i == 18 || i == 23) {
      if i < 8 { assert id[i] == a[i]; }
      else if 8 < i < 13 { assert id[i] == b[i - 9]; }
      else if 13 < i < 18 { assert id[i] == c[i - 14]; }
      else if 18 < i < 23 { assert id[i] == d[i - 19]; }
      else if 23 < i { assert id[i] == e[i - 24]; }
    }
  }

  lemma HexAt(s: string, length: nat)
    requires IsHex(s, length)
    ensures |s| == length && forall i :: 0 <= i < length ==> HexOrDash(s[i], false)
  {
    forall i | 0 <= i < length ensures HexOrDash(s[i], false) {
      assert s[i] in s;
      HexIff(s[i]);
    }
  }

  /** What is shown of one element. */
  function Shown(item: Item): seq<Entry> {
    if item.Fields? && IsUuid(item.entry.id) then [item.entry] else []
  }

  lemma ShownFirst(items: seq<Item>)
    requires items != []
    ensures WellFormed(items) == Shown(items[0]) + WellFormed(items[1..])
  {
    hide IsUuid;
  }

  /** Every element of a stored array is judged on its own: it is shown in its
      place exactly when it is an entry with a UUID, whatever stands around it. */
  lemma ShownInPlace(before: seq<Item>, item: Item, after: seq<Item>)
    ensures WellFormed(before + [item] + after) ==
      WellFormed(before) + (if item.Fields? && IsUuid(item.entry.id) then [item.entry] else []) + WellFormed(after)
  {
    ShownBetween(before, item, after);
    hide IsUuid, WellFormed;
  }

  lemma {:induction false} ShownBetween(before: seq<Item>, item: Item, after: seq<Item>)
    ensures WellFormed(before + [item] + after) == WellFormed(before) + Shown(item) + WellFormed(after)
  {
    if before == [] {
      assert WellFormed(before) == [];
      assert [] + Shown(item) == Shown(item);
      assert before + [item] + after == [item] + after && ([item] + after)[1..] == after;
      ShownFirst([item] + after);
    } else {
      hide WellFormed, Shown;
      ShownBetween(before[1..], item, after);
      ShownFirst(before);
      ShownFirst(before + [item] + after);
      RestOf(before, item, after);
      Regroup(Shown(before[0]), WellFormed(before[1..]), Shown(item), WellFormed(after));
    }
  }

  lemma WithoutFirst(list: seq<Entry>, id: string)
    requires list != []
    ensures Without(list, id) == (if list[0].id != id then [list[0]] else []) + Without(list[1..], id)
  {
  }

  lemma NothingWithout(id: string)
    ensures Without([], id) == []
  {
  }

  lemma WithoutSelf(e: Entry)
    ensures Without([e], e.id) == []
  {
    assert [e][1..] == [];
  }

  lemma {:induction false} WithoutApart(a: seq<Entry>, b: seq<Entry>, id: string)
    ensures Without(a + b, id) == Without(a, id) + Without(b, id)
  {
    hide Without;
    if a == [] {
      NothingWithout(id);
      assert a + b == b;
    } else {
      WithoutApart(a[1..], b, id);
      assert (a + b)[1..] == a[1..] + b;
      WithoutFirst(a + b, id);
      WithoutFirst(a, id);
    }
  }

  lemma {:induction false} WithoutAbsent(list: seq<Entry>, id: string)
    requires forall i :: 0 <= i < |list| ==> list[i].id != id
    ensures Without(list, id) == list
  {
    if list != [] { WithoutAbsent(list[1..], id); }
  }

  lemma {:induction false} WithoutKeepsOthers(list: seq<Entry>, id: string)
    ensures forall i :: 0 <= i < |Without(list, id)| ==> Without(list, id)[i] in list && Without(list, id)[i].id != id
  {
    if list != [] { WithoutKeepsOthers(list[1..], id); }
  }

  /** The one entry of its listing goes. */
  lemma WithoutOne(a: seq<Entry>, e: Entry, b: seq<Entry>)
    requires forall i :: 0 <= i < |a| ==> a[i].id != e.id
    requires forall i :: 0 <= i < |b| ==> b[i].id != e.id
    ensures Without(a + [e] + b, e.id) == a + b
  {
    hide Without;
    WithoutApart(a + [e], b, e.id);
    WithoutApart(a, [e], e.id);
    WithoutAbsent(a, e.id);
    WithoutAbsent(b, e.id);
    WithoutSelf(e);
    assert a + [] == a;
  }

  lemma TakeWithoutOne(a: seq<Entry>, e: Entry, b: seq<Entry>, n: nat)
    requires forall i :: 0 <= i < |a| ==> a[i].id != e.id
    requires forall i :: 0 <= i < |b| ==> b[i].id != e.id
    requires 0 < n < |a + [e] + b|
    ensures Take(Without((a + [e] + b)[..n], e.id), n - 1) == Take(Without(a + [e] + b, e.id), n - 1)
  {
    hide Without;
    WithoutOne(a, e, b);
    if |a| < n {
      var c := b[..n - 1 - |a|];
      assert (a + [e] + b)[..n] == a + [e] + c;
      WithoutOne(a, e, c);
    } else {
      assert (a + [e] + b)[..n] == a[..n];
      WithoutAbsent(a[..n], e.id);
    }
  }

  /** Cutting to ten before or after the removal leaves the same first ten. */
  lemma TakeWithout(list: seq<Entry>, id: string, n: nat)
    requires DistinctIds(list) && n > 0
    ensures Take(Without(Take(list, n), id), n - 1) == Take(Without(list, id), n - 1)
  {
    hide Without;
    if |list| > n {
      if k :| 0 <= k < |list| && list[k].id == id {
        var a, e, b := list[..k], list[k], list[k + 1..];
        assert list == a + [e] + b;
        TakeWithoutOne(a, e, b, n);
      } else {
        WithoutAbsent(list, id);
        WithoutAbsent(list[..n], id);
      }
    }
  }

  lemma AddedToTaken(list: seq<Entry>, e: Entry)
    requires DistinctIds(list)
    ensures Added(Take(list, MAX_ENTRIES), e) == Take([e] + Without(list, e.id), MAX_ENTRIES)
  {
    hide Without;
    TakeWithout(list, e.id, MAX_ENTRIES);
    TakeCons(e, Without(list, e.id));
    TakeCons(e, Without(Take(list, MAX_ENTRIES), e.id));
  }

  lemma TakeCons(e: Entry, rest: seq<Entry>)
    ensures Take([e] + rest, MAX_ENTRIES) == [e] + Take(rest, MAX_ENTRIES - 1)
  {
  }

  /** What a position adds to the last views. */
  ghost function ViewAt(history: seq<Entry>, i: nat): seq<Entry>
    requires i < |history|
  {
    if Final(history, i) then [history[i]] else []
  }

  lemma ViewAtAppend(history: seq<Entry>, e: Entry, i: nat)
    requires i < |history|
    ensures ViewAt(history + [e], i) == Without(ViewAt(history, i), e.id)
  {
    hide Without, Final;
    FinalAppend(history, e, i);
    NothingWithout(e.id);
    var x := history[i];
    assert (history + [e])[i] == x;
    WithoutFirst([x], e.id);
    assert [x][1..] == [];
  }

  lemma LastViewsStep(history: seq<Entry>, upTo: nat)
    requires 0 < upTo <= |history|
    ensures LastViews(history, upTo) == ViewAt(history, upTo - 1) + LastViews(history, upTo - 1)
  {
    hide Final;
  }

  lemma NoViews(history: seq<Entry>)
    ensures LastViews(history, 0) == []
  {
  }

  /** One more view drops the older view of its listing. */
  lemma {:induction false} LastViewsAppend(history: seq<Entry>, e: Entry, upTo: nat)
    requires upTo <= |history|
    ensures LastViews(history + [e], upTo) == Without(LastViews(history, upTo), e.id)
  {
    hide Without, Final, LastViews, ViewAt;
    if upTo == 0 {
      NothingWithout(e.id);
      NoViews(history);
      NoViews(history + [e]);
    } else {
      LastViewsAppend(history, e, upTo - 1);
      LastViewsStep(history, upTo);
      LastViewsStep(history + [e], upTo);
      ViewAtAppend(history, e, upTo - 1);
      WithoutApart(ViewAt(history, upTo - 1), LastViews(history, upTo - 1), e.id);
    }
  }

  lemma FinalAppend(history: seq<Entry>, e: Entry, i: nat)
    requires i < |history|
    ensures Final(history + [e], i) <==> Final(history, i) && history[i].id != e.id
  {
    var longer := history + [e];
    assert longer[|history|] == e;
    if Final(longer, i) {
      forall j | i < j < |history| ensures history[j].id != history[i].id {
        assert longer[j] == history[j];
      }
    }
  }

  lemma {:induction false} LastViewsAre(history: seq<Entry>, upTo: nat)
    requires upTo <= |history| && AllUuids(history)
    ensures DistinctIds(LastViews(history, upTo)) && AllUuids(LastViews(history, upTo))
    ensures forall k :: 0 <= k < |LastViews(history, upTo)| ==> IsView(history, upTo, LastViews(history, upTo)[k])
  {
    hide IsUuid;
    if upTo > 0 {
      LastViewsAre(history, upTo - 1);
      var rest := LastViews(history, upTo - 1);
      var all := LastViews(history, upTo);
      var last := history[upTo - 1];
      forall k | 0 <= k < |rest|
        ensures IsView(history, upTo, rest[k]) && (Final(history, upTo - 1) ==> rest[k].id != last.id)
      {
        var i :| 0 <= i < upTo - 1 && history[i] == rest[k] && Final(history, i);
        assert history[upTo - 1].id != history[i].id;
      }
      if Final(history, upTo - 1) {
        assert all == [last] + rest;
        assert IsView(history, upTo, last);
      } else {
        assert all == rest;
      }
    }
  }

  ghost predicate IsView(history: seq<Entry>, upTo: nat, e: Entry)
    requires upTo <= |history|
  {
    exists i :: 0 <= i < upTo && history[i] == e && Final(history, i)
  }

  lemma TakeAllUuids(list: seq<Entry>, n: nat)
    requires AllUuids(list)
    ensures AllUuids(Take(list, n))
  {
  }

  /** After any adds from empty storage the list is the last view of each of the
      ten listings viewed last, latest first. */
  lemma {:induction false} StoredIsRecentHistory(history: seq<Entry>)
    requires AllUuids(history)
    ensures Parsed(StoredAfter(history)) == Take(LastViews(history, |history|), 10)
  {
    hide IsUuid, Parsed, Stringified, Take, Added;
    if history == [] {
      EmptyHistory();
    } else {
      var before, e := history[..|history| - 1], history[|history| - 1];
      var views := LastViews(before, |before|);
      StoredIsRecentHistory(before);
      LastViewsAre(before, |before|);
      AddedToTaken(views, e);
      assert history == before + [e];
      LastViewsAppend(before, e, |before|);
      assert Final(history, |before|);
      assert LastViews(history, |history|) == [e] + Without(views, e.id);
      LastViewsAre(history, |history|);
      TakeAllUuids(LastViews(history, |history|), MAX_ENTRIES);
      WellFormedOfList(Added(Take(views, MAX_ENTRIES), e));
    }
  }

  lemma EmptyHistory()
    ensures Parsed(StoredAfter([])) == Take(LastViews([], 0), MAX_ENTRIES)
  {
  }

  /** Whatever was stored, an add leaves at most ten entries, the new one first and
      no other of its listing. */
  lemma AddPutsFirst(raw: Option<Raw>, e: Entry)
    requires IsUuid(e.id)
    ensures var list := Parsed(Some(Stringified(Added(Parsed(raw), e))));
      && 1 <= |list| <= 10 && list[0] == e
      && forall i :: 1 <= i < |list| ==> list[i].id != e.id && list[i] in Parsed(raw)
  {
    hide IsUuid, Stringified;
    if raw.Some? && raw.value.Array? { ParsedAreUuids(raw.value.items); }
    assert AllUuids(Parsed(raw));
    var list := Added(Parsed(raw), e);
    WithoutKeepsOthers(Parsed(raw), e.id);
    forall i | 0 <= i < |list| ensures IsUuid(list[i].id) {
      assert i > 0 ==> list[i] == Without(Parsed(raw), e.id)[i - 1];
    }
    WellFormedOfList(list);
  }

  lemma {:induction false} ParsedAreUuids(items: seq<Item>)
    ensures AllUuids(WellFormed(items))
  {
    hide IsUuid;
    if items != [] { ParsedAreUuids(items[1..]); }
  }
}
