/** A title that only one room type uses can still be numbered: another type's
    built name may be the same. */
module RoomLabelExample {
  import opened OrderedMap
  import opened RoomLabels
  import opened Text
  import TwinNames

  const ONE_BED := Version("d", "single", 1, "shared", 50_000, None, None)
  const TWO_BEDS := Version("d", "double", 2, "shared", 50_000, None, None)
  const NAMESAKE := Version("d - 1 bed", "single", 1, "shared", 50_000, None, None)

  function Types(): seq<RoomType> {
    [RoomType("a", Some(ONE_BED), None), RoomType("b", Some(TWO_BEDS), None), RoomType("c", Some(NAMESAKE), None)]
  }

  function Named(): Entries<string, Version> {
    [("a", ONE_BED), ("b", TWO_BEDS), ("c", NAMESAKE)]
  }

  lemma VersionsAre()
    ensures Versions(Types()) == Named()
  {
    var t := Types();
    assert t[..2][..1] == t[..1] && t[..1][..0] == [];
    assert Versions(t[..0]) == [];
    assert Versions(t[..1]) == [("a", ONE_BED)];
    assert Versions(t[..2]) == [("a", ONE_BED), ("b", TWO_BEDS)];
  }

  lemma TitlesDiffer()
    ensures Normalize("d") != Normalize("d - 1 bed")
  {
    hide Normalize, Words, IsSpace, LowerAll;
    SameNormalFormIffSameWords("d", "d - 1 bed");
    DecimalIsWord(1);
    assert Decimal(1) == "1";
    TwinNames.WordAfterDash("d", "1", " bed");
    assert "d" + " - " + "1" + " bed" == "d - 1 bed";
    LowerAllLength(Words("d"));
    LowerAllLength(Words("d - 1 bed"));
  }

  lemma LowerAllLength(ws: seq<string>)
    ensures |LowerAll(ws)| == |ws|
  {
  }

  lemma TwinsAre()
    ensures Twins(Named(), "d") == [ONE_BED, TWO_BEDS]
    ensures Twins(Named(), "d - 1 bed") == [NAMESAKE]
  {
    hide Normalize;
    TitlesDiffer();
    var v := Named();
    assert v[..2][..1] == v[..1] && v[..1][..0] == [] && v[..3] == v;
    assert Twins(v[..0], "d") == [] && Twins(v[..0], "d - 1 bed") == [];
    assert Twins(v[..1], "d") == [ONE_BED] && Twins(v[..1], "d - 1 bed") == [];
    assert Twins(v[..2], "d") == [ONE_BED, TWO_BEDS] && Twins(v[..2], "d - 1 bed") == [];
  }

  lemma DetailsAre()
    ensures Details(ONE_BED, [ONE_BED, TWO_BEDS]) == ["1 bed"]
  {
    hide ShortUgx, BathroomLabel;
    var twins := [ONE_BED, TWO_BEDS];
    assert Capacities(twins)[0] != Capacities(twins)[1];
    assert Differs(Capacities(twins));
    assert !Differs(Bathrooms(twins)) && !Differs(Rents(twins)) && !Differs(Sizes(twins));
    assert Decimal(1) + " " + "bed" == "1 bed";
  }

  lemma FirstLabels()
    ensures FirstLabel(ONE_BED, Named()) == "d - 1 bed" == FirstLabel(NAMESAKE, Named())
  {
    hide Details, Twins, Named, Normalize;
    TwinsAre();
    DetailsAre();
    assert Trim("d") == "d" && Trim("d - 1 bed") == "d - 1 bed";
    var parts := ["d"] + ["1 bed"];
    assert parts[1..] == ["1 bed"];
    assert JoinWith(parts, " - ") == "d" + " - " + "1 bed";
  }

  lemma PutNew(m: Labels, id: string, name: string)
    requires forall i :: 0 <= i < |m| ==> m[i].0 != id
    ensures Put(m, id, name) == m + [(id, name)]
  {
  }

  lemma FirstPassStep(versions: Entries<string, Version>, n: nat)
    requires 0 < n <= |versions|
    ensures FirstPass(versions, 0) == []
    ensures FirstPass(versions, n)
      == Put(FirstPass(versions, n - 1), versions[n - 1].0, FirstLabel(versions[n - 1].1, versions))
  {
    hide FirstLabel, Put;
  }

  lemma FirstPassIs()
    ensures FirstPass(Named(), 3) == [("a", "d - 1 bed"), ("b", FirstLabel(TWO_BEDS, Named())), ("c", "d - 1 bed")]
  {
    hide FirstLabel, Put, FirstPass;
    FirstLabels();
    var v := Named();
    var b := FirstLabel(TWO_BEDS, v);
    FirstPassStep(v, 1);
    PutNew([], "a", "d - 1 bed");
    FirstPassStep(v, 2);
    PutNew([("a", "d - 1 bed")], "b", b);
    FirstPassStep(v, 3);
    PutNew([("a", "d - 1 bed"), ("b", b)], "c", "d - 1 bed");
  }

  /** `"d - 1 bed"` is the title of one type only, yet its name is not its title. */
  lemma UniqueTitleIsNumbered()
    ensures |Twins(Versions(Types()), NAMESAKE.title)| == 1
    ensures |ImportLabels(Types())| == 3 && ImportLabels(Types())[2] != ("c", Trim(NAMESAKE.title))
  {
    hide FirstLabel, FirstPass, ImportLabels, Twins, Normalize, Versions;
    VersionsAre();
    TwinsAre();
    FirstPassIs();
    assert Trim("d - 1 bed") == "d - 1 bed";
    assert Unnumbered(Types()) == FirstPass(Named(), 3);
    LabelKeptIffUnshared(Types(), 2);
    assert Unnumbered(Types())[0].1 == Unnumbered(Types())[2].1;
  }
}
