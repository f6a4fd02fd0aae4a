/** What the first pass of the spreadsheet names tells apart: room types of one
    title that differ in beds or bathroom, packages/shared/src/room-management.ts. */
module TwinNames {
  import opened OrderedMap
  import opened RoomLabels
  import opened Text

  // ---- the details of a name ------------------------------------------------------------

  lemma {:induction false} TwinsOfTitle(versions: Entries<string, Version>, title: string, i: nat)
    requires i < |versions| && Normalize(versions[i].1.title) == Normalize(title)
    ensures versions[i].1 in Twins(versions, title)
  {
    hide Normalize;
    if i < |versions| - 1 { TwinsOfTitle(versions[..|versions| - 1], title, i); }
  }

  lemma {:induction false} SameTwins(versions: Entries<string, Version>, title: string, other: string)
    requires Normalize(title) == Normalize(other)
    ensures Twins(versions, title) == Twins(versions, other)
  {
    hide Normalize;
    if versions != [] { SameTwins(versions[..|versions| - 1], title, other); }
  }

  /** The beds, when some twin has others. */
  function BedsPart(v: Version, twins: seq<Version>): seq<string> {
    if Differs(Capacities(twins)) then [Beds(v)] else []
  }

  lemma BedsIsText(v: Version)
    ensures Beds(v) != ""
  {
  }

  lemma TwoDiffer<T>(xs: seq<T>, i: nat, j: nat)
    requires i < |xs| && j < |xs| && xs[i] != xs[j]
    ensures Differs(xs)
  {
  }

  lemma CapacitiesDiffer(v: Version, twins: seq<Version>, w: Version)
    requires v in twins && w in twins && v.capacity != w.capacity
    ensures Differs(Capacities(twins)) && |twins| > 1
  {
    hide Differs;
    var i :| 0 <= i < |twins| && twins[i] == v;
    var j :| 0 <= j < |twins| && twins[j] == w;
    TwoDiffer(Capacities(twins), i, j);
  }

  lemma BathroomsDiffer(v: Version, twins: seq<Version>, w: Version)
    requires v in twins && w in twins && v.bathroomType != w.bathroomType
    ensures Differs(Bathrooms(twins)) && |twins| > 1
  {
    hide Differs;
    var i :| 0 <= i < |twins| && twins[i] == v;
    var j :| 0 <= j < |twins| && twins[j] == w;
    TwoDiffer(Bathrooms(twins), i, j);
  }

  /** With twins of another capacity the first detail is the beds. */
  lemma BedsComeFirst(v: Version, twins: seq<Version>, w: Version)
    requires v in twins && w in twins && v.capacity != w.capacity
    ensures Details(v, twins) != [] && Details(v, twins)[0] == Beds(v) && |twins| > 1
  {
    hide Differs, Beds, Capacities, BathroomLabel, RentAndSize, Trim;
    CapacitiesDiffer(v, twins, w);
    BedsIsText(v);
  }

  /** With twins of another bathroom the bathroom comes next. */
  lemma BathroomComesNext(v: Version, twins: seq<Version>, w: Version)
    requires v in twins && w in twins && v.bathroomType != w.bathroomType && BathroomLabel(v.bathroomType) != ""
    ensures Details(v, twins) == BedsPart(v, twins) + [BathroomLabel(v.bathroomType)] + RentAndSize(v, twins)
    ensures |twins| > 1
  {
    hide Differs, Beds, Capacities, BathroomLabel, RentAndSize, Trim;
    BathroomsDiffer(v, twins, w);
    BedsIsText(v);
  }

  // ---- the words of a name -----------------------------------------------------------------

  lemma {:induction false} JoinAround(parts: seq<string>, part: string, others: seq<string>) returns (more: string)
    requires parts != []
    ensures JoinWith(parts + [part] + others, " - ") == JoinWith(parts, " - ") + " - " + part + more
    ensures more == "" || more[0] == ' '
  {
    var all := parts + [part] + others;
    if |parts| == 1 {
      assert all[1..] == [part] + others;
      more := if others == [] then "" else " - " + JoinWith(others, " - ");
      assert ([part] + others)[1..] == others;
      assert JoinWith([part] + others, " - ") == part + more;
    } else {
      more := JoinAround(parts[1..], part, others);
      assert all[1..] == parts[1..] + [part] + others;
    }
  }

  lemma BlankThenWord(w: string)
    requires w != "" && Solid(w)
    ensures Words(" " + w) == [w]
  {
    hide IsSpace;
    SolidIsOneWord(w);
    assert (" " + w)[1..] == w;
  }

  lemma BlankIsWhite()
    ensures IsSpace(' ') && Solid("-")
  {
  }

  lemma WordAfterDash(name: string, word: string, rest: string)
    requires word != "" && Solid(word) && (rest == "" || rest[0] == ' ')
    ensures Words(name + " - " + word + rest) == Words(name) + ["-", word] + Words(rest)
  {
    hide IsSpace, Words, Solid;
    BlankIsWhite();
    var tail := " " + word + rest;
    assert name + " - " + word + rest == name + (" -" + tail);
    WordsSplitAtSpace(name, " -" + tail);
    WordsSplitAtSpace(" -", tail);
    WordsSplitAtSpace(" " + word, rest);
    BlankThenWord("-");
    BlankThenWord(word);
    assert " " + "-" == " -";
  }

  /** A detail that starts with a word puts that word after the dash. */
  lemma NameWords(parts: seq<string>, word: string, rest: string, others: seq<string>) returns (more: seq<string>)
    requires parts != [] && word != "" && Solid(word) && (rest == "" || rest[0] == ' ')
    ensures Words(JoinWith(parts + [word + rest] + others, " - ")) == Words(JoinWith(parts, " - ")) + ["-", word] + more
  {
    hide IsSpace, Words, Solid, JoinWith;
    var tail := JoinAround(parts, word + rest, others);
    var name := JoinWith(parts, " - ");
    assert name + " - " + (word + rest) + tail == name + " - " + word + (rest + tail);
    WordAfterDash(name, word, rest + tail);
    more := Words(rest + tail);
  }

  lemma LowerAllConcat(a: seq<string>, b: seq<string>)
    ensures LowerAll(a + b) == LowerAll(a) + LowerAll(b)
  {
    hide IsSpace;
  }

  /** Names with the same words before the dash and different words after it differ. */
  lemma ToldApart(a: string, b: string, x: seq<string>, y: seq<string>, v: string, w: string,
                  more: seq<string>, more': seq<string>)
    requires LowerAll(x) == LowerAll(y) && Lower(v) == v && Lower(w) == w && v != w
    requires Words(a) == x + ["-", v] + more && Words(b) == y + ["-", w] + more'
    ensures Normalize(a) != Normalize(b)
  {
    hide IsSpace, Words, Normalize, Lower;
    SameNormalFormIffSameWords(a, b);
    var n := |LowerAll(x)|;
    assert LowerAll(Words(a))[n + 1] == v && LowerAll(Words(b))[n + 1] == w;
  }

  lemma TrimKeepsWords(s: string)
    ensures Words(Trim(s)) == Words(s)
  {
    WordsTrimStart(s);
    WordsTrimEnd(TrimStart(s));
  }

  // ---- twins are told apart ------------------------------------------------------------------

  /** The name of a version whose first detail is its beds. */
  lemma NameWithBeds(v: Version, twins: seq<Version>, versions: Entries<string, Version>, w: Version)
    returns (more: seq<string>)
    requires twins == Twins(versions, v.title) && v in twins && w in twins && v.capacity != w.capacity
    ensures Words(FirstLabel(v, versions)) == Words(v.title) + ["-", Decimal(v.capacity)] + more
  {
    hide IsSpace, Words, Twins, Details, Trim, JoinWith, Decimal, Solid;
    BedsComeFirst(v, twins, w);
    var details := Details(v, twins);
    DecimalIsWord(v.capacity);
    var rest := " " + (if v.capacity == 1 then "bed" else "beds");
    more := NameWords([Trim(v.title)], Decimal(v.capacity), rest, details[1..]);
    assert Decimal(v.capacity) + rest == Beds(v);
    assert [Trim(v.title)] + details == [Trim(v.title)] + [Beds(v)] + details[1..];
    JoinOne(Trim(v.title));
    TrimKeepsWords(v.title);
  }

  lemma JoinOne(s: string)
    ensures JoinWith([s], " - ") == s
  {
  }

  /** Types that share a title but not the number of beds are told apart by their
      names already, before any numbering. */
  lemma BedsTellTwinsApart(versions: Entries<string, Version>, i: nat, j: nat)
    requires i < |versions| && j < |versions| && versions[i].1.capacity != versions[j].1.capacity
    requires Normalize(versions[i].1.title) == Normalize(versions[j].1.title)
    ensures Normalize(FirstLabel(versions[i].1, versions)) != Normalize(FirstLabel(versions[j].1, versions))
  {
    hide IsSpace, Words, Normalize, FirstLabel, Decimal, LowerAll, Twins, Lower;
    var v, w := versions[i].1, versions[j].1;
    TwinsOfTitle(versions, v.title, i);
    TwinsOfTitle(versions, v.title, j);
    SameTwins(versions, v.title, w.title);
    var a := NameWithBeds(v, Twins(versions, v.title), versions, w);
    var b := NameWithBeds(w, Twins(versions, w.title), versions, v);
    SameNormalFormIffSameWords(v.title, w.title);
    DecimalIsWord(v.capacity);
    DecimalIsWord(w.capacity);
    if Decimal(v.capacity) == Decimal(w.capacity) { DecimalInjective(v.capacity, w.capacity); }
    ToldApart(FirstLabel(v, versions), FirstLabel(w, versions), Words(v.title), Words(w.title),
              Decimal(v.capacity), Decimal(w.capacity), a, b);
  }

  /** The bathrooms the service knows. */
  const BATHROOMS := ["ensuite", "shared", "private_external", "unspecified"]

  function BathroomWord(bathroomType: string): string {
    match bathroomType
    case "ensuite" => "self-contained"
    case "shared" => "shared"
    case "private_external" => "private"
    case _ => "bathroom"
  }

  lemma BathroomWordIsWord(bathroomType: string)
    ensures var word := BathroomWord(bathroomType); word != "" && Solid(word) && Lower(word) == word
  {
    AsciiWord("self-contained");
    AsciiWord("shared");
    AsciiWord("private");
    AsciiWord("bathroom");
    hide Solid, Lower;
  }

  lemma AsciiWord(word: string)
    requires forall i :: 0 <= i < |word| ==> 'a' <= word[i] <= 'z' || word[i] == '-'
    ensures Solid(word) && Lower(word) == word
  {
  }

  lemma BathroomText(bathroomType: string) returns (rest: string)
    requires bathroomType in BATHROOMS
    ensures BathroomLabel(bathroomType) == BathroomWord(bathroomType) + rest && (rest == "" || rest[0] == ' ')
  {
    match bathroomType
    case "ensuite" => rest := "";
    case "shared" =>
      rest := " bathroom";
      assert "shared" + rest == "shared bathroom";
    case "private_external" =>
      rest := " bathroom outside";
      assert "private" + rest == "private bathroom outside";
    case _ =>
      rest := " not set";
      assert "bathroom" + rest == "bathroom not set";
  }

  lemma BathroomWords(bathroomType: string) returns (rest: string)
    requires bathroomType in BATHROOMS
    ensures BathroomLabel(bathroomType) == BathroomWord(bathroomType) + rest && (rest == "" || rest[0] == ' ')
    ensures var word := BathroomWord(bathroomType); word != "" && Solid(word) && Lower(word) == word
  {
    hide BathroomLabel, BathroomWord, Solid, Lower;
    rest := BathroomText(bathroomType);
    BathroomWordIsWord(bathroomType);
  }

  /** What comes before the bathroom in a name. */
  function BeforeBathroom(v: Version, twins: seq<Version>): (parts: seq<string>)
    ensures parts != []
  {
    [Trim(v.title)] + BedsPart(v, twins)
  }

  lemma NameWithBathroom(v: Version, twins: seq<Version>, versions: Entries<string, Version>, w: Version)
    returns (more: seq<string>)
    requires twins == Twins(versions, v.title) && v in twins && w in twins
    requires v.bathroomType != w.bathroomType && v.bathroomType in BATHROOMS
    ensures Words(FirstLabel(v, versions)) ==
      Words(JoinWith(BeforeBathroom(v, twins), " - ")) + ["-", BathroomWord(v.bathroomType)] + more
  {
    hide IsSpace, Words, Twins, Details, Trim, JoinWith, Decimal, Solid, BathroomLabel, BathroomWord, BedsPart;
    var rest := BathroomWords(v.bathroomType);
    BathroomComesNext(v, twins, w);
    var others := RentAndSize(v, twins);
    more := NameWords(BeforeBathroom(v, twins), BathroomWord(v.bathroomType), rest, others);
    assert [Trim(v.title)] + Details(v, twins) == BeforeBathroom(v, twins) + [BathroomLabel(v.bathroomType)] + others;
  }

  /** Titles of one normal form and the same beds read alike. */
  lemma SameBefore(v: Version, w: Version, twins: seq<Version>)
    requires Normalize(v.title) == Normalize(w.title) && v.capacity == w.capacity
    ensures LowerAll(Words(JoinWith(BeforeBathroom(v, twins), " - ")))
      == LowerAll(Words(JoinWith(BeforeBathroom(w, twins), " - ")))
  {
    hide IsSpace, Words, Normalize, Trim, Decimal, Differs, Capacities, JoinWith, LowerAll, Solid;
    SameNormalFormIffSameWords(v.title, w.title);
    TrimKeepsWords(v.title);
    TrimKeepsWords(w.title);
    JoinOne(Trim(v.title));
    JoinOne(Trim(w.title));
    if Differs(Capacities(twins)) {
      var rest := " " + (if v.capacity == 1 then "bed" else "beds");
      TitleAndBeds(v, rest);
      TitleAndBeds(w, rest);
      LowerAllConcat(Words(v.title), ["-", Decimal(v.capacity)] + Words(rest));
      LowerAllConcat(Words(w.title), ["-", Decimal(v.capacity)] + Words(rest));
    } else {
      assert BeforeBathroom(v, twins) == [Trim(v.title)] && BeforeBathroom(w, twins) == [Trim(w.title)];
    }
  }

  lemma TitleAndBeds(v: Version, rest: string)
    requires rest == " " + (if v.capacity == 1 then "bed" else "beds")
    ensures Words(JoinWith([Trim(v.title)] + [Beds(v)], " - "))
      == Words(v.title) + (["-", Decimal(v.capacity)] + Words(rest))
  {
    hide IsSpace, Words, Trim, Decimal, Solid;
    var t := Trim(v.title);
    assert ([t] + [Beds(v)])[1..] == [Beds(v)];
    assert JoinWith([t] + [Beds(v)], " - ") == t + " - " + Decimal(v.capacity) + rest;
    DecimalIsWord(v.capacity);
    WordAfterDash(t, Decimal(v.capacity), rest);
    TrimKeepsWords(v.title);
  }

  /** So are types that share title and beds but not the bathroom. */
  lemma BathroomTellsTwinsApart(versions: Entries<string, Version>, i: nat, j: nat)
    requires i < |versions| && j < |versions| && versions[i].1.capacity == versions[j].1.capacity
    requires Normalize(versions[i].1.title) == Normalize(versions[j].1.title)
    requires versions[i].1.bathroomType in BATHROOMS && versions[j].1.bathroomType in BATHROOMS
    requires versions[i].1.bathroomType != versions[j].1.bathroomType
    ensures Normalize(FirstLabel(versions[i].1, versions)) != Normalize(FirstLabel(versions[j].1, versions))
  {
    hide IsSpace, Words, Normalize, FirstLabel, Twins, Lower, LowerAll, JoinWith, BeforeBathroom;
    var v, w := versions[i].1, versions[j].1;
    TwinsOfTitle(versions, v.title, i);
    TwinsOfTitle(versions, v.title, j);
    SameTwins(versions, v.title, w.title);
    var twins := Twins(versions, v.title);
    var a := NameWithBathroom(v, twins, versions, w);
    var b := NameWithBathroom(w, twins, versions, v);
    SameBefore(v, w, twins);
    var r := BathroomWords(v.bathroomType);
    var q := BathroomWords(w.bathroomType);
    var x, y := Words(JoinWith(BeforeBathroom(v, twins), " - ")), Words(JoinWith(BeforeBathroom(w, twins), " - "));
    ToldApart(FirstLabel(v, versions), FirstLabel(w, versions), x, y,
              BathroomWord(v.bathroomType), BathroomWord(w.bathroomType), a, b);
  }
}
