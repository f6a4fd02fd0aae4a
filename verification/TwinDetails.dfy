/** What a spreadsheet name tells of rents, sizes and descriptions:
    packages/shared/src/room-management.ts. */
module TwinDetails {
  import opened Collections
  import opened OrderedMap
  import opened RoomLabels
  import opened Text
  import opened TwinNames

  // ---- which details are told -----------------------------------------------------------

  ghost predicate OtherBeds(v: Version, twins: seq<Version>) {
    exists w :: w in twins && w.capacity != v.capacity
  }

  ghost predicate OtherBathroom(v: Version, twins: seq<Version>) {
    exists w :: w in twins && w.bathroomType != v.bathroomType
  }

  ghost predicate OtherRent(v: Version, twins: seq<Version>) {
    exists w :: w in twins && w.pricePerTermUgx != v.pricePerTermUgx
  }

  ghost predicate OtherSize(v: Version, twins: seq<Version>) {
    exists w :: w in twins && w.sizeSqm != v.sizeSqm
  }

  ghost predicate OtherDescription(v: Version, twins: seq<Version>) {
    exists w :: w in twins && w.description != v.description
  }

  ghost function BedsAndBathroom(v: Version, twins: seq<Version>): seq<string> {
    (if OtherBeds(v, twins) then [Decimal(v.capacity) + if v.capacity == 1 then " bed" else " beds"] else [])
    + (if OtherBathroom(v, twins) && BathroomLabel(v.bathroomType) != "" then [BathroomLabel(v.bathroomType)] else [])
  }

  ghost function Rent(v: Version, twins: seq<Version>): seq<string> {
    if OtherRent(v, twins) then [ShortUgx(v.pricePerTermUgx)] else []
  }

  ghost predicate HasSize(v: Version) {
    v.sizeSqm.Some? && v.sizeSqm.value > 0
  }

  ghost function Size(v: Version, twins: seq<Version>): seq<string> {
    if OtherSize(v, twins) && HasSize(v) then [Decimal(v.sizeSqm.value) + " m\U{00B2}"] else []
  }

  /** The first hundred characters of a description, empty without one. */
  ghost function Head(v: Version): string {
    if v.description.Some? then Take(Trim(v.description.value), 100) else ""
  }

  lemma DiffersIff<T>(xs: seq<T>, i: nat)
    requires i < |xs|
    ensures Differs(xs) <==> exists j :: 0 <= j < |xs| && xs[j] != xs[i]
  {
  }

  lemma BedsDiffer(v: Version, twins: seq<Version>, i: nat)
    requires i < |twins| && twins[i] == v
    ensures Differs(Capacities(twins)) <==> OtherBeds(v, twins)
  {
    DiffersIff(Capacities(twins), i);
    hide Differs;
    if OtherBeds(v, twins) {
      var w :| w in twins && w.capacity != v.capacity;
      var j :| 0 <= j < |twins| && twins[j] == w;
      assert Capacities(twins)[j] != Capacities(twins)[i];
    }
    if Differs(Capacities(twins)) {
      var j :| 0 <= j < |twins| && Capacities(twins)[j] != Capacities(twins)[i];
      assert twins[j] in twins;
    }
  }

  lemma BathsDiffer(v: Version, twins: seq<Version>, i: nat)
    requires i < |twins| && twins[i] == v
    ensures Differs(Bathrooms(twins)) <==> OtherBathroom(v, twins)
  {
    DiffersIff(Bathrooms(twins), i);
    hide Differs;
    if OtherBathroom(v, twins) {
      var w :| w in twins && w.bathroomType != v.bathroomType;
      var j :| 0 <= j < |twins| && twins[j] == w;
      assert Bathrooms(twins)[j] != Bathrooms(twins)[i];
    }
    if Differs(Bathrooms(twins)) {
      var j :| 0 <= j < |twins| && Bathrooms(twins)[j] != Bathrooms(twins)[i];
      assert twins[j] in twins;
    }
  }

  lemma RentsDiffer(v: Version, twins: seq<Version>, i: nat)
    requires i < |twins| && twins[i] == v
    ensures Differs(Rents(twins)) <==> OtherRent(v, twins)
  {
    DiffersIff(Rents(twins), i);
    hide Differs;
    if OtherRent(v, twins) {
      var w :| w in twins && w.pricePerTermUgx != v.pricePerTermUgx;
      var j :| 0 <= j < |twins| && twins[j] == w;
      assert Rents(twins)[j] != Rents(twins)[i];
    }
    if Differs(Rents(twins)) {
      var j :| 0 <= j < |twins| && Rents(twins)[j] != Rents(twins)[i];
      assert twins[j] in twins;
    }
  }

  lemma SizesDiffer(v: Version, twins: seq<Version>, i: nat)
    requires i < |twins| && twins[i] == v
    ensures Differs(Sizes(twins)) <==> OtherSize(v, twins)
  {
    DiffersIff(Sizes(twins), i);
    hide Differs;
    if OtherSize(v, twins) {
      var w :| w in twins && w.sizeSqm != v.sizeSqm;
      var j :| 0 <= j < |twins| && twins[j] == w;
      assert Sizes(twins)[j] != Sizes(twins)[i];
    }
    if Differs(Sizes(twins)) {
      var j :| 0 <= j < |twins| && Sizes(twins)[j] != Sizes(twins)[i];
      assert twins[j] in twins;
    }
  }

  lemma DescriptionsDiffer(v: Version, twins: seq<Version>, i: nat)
    requires i < |twins| && twins[i] == v
    ensures Differs(Descriptions(twins)) <==> OtherDescription(v, twins)
  {
    DiffersIff(Descriptions(twins), i);
    hide Differs;
    if OtherDescription(v, twins) {
      var w :| w in twins && w.description != v.description;
      var j :| 0 <= j < |twins| && twins[j] == w;
      assert Descriptions(twins)[j] != Descriptions(twins)[i];
    }
    if Differs(Descriptions(twins)) {
      var j :| 0 <= j < |twins| && Descriptions(twins)[j] != Descriptions(twins)[i];
      assert twins[j] in twins;
    }
  }

  lemma BedsTold(v: Version, twins: seq<Version>)
    requires v in twins
    ensures When(Differs(Capacities(twins)), Beds(v)) + When(Differs(Bathrooms(twins)), BathroomLabel(v.bathroomType))
      == BedsAndBathroom(v, twins)
  {
    var i :| 0 <= i < |twins| && twins[i] == v;
    BedsDiffer(v, twins, i);
    BathsDiffer(v, twins, i);
    hide OtherBeds, OtherBathroom, Differs, Capacities, Bathrooms, Decimal, BathroomLabel;
    assert Decimal(v.capacity) + " beds" == Decimal(v.capacity) + " " + "beds";
    assert Decimal(v.capacity) + " bed" == Decimal(v.capacity) + " " + "bed";
  }

  lemma RentAndSizeTold(v: Version, twins: seq<Version>)
    requires v in twins
    ensures RentAndSize(v, twins) == Rent(v, twins) + Size(v, twins)
  {
    var i :| 0 <= i < |twins| && twins[i] == v;
    RentsDiffer(v, twins, i);
    SizesDiffer(v, twins, i);
    RentIsText(v.pricePerTermUgx);
    hide OtherRent, OtherSize, Differs, Rents, Sizes, Decimal, ShortUgx;
    if HasSize(v) { assert Decimal(v.sizeSqm.value) + " m\U{00B2}" != ""; }
  }

  /** Beds, bathroom, rent and size are told, in this order, each exactly when
      some twin has another; the description only when none of them is. */
  lemma ToldIffTwinDiffers(v: Version, twins: seq<Version>)
    requires v in twins
    ensures var told := BedsAndBathroom(v, twins) + Rent(v, twins) + Size(v, twins);
      Details(v, twins) ==
        if told != [] then told
        else if OtherDescription(v, twins) && Head(v) != "" then [Head(v)] else []
  {
    var i :| 0 <= i < |twins| && twins[i] == v;
    DescriptionsDiffer(v, twins, i);
    BedsTold(v, twins);
    RentAndSizeTold(v, twins);
    hide BedsAndBathroom, Rent, Size, RentAndSize, OtherDescription, Differs, Capacities, Bathrooms, Descriptions;
    hide BathroomLabel, Trim, Beds;
    ToldInOrder(BedsAndBathroom(v, twins), Rent(v, twins), Size(v, twins));
  }

  lemma ToldInOrder<T>(a: seq<T>, b: seq<T>, c: seq<T>)
    ensures a + (b + c) == a + b + c
  {
  }

  // ---- the words of a name -------------------------------------------------------------------

  /** The words that the details add to those of the title. */
  function DetailWords(details: seq<string>): seq<string> {
    if details == [] then [] else ["-"] + Words(JoinWith(details, " - "))
  }

  lemma NameIsTitleThenDetails(title: string, details: seq<string>)
    ensures Words(JoinWith([Trim(title)] + details, " - ")) == Words(title) + DetailWords(details)
  {
    hide IsSpace, Words, Trim, Solid, JoinWith;
    var t := Trim(title);
    TrimKeepsWords(title);
    JoinOne(t);
    if details != [] {
      JoinAppended([t], details);
      AfterDash(t, JoinWith(details, " - "));
    } else {
      assert [t] + details == [t];
    }
  }

  lemma AfterDash(name: string, tail: string)
    ensures Words(name + " - " + tail) == Words(name) + (["-"] + Words(tail))
  {
    hide IsSpace, Words, Solid;
    assert name + " - " + tail == name + (" -" + (" " + tail));
    BlankIsWhite();
    WordsSplitAtSpace(name, " -" + (" " + tail));
    WordsSplitAtSpace(" -", " " + tail);
    BlankThenWord("-");
    assert " " + "-" == " -";
    LeadingBlank(tail);
  }

  lemma LeadingBlank(s: string)
    ensures Words(" " + s) == Words(s)
  {
    assert (" " + s)[1..] == s;
  }

  /** Twins' names agree exactly when the words of their details do. */
  lemma SameNameIffSameDetails(versions: Entries<string, Version>, i: nat, j: nat)
    requires i < |versions| && j < |versions| && i != j
    requires Normalize(versions[i].1.title) == Normalize(versions[j].1.title)
    ensures var twins := Twins(versions, versions[i].1.title);
      && versions[i].1 in twins && versions[j].1 in twins
      && (Normalize(FirstLabel(versions[i].1, versions)) == Normalize(FirstLabel(versions[j].1, versions)) <==>
            LowerAll(DetailWords(Details(versions[i].1, twins)))
              == LowerAll(DetailWords(Details(versions[j].1, twins))))
  {
    hide IsSpace, Words, Normalize, Twins, Details, JoinWith, DetailWords, Trim, LowerAll;
    var v, w := versions[i].1, versions[j].1;
    var twins := Twins(versions, v.title);
    TwinsOfTitle(versions, v.title, i);
    TwinsOfTitle(versions, v.title, j);
    SameTwins(versions, v.title, w.title);
    TwoTwins(versions, v.title, if i < j then i else j, if i < j then j else i);
    NameIsTitleThenDetails(v.title, Details(v, twins));
    NameIsTitleThenDetails(w.title, Details(w, twins));
    SameNormalFormIffSameWords(v.title, w.title);
    SameNormalFormIffSameWords(FirstLabel(v, versions), FirstLabel(w, versions));
    LowerAllConcat(Words(v.title), DetailWords(Details(v, twins)));
    LowerAllConcat(Words(w.title), DetailWords(Details(w, twins)));
    SamePrefix(LowerAll(Words(v.title)), LowerAll(DetailWords(Details(v, twins))),
               LowerAll(DetailWords(Details(w, twins))));
  }

  lemma SamePrefix<T>(x: seq<T>, a: seq<T>, b: seq<T>)
    ensures x + a == x + b <==> a == b
  {
    assert (x + a)[|x|..] == a && (x + b)[|x|..] == b;
  }

  lemma {:induction false} TwoTwins(versions: Entries<string, Version>, title: string, i: nat, j: nat)
    requires i < j < |versions|
    requires Normalize(versions[i].1.title) == Normalize(versions[j].1.title) == Normalize(title)
    ensures |Twins(versions, title)| > 1
  {
    hide Normalize;
    var init := versions[..|versions| - 1];
    if j < |versions| - 1 { TwoTwins(init, title, i, j); } else { TwinsOfTitle(init, title, i); }
  }

  /** Where the details before are the same, names differ with the words of the rest. */
  lemma DetailWordsAfter(same: seq<string>, details: seq<string>)
    requires details != []
    ensures DetailWords(same + details) == DetailWords(same) + DetailWords(details)
  {
    hide IsSpace, Words, JoinWith;
    if same == [] {
      assert same + details == details;
    } else {
      JoinAppended(same, details);
      AfterDash(JoinWith(same, " - "), JoinWith(details, " - "));
    }
  }

  lemma {:induction false} JoinAppended(xs: seq<string>, ys: seq<string>)
    requires xs != [] && ys != []
    ensures JoinWith(xs + ys, " - ") == JoinWith(xs, " - ") + " - " + JoinWith(ys, " - ")
  {
    assert (xs + ys)[1..] == xs[1..] + ys;
    if |xs| > 1 {
      JoinAppended(xs[1..], ys);
      assert xs[0] + " - " + (JoinWith(xs[1..], " - ") + " - " + JoinWith(ys, " - "))
        == JoinWith(xs, " - ") + " - " + JoinWith(ys, " - ");
    }
  }

  // ---- rents ------------------------------------------------------------------------------------

  /** The characters a short amount is printed with. */
  predicate IsAmountChar(c: char) {
    '0' <= c <= '9' || c == '.' || c == 'k' || c == 'M'
  }

  predicate IsAmount(s: string) {
    s != "" && forall i :: 0 <= i < |s| ==> IsAmountChar(s[i])
  }

  /** A short amount without the currency. */
  function Amount(amount: nat): (r: string)
    ensures r == "" || ShortUgx(amount) == "UGX " + r
  {
    ShortUgx(amount)[4..]
  }

  lemma DecimalIsAmount(n: nat)
    ensures IsAmount(Decimal(n))
  {
  }

  lemma ConcatIsAmount(a: string, b: string)
    requires IsAmount(a) && IsAmount(b)
    ensures IsAmount(a + b)
  {
  }

  /** `Number((n / 100).toFixed(2))`, or with tenths: a point only before a digit that is not zero. */
  lemma TenthsText(tenths: nat) returns (fraction: string)
    ensures ShortTenths(tenths) == Decimal(tenths / 10) + fraction
    ensures if tenths % 10 == 0 then fraction == "" else fraction == "." + Decimal(tenths % 10)
    ensures IsAmount(ShortTenths(tenths))
  {
    DecimalIsAmount(tenths / 10);
    DecimalIsAmount(tenths % 10);
    hide IsAmountChar, Decimal;
    fraction := if tenths % 10 == 0 then "" else "." + Decimal(tenths % 10);
    assert IsAmount(".") by { PointIsAmount(); }
    if tenths % 10 != 0 {
      ConcatIsAmount(".", Decimal(tenths % 10));
      ConcatIsAmount(Decimal(tenths / 10), fraction);
    } else {
      assert Decimal(tenths / 10) + "" == Decimal(tenths / 10);
    }
  }

  lemma PointIsAmount()
    ensures IsAmount(".") && IsAmount("k") && IsAmount("M")
  {
  }

  lemma HundredthsText(hundredths: nat)
    ensures hundredths % 10 != 0 ==>
      (ShortHundredths(hundredths)
         == Decimal(hundredths / 100) + "." + Decimal(hundredths / 10 % 10) + Decimal(hundredths % 10))
    ensures hundredths % 10 == 0 ==> ShortHundredths(hundredths) == ShortTenths(hundredths / 10)
    ensures IsAmount(ShortHundredths(hundredths))
  {
    if hundredths % 10 == 0 {
      var f := TenthsText(hundredths / 10);
    } else {
      DecimalIsAmount(hundredths / 100);
      DecimalIsAmount(hundredths / 10 % 10);
      DecimalIsAmount(hundredths % 10);
      PointIsAmount();
      hide IsAmountChar, Decimal;
      ConcatIsAmount(Decimal(hundredths / 100), ".");
      ConcatIsAmount(Decimal(hundredths / 100) + ".", Decimal(hundredths / 10 % 10));
      ConcatIsAmount(Decimal(hundredths / 100) + "." + Decimal(hundredths / 10 % 10), Decimal(hundredths % 10));
    }
  }

  lemma RentIsText(amount: nat)
    ensures ShortUgx(amount) == "UGX " + Amount(amount) && IsAmount(Amount(amount))
  {
    PointIsAmount();
    HundredthsText((amount + 5_000) / 10_000);
    var f := TenthsText((amount + 50) / 100);
    DecimalIsAmount(amount);
    ConcatIsAmount(ShortHundredths((amount + 5_000) / 10_000), "M");
    ConcatIsAmount(ShortTenths((amount + 50) / 100), "k");
    hide IsAmountChar, Decimal, ShortHundredths, ShortTenths;
    if amount >= 1_000_000 {
      assert ShortUgx(amount) == "UGX " + (ShortHundredths((amount + 5_000) / 10_000) + "M");
    } else if amount >= 1_000 {
      assert ShortUgx(amount) == "UGX " + (ShortTenths((amount + 50) / 100) + "k");
    }
  }

  /** A whole number and the digits after the point, with the unit. */
  ghost function Printed(whole: nat, fraction: string, unit: string): string {
    "UGX " + Decimal(whole) + (if fraction == "" then "" else "." + fraction) + unit
  }

  /** At most `places` digits, the last of them not zero. */
  ghost predicate IsFraction(fraction: string, places: nat) {
    && |fraction| <= places && (forall i :: 0 <= i < |fraction| ==> IsDigit(fraction[i], 10))
    && (fraction != "" ==> fraction[|fraction| - 1] != '0')
  }

  /** The digits after the point, in hundredths. */
  ghost function Hundredths(fraction: string): nat {
    if |fraction| == 1 then 10 * NumeralValue(fraction, 10) else NumeralValue(fraction, 10)
  }

  /** A rent is printed in full below a thousand, in thousands to the nearest
      tenth below a million, and in millions to the nearest hundredth from there;
      a half goes up, and there are no zeros at the end. */
  lemma RentIsRounded(amount: nat) returns (whole: nat, fraction: string)
    ensures amount < 1_000 ==> ShortUgx(amount) == "UGX " + Decimal(amount)
    ensures 1_000 <= amount < 1_000_000 ==>
      && ShortUgx(amount) == Printed(whole, fraction, "k") && IsFraction(fraction, 1)
      && -500 <= 10 * amount - 100 * (100 * whole + Hundredths(fraction)) < 500
    ensures 1_000_000 <= amount ==>
      && ShortUgx(amount) == Printed(whole, fraction, "M") && IsFraction(fraction, 2)
      && -5_000 <= amount - 10_000 * (100 * whole + Hundredths(fraction)) < 5_000
  {
    whole, fraction := 0, "";
    if 1_000_000 <= amount {
      var q := (amount + 5_000) / 10_000;
      HundredthsText(q);
      if q % 10 != 0 {
        whole, fraction := q / 100, Decimal(q / 10 % 10) + Decimal(q % 10);
        TwoDigits(q / 10 % 10, q % 10);
        assert q == 100 * whole + 10 * (q / 10 % 10) + q % 10;
        assert ShortHundredths(q) == Decimal(whole) + ("." + fraction);
      } else {
        var f := TenthsText(q / 10);
        assert q / 10 / 10 == q / 100;
        whole, fraction := q / 100, if q / 10 % 10 == 0 then "" else Decimal(q / 10 % 10);
        OneDigit(q / 10 % 10);
        assert q == 100 * whole + 10 * (q / 10 % 10);
      }
      hide ShortHundredths, ShortTenths, Decimal, IsDigit, NumeralValue;
      assert ShortUgx(amount) == "UGX " + ShortHundredths(q) + "M";
      assert ShortHundredths(q) == Decimal(whole) + (if fraction == "" then "" else "." + fraction);
      Assembled(Decimal(whole), if fraction == "" then "" else "." + fraction, "M");
    } else if 1_000 <= amount {
      var q := (amount + 50) / 100;
      var f := TenthsText(q);
      whole, fraction := q / 10, if q % 10 == 0 then "" else Decimal(q % 10);
      OneDigit(q % 10);
      hide ShortHundredths, ShortTenths, Decimal, IsDigit, NumeralValue;
      assert ShortTenths(q) == Decimal(whole) + (if fraction == "" then "" else "." + fraction);
      Assembled(Decimal(whole), if fraction == "" then "" else "." + fraction, "k");
    }
  }

  lemma Assembled(whole: string, fraction: string, unit: string)
    ensures "UGX " + (whole + fraction) + unit == "UGX " + whole + fraction + unit
  {
  }

  lemma OneDigit(d: nat)
    requires d < 10
    ensures |Decimal(d)| == 1 && IsDigit(Decimal(d)[0], 10) && NumeralValue(Decimal(d), 10) == d
    ensures d != 0 ==> Decimal(d)[0] != '0'
    ensures NumeralValue("", 10) == 0
  {
    NumeralRoundTrip(d, 10);
  }

  lemma TwoDigits(d: nat, e: nat)
    requires d < 10 && 0 < e < 10
    ensures IsFraction(Decimal(d) + Decimal(e), 2) && Hundredths(Decimal(d) + Decimal(e)) == 10 * d + e
  {
    OneDigit(d);
    OneDigit(e);
    hide Decimal;
    var s := Decimal(d) + Decimal(e);
    assert s == Decimal(d) + [Decimal(e)[0]];
    NumeralValueAppend(Decimal(d), Decimal(e)[0], 10);
    assert Decimal(e) == [] + [Decimal(e)[0]];
    NumeralValueAppend([], Decimal(e)[0], 10);
  }

  lemma AmountIsWord(s: string)
    requires IsAmount(s)
    ensures Solid(s)
  {
  }

  lemma LowerAmountsDiffer(s: string, t: string)
    requires IsAmount(s) && IsAmount(t) && Lower(s) == Lower(t)
    ensures s == t
  {
    forall i | 0 <= i < |s| ensures s[i] == t[i] {
      assert Lower(s)[i] == LowerChar(s[i]) && Lower(t)[i] == LowerChar(t[i]);
    }
  }

  lemma TwoWords(a: string, b: string, rest: string)
    requires a != "" && Solid(a) && b != "" && Solid(b) && (rest == "" || rest[0] == ' ')
    ensures Words(a + " " + b + rest) == [a, b] + Words(rest)
  {
    hide IsSpace, Words, Solid;
    BlankIsWhite();
    assert a + " " + b + rest == a + (" " + b + rest);
    SolidIsOneWord(a);
    WordsSplitAtSpace(a, " " + b + rest);
    BlankThenWord(b);
    if rest == "" {
      assert " " + b + rest == " " + b;
      NoWords();
    } else {
      WordsSplitAtSpace(" " + b, rest);
    }
  }

  lemma JoinFirst(first: string, others: seq<string>) returns (rest: string)
    ensures JoinWith([first] + others, " - ") == first + rest
    ensures rest == "" || rest[0] == ' '
  {
    assert ([first] + others)[1..] == others;
    rest := if others == [] then "" else " - " + JoinWith(others, " - ");
  }

  lemma UgxThen(a: string, rest: string)
    ensures "UGX " + a + rest == "UGX" + " " + a + rest
  {
  }

  lemma RentWords(amount: nat, others: seq<string>) returns (more: seq<string>)
    ensures DetailWords([ShortUgx(amount)] + others) == ["-", "UGX", Amount(amount)] + more
  {
    hide IsSpace, Words, Solid, ShortUgx, Amount, IsAmountChar, JoinWith;
    RentIsText(amount);
    AmountIsWord(Amount(amount));
    hide IsAmount;
    var rest := JoinFirst(ShortUgx(amount), others);
    UgxThen(Amount(amount), rest);
    UgxIsWord();
    AmountIsSome(amount);
    TwoWords("UGX", Amount(amount), rest);
    more := Words(rest);
  }

  lemma AmountIsSome(amount: nat)
    ensures Amount(amount) != ""
  {
    hide ShortUgx;
    RentIsText(amount);
  }

  lemma UgxIsWord()
    ensures Solid("UGX")
  {
  }

  /** Types that share title, beds and bathroom and whose rents print differently are told apart. */
  lemma RentsTellTwinsApart(versions: Entries<string, Version>, i: nat, j: nat)
    requires i < |versions| && j < |versions|
    requires Normalize(versions[i].1.title) == Normalize(versions[j].1.title)
    requires versions[i].1.capacity == versions[j].1.capacity
    requires versions[i].1.bathroomType == versions[j].1.bathroomType
    requires ShortUgx(versions[i].1.pricePerTermUgx) != ShortUgx(versions[j].1.pricePerTermUgx)
    ensures Normalize(FirstLabel(versions[i].1, versions)) != Normalize(FirstLabel(versions[j].1, versions))
  {
    hide *;
    var v, w := versions[i].1, versions[j].1;
    SameNameIffSameDetails(versions, i, j);
    var twins := Twins(versions, v.title);
    OtherRents(v, w, twins);
    RentIsTold(v, twins);
    RentIsTold(w, twins);
    SameBeds(v, w, twins);
    var same := BedsAndBathroom(v, twins);
    DetailWordsAfter(same, [ShortUgx(v.pricePerTermUgx)] + Size(v, twins));
    DetailWordsAfter(same, [ShortUgx(w.pricePerTermUgx)] + Size(w, twins));
    var a := RentWords(v.pricePerTermUgx, Size(v, twins));
    var b := RentWords(w.pricePerTermUgx, Size(w, twins));
    RentIsText(v.pricePerTermUgx);
    RentIsText(w.pricePerTermUgx);
    ThirdWordDiffers(DetailWords(same), Amount(v.pricePerTermUgx), Amount(w.pricePerTermUgx), a, b);
  }

  lemma SameBeds(v: Version, w: Version, twins: seq<Version>)
    requires v.capacity == w.capacity && v.bathroomType == w.bathroomType
    ensures BedsAndBathroom(v, twins) == BedsAndBathroom(w, twins)
  {
    hide Decimal, BathroomLabel;
  }

  lemma OtherRents(v: Version, w: Version, twins: seq<Version>)
    requires v in twins && w in twins && ShortUgx(v.pricePerTermUgx) != ShortUgx(w.pricePerTermUgx)
    ensures OtherRent(v, twins) && OtherRent(w, twins)
  {
    hide ShortUgx;
  }

  lemma RentIsTold(v: Version, twins: seq<Version>)
    requires v in twins && OtherRent(v, twins)
    ensures Details(v, twins) == BedsAndBathroom(v, twins) + ([ShortUgx(v.pricePerTermUgx)] + Size(v, twins))
  {
    hide Details, BedsAndBathroom, Size, ShortUgx, OtherRent, OtherDescription, Head;
    ToldIffTwinDiffers(v, twins);
    ToldInOrder(BedsAndBathroom(v, twins), [ShortUgx(v.pricePerTermUgx)], Size(v, twins));
  }

  lemma ThirdWordDiffers(x: seq<string>, v: string, w: string, a: seq<string>, b: seq<string>)
    requires IsAmount(v) && IsAmount(w) && v != w
    ensures LowerAll(x + (["-", "UGX", v] + a)) != LowerAll(x + (["-", "UGX", w] + b))
  {
    hide IsAmount, Lower;
    var p, q := LowerAll(x + (["-", "UGX", v] + a)), LowerAll(x + (["-", "UGX", w] + b));
    assert p[|x| + 2] == Lower(v) && q[|x| + 2] == Lower(w);
    if Lower(v) == Lower(w) { LowerAmountsDiffer(v, w); }
  }

  // ---- sizes -------------------------------------------------------------------------------------

  lemma SizeWords(size: nat) returns (more: seq<string>)
    ensures DetailWords([Decimal(size) + " m\U{00B2}"]) == ["-", Decimal(size)] + more
  {
    hide IsSpace, Words, Solid, Decimal;
    DecimalIsWord(size);
    BlankIsWhite();
    JoinOne(Decimal(size) + " m\U{00B2}");
    SolidIsOneWord(Decimal(size));
    WordsSplitAtSpace(Decimal(size), " m\U{00B2}");
    more := Words(" m\U{00B2}");
  }

  /** Types that share all that and the rent, and have different known sizes, are told apart. */
  lemma SizesTellTwinsApart(versions: Entries<string, Version>, i: nat, j: nat)
    requires i < |versions| && j < |versions|
    requires Normalize(versions[i].1.title) == Normalize(versions[j].1.title)
    requires versions[i].1.capacity == versions[j].1.capacity
    requires versions[i].1.bathroomType == versions[j].1.bathroomType
    requires versions[i].1.pricePerTermUgx == versions[j].1.pricePerTermUgx
    requires HasSize(versions[i].1) && HasSize(versions[j].1) && versions[i].1.sizeSqm != versions[j].1.sizeSqm
    ensures Normalize(FirstLabel(versions[i].1, versions)) != Normalize(FirstLabel(versions[j].1, versions))
  {
    hide IsSpace, Words, Normalize, FirstLabel, Twins, Details, DetailWords, LowerAll, ShortUgx, BathroomLabel, Decimal;
    hide Lower, OtherRent, OtherDescription, Head;
    var v, w := versions[i].1, versions[j].1;
    SameNameIffSameDetails(versions, i, j);
    var twins := Twins(versions, v.title);
    ToldIffTwinDiffers(v, twins);
    ToldIffTwinDiffers(w, twins);
    assert OtherRent(v, twins) <==> OtherRent(w, twins) by { SameRents(v, w, twins); }
    var same := BedsAndBathroom(v, twins) + Rent(v, twins);
    assert same == BedsAndBathroom(w, twins) + Rent(w, twins);
    assert Size(v, twins) == [Decimal(v.sizeSqm.value) + " m\U{00B2}"];
    assert Size(w, twins) == [Decimal(w.sizeSqm.value) + " m\U{00B2}"];
    DetailWordsAfter(same, Size(v, twins));
    DetailWordsAfter(same, Size(w, twins));
    var a := SizeWords(v.sizeSqm.value);
    var b := SizeWords(w.sizeSqm.value);
    SecondWordDiffers(DetailWords(same), v.sizeSqm.value, w.sizeSqm.value, a, b);
  }

  lemma SameRents(v: Version, w: Version, twins: seq<Version>)
    requires v.pricePerTermUgx == w.pricePerTermUgx
    ensures OtherRent(v, twins) <==> OtherRent(w, twins)
  {
  }

  lemma SecondWordDiffers(x: seq<string>, m: nat, n: nat, a: seq<string>, b: seq<string>)
    requires m != n
    ensures LowerAll(x + (["-", Decimal(m)] + a)) != LowerAll(x + (["-", Decimal(n)] + b))
  {
    hide Lower, Decimal;
    var p, q := LowerAll(x + (["-", Decimal(m)] + a)), LowerAll(x + (["-", Decimal(n)] + b));
    assert p[|x| + 1] == Lower(Decimal(m)) && q[|x| + 1] == Lower(Decimal(n));
    DecimalIsWord(m);
    DecimalIsWord(n);
    if Decimal(m) == Decimal(n) { DecimalInjective(m, n); }
  }

  // ---- descriptions --------------------------------------------------------------------------------

  /** Where no twin differs in beds, bathroom, rent or size, two names agree
      exactly when the first hundred characters of the descriptions do. */
  lemma DescriptionsTellTwinsApartIff(versions: Entries<string, Version>, i: nat, j: nat)
    requires i < |versions| && j < |versions| && i != j
    requires Normalize(versions[i].1.title) == Normalize(versions[j].1.title)
    requires forall k :: 0 <= k < |versions| && Normalize(versions[k].1.title) == Normalize(versions[i].1.title) ==>
      && versions[k].1.capacity == versions[i].1.capacity && versions[k].1.bathroomType == versions[i].1.bathroomType
      && versions[k].1.pricePerTermUgx == versions[i].1.pricePerTermUgx
      && versions[k].1.sizeSqm == versions[i].1.sizeSqm
    ensures Normalize(FirstLabel(versions[i].1, versions)) == Normalize(FirstLabel(versions[j].1, versions)) <==>
      Normalize(Head(versions[i].1)) == Normalize(Head(versions[j].1))
  {
    hide IsSpace, Words, Normalize, FirstLabel, Twins, Details, DetailWords, LowerAll, ShortUgx, BathroomLabel, Decimal;
    hide Lower, Head;
    var v, w := versions[i].1, versions[j].1;
    SameNameIffSameDetails(versions, i, j);
    var twins := Twins(versions, v.title);
    ToldIffTwinDiffers(v, twins);
    ToldIffTwinDiffers(w, twins);
    forall t | t in twins
      ensures t.capacity == v.capacity && t.bathroomType == v.bathroomType
      ensures t.pricePerTermUgx == v.pricePerTermUgx && t.sizeSqm == v.sizeSqm
    {
      var k := TwinIsListed(versions, v.title, t);
    }
    assert BedsAndBathroom(v, twins) + Rent(v, twins) + Size(v, twins) == [];
    assert BedsAndBathroom(w, twins) + Rent(w, twins) + Size(w, twins) == [];
    if v.description == w.description {
      SameHead(v, w);
      assert OtherDescription(v, twins) <==> OtherDescription(w, twins);
      assert Details(v, twins) == Details(w, twins);
    } else {
      assert OtherDescription(v, twins) && OtherDescription(w, twins);
      HeadWords(v);
      HeadWords(w);
      SameNormalFormIffSameWords(Head(v), Head(w));
      LowerAllConcat(["-"], Words(Head(v)));
      LowerAllConcat(["-"], Words(Head(w)));
      SamePrefix(LowerAll(["-"]), LowerAll(Words(Head(v))), LowerAll(Words(Head(w))));
    }
  }

  lemma SameHead(v: Version, w: Version)
    requires v.description == w.description
    ensures Head(v) == Head(w)
  {
  }

  lemma {:induction false} TwinIsListed(versions: Entries<string, Version>, title: string, v: Version) returns (k: nat)
    requires v in Twins(versions, title)
    ensures k < |versions| && versions[k].1 == v && Normalize(v.title) == Normalize(title)
  {
    hide Normalize;
    var n := |versions| - 1;
    if v in Twins(versions[..n], title) { k := TwinIsListed(versions[..n], title, v); } else { k := n; }
  }

  /** The words of a description as a detail: none exactly when it is blank. */
  lemma HeadWords(v: Version)
    ensures DetailWords(if Head(v) != "" then [Head(v)] else [])
      == if Head(v) == "" then [] else ["-"] + Words(Head(v))
    ensures Head(v) == "" <==> Words(Head(v)) == []
    ensures LowerAll(if Head(v) == "" then [] else ["-"] + Words(Head(v))) == [] <==> Head(v) == ""
  {
    hide IsSpace, Trim;
    JoinOne(Head(v));
    if Head(v) != "" { assert !IsSpace(Head(v)[0]); }
  }
}
