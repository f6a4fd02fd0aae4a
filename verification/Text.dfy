/** Strings as sequences of characters: JavaScript's white space, ASCII case,
    the normal form room names are compared in, and numerals. */
module Text {

  // ---- characters -------------------------------------------------------

  /** What both `String.prototype.trim` and `\s` take as white space. */
  predicate IsSpace(c: char): (r: bool)
    ensures c == ' ' ==> r
  {
    || c == ' ' || '\U{0009}' <= c <= '\U{000D}'
    || c == '\U{00A0}' || c == '\U{1680}' || '\U{2000}' <= c <= '\U{200A}'
    || c == '\U{2028}' || c == '\U{2029}' || c == '\U{202F}'
    || c == '\U{205F}' || c == '\U{3000}' || c == '\U{FEFF}'
  }

  function LowerChar(c: char): (r: char)
    ensures IsSpace(r) <==> IsSpace(c)
  {
    if 'A' <= c <= 'Z' then ((c as int) + 32) as char else c
  }

  function Lower(s: string): (r: string)
    ensures |r| == |s|
    ensures forall i :: 0 <= i < |s| ==> r[i] == LowerChar(s[i])
  {
    seq(|s|, i requires 0 <= i < |s| => LowerChar(s[i]))
  }

  const UPPER := "ABCDEFGHIJKLMNOPQRSTUVWXYZ"
  const LOWER := "abcdefghijklmnopqrstuvwxyz"

  /** Each capital becomes its small letter, and nothing else changes. */
  lemma LowerLetters(c: char, i: nat)
    requires i < 26
    ensures |UPPER| == |LOWER| == 26 && LowerChar(UPPER[i]) == LOWER[i]
    ensures c !in UPPER ==> LowerChar(c) == c
  {
    Capitals(i);
    if 'A' <= c <= 'Z' { Capitals(c as int - 'A' as int); }
  }

  lemma Capitals(i: nat)
    requires i < 26
    ensures UPPER[i] as int == 'A' as int + i && LOWER[i] as int == 'a' as int + i
  {
  }

  /** White space: the five control characters, the blanks of Unicode, the two line
      separators and the byte order mark. */
  lemma SpaceIff(c: char)
    ensures IsSpace(c) <==> c in [
      '\U{0009}', '\U{000A}', '\U{000B}', '\U{000C}', '\U{000D}', ' ', '\U{00A0}', '\U{1680}',
      '\U{2000}', '\U{2001}', '\U{2002}', '\U{2003}', '\U{2004}', '\U{2005}', '\U{2006}', '\U{2007}',
      '\U{2008}', '\U{2009}', '\U{200A}', '\U{2028}', '\U{2029}', '\U{202F}', '\U{205F}', '\U{3000}', '\U{FEFF}']
  {
  }

  /** No white space inside. */
  ghost predicate Solid(s: string) {
    forall i :: 0 <= i < |s| ==> !IsSpace(s[i])
  }

  // ---- trimming and collapsing ------------------------------------------

  function TrimStart(s: string): (r: string)
    ensures r != "" ==> !IsSpace(r[0])
    ensures |r| <= |s| && (r != "" ==> r[|r| - 1] == s[|s| - 1])
  {
    if s != "" && IsSpace(s[0]) then TrimStart(s[1..]) else s
  }

  function TrimEnd(s: string): (r: string)
    ensures r != "" ==> !IsSpace(r[|r| - 1])
    ensures |r| <= |s| && (r != "" ==> r[0] == s[0])
  {
    if s != "" && IsSpace(s[|s| - 1]) then TrimEnd(s[..|s| - 1]) else s
  }

  function Trim(s: string): (r: string)
    ensures r != "" ==> !IsSpace(r[0]) && !IsSpace(r[|r| - 1])
  {
    TrimEnd(TrimStart(s))
  }

  /** Every run of white space becomes one blank. */
  function Collapse(s: string): (r: string)
    decreases |s|
  {
    if s == "" then ""
    else if IsSpace(s[0]) then " " + Collapse(TrimStart(s))
    else [s[0]] + Collapse(s[1..])
  }

  /** The form in which room type names, room codes and buildings are compared. */
  function Normalize(s: string): string {
    Collapse(Lower(Trim(s)))
  }

  // ---- words: what the normal form means ---------------------------------

  /** Length of the leading run of non-blank characters. */
  function WordEnd(s: string): (k: nat)
    ensures k <= |s| && Solid(s[..k])
    ensures k < |s| ==> IsSpace(s[k])
    ensures s != "" && !IsSpace(s[0]) ==> k > 0
  {
    if s == "" || IsSpace(s[0]) then 0 else 1 + WordEnd(s[1..])
  }

  /** The maximal runs of non-blank characters, in order. */
  function Words(s: string): (ws: seq<string>)
    ensures forall i :: 0 <= i < |ws| ==> ws[i] != "" && Solid(ws[i])
    decreases |s|
  {
    if s == "" then []
    else if IsSpace(s[0]) then Words(s[1..])
    else [s[..WordEnd(s)]] + Words(s[WordEnd(s)..])
  }

  function JoinWords(ws: seq<string>): string {
    if |ws| == 0 then "" else if |ws| == 1 then ws[0] else ws[0] + (" " + JoinWords(ws[1..]))
  }

  lemma WordsTrimStart(s: string)
    ensures Words(TrimStart(s)) == Words(s)
  {
  }

  lemma {:induction false} WordEndPrefix(s: string, t: string)
    requires t == "" || IsSpace(t[0])
    requires WordEnd(s) == |s|
    ensures WordEnd(s + t) == |s|
  {
    hide IsSpace;
    if s != "" {
      assert (s + t)[1..] == s[1..] + t;
      WordEndPrefix(s[1..], t);
    }
  }

  lemma {:induction false} WordEndExtend(s: string, t: string)
    requires WordEnd(s) < |s|
    ensures WordEnd(s + t) == WordEnd(s)
  {
    hide IsSpace;
    if s != "" && !IsSpace(s[0]) {
      assert (s + t)[1..] == s[1..] + t;
      WordEndExtend(s[1..], t);
    }
  }

  lemma {:induction false} SolidIsOneWord(w: string)
    requires Solid(w) && w != ""
    ensures WordEnd(w) == |w| && Words(w) == [w]
  {
    hide IsSpace;
    if |w| > 1 {
      SolidIsOneWord(w[1..]);
    }
    assert w[..|w|] == w;
  }

  lemma WordsStep(s: string)
    requires s != ""
    ensures IsSpace(s[0]) ==> Words(s) == Words(s[1..])
    ensures !IsSpace(s[0]) ==> WordEnd(s) > 0 && Words(s) == [s[..WordEnd(s)]] + Words(s[WordEnd(s)..])
  {
    hide IsSpace;
  }

  lemma NoWords()
    ensures Words("") == []
  {
  }

  /** Splitting at a blank splits the words. */
  lemma {:induction false} WordsSplitAtSpace(s: string, t: string)
    requires t == "" || IsSpace(t[0])
    ensures Words(s + t) == Words(s) + Words(t)
    decreases |s|
  {
    hide IsSpace, Words, WordEnd, Solid;
    if s == "" {
      NoWords();
      assert s + t == t;
    } else {
      WordsStep(s);
      WordsStep(s + t);
      if IsSpace(s[0]) {
        assert (s + t)[1..] == s[1..] + t;
        WordsSplitAtSpace(s[1..], t);
      } else {
        var k := WordEnd(s);
        if k == |s| { WordEndPrefix(s, t); } else { WordEndExtend(s, t); }
        assert (s + t)[..k] == s[..k] && (s + t)[k..] == s[k..] + t;
        WordsSplitAtSpace(s[k..], t);
      }
    }
  }

  lemma {:induction false} WordsTrimEnd(s: string)
    ensures Words(TrimEnd(s)) == Words(s)
    decreases |s|
  {
    hide IsSpace;
    if s != "" && IsSpace(s[|s| - 1]) {
      var n := |s| - 1;
      WordsTrimEnd(s[..n]);
      assert s == s[..n] + s[n..] && s[n..] == [s[n]];
      WordsSplitAtSpace(s[..n], s[n..]);
      assert Words(s[n..]) == [];
    }
  }

  function LowerAll(ws: seq<string>): (r: seq<string>)
    ensures |r| == |ws| && forall i :: 0 <= i < |ws| ==> r[i] == Lower(ws[i])
  {
    seq(|ws|, i requires 0 <= i < |ws| => Lower(ws[i]))
  }

  lemma {:induction false} WordEndLower(s: string)
    ensures WordEnd(Lower(s)) == WordEnd(s)
  {
    hide IsSpace;
    if s != "" {
      assert Lower(s)[1..] == Lower(s[1..]);
      WordEndLower(s[1..]);
    }
  }

  lemma {:induction false} WordsLower(s: string)
    ensures Words(Lower(s)) == LowerAll(Words(s))
    decreases |s|
  {
    hide IsSpace, LowerChar;
    if s == "" {
    } else if IsSpace(s[0]) {
      assert Lower(s)[1..] == Lower(s[1..]);
      WordsLower(s[1..]);
    } else {
      var k := WordEnd(s);
      WordEndLower(s);
      assert Lower(s)[..k] == Lower(s[..k]) && Lower(s)[k..] == Lower(s[k..]);
      WordsLower(s[k..]);
    }
  }

  lemma {:induction false} CollapseSolidPrefix(w: string, t: string)
    requires Solid(w)
    ensures Collapse(w + t) == w + Collapse(t)
  {
    hide IsSpace;
    if w == "" {
      assert w + t == t;
    } else {
      assert (w + t)[1..] == w[1..] + t;
      CollapseSolidPrefix(w[1..], t);
    }
  }

  /** What follows the first word and its white space. */
  function AfterWord(s: string): string {
    TrimStart(s[WordEnd(s)..])
  }

  lemma WordsFirst(s: string)
    requires s != "" && !IsSpace(s[0])
    ensures Words(s) == [s[..WordEnd(s)]] + Words(AfterWord(s))
  {
    hide IsSpace;
    WordsTrimStart(s[WordEnd(s)..]);
  }

  lemma CollapseWordThen(w: string, t: string)
    requires Solid(w) && t != "" && IsSpace(t[0])
    ensures Collapse(w + t) == w + (" " + Collapse(TrimStart(t)))
  {
    hide IsSpace;
    CollapseSolidPrefix(w, t);
  }

  lemma CollapseSolid(w: string)
    requires Solid(w)
    ensures Collapse(w) == w
  {
    hide IsSpace;
    CollapseSolidPrefix(w, "");
    assert w + "" == w;
  }

  lemma CollapseFirst(s: string)
    requires s != "" && !IsSpace(s[|s| - 1]) && WordEnd(s) < |s|
    ensures Collapse(s) == s[..WordEnd(s)] + (" " + Collapse(AfterWord(s))) && AfterWord(s) != ""
  {
    hide IsSpace, Collapse, TrimStart, WordEnd, Solid;
    var w, t := s[..WordEnd(s)], s[WordEnd(s)..];
    CollapseWordThen(w, t);
    assert s == w + t;
    assert t[|t| - 1] == s[|s| - 1];
    if AfterWord(s) == "" { NothingLeft(t); }
  }

  lemma AfterWordEnds(s: string)
    requires s != "" && !IsSpace(s[0])
    ensures WordEnd(s) > 0 && |AfterWord(s)| < |s|
    ensures AfterWord(s) != "" ==> AfterWord(s)[|AfterWord(s)| - 1] == s[|s| - 1]
  {
    hide IsSpace;
    var t := s[WordEnd(s)..];
    if TrimStart(t) != "" { assert t[|t| - 1] == s[|s| - 1]; }
  }

  lemma {:induction false} CollapseIsJoin(s: string)
    requires s != "" ==> !IsSpace(s[0]) && !IsSpace(s[|s| - 1])
    ensures Collapse(s) == JoinWords(Words(s))
    decreases |s|
  {
    hide IsSpace, TrimStart, WordEnd;
    if s != "" {
      var k := WordEnd(s);
      if k == |s| {
        assert s[..k] == s;
        CollapseSolid(s);
        SolidIsOneWord(s);
      } else {
        WordsFirst(s);
        CollapseFirst(s);
        AfterWordEnds(s);
        CollapseIsJoin(AfterWord(s));
        WordsFirst(AfterWord(s));
        JoinFront(s[..k], Words(AfterWord(s)));
      }
    }
  }

  lemma JoinFront(w: string, ws: seq<string>)
    ensures JoinWords([w] + ws) == if ws == [] then w else w + (" " + JoinWords(ws))
  {
    hide IsSpace;
    assert ([w] + ws)[1..] == ws;
  }

  lemma {:induction false} NothingLeft(t: string)
    requires TrimStart(t) == "" && t != ""
    ensures IsSpace(t[|t| - 1])
  {
    hide IsSpace;
    if |t| > 1 { NothingLeft(t[1..]); assert t[1..][|t[1..]| - 1] == t[|t| - 1]; }
  }

  /** The normal form is the lower-cased words, one blank apart. */
  lemma NormalizeIsWords(s: string)
    ensures Normalize(s) == JoinWords(LowerAll(Words(s)))
  {
    hide IsSpace, LowerChar, TrimStart, TrimEnd, Words, Collapse;
    var t := Trim(s);
    WordsTrimStart(s);
    WordsTrimEnd(TrimStart(s));
    WordsLower(t);
    CollapseIsJoin(Lower(t));
  }

  lemma {:induction false} WordsOfJoin(ws: seq<string>)
    requires forall i :: 0 <= i < |ws| ==> ws[i] != "" && Solid(ws[i])
    ensures Words(JoinWords(ws)) == ws
  {
    hide IsSpace;
    if |ws| == 1 {
      SolidIsOneWord(ws[0]);
    } else if |ws| > 1 {
      var rest := JoinWords(ws[1..]);
      SolidIsOneWord(ws[0]);
      WordsOfJoin(ws[1..]);
      assert JoinWords(ws) == ws[0] + (" " + rest);
      WordsSplitAtSpace(ws[0], " " + rest);
      assert (" " + rest)[1..] == rest;
    }
  }

  /** Two texts have one normal form exactly when they have the same words up
      to case: spacing at the ends and between words never matters. */
  lemma SameNormalFormIffSameWords(s: string, t: string)
    ensures Normalize(s) == Normalize(t) <==> LowerAll(Words(s)) == LowerAll(Words(t))
  {
    hide IsSpace;
    NormalizeIsWords(s);
    NormalizeIsWords(t);
    WordsOfJoin(LowerAll(Words(s)));
    WordsOfJoin(LowerAll(Words(t)));
  }

  lemma BlankIffNoWords(s: string)
    ensures Trim(s) == "" <==> Words(s) == []
    ensures Trim(s) == "" <==> Normalize(s) == ""
  {
    hide IsSpace;
    NormalizeIsWords(s);
    WordsTrimStart(s);
    WordsTrimEnd(TrimStart(s));
    var ws := LowerAll(Words(s));
    if ws != [] { assert ws[0] != ""; }
  }

  lemma {:induction false} JoinAppend(ws: seq<string>, w: string)
    ensures JoinWords(ws + [w]) == if ws == [] then w else JoinWords(ws) + " " + w
  {
    hide IsSpace;
    if |ws| == 0 {
      assert ws + [w] == [w];
    } else {
      assert (ws + [w])[1..] == ws[1..] + [w];
      JoinAppend(ws[1..], w);
    }
  }

  lemma WordsAppendWord(s: string, w: string)
    requires w != "" && Solid(w)
    ensures Words(s + " " + w) == Words(s) + [w]
  {
    hide IsSpace;
    var t := " " + w;
    assert s + " " + w == s + t;
    WordsSplitAtSpace(s, t);
    assert t[1..] == w;
    SolidIsOneWord(w);
  }

  /** Appending a blank and one lower-case word appends it to the normal form. */
  lemma NormalizeAppendWord(s: string, w: string)
    requires w != "" && Solid(w) && Lower(w) == w
    ensures Normalize(s + " " + w) == (if Normalize(s) == "" then w else Normalize(s) + " " + w)
  {
    hide IsSpace;
    WordsAppendWord(s, w);
    NormalizeIsWords(s + " " + w);
    NormalizeIsWords(s);
    LowerAllAppend(Words(s), w);
    JoinAppend(LowerAll(Words(s)), w);
    BlankIffNoWords(s);
  }

  lemma LowerAllAppend(ws: seq<string>, w: string)
    ensures LowerAll(ws + [w]) == LowerAll(ws) + [Lower(w)]
  {
  }

  // ---- numerals -----------------------------------------------------------

  // ---- which texts are normal forms --------------------------------------

  /** Lower case, and the blank as the only white space. */
  predicate TidyChar(c: char) {
    LowerChar(c) == c && (IsSpace(c) ==> c == ' ')
  }

  /** No blank at either end. */
  predicate Trimmed(s: string) {
    s != "" ==> s[0] != ' ' && s[|s| - 1] != ' '
  }

  /** Tidy characters and no two blanks side by side. */
  ghost predicate TidyInside(s: string) {
    && (forall i :: 0 <= i < |s| ==> TidyChar(s[i]))
    && (forall i, j :: 0 <= i < j < |s| && j == i + 1 ==> s[i] != ' ' || s[j] != ' ')
  }

  lemma {:induction false} CollapseTidy(s: string)
    requires TidyInside(s)
    ensures Collapse(s) == s
    decreases |s|
  {
    hide IsSpace, LowerChar;
    if s != "" {
      var rest := s[1..];
      assert s == [s[0]] + rest;
      assert TidyInside(rest);
      CollapseTidy(rest);
      if IsSpace(s[0]) {
        assert s[0] == ' ' && (rest != "" ==> rest[0] == s[1] != ' ' && TidyChar(rest[0]));
        assert TrimStart(s) == TrimStart(rest) == rest;
      }
    }
  }

  /** A tidy, trimmed text is its own normal form. */
  lemma TidyIsNormal(s: string)
    requires TidyInside(s) && Trimmed(s)
    ensures Normalize(s) == s
  {
    hide IsSpace, LowerChar, Collapse;
    assert s != "" ==> TidyChar(s[0]) && TidyChar(s[|s| - 1]);
    assert Trim(s) == s;
    assert Lower(s) == s;
    CollapseTidy(s);
  }

  lemma {:induction false} CollapseIsTidy(s: string)
    requires forall i :: 0 <= i < |s| ==> LowerChar(s[i]) == s[i]
    ensures TidyInside(Collapse(s))
    ensures s != "" ==> Collapse(s) != "" && (Collapse(s)[0] == ' ' <==> IsSpace(s[0]))
    ensures s != "" && !IsSpace(s[|s| - 1]) ==> Collapse(s)[|Collapse(s)| - 1] != ' '
    decreases |s|
  {
    hide IsSpace, LowerChar, Collapse;
    CollapseNothing();
    if s != "" {
      BlankIsSpace();
      CollapseStep(s);
      if IsSpace(s[0]) {
        var rest := TrimStart(s);
        TrimStartIsSuffix(s);
        CollapseIsTidy(rest);
        ConsTidy(' ', Collapse(rest));
      } else {
        CollapseIsTidy(s[1..]);
        ConsTidy(s[0], Collapse(s[1..]));
      }
    }
  }

  lemma ConsTidy(c: char, s: string)
    requires TidyInside(s) && TidyChar(c) && (s != "" ==> c != ' ' || s[0] != ' ')
    ensures TidyInside([c] + s)
  {
    hide TidyChar;
  }

  lemma CollapseNothing()
    ensures Collapse("") == ""
  {
  }

  lemma BlankIsSpace()
    ensures IsSpace(' ') && LowerChar(' ') == ' '
  {
  }

  lemma CollapseStep(s: string)
    requires s != ""
    ensures Collapse(s) == if IsSpace(s[0]) then " " + Collapse(TrimStart(s)) else [s[0]] + Collapse(s[1..])
    ensures IsSpace(s[0]) ==> |TrimStart(s)| < |s|
  {
  }

  lemma {:induction false} TrimStartIsSuffix(s: string)
    ensures TrimStart(s) == s[|s| - |TrimStart(s)|..]
    ensures s != "" && !IsSpace(s[|s| - 1]) ==> TrimStart(s) != ""
  {
    hide IsSpace;
    if s != "" { TrimStartIsSuffix(s[1..]); }
  }

  /** Every normal form is tidy and trimmed. */
  lemma NormalIsTidy(s: string)
    ensures TidyInside(Normalize(s)) && Trimmed(Normalize(s))
  {
    hide IsSpace, Collapse, TrimStart, TrimEnd;
    var t := Lower(Trim(s));
    LowerTwice(Trim(s));
    if t != "" { assert !IsSpace(t[0]) && !IsSpace(t[|t| - 1]); }
    CollapseIsTidy(t);
    CollapseNothing();
  }

  lemma LowerTwice(s: string)
    ensures forall i :: 0 <= i < |s| ==> LowerChar(Lower(s)[i]) == Lower(s)[i]
  {
    hide IsSpace;
  }

  /** Normalizing brings in no bar. */
  lemma NormalKeepsBars(s: string)
    requires '|' !in s
    ensures '|' !in Normalize(s)
  {
    hide IsSpace, Collapse, TrimStart, TrimEnd;
    TrimStartIsSuffix(s);
    TrimEndIsPrefix(TrimStart(s));
    var t := Lower(Trim(s));
    forall i | 0 <= i < |t| ensures t[i] != '|' {
      assert t[i] == LowerChar(Trim(s)[i]) && Trim(s)[i] in s;
    }
    CollapseKeepsBars(t);
  }

  lemma {:induction false} TrimEndIsPrefix(s: string)
    ensures TrimEnd(s) <= s
  {
    hide IsSpace;
    if s != "" { TrimEndIsPrefix(s[..|s| - 1]); }
  }

  lemma {:induction false} CollapseKeepsBars(s: string)
    requires '|' !in s
    ensures '|' !in Collapse(s)
    decreases |s|
  {
    hide IsSpace, Collapse;
    if s == "" {
      CollapseNothing();
    } else {
      CollapseStep(s);
      TrimStartIsSuffix(s);
      if IsSpace(s[0]) { CollapseKeepsBars(TrimStart(s)); } else { CollapseKeepsBars(s[1..]); }
    }
  }


  predicate IsNumeralChar(c: char) {
    '0' <= c <= '9' || 'a' <= c <= 'f'
  }

  predicate IsDigit(c: char, base: nat) {
    IsNumeralChar(c) && DigitValue(c) < base
  }

  function DigitValue(c: char): (v: nat)
    ensures v < 16
  {
    if '0' <= c <= '9' then c as int - '0' as int
    else if 'a' <= c <= 'f' then c as int - 'a' as int + 10
    else 0
  }

  function DigitChar(v: nat): (c: char)
    requires v < 16
    ensures IsNumeralChar(c) && DigitValue(c) == v
  {
    if v < 10 then ('0' as int + v) as char else ('a' as int + (v - 10)) as char
  }

  lemma DivMod(n: nat, base: nat)
    requires base >= 2
    ensures n / base * base + n % base == n
    ensures n >= base ==> n / base < n
    ensures 0 <= n % base < base
  {
  }

  /** `n.toString(base)`. */
  function Numeral(n: nat, base: nat): (s: string)
    requires 2 <= base <= 16
    ensures s != ""
    ensures forall i :: 0 <= i < |s| ==> IsDigit(s[i], base)
    decreases n
  {
    if n < base then [DigitChar(n)] else
      DivMod(n, base);
      Numeral(n / base, base) + [DigitChar(n % base)]
  }

  function NumeralValue(s: string, base: nat): nat {
    if s == "" then 0 else NumeralValue(s[..|s| - 1], base) * base + DigitValue(s[|s| - 1])
  }

  lemma NumeralValueAppend(s: string, c: char, base: nat)
    ensures NumeralValue(s + [c], base) == NumeralValue(s, base) * base + DigitValue(c)
  {
    hide IsSpace;
    assert (s + [c])[..|s|] == s;
  }

  lemma {:induction false} NumeralRoundTrip(n: nat, base: nat)
    requires 2 <= base <= 16
    ensures NumeralValue(Numeral(n, base), base) == n
    decreases n
  {
    hide IsSpace;
    if n < base {
      NumeralValueAppend("", DigitChar(n), base);
      assert "" + [DigitChar(n)] == [DigitChar(n)];
    } else {
      hide DigitChar, DigitValue, IsDigit, IsNumeralChar;
      DivMod(n, base);
      var q, r := n / base, n % base;
      NumeralRoundTrip(q, base);
      NumeralValueAppend(Numeral(q, base), DigitChar(r), base);
      assert Numeral(n, base) == Numeral(q, base) + [DigitChar(r)];
    }
  }

  lemma NumeralInjective(m: nat, n: nat, base: nat)
    requires 2 <= base <= 16
    requires Numeral(m, base) == Numeral(n, base)
    ensures m == n
  {
    hide IsSpace;
    NumeralRoundTrip(m, base);
    NumeralRoundTrip(n, base);
  }

  function Decimal(n: nat): string {
    Numeral(n, 10)
  }

  lemma DecimalInjective(m: nat, n: nat)
    requires Decimal(m) == Decimal(n)
    ensures m == n
  {
    NumeralInjective(m, n, 10);
  }

  lemma DecimalIsWord(n: nat)
    ensures Decimal(n) != "" && Solid(Decimal(n)) && Lower(Decimal(n)) == Decimal(n)
  {
  }
}
