/**
 * The textual side of a version: splitting on '.', decimal numerals, and
 * joining back with '.'. Components are unbounded naturals.
 */
module VersionText {
  import opened Wrappers

  predicate IsDigit(c: char)
  {
    '0' <= c <= '9'
  }

  predicate AllDigits(s: string)
  {
    forall i :: 0 <= i < |s| ==> IsDigit(s[i])
  }

  /** A non-empty run of decimal digits. */
  predicate IsNumeral(s: string)
  {
    |s| > 0 && AllDigits(s)
  }

  /** A numeral without leading zeros: the only form a number prints as. */
  predicate IsCanonical(s: string)
  {
    IsNumeral(s) && (s[0] == '0' ==> |s| == 1)
  }

  function DigitValue(c: char): (d: nat)
    requires IsDigit(c)
    ensures d < 10
  {
    c as int - '0' as int
  }

  function DigitChar(d: nat): (c: char)
    requires d < 10
    ensures IsDigit(c) && DigitValue(c) == d
  {
    ('0' as int + d) as char
  }

  /** The number a run of decimal digits denotes; a leading non-zero digit makes it positive. */
  function Value(s: string): (n: nat)
    requires AllDigits(s)
    ensures |s| > 0 && s[0] != '0' ==> n > 0
    ensures |s| > 1 && s[0] != '0' ==> n >= 10
    decreases |s|
  {
    if s == [] then 0
    else
      assert s[..|s| - 1] == [] || s[..|s| - 1][0] == s[0];
      10 * Value(s[..|s| - 1]) + DigitValue(s[|s| - 1])
  }

  /** The decimal numeral of n: canonical, and denoting n. */
  function Numeral(n: nat): (s: string)
    ensures IsCanonical(s)
    ensures Value(s) == n
    decreases n
  {
    if n < 10 then [DigitChar(n)]
    else
      var p := Numeral(n / 10);
      var s := p + [DigitChar(n % 10)];
      assert s[..|s| - 1] == p;
      assert s[0] == p[0];
      s
  }

  /** The number of characters in all pieces together. */
  function TotalLength(pieces: seq<string>): nat
  {
    if pieces == [] then 0 else |pieces[0]| + TotalLength(pieces[1..])
  }

  /**
   * Joins the pieces with '.' between consecutive ones: the result starts
   * with the first piece and is one character per consecutive pair longer
   * than the pieces together.
   */
  function Join(pieces: seq<string>): (r: string)
    ensures |pieces| >= 1 ==> pieces[0] <= r
    ensures |pieces| >= 1 ==> |r| == TotalLength(pieces) + |pieces| - 1
  {
    if |pieces| == 0 then ""
    else if |pieces| == 1 then pieces[0]
    else pieces[0] + "." + Join(pieces[1..])
  }

  /**
   * Where the separators sit: a dot follows the first piece when more
   * pieces come, and the joined string ends with the last piece.
   */
  lemma {:induction false} JoinShape(pieces: seq<string>)
    requires |pieces| >= 1
    ensures |pieces| >= 2 ==> |Join(pieces)| > |pieces[0]| && Join(pieces)[|pieces[0]|] == '.'
    ensures var last := pieces[|pieces| - 1];
            |Join(pieces)| >= |last| && Join(pieces)[|Join(pieces)| - |last|..] == last
  {
    if |pieces| >= 2 {
      var rest := pieces[1..];
      JoinShape(rest);
      assert rest[|rest| - 1] == pieces[|pieces| - 1];
    }
  }

  /**
   * Splits on every '.': always at least one piece, no piece contains a
   * dot, and joining the pieces gives back the input.
   */
  function Split(s: string): (pieces: seq<string>)
    ensures |pieces| >= 1
    ensures forall i :: 0 <= i < |pieces| ==> '.' !in pieces[i]
    ensures Join(pieces) == s
    decreases |s|
  {
    if s == [] then [""]
    else
      var rest := Split(s[1..]);
      if s[0] == '.' then
        assert s == "." + s[1..];
        [""] + rest
      else
        var pieces := [[s[0]] + rest[0]] + rest[1..];
        assert pieces[1..] == rest[1..];
        assert s == [s[0]] + s[1..];
        pieces
  }

  /** Every piece is a non-empty run of decimal digits. */
  predicate AllNumerals(pieces: seq<string>)
  {
    forall i :: 0 <= i < |pieces| ==> IsNumeral(pieces[i])
  }

  /** Every piece becomes a number; None when some piece is not a numeral. */
  function Parse(s: string): (r: Option<seq<nat>>)
    ensures r.Some? <==> AllNumerals(Split(s))
    ensures r.Some? ==> |r.value| == |Split(s)|
    ensures r.Some? ==> forall i :: 0 <= i < |r.value| ==> r.value[i] == Value(Split(s)[i])
  {
    var pieces := Split(s);
    if AllNumerals(pieces) then
      Some(seq(|pieces|, i requires 0 <= i < |pieces| => Value(pieces[i])))
    else None
  }

  /** The numerals of the parts. */
  function Numerals(parts: seq<nat>): (pieces: seq<string>)
  {
    seq(|parts|, i requires 0 <= i < |parts| => Numeral(parts[i]))
  }

  /**
   * Each part as a decimal numeral, joined with '.'; parsing the result of
   * a non-empty list gives the same parts back.
   */
  function Print(parts: seq<nat>): (s: string)
    ensures |parts| >= 1 ==> Parse(s) == Some(parts)
  {
    var pieces := Numerals(parts);
    if |parts| >= 1 then
      NumeralsHaveNoDot(parts);
      SplitJoin(pieces);
      assert Split(Join(pieces)) == pieces;
      assert AllNumerals(pieces);
      assert Parse(Join(pieces)).value == parts;
      Join(pieces)
    else
      Join(pieces)
  }

  /** Leading zeros do not change the value of a numeral. */
  lemma {:induction false} LeadingZeroIgnored(s: string)
    requires AllDigits(s)
    ensures Value("0" + s) == Value(s)
  {
    if s != [] {
      var z := "0" + s;
      assert z[..|z| - 1] == "0" + s[..|s| - 1];
      LeadingZeroIgnored(s[..|s| - 1]);
    }
  }

  /** A canonical numeral is the numeral of its own value. */
  lemma {:induction false} CanonicalIsNumeralOfValue(s: string)
    requires IsCanonical(s)
    ensures Numeral(Value(s)) == s
  {
    var p, c := s[..|s| - 1], s[|s| - 1];
    var d := DigitValue(c);
    assert DigitChar(d) == c;
    assert s == p + [c];
    if |s| == 1 {
      assert Value(s) == d;
    } else {
      assert p[0] == s[0];
      var n := Value(s);
      assert n == 10 * Value(p) + d;
      assert n / 10 == Value(p) && n % 10 == d;
      CanonicalIsNumeralOfValue(p);
    }
  }

  /**
   * Reading a numeral and printing the number gives the numeral back
   * exactly when it has no leading zeros.
   */
  lemma {:induction false} NumeralRoundTrip(s: string)
    requires IsNumeral(s)
    ensures Numeral(Value(s)) == s <==> IsCanonical(s)
  {
    if IsCanonical(s) {
      CanonicalIsNumeralOfValue(s);
    }
  }

  /** A piece without '.' splits into itself. */
  lemma SplitPiece(p: string)
    requires '.' !in p
    ensures Split(p) == [p]
  {
  }

  /** A piece without '.' followed by a dot splits off as the first piece. */
  lemma {:induction false} SplitAtFirstDot(p: string, t: string)
    requires '.' !in p
    ensures Split(p + "." + t) == [p] + Split(t)
  {
    var s := p + "." + t;
    if p == [] {
      assert s[1..] == t;
    } else {
      assert s[1..] == p[1..] + "." + t;
      SplitAtFirstDot(p[1..], t);
      assert [p[0]] + p[1..] == p;
    }
  }

  /** Splitting undoes joining pieces that contain no dot. */
  lemma {:induction false} SplitJoin(pieces: seq<string>)
    requires |pieces| >= 1
    requires forall i :: 0 <= i < |pieces| ==> '.' !in pieces[i]
    ensures Split(Join(pieces)) == pieces
  {
    if |pieces| == 1 {
      SplitPiece(pieces[0]);
    } else {
      SplitJoin(pieces[1..]);
      SplitAtFirstDot(pieces[0], Join(pieces[1..]));
      assert [pieces[0]] + pieces[1..] == pieces;
    }
  }

  /** Numerals contain no dot. */
  lemma NumeralsHaveNoDot(parts: seq<nat>)
    ensures forall i :: 0 <= i < |parts| ==> '.' !in Numerals(parts)[i]
  {
  }

  /**
   * Parsing then printing gives back the input exactly when every piece
   * is written without leading zeros; otherwise the zeros are dropped.
   */
  lemma PrintParse(s: string, parts: seq<nat>)
    requires Parse(s) == Some(parts)
    ensures Print(parts) == s <==> forall i :: 0 <= i < |Split(s)| ==> IsCanonical(Split(s)[i])
  {
    var pieces := Split(s);
    if forall i :: 0 <= i < |pieces| ==> IsCanonical(pieces[i]) {
      forall i | 0 <= i < |pieces|
        ensures Numerals(parts)[i] == pieces[i]
      {
        CanonicalIsNumeralOfValue(pieces[i]);
      }
      assert Numerals(parts) == pieces;
      assert Print(parts) == Join(pieces);
    }
    if Print(parts) == s {
      NumeralsHaveNoDot(parts);
      SplitJoin(Numerals(parts));
      assert Numerals(parts) == pieces;
      forall i | 0 <= i < |pieces|
        ensures IsCanonical(pieces[i])
      {
        assert pieces[i] == Numeral(parts[i]);
      }
    }
  }

  /** A zero put in front of the first component does not change what is parsed. */
  lemma ParseIgnoresLeadingZero(s: string)
    requires Parse(s).Some?
    ensures Parse("0" + s) == Parse(s)
  {
    var pieces := Split(s);
    var z := "0" + s;
    assert z[1..] == s;
    assert Split(z) == [['0'] + pieces[0]] + pieces[1..];
    LeadingZeroIgnored(pieces[0]);
    assert IsNumeral(pieces[0]);
    assert forall i :: 0 < i < |pieces| ==> Split(z)[i] == pieces[i];
    assert Parse(z).Some?;
    forall i | 0 <= i < |pieces|
      ensures Parse(z).value[i] == Parse(s).value[i]
    {
      if i == 0 {
        assert Split(z)[0] == "0" + pieces[0];
      }
    }
    assert Parse(z).value == Parse(s).value;
  }
}
