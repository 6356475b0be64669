/**
 * The parts of Python's string and list behaviour that the trial records rely on:
 * str() of a row number, int() of a recorded answer, str.replace('.jpg', '.tif'),
 * list.index, and indexing a CSV row with a position that may be negative.
 */
module Text {
  import opened Outcomes

  predicate IsDigit(c: char) {
    '0' <= c <= '9'
  }

  predicate AllDigits(s: string) {
    forall k :: 0 <= k < |s| ==> IsDigit(s[k])
  }

  function DigitChar(d: nat): char
    requires d < 10
  {
    ('0' as int + d) as char
  }

  function DigitValue(c: char): nat
    requires IsDigit(c)
  {
    c as int - '0' as int
  }

  /** Decimal notation of n, as Python's str(n); used in the names f'trial{row_idx}-1.jpg'. */
  function NatToString(n: nat): (s: string)
    ensures s != [] && AllDigits(s)
    decreases n
  {
    if n < 10 then [DigitChar(n)] else NatToString(n / 10) + [DigitChar(n % 10)]
  }

  /** The value of a run of decimal digits, most significant digit first. */
  function DigitsValue(s: string): nat
    requires AllDigits(s)
    decreases |s|
  {
    if s == [] then 0 else DigitsValue(s[..|s| - 1]) * 10 + DigitValue(s[|s| - 1])
  }

  /** The ASCII characters Python's int() skips around a number: tab, line feed, vertical tab, form feed, carriage return and space. */
  predicate IsSpace(c: char) {
    9 <= c as int <= 13 || c == ' '
  }

  /** The characters that may occur in a string int() accepts. */
  predicate IsNumeralChar(c: char) {
    IsDigit(c) || IsSpace(c) || c == '+' || c == '-'
  }

  function TrimStart(s: string): string
    decreases |s|
  {
    if s != [] && IsSpace(s[0]) then TrimStart(s[1..]) else s
  }

  function TrimEnd(s: string): string
    decreases |s|
  {
    if s != [] && IsSpace(s[|s| - 1]) then TrimEnd(s[..|s| - 1]) else s
  }

  /** Whatever TrimStart removes is whitespace. */
  lemma {:induction false} TrimStartKeeps(s: string)
    ensures forall k :: 0 <= k < |s| ==> IsSpace(s[k]) || s[k] in TrimStart(s)
    decreases |s|
  {
    if s != [] && IsSpace(s[0]) {
      TrimStartKeeps(s[1..]);
      assert forall k :: 1 <= k < |s| ==> s[k] == s[1..][k - 1];
    }
  }

  /** Whatever TrimEnd removes is whitespace. */
  lemma {:induction false} TrimEndKeeps(s: string)
    ensures forall k :: 0 <= k < |s| ==> IsSpace(s[k]) || s[k] in TrimEnd(s)
    decreases |s|
  {
    if s != [] && IsSpace(s[|s| - 1]) {
      TrimEndKeeps(s[..|s| - 1]);
      assert forall k :: 0 <= k < |s| - 1 ==> s[k] == s[..|s| - 1][k];
    }
  }

  /** A string int() accepts holds only digits, whitespace and signs. */
  lemma AcceptedChars(s: string, signed: bool, body: string)
    requires var t := TrimEnd(TrimStart(s));
             && (signed ==> t != [] && (t[0] == '+' || t[0] == '-') && body == t[1..])
             && (!signed ==> body == t)
    requires AllDigits(body)
    ensures forall k :: 0 <= k < |s| ==> IsNumeralChar(s[k])
  {
    var t := TrimEnd(TrimStart(s));
    assert forall k :: 0 <= k < |t| ==> IsNumeralChar(t[k]) by {
      if signed {
        assert forall k :: 1 <= k < |t| ==> t[k] == body[k - 1];
      }
    }
    TrimStartKeeps(s);
    TrimEndKeeps(TrimStart(s));
  }

  /**
   * Python's int() of a string: optional surrounding whitespace, an optional sign,
   * then one or more decimal digits. None where int() raises ValueError.
   */
  function ParseInt(s: string): (r: Option<int>)
    ensures s == [] ==> r.None?
    ensures r.Some? ==> forall k :: 0 <= k < |s| ==> IsNumeralChar(s[k])
    ensures s != [] && AllDigits(s) ==> r == Some(DigitsValue(s))
    ensures |s| > 1 && s[0] == '-' && AllDigits(s[1..]) ==> r == Some(-(DigitsValue(s[1..]) as int))
  {
    var t := TrimEnd(TrimStart(s));
    var signed := t != [] && (t[0] == '+' || t[0] == '-');
    var body := if signed then t[1..] else t;
    if body != [] && AllDigits(body) then
      AcceptedChars(s, signed, body);
      var magnitude: int := DigitsValue(body);
      Some(if signed && t[0] == '-' then -magnitude else magnitude)
    else
      None
  }

  /**
   * Worked cases of int(): surrounding whitespace and a sign are accepted; an
   * information separator (code point 28), inner whitespace or a word raise.
   */
  lemma ParseIntExamples()
    ensures ParseInt(" -7 ") == Some(-7)
    ensures ParseInt([28 as char, '1']) == None
    ensures ParseInt("1 2") == None
    ensures ParseInt("same") == None
  {
    assert !IsNumeralChar([28 as char, '1'][0]);
    assert !IsNumeralChar("same"[0]);
    assert TrimEnd(TrimStart(" -7 ")) == "-7" by {
      assert TrimStart(" -7 ") == "-7 ";
      assert TrimEnd("-7 ") == "-7" by { assert "-7 "[..2] == "-7"; }
    }
    assert "-7"[1..] == "7";
    assert DigitsValue("7") == 7 by { assert "7"[..0] == []; }
    assert TrimEnd(TrimStart("1 2")) == "1 2";
  }

  lemma {:induction false} DigitsValueOfNatToString(n: nat)
    ensures DigitsValue(NatToString(n)) == n
    decreases n
  {
    if n >= 10 {
      var s := NatToString(n);
      assert s[..|s| - 1] == NatToString(n / 10);
      DigitsValueOfNatToString(n / 10);
    }
  }

  /** int(str(n)) == n: a row number written into an image name reads back unchanged. */
  lemma ParseIntOfNatToString(n: nat)
    ensures ParseInt(NatToString(n)) == Some(n)
  {
    var s := NatToString(n);
    assert TrimStart(s) == s;
    assert TrimEnd(s) == s;
    DigitsValueOfNatToString(n);
  }

  /** Distinct row numbers are written differently. */
  lemma NatToStringInjective(m: nat, n: nat)
    requires NatToString(m) == NatToString(n)
    ensures m == n
  {
    DigitsValueOfNatToString(m);
    DigitsValueOfNatToString(n);
  }

  /** Whether ".jpg" occurs anywhere in s. */
  predicate ContainsJpg(s: string)
    decreases |s|
  {
    |s| >= 4 && (s[..4] == ".jpg" || ContainsJpg(s[1..]))
  }

  /**
   * s.replace('.jpg', '.tif'): every occurrence, left to right and without overlap;
   * both strings have four characters, so the length never changes.
   */
  function ReplaceJpg(s: string): (r: string)
    ensures |r| == |s|
    decreases |s|
  {
    if |s| < 4 then s
    else if s[..4] == ".jpg" then ".tif" + ReplaceJpg(s[4..])
    else [s[0]] + ReplaceJpg(s[1..])
  }

  /** A name without ".jpg" in it is left as it is. */
  lemma {:induction false} ReplaceJpgWithoutMatch(s: string)
    requires !ContainsJpg(s)
    ensures ReplaceJpg(s) == s
    decreases |s|
  {
    if |s| >= 4 {
      ReplaceJpgWithoutMatch(s[1..]);
      assert s == [s[0]] + s[1..];
    }
  }

  /** A ".jpg" file name becomes the ".tif" file name with the same stem. */
  lemma {:induction false} ReplaceJpgExtension(stem: string)
    requires !ContainsJpg(stem)
    ensures ReplaceJpg(stem + ".jpg") == stem + ".tif"
    decreases |stem|
  {
    var s := stem + ".jpg";
    if stem == [] {
      assert s[..4] == ".jpg" && s[4..] == [];
    } else {
      assert s[..4] != ".jpg" by {
        if |stem| >= 4 {
          assert s[..4] == stem[..4];
        } else {
          assert s[3] == ".jpg"[3 - |stem|];
        }
      }
      assert s[1..] == stem[1..] + ".jpg";
      assert !ContainsJpg(stem[1..]);
      ReplaceJpgExtension(stem[1..]);
      assert stem == [stem[0]] + stem[1..];
    }
  }

  /** list.index(x): the first position holding x; None where Python raises ValueError. */
  function IndexOf(xs: seq<string>, x: string): (r: Option<nat>)
    ensures r.None? <==> x !in xs
    ensures r.Some? ==> r.value < |xs| && xs[r.value] == x && x !in xs[..r.value]
  {
    if xs == [] then None
    else if xs[0] == x then Some(0)
    else match IndexOf(xs[1..], x)
      case None => None
      case Some(i) => assert xs[..i + 1] == [xs[0]] + xs[1..][..i]; Some(i + 1)
  }

  /** image_names.index(name), raising when the name is absent. */
  function Lookup(names: seq<string>, name: string): (r: Result<nat>)
    ensures r.Failure? <==> name !in names
    ensures r.Failure? ==> r.error == NameNotFound(name)
    ensures r.Success? ==> r.value < |names| && names[r.value] == name && name !in names[..r.value]
  {
    match IndexOf(names, name)
    case None => Failure(NameNotFound(name))
    case Some(i) => Success(i)
  }

  /** row[column] with Python's reading of a negative position. */
  function Cell(row: seq<string>, column: int): (r: Result<string>)
    ensures r.Failure? ==> r.error == CellMissing(column)
  {
    if 0 <= column < |row| then Success(row[column])
    else if column < 0 && 0 <= |row| + column then Success(row[|row| + column])
    else Failure(CellMissing(column))
  }

  /** Every position from -len(row) to len(row) - 1 can be read; a negative one counts from the end. */
  lemma CellInRange(row: seq<string>, column: int)
    requires -|row| <= column < |row|
    ensures Cell(row, column) == Success(row[if column >= 0 then column else |row| + column])
  {
  }

  /** Any other position raises IndexError. */
  lemma CellOutOfRange(row: seq<string>, column: int)
    requires column >= |row| || column < -|row|
    ensures Cell(row, column) == Failure(CellMissing(column))
  {
  }
}
