/**
 * Python's `int(s)` on a string (base 10) and `str(n)` on an integer.
 *
 * `int(s)` ignores surrounding whitespace, accepts one optional sign, and then
 * needs one or more decimal digits in which single underscores may stand
 * between two digits; anything else raises `ValueError`, modelled as `None`.
 * Leading zeros are accepted (`int("007") == 7`).
 */
module PyInt {
  import opened Wrappers

  /**
   * The whitespace `int` strips from both ends: the characters of
   * `str.isspace` except the separators U+001C to U+001F, which `int` leaves
   * in place (and then rejects).
   */
  predicate IsSpace(c: char)
  {
    var n := c as int;
    (9 <= n <= 13) || n == 32 || n == 0x85 || n == 0xA0 || n == 0x1680
    || (0x2000 <= n <= 0x200A) || n == 0x2028 || n == 0x2029 || n == 0x202F
    || n == 0x205F || n == 0x3000
  }

  predicate IsDigit(c: char)
  {
    '0' <= c <= '9'
  }

  function DigitValue(c: char): (d: nat)
    requires IsDigit(c)
    ensures d < 10
  {
    c as int - '0' as int
  }

  function DigitChar(d: nat): (c: char)
    requires d < 10
    ensures IsDigit(c) && DigitValue(c) == d
  {
    ('0' as int + d) as char
  }

  function TrimStart(s: string): (t: string)
    ensures |t| <= |s|
    ensures t != [] ==> !IsSpace(t[0])
  {
    if s != [] && IsSpace(s[0]) then TrimStart(s[1..]) else s
  }

  function TrimEnd(s: string): (t: string)
    ensures |t| <= |s|
    ensures t != [] ==> !IsSpace(t[|t| - 1])
  {
    if s != [] && IsSpace(s[|s| - 1]) then TrimEnd(s[..|s| - 1]) else s
  }

  /** What `TrimStart` keeps is a suffix of its argument. */
  lemma {:induction false} TrimStartIsSuffix(s: string)
    ensures TrimStart(s) == s[|s| - |TrimStart(s)|..]
  {
    if s != [] && IsSpace(s[0]) {
      TrimStartIsSuffix(s[1..]);
      assert s[1..][|s| - 1 - |TrimStart(s[1..])|..] == s[|s| - |TrimStart(s)|..];
    }
  }

  /** What `TrimEnd` keeps is a prefix of its argument. */
  lemma {:induction false} TrimEndIsPrefix(s: string)
    ensures TrimEnd(s) == s[..|TrimEnd(s)|]
  {
    if s != [] && IsSpace(s[|s| - 1]) {
      TrimEndIsPrefix(s[..|s| - 1]);
    }
  }

  /** `s.strip()`: surrounding whitespace removed. */
  function Strip(s: string): string
  {
    TrimEnd(TrimStart(s))
  }

  /** Digits with single underscores between them, as `int` reads them. */
  predicate IsDigitGroups(s: string)
  {
    && |s| > 0
    && IsDigit(s[0])
    && IsDigit(s[|s| - 1])
    && (forall i :: 0 <= i < |s| ==> IsDigit(s[i]) || s[i] == '_')
    && (forall i :: 0 <= i < |s| - 1 ==> !(s[i] == '_' && s[i + 1] == '_'))
  }

  /**
   * The value of digit groups, read from the last digit back, or `None` when
   * the string is not digit groups; the underscores carry no value.
   */
  function ReadGroups(s: string): Option<nat>
  {
    if s == [] || !IsDigit(s[|s| - 1]) then None
    else
      var init := s[..|s| - 1];
      var d := DigitValue(s[|s| - 1]);
      if init == [] then Some(d)
      else
        var high := if init[|init| - 1] == '_' then init[..|init| - 1] else init;
        match ReadGroups(high)
        case None => None
        case Some(v) => Some(v * 10 + d)
  }

  /** `ReadGroups` accepts exactly the digit groups. */
  lemma {:induction false} ReadGroupsAccepts(s: string)
    ensures ReadGroups(s).Some? <==> IsDigitGroups(s)
    decreases |s|
  {
    if s != [] && IsDigit(s[|s| - 1]) {
      var init := s[..|s| - 1];
      if init != [] {
        var underscore := init[|init| - 1] == '_';
        var high := if underscore then init[..|init| - 1] else init;
        ReadGroupsAccepts(high);
        assert high == s[..|high|];
        if IsDigitGroups(s) {
          assert |high| >= 1 by {
            if underscore {
              assert s[0] != '_';
            }
          }
          assert IsDigitGroups(high) by {
            assert high[0] == s[0];
            assert high[|high| - 1] == s[|high| - 1];
            if underscore {
              assert s[|high|] == '_';
            }
            forall i | 0 <= i < |high|
              ensures IsDigit(high[i]) || high[i] == '_'
            {
              assert high[i] == s[i];
            }
            forall i | 0 <= i < |high| - 1
              ensures !(high[i] == '_' && high[i + 1] == '_')
            {
              assert high[i] == s[i] && high[i + 1] == s[i + 1];
            }
          }
        }
        if IsDigitGroups(high) {
          assert IsDigitGroups(s) by {
            assert s[0] == high[0];
            forall i | 0 <= i < |s|
              ensures IsDigit(s[i]) || s[i] == '_'
            {
              if i < |high| {
                assert s[i] == high[i];
              }
            }
            forall i | 0 <= i < |s| - 1
              ensures !(s[i] == '_' && s[i + 1] == '_')
            {
              if i + 1 < |high| {
                assert s[i] == high[i] && s[i + 1] == high[i + 1];
              } else if i + 1 == |high| {
                assert s[i] == high[|high| - 1];
              }
            }
          }
        }
      }
    }
  }

  /** `s` with its underscores taken out. */
  function DropUnderscores(s: string): (t: string)
    ensures forall c :: c in t <==> c in s && c != '_'
  {
    if s == [] then []
    else DropUnderscores(s[..|s| - 1]) + (if s[|s| - 1] == '_' then [] else [s[|s| - 1]])
  }

  /** The number a string of decimal digits denotes, most significant first. */
  function DecimalValue(t: string): nat
    requires forall c :: c in t ==> IsDigit(c)
  {
    if t == [] then 0 else DecimalValue(t[..|t| - 1]) * 10 + DigitValue(t[|t| - 1])
  }

  /**
   * Digit groups read as the decimal number their digits spell once the
   * underscores are removed, so leading zeros and separators change nothing.
   */
  lemma {:induction false} ReadGroupsValue(s: string)
    requires IsDigitGroups(s)
    ensures ReadGroups(s) == Some(DecimalValue(DropUnderscores(s)))
    decreases |s|
  {
    ReadGroupsAccepts(s);
    var init, last := s[..|s| - 1], s[|s| - 1];
    DropUnderscoresSnoc(init, last);
    DecimalValueSnoc(DropUnderscores(init), last);
    if init != [] {
      var high := if init[|init| - 1] == '_' then init[..|init| - 1] else init;
      assert ReadGroups(high).Some?;
      ReadGroupsAccepts(high);
      ReadGroupsValue(high);
      if init[|init| - 1] == '_' {
        DropTrailingUnderscore(init);
      }
    }
  }

  lemma DropUnderscoresSnoc(init: string, last: char)
    requires IsDigit(last)
    ensures DropUnderscores(init + [last]) == DropUnderscores(init) + [last]
  {
    assert (init + [last])[..|init|] == init;
  }

  lemma DecimalValueSnoc(t: string, last: char)
    requires forall c :: c in t ==> IsDigit(c)
    requires IsDigit(last)
    ensures DecimalValue(t + [last]) == DecimalValue(t) * 10 + DigitValue(last)
  {
    assert (t + [last])[..|t|] == t;
  }

  lemma DropTrailingUnderscore(s: string)
    requires s != [] && s[|s| - 1] == '_'
    ensures DropUnderscores(s) == DropUnderscores(s[..|s| - 1])
  {
    assert DropUnderscores(s) == DropUnderscores(s[..|s| - 1]) + [];
  }

  /** The separators U+001C to U+001F are not stripped, so `int` raises on them. */
  lemma ParseIntKeepsSeparators()
    ensures ParseInt("5\U{1F}") == None
    ensures ParseInt("\U{1C}5") == None
  {
    ParseIntRejectsForeign("5\U{1F}", 1);
    ParseIntRejectsForeign("\U{1C}5", 0);
  }

  /** Leading zeros are ignored: `int("007") == 7`. */
  lemma ParseIntLeadingZeros()
    ensures ParseInt("007") == Some(7)
  {
    var s := "007";
    StripClean(s);
    assert IsDigitGroups(s);
    ReadGroupsValue(s);
    LeadingZerosDigits();
    LeadingZerosValue();
  }

  lemma LeadingZerosDigits()
    ensures DropUnderscores("007") == "007"
  {
    assert "007"[..2] == "00";
    TwoZerosDigits();
  }

  lemma TwoZerosDigits()
    ensures DropUnderscores("00") == "00"
  {
    assert "00"[..1] == "0" && "0"[..0] == [];
    assert DropUnderscores("0") == "0";
  }

  lemma LeadingZerosValue()
    ensures DecimalValue("007") == 7
  {
    assert "007"[..2] == "00" && "00"[..1] == "0" && "0"[..0] == [];
    assert DecimalValue("0") == 0;
    assert DecimalValue("00") == 0;
  }

  /** Underscores between digits are ignored: `int("1_000") == 1000`. */
  lemma ParseIntUnderscores()
    ensures ParseInt("1_000") == Some(1000)
  {
    var s := "1_000";
    StripClean(s);
    assert IsDigitGroups(s);
    ReadGroupsValue(s);
    OneThousandDigits();
    OneThousandValue();
  }

  lemma OneThousandDigits()
    ensures DropUnderscores("1_000") == "1000"
  {
    assert "1_000"[..4] == "1_00";
    OneHundredDigits();
  }

  lemma OneHundredDigits()
    ensures DropUnderscores("1_00") == "100"
  {
    assert "1_00"[..3] == "1_0";
    TenDigits();
  }

  lemma TenDigits()
    ensures DropUnderscores("1_0") == "10"
  {
    assert "1_0"[..2] == "1_" && "1_"[..1] == "1" && "1"[..0] == [];
    assert DropUnderscores("1") == "1";
    assert DropUnderscores("1_") == "1";
  }

  lemma OneThousandValue()
    ensures DecimalValue("1000") == 1000
  {
    assert "1000"[..3] == "100" && "100"[..2] == "10" && "10"[..1] == "1" && "1"[..0] == [];
    assert DecimalValue("1") == 1;
    assert DecimalValue("10") == 10;
    assert DecimalValue("100") == 100;
  }

  /** `int(s)`, or `None` where Python raises `ValueError`. */
  function ParseInt(s: string): Option<int>
  {
    ParseStripped(Strip(s))
  }

  /** What `int` does once the whitespace is gone: a sign, then digit groups. */
  function ParseStripped(t: string): Option<int>
  {
    var signed := |t| > 0 && (t[0] == '-' || t[0] == '+');
    var body := if signed then t[1..] else t;
    match ReadGroups(body)
    case None => None
    case Some(magnitude) => Some(if signed && t[0] == '-' then -(magnitude as int) else magnitude)
  }

  /** `str(n)` for a natural number. */
  function ShowNat(n: nat): (s: string)
    ensures |s| >= 1
    ensures forall i :: 0 <= i < |s| ==> IsDigit(s[i])
  {
    if n < 10 then [DigitChar(n)] else ShowNat(n / 10) + [DigitChar(n % 10)]
  }

  /** `str(n)`. */
  function Show(n: int): string
  {
    if n < 0 then "-" + ShowNat(-n) else ShowNat(n)
  }

  /** The digits `str` writes read back as the number. */
  lemma {:induction false} ReadGroupsShowNat(n: nat)
    ensures ReadGroups(ShowNat(n)) == Some(n)
  {
    var s := ShowNat(n);
    if n < 10 {
      assert s[..|s| - 1] == [];
    } else {
      var high := ShowNat(n / 10);
      ReadGroupsShowNat(n / 10);
      assert s[..|s| - 1] == high;
      assert IsDigit(high[|high| - 1]);
    }
  }

  lemma {:induction false} TrimStartSpaces(w: string, t: string)
    requires forall i :: 0 <= i < |w| ==> IsSpace(w[i])
    requires t != [] && !IsSpace(t[0])
    ensures TrimStart(w + t) == t
  {
    if w == [] {
      assert w + t == t;
    } else {
      assert (w + t)[1..] == w[1..] + t;
      TrimStartSpaces(w[1..], t);
    }
  }

  lemma {:induction false} TrimEndSpaces(t: string, w: string)
    requires forall i :: 0 <= i < |w| ==> IsSpace(w[i])
    requires t != [] && !IsSpace(t[|t| - 1])
    ensures TrimEnd(t + w) == t
  {
    if w == [] {
      assert t + w == t;
    } else {
      var u := t + w;
      assert u[..|u| - 1] == t + w[..|w| - 1];
      TrimEndSpaces(t, w[..|w| - 1]);
    }
  }

  /** `str(n)` starts with a sign or a digit and ends with a digit. */
  lemma ShowEnds(n: int)
    ensures |Show(n)| >= 1
    ensures Show(n)[0] == '-' || IsDigit(Show(n)[0])
    ensures IsDigit(Show(n)[|Show(n)| - 1])
  {
    var m: nat := if n < 0 then -n else n;
    assert Show(n)[|Show(n)| - 1] == ShowNat(m)[|ShowNat(m)| - 1];
  }

  lemma StripPadded(w1: string, t: string, w2: string)
    requires forall i :: 0 <= i < |w1| ==> IsSpace(w1[i])
    requires forall i :: 0 <= i < |w2| ==> IsSpace(w2[i])
    requires t != [] && !IsSpace(t[0]) && !IsSpace(t[|t| - 1])
    ensures Strip(w1 + t + w2) == t
  {
    assert (t + w2)[0] == t[0];
    TrimStartSpaces(w1, t + w2);
    assert w1 + t + w2 == w1 + (t + w2);
    TrimEndSpaces(t, w2);
  }

  lemma ParseStrippedShow(n: int)
    ensures ParseStripped(Show(n)) == Some(n)
  {
    var m: nat := if n < 0 then -n else n;
    var digits := ShowNat(m);
    var t := Show(n);
    var signed := |t| > 0 && (t[0] == '-' || t[0] == '+');
    assert signed <==> n < 0;
    var body := if signed then t[1..] else t;
    assert body == digits;
    ReadGroupsShowNat(m);
  }

  lemma StripClean(t: string)
    requires t != [] && !IsSpace(t[0]) && !IsSpace(t[|t| - 1])
    ensures Strip(t) == t
  {
  }

  /** `int(str(n)) == n`. */
  lemma ParseIntShowBare(n: int)
    ensures ParseInt(Show(n)) == Some(n)
  {
    var t := Show(n);
    ShowEnds(n);
    assert !IsSpace(t[0]) && !IsSpace(t[|t| - 1]);
    StripClean(t);
    ParseStrippedShow(n);
  }

  /**
   * `int` reads back what `str` writes, whatever whitespace surrounds it:
   * `int(w1 + str(n) + w2) == n`.
   */
  lemma ParseIntShow(w1: string, n: int, w2: string)
    requires forall i :: 0 <= i < |w1| ==> IsSpace(w1[i])
    requires forall i :: 0 <= i < |w2| ==> IsSpace(w2[i])
    ensures ParseInt(w1 + Show(n) + w2) == Some(n)
  {
    ShowEnds(n);
    StripPadded(w1, Show(n), w2);
    StripPadded("", Show(n), "");
    assert "" + Show(n) + "" == Show(n);
    ParseIntShowBare(n);
  }

  lemma {:induction false} TrimStartBlank(s: string)
    requires forall i :: 0 <= i < |s| ==> IsSpace(s[i])
    ensures TrimStart(s) == []
  {
    if s != [] {
      TrimStartBlank(s[1..]);
    }
  }

  /** `int` of an all-space string (the empty string included) raises. */
  lemma ParseIntBlank(s: string)
    requires forall i :: 0 <= i < |s| ==> IsSpace(s[i])
    ensures ParseInt(s) == None
  {
    TrimStartBlank(s);
  }

  /**
   * `int` raises on any string holding a character that is neither
   * whitespace, a sign, a digit nor an underscore.
   */
  lemma ParseIntRejectsForeign(s: string, k: nat)
    requires k < |s|
    requires !IsSpace(s[k]) && !IsDigit(s[k]) && s[k] !in "+-_"
    ensures ParseInt(s) == None
  {
    var st := TrimStart(s);
    var t := Strip(s);
    var signed := |t| > 0 && (t[0] == '-' || t[0] == '+');
    var body := if signed then t[1..] else t;
    // s[k] is not whitespace, so it survives the strip.
    var a := |s| - |st|;
    TrimStartIsSuffix(s);
    TrimEndIsPrefix(st);
    StrippedPrefixIsSpace(s);
    assert a <= k;
    StrippedSuffixIsSpace(st);
    assert k - a < |t|;
    assert t[k - a] == s[k];
    var j := if signed then k - a - 1 else k - a;
    assert 0 <= j < |body| && body[j] == s[k];
    assert !IsDigitGroups(body);
    ReadGroupsAccepts(body);
  }

  lemma {:induction false} StrippedPrefixIsSpace(s: string)
    ensures forall i :: 0 <= i < |s| - |TrimStart(s)| ==> IsSpace(s[i])
  {
    if s != [] && IsSpace(s[0]) {
      StrippedPrefixIsSpace(s[1..]);
      forall i | 0 <= i < |s| - |TrimStart(s)| ensures IsSpace(s[i]) {
        if i > 0 {
          assert s[i] == s[1..][i - 1];
        }
      }
    }
  }

  lemma {:induction false} StrippedSuffixIsSpace(s: string)
    ensures forall i :: |TrimEnd(s)| <= i < |s| ==> IsSpace(s[i])
  {
    if s != [] && IsSpace(s[|s| - 1]) {
      StrippedSuffixIsSpace(s[..|s| - 1]);
    }
  }
}
