/**
 * The number classifier of the counting game: Python's
 * `re.match(r'^(\d+)(?:\s.*)?$', text)` followed by `int(match.group(1))`.
 *
 * `PatternMatch` is the declarative meaning of the pattern, with every
 * backtracking choice left open; `ParseCount` is the greedy classifier the
 * handler uses, and `ParseCountMeaning` proves the two agree.
 */
module Parsing {

  import opened Wrappers

  /** `\d`, restricted to ASCII digits. */
  predicate IsDigit(c: char) {
    '0' <= c <= '9'
  }

  function DigitValue(c: char): (d: nat)
    requires IsDigit(c)
    ensures d < 10
  {
    c as int - '0' as int
  }

  /** `\s` on a `str` pattern: the code points for which `str.isspace()` holds. */
  predicate IsSpace(c: char) {
    var x := c as int;
    || 0x09 <= x <= 0x0D
    || 0x1C <= x <= 0x20
    || x == 0x85 || x == 0xA0 || x == 0x1680
    || 0x2000 <= x <= 0x200A
    || x == 0x2028 || x == 0x2029 || x == 0x202F || x == 0x205F || x == 0x3000
  }

  predicate AllDigits(s: string) {
    forall i :: 0 <= i < |s| ==> IsDigit(s[i])
  }

  /** What `.*` can consume: `.` matches anything except a newline. */
  predicate NoNewline(s: string) {
    forall i :: 0 <= i < |s| ==> s[i] != '\n'
  }

  /** Where `$` (without MULTILINE) matches: at the end, or just before one final newline. */
  predicate EndAnchor(rest: string) {
    rest == [] || rest == "\n"
  }

  /**
   * The pattern matches `s` with group 1 equal to `s[..k]`: `\d+` takes the
   * first `k` characters, then either `$` holds there, or `\s` takes one
   * character, `.*` takes the characters up to some `j` and `$` holds at `j`.
   */
  ghost predicate PatternMatch(s: string, k: int) {
    && 1 <= k <= |s|
    && AllDigits(s[..k])
    && (|| EndAnchor(s[k..])
        || (&& k < |s|
            && IsSpace(s[k])
            && exists j :: k + 1 <= j <= |s| && NoNewline(s[k + 1..j]) && EndAnchor(s[j..])))
  }

  /** The length of the longest run of digits at the start of `s` (greedy `\d+`). */
  function LeadingDigits(s: string): (k: nat)
    ensures k <= |s|
    ensures AllDigits(s[..k])
    ensures k < |s| ==> !IsDigit(s[k])
  {
    if s != [] && IsDigit(s[0]) then
      var k' := LeadingDigits(s[1..]);
      assert s[..1 + k'] == [s[0]] + s[1..][..k'];
      1 + k'
    else
      0
  }

  /** `.*$` on the text after the whitespace character, with `.*` as long as it can be. */
  predicate LineToEnd(t: string) {
    || NoNewline(t)
    || (|t| > 0 && t[|t| - 1] == '\n' && NoNewline(t[..|t| - 1]))
  }

  /** `(?:\s.*)?$` on the text after the digit run. */
  predicate Trailer(rest: string) {
    || EndAnchor(rest)
    || (|rest| > 0 && IsSpace(rest[0]) && LineToEnd(rest[1..]))
  }

  /** `int()` of a run of decimal digits. */
  function DecimalValue(d: string): nat
    requires AllDigits(d)
    decreases |d|
  {
    if d == [] then 0 else 10 * DecimalValue(d[..|d| - 1]) + DigitValue(d[|d| - 1])
  }

  /** The number a counting message claims, or `None` when the message does not match. */
  function ParseCount(text: string): Option<nat> {
    var k := LeadingDigits(text);
    if k > 0 && Trailer(text[k..]) then Some(DecimalValue(text[..k])) else None
  }

  /** The canonical decimal rendering of `n` (no leading zeros). */
  function Decimal(n: nat): (s: string)
    ensures |s| > 0 && AllDigits(s)
  {
    var last := ['0' + (n % 10) as char];
    if n < 10 then last else Decimal(n / 10) + last
  }

  lemma LineToEndMeaning(t: string)
    ensures LineToEnd(t) <==> exists j :: 0 <= j <= |t| && NoNewline(t[..j]) && EndAnchor(t[j..])
  {
    if LineToEnd(t) {
      if NoNewline(t) {
        assert t[..|t|] == t && t[|t|..] == [];
      } else {
        assert t[|t| - 1..] == "\n";
      }
    } else {
      forall j | 0 <= j <= |t| && NoNewline(t[..j])
        ensures !EndAnchor(t[j..])
      {
        if j < |t| {
          assert t[j..][0] == t[j];
        }
      }
    }
  }

  /** Any digit run the pattern can take as group 1 is the greedy one. */
  lemma GroupIsLeadingDigits(s: string, k: int)
    requires PatternMatch(s, k)
    ensures k == LeadingDigits(s)
  {
    var m := LeadingDigits(s);
    assert k < m ==> IsDigit(s[..m][k]);
    assert k < |s| ==> s[k..][0] == s[k];
  }

  lemma TrailerMeaning(s: string, k: int)
    requires 1 <= k <= |s| && AllDigits(s[..k])
    ensures Trailer(s[k..]) <==> PatternMatch(s, k)
  {
    if k < |s| {
      var rest := s[k..];
      assert rest[0] == s[k];
      assert rest[1..] == s[k + 1..];
      var u := s[k + 1..];
      LineToEndMeaning(u);
      if exists j :: 0 <= j <= |u| && NoNewline(u[..j]) && EndAnchor(u[j..]) {
        var j :| 0 <= j <= |u| && NoNewline(u[..j]) && EndAnchor(u[j..]);
        assert u[..j] == s[k + 1..k + 1 + j];
        assert u[j..] == s[k + 1 + j..];
      }
      if exists j :: k + 1 <= j <= |s| && NoNewline(s[k + 1..j]) && EndAnchor(s[j..]) {
        var j :| k + 1 <= j <= |s| && NoNewline(s[k + 1..j]) && EndAnchor(s[j..]);
        assert u[..j - (k + 1)] == s[k + 1..j];
        assert u[j - (k + 1)..] == s[j..];
      }
    }
  }

  /**
   * The classifier accepts exactly the texts the pattern matches, and the
   * number it returns is the value of group 1.
   */
  lemma ParseCountMeaning(s: string, n: nat)
    ensures ParseCount(s) == Some(n) <==> exists k :: PatternMatch(s, k) && DecimalValue(s[..k]) == n
  {
    var m := LeadingDigits(s);
    if m > 0 {
      TrailerMeaning(s, m);
    }
    if exists k :: PatternMatch(s, k) && DecimalValue(s[..k]) == n {
      var k :| PatternMatch(s, k) && DecimalValue(s[..k]) == n;
      GroupIsLeadingDigits(s, k);
    }
  }

  /** The classifier rejects exactly the texts the pattern does not match. */
  lemma ParseCountRejects(s: string)
    ensures ParseCount(s) == None <==> forall k :: !PatternMatch(s, k)
  {
    if ParseCount(s) == None {
      forall k | PatternMatch(s, k)
        ensures false
      {
        ParseCountMeaning(s, DecimalValue(s[..k]));
      }
    } else {
      ParseCountMeaning(s, ParseCount(s).value);
    }
  }

  lemma DecimalValueAppend(d: string, c: char)
    requires AllDigits(d) && IsDigit(c)
    ensures AllDigits(d + [c])
    ensures DecimalValue(d + [c]) == 10 * DecimalValue(d) + DigitValue(c)
  {
    assert (d + [c])[..|d|] == d;
  }

  /** Reading back the decimal rendering of `n` gives `n`. */
  lemma {:induction false} DecimalRoundTrip(n: nat)
    ensures DecimalValue(Decimal(n)) == n
  {
    var last := '0' + (n % 10) as char;
    if n < 10 {
      assert DecimalValue([last]) == 10 * DecimalValue([]) + DigitValue(last) by {
        DecimalValueAppend([], last);
      }
    } else {
      DecimalRoundTrip(n / 10);
      DecimalValueAppend(Decimal(n / 10), last);
    }
  }

  lemma LeadingDigitsOfRun(d: string, rest: string)
    requires AllDigits(d)
    requires rest == [] || !IsDigit(rest[0])
    ensures LeadingDigits(d + rest) == |d|
  {
    var s := d + rest;
    var m := LeadingDigits(s);
    assert s[..|d|] == d;
  }

  /**
   * A count written out in decimal parses back to itself, alone, before one
   * final newline, or followed by whitespace and newline-free text.
   */
  lemma ParseCountOfDecimal(n: nat, sp: char, t: string)
    requires IsSpace(sp) && NoNewline(t)
    ensures ParseCount(Decimal(n)) == Some(n)
    ensures ParseCount(Decimal(n) + "\n") == Some(n)
    ensures ParseCount(Decimal(n) + [sp] + t) == Some(n)
  {
    var d := Decimal(n);
    DecimalRoundTrip(n);
    LeadingDigitsOfRun(d, []);
    assert d + [] == d;
    assert d[..|d|] == d && d[|d|..] == [];
    LeadingDigitsOfRun(d, "\n");
    assert (d + "\n")[..|d|] == d && (d + "\n")[|d|..] == "\n";
    var s := d + [sp] + t;
    assert s == d + ([sp] + t);
    LeadingDigitsOfRun(d, [sp] + t);
    assert s[..|d|] == d && s[|d|..] == [sp] + t;
    assert ([sp] + t)[1..] == t;
  }

  /** A message that opens with a count and keeps talking on the same line. */
  lemma ParseCountCheering()
    ensures ParseCount("3 let's go!") == Some(3)
  {
    assert Decimal(3) == "3";
    ParseCountOfDecimal(3, ' ', "let's go!");
    assert "3" + [' '] + "let's go!" == "3 let's go!";
  }

  /** Leading zeros are read as `int()` reads them. */
  lemma ParseCountLeadingZeros()
    ensures ParseCount("007") == Some(7)
  {
    LeadingDigitsOfRun("007", "");
    assert "007" + "" == "007";
    assert "007"[..3] == "007" && "007"[3..] == "";
    DecimalValueAppend("00", '7');
    DecimalValueAppend("0", '0');
    DecimalValueAppend("", '0');
    assert "" + ['0'] == "0" && "0" + ['0'] == "00" && "00" + ['7'] == "007";
  }

  /** Digits glued to a word, an empty text and a leading blank do not match. */
  lemma ParseCountRejectsExamples()
    ensures ParseCount("5nice") == None
    ensures ParseCount("") == None
    ensures ParseCount(" 5") == None
  {
    LeadingDigitsOfRun("5", "nice");
    assert "5" + "nice" == "5nice";
    assert "5nice"[1..] == "nice";
    assert " 5"[0] == ' ';
  }

  /** The trailing text may not run onto a second line. */
  lemma ParseCountRejectsSecondLine()
    ensures ParseCount("5 ok\nmore") == None
  {
    var s := "5 ok\nmore";
    LeadingDigitsOfRun("5", " ok\nmore");
    assert "5" + " ok\nmore" == s;
    assert s[1..] == " ok\nmore";
    var t := "ok\nmore";
    assert " ok\nmore"[1..] == t;
    assert t[2] == '\n';
    assert t[..|t| - 1][2] == '\n';
  }
}
