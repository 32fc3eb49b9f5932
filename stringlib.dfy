/** The C string helpers the kernel monitor relies on: NUL-terminated strings
    in a character buffer, the command line's whitespace set, and JOS's strtol
    read in base 16.  Each C helper is a pure function here. */
module StringLib {
  import opened Common

  const NUL: char := '\0'

  /** The monitor's whitespace characters. */
  const WHITESPACE: string := "\t\r\n "

  /** c is one of the whitespace characters. */
  predicate IsSpace(c: char) {
    c == '\t' || c == '\r' || c == '\n' || c == ' '
  }

  /** IsSpace is the test `*buf && strchr(WHITESPACE, *buf)`: strchr also
      finds the terminator, which the test rules out first. */
  lemma WhitespaceSet(c: char)
    ensures IsSpace(c) <==> c != NUL && c in WHITESPACE
  {
  }

  /** A NUL occurs at or after position j of b. */
  ghost predicate TerminatedAt(b: seq<char>, j: nat) {
    exists k :: j <= k < |b| && b[k] == NUL
  }

  /** The index of the first NUL at or after position i. */
  function CStrEnd(s: seq<char>, i: nat): (n: nat)
    requires TerminatedAt(s, i)
    ensures i <= n < |s| && s[n] == NUL
    ensures forall j :: i <= j < n ==> s[j] != NUL
    decreases |s| - i
  {
    if s[i] == NUL then i else
      assert TerminatedAt(s, i + 1) by {
        var k :| i <= k < |s| && s[k] == NUL;
        assert i + 1 <= k;
      }
      CStrEnd(s, i + 1)
  }

  /** strlen: the index of the first NUL. */
  function CStrLen(s: seq<char>): (n: nat)
    requires NUL in s
    ensures n < |s| && s[n] == NUL
    ensures forall i :: 0 <= i < n ==> s[i] != NUL
  {
    assert TerminatedAt(s, 0);
    CStrEnd(s, 0)
  }

  /** The C string that starts at position j of b: its characters up to the
      next NUL. */
  function CStrAt(b: seq<char>, j: nat): (r: string)
    requires TerminatedAt(b, j)
    ensures j + |r| < |b| && b[j + |r|] == NUL && r == b[j..j + |r|]
    ensures forall i :: 0 <= i < |r| ==> r[i] != NUL
    decreases |b| - j
  {
    if b[j] == NUL then [] else
      assert TerminatedAt(b, j + 1) by {
        var k :| j <= k < |b| && b[k] == NUL;
        assert j + 1 <= k;
      }
      [b[j]] + CStrAt(b, j + 1)
  }

  // ---------------------------------------------------------------- strtol

  /** The digit strtol reads in character c: 0-9, then a-z and A-Z from 10;
      strtol stops at a digit not below the base. */
  function DigitValue(c: char): Option<nat> {
    if '0' <= c <= '9' then Some(c as int - '0' as int)
    else if 'a' <= c <= 'z' then Some(c as int - 'a' as int + 10)
    else if 'A' <= c <= 'Z' then Some(c as int - 'A' as int + 10)
    else None
  }

  /** c is a digit of base 16. */
  predicate IsHexDigit(c: char) {
    DigitValue(c).Some? && DigitValue(c).value < 16
  }

  /** The value of a run of base-16 digits, most significant first. */
  function HexValue(ds: string): nat
    requires forall i :: 0 <= i < |ds| ==> IsHexDigit(ds[i])
  {
    if ds == [] then 0 else
      var last := ds[|ds| - 1];
      assert IsHexDigit(last);
      HexValue(ds[..|ds| - 1]) * 16 + DigitValue(last).value
  }

  datatype Parsed = Parsed(value: int, end: nat)

  /** strtol's digit loop from position i with the value read so far: each
      digit below 16 gives val * 16 + dig; the first other character ends it. */
  function Digits(s: string, i: nat, val: int): (p: Parsed)
    requires i <= |s|
    ensures i <= p.end <= |s| && (p.end < |s| ==> !IsHexDigit(s[p.end]))
    ensures forall j :: i <= j < p.end ==> IsHexDigit(s[j])
    decreases |s| - i
  {
    if i < |s| && IsHexDigit(s[i]) then Digits(s, i + 1, val * 16 + DigitValue(s[i]).value)
    else Parsed(val, i)
  }

  /** strtol(s, &end, 16) from JOS's lib/string.c, on the C string s: skip
      blanks and tabs, read a sign, skip a "0x" prefix, read base-16 digits.
      The value is unbounded here; a caller that stores it converts it. */
  function Strtol16(s: string): (p: Parsed)
    ensures p.end <= |s|
  {
    var d := Digits(s, DigitsStart(s), 0);
    Parsed(if Negative(s) then -d.value else d.value, d.end)
  }

  /** strtol reads a '-' after the leading blanks. */
  predicate Negative(s: string) {
    var i := Blanks(s, 0);
    i < |s| && s[i] == '-'
  }

  /** Where strtol's digits begin: after the blanks, one sign and a "0x". */
  function DigitsStart(s: string): (k: nat)
    ensures Blanks(s, 0) <= k <= |s|
  {
    var i := Blanks(s, 0);
    var j := if i < |s| && (s[i] == '+' || s[i] == '-') then i + 1 else i;
    if j + 1 < |s| && s[j] == '0' && s[j + 1] == 'x' then j + 2 else j
  }

  /** The first position at or after i that is not a blank or a tab. */
  function Blanks(s: string, i: nat): (j: nat)
    requires i <= |s|
    ensures i <= j <= |s| && (j < |s| ==> s[j] != ' ' && s[j] != '\t')
    ensures forall m :: i <= m < j ==> s[m] == ' ' || s[m] == '\t'
    decreases |s| - i
  {
    if i < |s| && (s[i] == ' ' || s[i] == '\t') then Blanks(s, i + 1) else i
  }

  /** The digit loop, started on a prefix it has already read, ends with the
      value of the whole run. */
  lemma {:induction false} DigitsValue(s: string, i: nat, j: nat)
    requires i <= j <= |s| && forall m :: i <= m < j ==> IsHexDigit(s[m])
    ensures var p := Digits(s, j, HexValue(s[i..j])); p.value == HexValue(s[i..p.end])
    decreases |s| - j
  {
    if j < |s| && IsHexDigit(s[j]) {
      var t := s[i..j + 1];
      assert t[..|t| - 1] == s[i..j] && t[|t| - 1] == s[j];
      assert HexValue(t) == HexValue(s[i..j]) * 16 + DigitValue(s[j]).value;
      DigitsValue(s, i, j + 1);
    }
  }

  /** strtol in base 16 reads the longest run of base-16 digits from where its
      digits begin: the end pointer is just past the run, and the value is the
      run's base-16 value, negated after a '-'. */
  lemma Strtol16Spec(s: string)
    ensures var k := DigitsStart(s); var p := Strtol16(s);
      && k <= p.end <= |s|
      && (p.end < |s| ==> !IsHexDigit(s[p.end]))
      && (forall m :: k <= m < p.end ==> IsHexDigit(s[m]))
      && var h: int := HexValue(s[k..p.end]);
         p.value == if Negative(s) then -h else h
  {
    var k := DigitsStart(s);
    assert s[k..k] == [];
    DigitsValue(s, k, k);
  }

  // ---------------------------------------------------------------- formatting

  /** The lower-case base-16 digit of d. */
  function HexChar(d: nat): (c: char)
    requires d < 16
    ensures IsHexDigit(c) && DigitValue(c).value == d
  {
    if d < 10 then ('0' as int + d) as char else ('a' as int + d - 10) as char
  }

  /** printf's "%x" of v: its base-16 digits, most significant first. */
  function Hex(v: nat): (ds: string)
    ensures |ds| > 0 && forall i :: 0 <= i < |ds| ==> IsHexDigit(ds[i])
  {
    if v < 16 then [HexChar(v)] else Hex(v / 16) + [HexChar(v % 16)]
  }

  lemma {:induction false} HexValueOfHex(v: nat)
    ensures HexValue(Hex(v)) == v
  {
    var ds := Hex(v);
    if v < 16 {
      assert ds[..0] == [];
    } else {
      HexValueOfHex(v / 16);
      assert ds[..|ds| - 1] == Hex(v / 16);
    }
  }

  /** strtol reads back what "0x%x" writes, and consumes all of it. */
  lemma StrtolOfHex(v: nat)
    ensures Strtol16("0x" + Hex(v)) == Parsed(v, 2 + |Hex(v)|)
  {
    var s := "0x" + Hex(v);
    assert Blanks(s, 0) == 0;
    HexValueOfHex(v);
    assert s[2..|s|] == Hex(v);
    assert forall m :: 2 <= m < |s| ==> IsHexDigit(s[m]) by {
      forall m | 2 <= m < |s| ensures IsHexDigit(s[m]) {
        assert s[m] == Hex(v)[m - 2];
      }
    }
    assert s[2..2] == [];
    DigitsValue(s, 2, 2);
  }
}
