/** The string operations the modelled code relies on. */
module Text {

  /** Characters str.strip() removes. */
  predicate PySpace(c: char) {
    || '\t' <= c <= '\r' || '\U{1c}' <= c <= ' ' || c == '\U{85}' || c == '\U{a0}'
    || c == '\U{1680}' || '\U{2000}' <= c <= '\U{200a}' || c == '\U{2028}' || c == '\U{2029}'
    || c == '\U{202f}' || c == '\U{205f}' || c == '\U{3000}'
  }

  /** Characters trim(), trimStart() and trimEnd() remove in JavaScript. */
  predicate JsSpace(c: char) {
    || '\t' <= c <= '\r' || c == ' ' || c == '\U{a0}' || c == '\U{feff}'
    || c == '\U{1680}' || '\U{2000}' <= c <= '\U{200a}' || c == '\U{2028}' || c == '\U{2029}'
    || c == '\U{202f}' || c == '\U{205f}' || c == '\U{3000}'
  }

  function TrimStart(space: char -> bool, s: string): (r: string)
    ensures r == [] || !space(r[0])
    ensures |r| <= |s| && r == s[|s| - |r|..]
  {
    if s == [] || !space(s[0]) then s else TrimStart(space, s[1..])
  }

  function TrimEnd(space: char -> bool, s: string): (r: string)
    ensures r == [] || !space(r[|r| - 1])
    ensures |r| <= |s| && r == s[..|r|]
  {
    if s == [] || !space(s[|s| - 1]) then s else TrimEnd(space, s[..|s| - 1])
  }

  function Trim(space: char -> bool, s: string): string {
    TrimEnd(space, TrimStart(space, s))
  }

  function Strip(s: string): string {
    Trim(PySpace, s)
  }

  /** Nothing to trim on either side. */
  predicate Trimmed(space: char -> bool, s: string) {
    s != [] && !space(s[0]) && !space(s[|s| - 1])
  }

  lemma TrimKeeps(space: char -> bool, s: string)
    requires Trimmed(space, s)
    ensures Trim(space, s) == s && TrimStart(space, s) == s && TrimEnd(space, s) == s
  {}

  predicate AllBlank(space: char -> bool, s: string) {
    forall i :: 0 <= i < |s| ==> space(s[i])
  }

  /** r is what is left of s between two runs of blanks. */
  ghost predicate LeftBetweenBlanks(space: char -> bool, s: string, r: string) {
    exists before, after :: s == before + r + after && AllBlank(space, before) && AllBlank(space, after)
  }

  lemma TwoCuts(space: char -> bool, s: string, t: string, r: string)
    requires |r| <= |t| <= |s| && t == s[|s| - |t|..] && r == t[..|r|]
    requires AllBlank(space, s[..|s| - |t|]) && AllBlank(space, t[|r|..])
    ensures LeftBetweenBlanks(space, s, r)
  {
    var before, after := s[..|s| - |t|], t[|r|..];
    assert s == before + t && t == r + after;
    assert s == before + r + after;
  }

  /** strip() takes away blanks at both ends, and nothing else. */
  lemma StripExactly(s: string)
    ensures LeftBetweenBlanks(PySpace, s, Strip(s))
    ensures Strip(s) == "" || Trimmed(PySpace, Strip(s))
  {
    TrimExactly(PySpace, s);
  }

  lemma TrimExactly(space: char -> bool, s: string)
    ensures LeftBetweenBlanks(space, s, Trim(space, s))
    ensures Trim(space, s) == "" || Trimmed(space, Trim(space, s))
  {
    hide TrimStart, TrimEnd, LeftBetweenBlanks;
    var t := TrimStart(space, s);
    BlanksBefore(space, s);
    BlanksAfter(space, t);
    TwoCuts(space, s, t, TrimEnd(space, t));
  }

  lemma {:induction false} BlanksBefore(space: char -> bool, s: string)
    ensures forall i :: 0 <= i < |s| - |TrimStart(space, s)| ==> space(s[i])
  {
    if s != [] && space(s[0]) {
      BlanksBefore(space, s[1..]);
      assert forall i :: 0 < i < |s| ==> s[i] == s[1..][i - 1];
    }
  }

  lemma {:induction false} BlanksAfter(space: char -> bool, s: string)
    ensures forall i :: |TrimEnd(space, s)| <= i < |s| ==> space(s[i])
  {
    if s != [] && space(s[|s| - 1]) {
      BlanksAfter(space, s[..|s| - 1]);
    }
  }

  // ---- Decimal numerals -----------------------------------------------------------

  predicate IsDigit(c: char) {
    '0' <= c <= '9'
  }

  function Digit(d: nat): (c: char)
    requires d < 10
    ensures IsDigit(c) && c as int == '0' as int + d
  {
    ('0' as int + d) as char
  }

  /** str(n) for a natural number. */
  function Decimal(n: nat): (s: string)
    ensures |s| > 0 && (|s| == 1 <==> n < 10)
    ensures forall i :: 0 <= i < |s| ==> IsDigit(s[i])
  {
    if n < 10 then [Digit(n)] else Decimal(n / 10) + [Digit(n % 10)]
  }

  lemma {:induction false} DecimalInjective(a: nat, b: nat)
    requires Decimal(a) == Decimal(b)
    ensures a == b
  {
    var s, t := Decimal(a), Decimal(b);
    assert s[|s| - 1] == Digit(a % 10) && t[|t| - 1] == Digit(b % 10);
    if a >= 10 {
      assert s[..|s| - 1] == Decimal(a / 10) && t[..|t| - 1] == Decimal(b / 10);
      DecimalInjective(a / 10, b / 10);
    }
  }

  /** A number followed by an underscore can be read back. */
  lemma NumberedNamesDiffer(a: nat, x: string, b: nat, y: string)
    requires Decimal(a) + "_" + x == Decimal(b) + "_" + y
    ensures a == b
  {
    var s, t := Decimal(a), Decimal(b);
    var u, v := s + "_" + x, t + "_" + y;
    assert u[|s|] == '_' && v[|t|] == '_';
    assert forall k :: 0 <= k < |s| ==> IsDigit(u[k]);
    assert forall k :: 0 <= k < |t| ==> IsDigit(v[k]);
    assert |s| == |t|;
    assert u[..|s|] == s && v[..|t|] == t;
    DecimalInjective(a, b);
  }

  /** The number a row of digits stands for, the first one weighing most. */
  function Worth(s: string): nat
    requires forall i :: 0 <= i < |s| ==> IsDigit(s[i])
  {
    if s == "" then 0
    else
      assert IsDigit(s[|s| - 1]);
      10 * Worth(s[..|s| - 1]) + (s[|s| - 1] as int - '0' as int)
  }

  lemma {:induction false} DecimalIsWorth(n: nat)
    ensures Worth(Decimal(n)) == n
  {
    var s := Decimal(n);
    if n < 10 {
      assert s[..|s| - 1] == "" && Worth("") == 0;
    } else {
      DecimalIsWorth(n / 10);
      assert s[..|s| - 1] == Decimal(n / 10);
    }
  }
}
