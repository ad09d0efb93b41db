/** The few Python string operations the backend relies on, written out:
    `int(s)` on a string, `str.split(sep)`, `str.startswith` and the decimal
    rendering an f-string gives an integer. */
module PyText {
  import opened Common

  /** Characters for which Python's `str.isspace()` holds; `str.strip()`
      drops any run of them at either end. */
  predicate IsPySpace(c: char) {
    || c == ' ' || ('\t' <= c <= '\r')
    || ('\U{1C}' <= c <= '\U{1F}')
    || c == '\U{85}' || c == '\U{A0}' || c == '\U{1680}'
    || ('\U{2000}' <= c <= '\U{200A}')
    || c == '\U{2028}' || c == '\U{2029}' || c == '\U{202F}'
    || c == '\U{205F}' || c == '\U{3000}'
  }

  /** The information separators U+001C to U+001F. `str.isspace()` holds
      for them, but `int()` skips only the other whitespace, so a string
      holding one of them is never a number to `int()`. */
  predicate IsSeparatorControl(c: char) {
    '\U{1C}' <= c <= '\U{1F}'
  }

  predicate HasSeparatorControl(s: string) {
    exists i :: 0 <= i < |s| && IsSeparatorControl(s[i])
  }

  /** The whitespace `int()` skips before and after the number. */
  predicate IsIntSpace(c: char) {
    IsPySpace(c) && !IsSeparatorControl(c)
  }

  predicate IsDigit(c: char) {
    '0' <= c <= '9'
  }

  predicate StartsWith(s: string, prefix: string) {
    |prefix| <= |s| && s[..|prefix|] == prefix
  }

  /** `s` without its leading whitespace. */
  function TrimLeft(s: string): (r: string)
    ensures |r| <= |s| && r == s[|s| - |r|..]
    ensures r == [] || !IsPySpace(r[0])
  {
    if s != [] && IsPySpace(s[0]) then TrimLeft(s[1..]) else s
  }

  /** Only whitespace is dropped. */
  lemma {:induction false} TrimLeftDropsSpace(s: string, i: int)
    requires 0 <= i < |s| - |TrimLeft(s)|
    ensures IsPySpace(s[i])
  {
    if i > 0 { TrimLeftDropsSpace(s[1..], i - 1); }
  }

  /** `s` without its trailing whitespace. */
  function TrimRight(s: string): (r: string)
    ensures |r| <= |s| && r == s[..|r|]
    ensures r == [] || !IsPySpace(r[|r| - 1])
  {
    if s != [] && IsPySpace(s[|s| - 1]) then TrimRight(s[..|s| - 1]) else s
  }

  /** Only whitespace is dropped. */
  lemma {:induction false} TrimRightDropsSpace(s: string, i: int)
    requires |TrimRight(s)| <= i < |s|
    ensures IsPySpace(s[i])
  {
    if i < |s| - 1 { TrimRightDropsSpace(s[..|s| - 1], i); }
  }

  function Strip(s: string): string {
    TrimRight(TrimLeft(s))
  }

  /** The body Python accepts for a base-10 integer: digits, where a single
      underscore may separate two digits. */
  predicate IsDigitGroup(s: string) {
    && s != []
    && IsDigit(s[0]) && IsDigit(s[|s| - 1])
    && (forall i :: 0 <= i < |s| ==> IsDigit(s[i]) || s[i] == '_')
    && (forall i :: 0 <= i < |s| - 1 ==> !(s[i] == '_' && s[i + 1] == '_'))
  }

  function DropUnderscores(s: string): (r: string)
    ensures forall i :: 0 <= i < |r| ==> r[i] != '_'
  {
    if s == [] then []
    else if s[0] == '_' then DropUnderscores(s[1..])
    else [s[0]] + DropUnderscores(s[1..])
  }

  function DigitValue(c: char): nat
    requires IsDigit(c)
  {
    (c as int) - ('0' as int)
  }

  /** The number a string of decimal digits denotes. */
  function DigitsValue(s: string): nat
    requires forall i :: 0 <= i < |s| ==> IsDigit(s[i])
  {
    if s == [] then 0 else DigitsValue(s[..|s| - 1]) * 10 + DigitValue(s[|s| - 1])
  }

  lemma {:induction false} DropUnderscoresDigits(s: string)
    requires forall i :: 0 <= i < |s| ==> IsDigit(s[i]) || s[i] == '_'
    ensures forall i :: 0 <= i < |DropUnderscores(s)| ==> IsDigit(DropUnderscores(s)[i])
  {
    if s != [] { DropUnderscoresDigits(s[1..]); }
  }

  function DigitGroupValue(s: string): nat
    requires IsDigitGroup(s)
  {
    DropUnderscoresDigits(s);
    DigitsValue(DropUnderscores(s))
  }

  /** A leading sign, which `int()` accepts once. */
  predicate HasSign(t: string) {
    t != [] && (t[0] == '-' || t[0] == '+')
  }

  /** The text `int()` reads as digits: `s` stripped of surrounding
      whitespace and of one leading sign. */
  function IntBody(s: string): string {
    var t := Strip(s);
    if HasSign(t) then t[1..] else t
  }

  /** The index in `s` at which `IntBody(s)` starts. */
  function IntBodyStart(s: string): nat {
    (|s| - |TrimLeft(s)|) + (if HasSign(Strip(s)) then 1 else 0)
  }

  lemma IntBodyIsSlice(s: string)
    ensures IntBodyStart(s) + |IntBody(s)| <= |s|
    ensures IntBody(s) == s[IntBodyStart(s)..IntBodyStart(s) + |IntBody(s)|]
  {
  }

  /** What Python's `int(s)` returns for a string `s`, or None where it
      raises ValueError: optional surrounding whitespace, an optional sign,
      then a digit group. Without an information separator in `s`, the
      whitespace `int()` skips is exactly what `Strip` drops; with one, at
      the ends or inside, `int()` raises. */
  function PyInt(s: string): Option<int> {
    var body := IntBody(s);
    if HasSeparatorControl(s) then None
    else if !IsDigitGroup(body) then None
    else
      var v: int := DigitGroupValue(body);
      Some(if Strip(s)[0] == '-' then -v else v)
  }

  /** The decimal digits of a natural number, most significant first. */
  function Digits(n: nat): (r: string)
    ensures r != [] && forall i :: 0 <= i < |r| ==> IsDigit(r[i])
  {
    var d := ['0' + (n % 10) as char];
    if n < 10 then d else Digits(n / 10) + d
  }

  /** What `f'{n}'` renders for a Python int. */
  function DecimalString(n: int): string {
    if n < 0 then "-" + Digits(-n) else Digits(n)
  }

  lemma {:induction false} DigitsValueOfDigits(n: nat)
    ensures DigitsValue(Digits(n)) == n
  {
    var d := ['0' + (n % 10) as char];
    if n >= 10 {
      DigitsValueOfDigits(n / 10);
      assert Digits(n)[..|Digits(n)| - 1] == Digits(n / 10);
    }
  }

  lemma {:induction false} NoUnderscoreInDigits(s: string)
    requires forall i :: 0 <= i < |s| ==> IsDigit(s[i])
    ensures DropUnderscores(s) == s
  {
    if s != [] { NoUnderscoreInDigits(s[1..]); }
  }

  lemma {:induction false} TrimLeftPadded(pad: string, x: string)
    requires forall i :: 0 <= i < |pad| ==> IsPySpace(pad[i])
    requires x != [] && !IsPySpace(x[0])
    ensures TrimLeft(pad + x) == x
  {
    if pad != [] {
      assert (pad + x)[1..] == pad[1..] + x;
      TrimLeftPadded(pad[1..], x);
    }
  }

  lemma {:induction false} TrimRightPadded(x: string, pad: string)
    requires forall i :: 0 <= i < |pad| ==> IsPySpace(pad[i])
    requires x != [] && !IsPySpace(x[|x| - 1])
    ensures TrimRight(x + pad) == x
  {
    if pad != [] {
      var shorter := pad[..|pad| - 1];
      assert (x + pad)[..|x + pad| - 1] == x + shorter;
      TrimRightPadded(x, shorter);
    }
  }

  lemma StripPadded(before: string, x: string, after: string)
    requires forall i :: 0 <= i < |before| ==> IsPySpace(before[i])
    requires forall i :: 0 <= i < |after| ==> IsPySpace(after[i])
    requires x != [] && !IsPySpace(x[0]) && !IsPySpace(x[|x| - 1])
    ensures Strip(before + x + after) == x
  {
    TrimLeftPadded(before, x + after);
    assert before + x + after == before + (x + after);
    TrimRightPadded(x, after);
  }

  lemma DigitGroupOfDigits(n: nat)
    ensures IsDigitGroup(Digits(n)) && DigitGroupValue(Digits(n)) == n
  {
    DigitsValueOfDigits(n);
    NoUnderscoreInDigits(Digits(n));
  }

  /** A decimal rendering has no whitespace at either end. */
  lemma DecimalStripped(n: int, before: string, after: string)
    requires forall i :: 0 <= i < |before| ==> IsPySpace(before[i])
    requires forall i :: 0 <= i < |after| ==> IsPySpace(after[i])
    ensures Strip(before + DecimalString(n) + after) == DecimalString(n)
  {
    var x := DecimalString(n);
    var m: nat := if n < 0 then -n else n;
    var digits := Digits(m);
    assert x[|x| - 1] == digits[|digits| - 1];
    assert IsDigit(x[|x| - 1]);
    StripPadded(before, x, after);
  }

  /** The digits `int()` reads in a padded decimal rendering, and its sign. */
  lemma DecimalBody(n: int, before: string, after: string)
    requires forall i :: 0 <= i < |before| ==> IsPySpace(before[i])
    requires forall i :: 0 <= i < |after| ==> IsPySpace(after[i])
    ensures var s := before + DecimalString(n) + after;
            IntBody(s) == Digits(if n < 0 then -n else n)
            && Strip(s) != [] && (Strip(s)[0] == '-' <==> n < 0)
  {
    var s := before + DecimalString(n) + after;
    DecimalStripped(n, before, after);
    if n < 0 {
      assert Strip(s) == "-" + Digits(-n);
      assert HasSign(Strip(s));
    } else {
      var digits := Digits(n);
      assert Strip(s) == digits;
      assert IsDigit(digits[0]);
    }
  }

  /** `int()` reads back every rendering of an integer, with any whitespace
      it skips around it. */
  lemma PyIntReadsDecimal(n: int, before: string, after: string)
    requires forall i :: 0 <= i < |before| ==> IsIntSpace(before[i])
    requires forall i :: 0 <= i < |after| ==> IsIntSpace(after[i])
    ensures PyInt(before + DecimalString(n) + after) == Some(n)
  {
    var m: nat := if n < 0 then -n else n;
    DecimalBody(n, before, after);
    DigitGroupOfDigits(m);
    DecimalNoSeparator(n, before, after);
  }

  /** An information separator in front of a number is whitespace to
      `str.strip()`, yet `int()` refuses the text. */
  lemma SeparatorStrippedButRefused(n: int)
    ensures Strip("\U{1C}" + DecimalString(n)) == DecimalString(n)
    ensures PyInt("\U{1C}" + DecimalString(n)).None?
  {
    var s := "\U{1C}" + DecimalString(n);
    DecimalStripped(n, "\U{1C}", "");
    assert "\U{1C}" + DecimalString(n) + "" == s;
    assert IsSeparatorControl(s[0]);
  }

  /** A decimal rendering padded with the whitespace `int()` skips holds no
      information separator. */
  lemma DecimalNoSeparator(n: int, before: string, after: string)
    requires forall i :: 0 <= i < |before| ==> IsIntSpace(before[i])
    requires forall i :: 0 <= i < |after| ==> IsIntSpace(after[i])
    ensures !HasSeparatorControl(before + DecimalString(n) + after)
  {
    var x := DecimalString(n);
    var s := before + x + after;
    forall i | 0 <= i < |x| ensures !IsSeparatorControl(x[i]) {
      var digits := Digits(if n < 0 then -n else n);
      if n < 0 && i > 0 {
        assert x[i] == digits[i - 1];
      } else if n >= 0 {
        assert x[i] == digits[i];
      }
    }
    forall i | 0 <= i < |s| ensures !IsSeparatorControl(s[i]) {
      if |before| <= i < |before| + |x| {
        assert s[i] == x[i - |before|];
      } else if i >= |before| + |x| {
        assert s[i] == after[i - |before| - |x|];
      }
    }
  }

  // ---- str.split ----

  /** `sep` occurs in `s` starting at index `i`. */
  predicate OccursAt(s: string, sep: string, i: int) {
    0 <= i && i + |sep| <= |s| && s[i..i + |sep|] == sep
  }

  ghost predicate Contains(s: string, sep: string) {
    exists i :: OccursAt(s, sep, i)
  }

  /** The first index at or after `from` where `sep` occurs, as `str.find`. */
  function FindFrom(s: string, sep: string, from: nat): (r: Option<nat>)
    requires from <= |s|
    ensures r.Some? ==> from <= r.value && OccursAt(s, sep, r.value)
    ensures r.Some? ==> forall j :: from <= j < r.value ==> !OccursAt(s, sep, j)
    ensures r.None? ==> forall j :: from <= j ==> !OccursAt(s, sep, j)
    decreases |s| - from
  {
    if OccursAt(s, sep, from) then Some(from)
    else if from + |sep| >= |s| then
      assert forall j :: from < j ==> !OccursAt(s, sep, j);
      None
    else FindFrom(s, sep, from + 1)
  }

  function Find(s: string, sep: string): (r: Option<nat>)
    ensures r.None? <==> !Contains(s, sep)
    ensures r.Some? ==> OccursAt(s, sep, r.value) && forall j :: 0 <= j < r.value ==> !OccursAt(s, sep, j)
  {
    FindFrom(s, sep, 0)
  }

  /** `str.find` answers with the first occurrence. */
  lemma FindFirst(s: string, sep: string, k: nat)
    requires OccursAt(s, sep, k)
    requires forall j :: 0 <= j < k ==> !OccursAt(s, sep, j)
    ensures Find(s, sep) == Some(k)
  {
    assert Contains(s, sep);
  }

  /** Python's `s.split(sep)` for a non-empty separator: the pieces between
      successive non-overlapping occurrences, scanning from the left. */
  function Split(s: string, sep: string): (r: seq<string>)
    requires sep != []
    ensures r != []
    decreases |s|
  {
    match Find(s, sep)
    case None => [s]
    case Some(i) => [s[..i]] + Split(s[i + |sep|..], sep)
  }

  /** `sep.join(parts)`. */
  function Join(parts: seq<string>, sep: string): string
    requires parts != []
  {
    if |parts| == 1 then parts[0] else parts[0] + sep + Join(parts[1..], sep)
  }

  /** Joining the pieces with the separator gives the string back. */
  lemma {:induction false} JoinSplit(s: string, sep: string)
    requires sep != []
    ensures Join(Split(s, sep), sep) == s
    decreases |s|
  {
    match Find(s, sep)
    case None =>
    case Some(i) =>
      var rest := s[i + |sep|..];
      JoinSplit(rest, sep);
      assert s == s[..i] + sep + rest;
  }

  /** No piece of a split contains the separator. */
  lemma {:induction false} SplitPiecesFree(s: string, sep: string)
    requires sep != []
    ensures forall k :: 0 <= k < |Split(s, sep)| ==> !Contains(Split(s, sep)[k], sep)
    decreases |s|
  {
    match Find(s, sep)
    case None =>
    case Some(i) =>
      var rest := s[i + |sep|..];
      SplitPiecesFree(rest, sep);
      var head := s[..i];
      forall j | OccursAt(head, sep, j) ensures false {
        assert j < i && s[j..j + |sep|] == head[j..j + |sep|];
        assert OccursAt(s, sep, j);
      }
  }

  /** What `s.split(sep)[-1]` gives: the text after the last occurrence. */
  function LastPiece(s: string, sep: string): (r: string)
    requires sep != []
  {
    var parts := Split(s, sep);
    parts[|parts| - 1]
  }
}
