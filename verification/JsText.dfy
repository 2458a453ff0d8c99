/** The JavaScript string built-ins the handlers rely on, with their
    ECMAScript semantics: `slice` with non-negative indices, `split` on the
    separator "_", and `parseInt` without a radix. Strings are sequences of
    code points; the identifiers and payloads they are applied to are ASCII,
    where code points and UTF-16 units coincide. */
module JsText {
  import opened Wrappers

  /** `s.slice(start)` for a non-negative start: the suffix from `start`,
      or the empty string when `start` is past the end. */
  function SliceFrom(s: string, start: nat): (r: string)
    ensures |r| == if start <= |s| then |s| - start else 0
    ensures r == s[|s| - |r|..]
  {
    if start <= |s| then s[start..] else ""
  }

  /** `s.slice(start, end)` for non-negative bounds: both are clamped to the
      length, and an empty range gives the empty string. */
  function Slice(s: string, start: nat, end: nat): (r: string)
    ensures |r| == if start < end && start < |s| then (if end < |s| then end else |s|) - start else 0
    ensures forall i :: 0 <= i < |r| ==> r[i] == s[start + i]
  {
    var e := if end < |s| then end else |s|;
    if start < e then s[start..e] else ""
  }

  // ---------------------------------------------------------------- split

  /** The separator of callback data. */
  const Separator: char := '_'

  /** `s.split("_")`: the pieces between separators, in order. There is
      always at least one piece, no piece holds a separator, and there is
      one more piece than there are separators. */
  function Split(s: string): (parts: seq<string>)
    ensures |parts| >= 1
    ensures forall p :: p in parts ==> Separator !in p
    ensures |parts| == 1 + multiset(s)[Separator]
    decreases |s|
  {
    if s == [] then [""]
    else
      var rest := Split(s[1..]);
      assert s == [s[0]] + s[1..];
      if s[0] == Separator then [""] + rest
      else [[s[0]] + rest[0]] + rest[1..]
  }

  /** A string without separators splits into itself alone. */
  lemma {:induction false} SplitWhole(s: string)
    requires Separator !in s
    ensures Split(s) == [s]
    decreases |s|
  {
    if s != [] {
      SplitWhole(s[1..]);
      assert [s[0]] + s[1..] == s;
    }
  }

  /** Appending a separator and a separator-free piece appends that piece to
      the split. */
  lemma {:induction false} SplitAppend(s: string, piece: string)
    requires Separator !in piece
    ensures Split(s + [Separator] + piece) == Split(s) + [piece]
    decreases |s|
  {
    var t := s + [Separator] + piece;
    if s == [] {
      assert t == [Separator] + piece;
      assert t[1..] == piece;
      SplitWhole(piece);
    } else {
      assert t[1..] == s[1..] + [Separator] + piece;
      assert t[0] == s[0];
      SplitAppend(s[1..], piece);
      SplitAppendStep(s, t, piece);
    }
  }

  /** The step of `SplitAppend`: when the tails of `s` and `t` split alike
      but for the extra piece, so do `s` and `t`. */
  lemma {:induction false} SplitAppendStep(s: string, t: string, piece: string)
    requires s != [] && t != [] && t[0] == s[0]
    requires Split(t[1..]) == Split(s[1..]) + [piece]
    ensures Split(t) == Split(s) + [piece]
  {
    var r := Split(s[1..]);
    if s[0] == Separator {
      assert Split(t) == [""] + (r + [piece]);
      assert Split(s) == [""] + r;
      ConsSnoc("", r, piece);
    } else {
      var head := [s[0]] + r[0];
      assert (r + [piece])[1..] == r[1..] + [piece];
      assert Split(t) == [head] + (r[1..] + [piece]);
      assert Split(s) == [head] + r[1..];
      ConsSnoc(head, r[1..], piece);
    }
  }

  /** Putting an element in front and one at the back commute. */
  lemma {:induction false} ConsSnoc<T>(a: T, xs: seq<T>, b: T)
    ensures [a] + (xs + [b]) == ([a] + xs) + [b]
  {
    assert |[a] + (xs + [b])| == |([a] + xs) + [b]|;
  }

  // ------------------------------------------------------------- parseInt

  /** ECMAScript WhiteSpace and LineTerminator code points: tab, line feed,
      vertical tab, form feed, carriage return, the space separators of
      category Zs, the byte-order mark and the line and paragraph separators. */
  predicate IsJsWhitespace(c: char)
  {
    c == '\t' || c == '\n' || c == '\U{000B}' || c == '\U{000C}' || c == '\r'
    || c == ' ' || c == '\U{00A0}' || c == '\U{1680}'
    || ('\U{2000}' <= c <= '\U{200A}')
    || c == '\U{2028}' || c == '\U{2029}' || c == '\U{202F}' || c == '\U{205F}'
    || c == '\U{3000}' || c == '\U{FEFF}'
  }

  /** The string with its leading whitespace removed. */
  function TrimStart(s: string): (r: string)
    ensures |r| <= |s|
    ensures r == [] || !IsJsWhitespace(r[0])
    decreases |s|
  {
    if s != [] && IsJsWhitespace(s[0]) then TrimStart(s[1..]) else s
  }

  /** What `TrimStart` keeps is a suffix, and all it drops is whitespace. */
  lemma {:induction false} TrimStartDropsWhitespace(s: string)
    ensures var r := TrimStart(s);
      && r == s[|s| - |r|..]
      && forall i :: 0 <= i < |s| - |r| ==> IsJsWhitespace(s[i])
    decreases |s|
  {
    if s != [] && IsJsWhitespace(s[0]) {
      TrimStartDropsWhitespace(s[1..]);
    }
  }

  predicate IsDecimalDigit(c: char)
  {
    '0' <= c <= '9'
  }

  predicate IsHexDigit(c: char)
  {
    IsDecimalDigit(c) || 'a' <= c <= 'f' || 'A' <= c <= 'F'
  }

  /** A digit of the radix in use: 16 after a "0x" prefix, otherwise 10. */
  predicate IsDigit(c: char, hex: bool)
  {
    if hex then IsHexDigit(c) else IsDecimalDigit(c)
  }

  /** The value of one digit character. */
  function DigitValue(c: char): (d: nat)
    requires IsHexDigit(c)
    ensures d < 16
    ensures IsDecimalDigit(c) ==> d < 10
  {
    if IsDecimalDigit(c) then c as int - '0' as int
    else if 'a' <= c <= 'f' then c as int - 'a' as int + 10
    else c as int - 'A' as int + 10
  }

  /** The value of a digit string in the given base, most significant first. */
  function DigitsValue(ds: string, hex: bool): nat
    requires forall i :: 0 <= i < |ds| ==> IsDigit(ds[i], hex)
    decreases |ds|
  {
    if ds == [] then 0
    else
      assert IsDigit(ds[|ds| - 1], hex);
      var high := DigitsValue(ds[..|ds| - 1], hex);
      (if hex then high * 16 else high * 10) + DigitValue(ds[|ds| - 1])
  }

  /** The longest prefix of `s` made of digits of the radix. */
  function LeadingDigits(s: string, hex: bool): (ds: string)
    ensures |ds| <= |s| && ds == s[..|ds|]
    ensures forall i :: 0 <= i < |ds| ==> IsDigit(ds[i], hex)
    ensures |ds| < |s| ==> !IsDigit(s[|ds|], hex)
    decreases |s|
  {
    if s == [] || !IsDigit(s[0], hex) then ""
    else [s[0]] + LeadingDigits(s[1..], hex)
  }

  /** The magnitude `parseInt` reads after the sign: base 16 after "0x" or
      "0X", base 10 otherwise, then the longest run of digits; `None` when
      that run is empty. */
  function ParseMagnitude(u: string): Option<nat>
  {
    var hex := |u| >= 2 && u[0] == '0' && (u[1] == 'x' || u[1] == 'X');
    var ds := LeadingDigits(if hex then u[2..] else u, hex);
    if ds == [] then None else Some(DigitsValue(ds, hex))
  }

  /** An optional "-" or "+" followed by a magnitude. */
  function ParseSigned(t: string): Option<int>
  {
    var signed := t != [] && (t[0] == '-' || t[0] == '+');
    match ParseMagnitude(if signed then t[1..] else t)
    case None => None
    case Some(m) => Some(if signed && t[0] == '-' then -(m as int) else m)
  }

  /** `parseInt(s)` with no radix: skip leading whitespace, take an optional
      sign, switch to base 16 after "0x" or "0X", then read the longest run
      of digits. `None` stands for NaN, when there is no digit to read; -0
      and 0 are the same integer here, and both are falsy in JavaScript. */
  function ParseInt(s: string): Option<int>
  {
    ParseSigned(TrimStart(s))
  }

  /** The decimal digit character for `d`. */
  function DecimalChar(d: nat): (c: char)
    requires d < 10
    ensures IsDecimalDigit(c) && DigitValue(c) == d
  {
    ('0' as int + d) as char
  }

  /** The canonical decimal rendering of a natural number. */
  function ShowNat(n: nat): (s: string)
    ensures s != [] && forall i :: 0 <= i < |s| ==> IsDecimalDigit(s[i])
    ensures n != 0 ==> s[0] != '0'
    decreases n
  {
    if n < 10 then [DecimalChar(n)] else ShowNat(n / 10) + [DecimalChar(n % 10)]
  }

  /** The canonical decimal rendering of an integer, with "-" when negative. */
  function Show(n: int): string
  {
    if n < 0 then "-" + ShowNat(-n) else ShowNat(n)
  }

  lemma {:induction false} ShowNatValue(n: nat)
    ensures DigitsValue(ShowNat(n), false) == n
    decreases n
  {
    if n >= 10 {
      var s := ShowNat(n);
      ShowNatValue(n / 10);
      assert s[..|s| - 1] == ShowNat(n / 10);
    }
  }

  /** Digits followed by a non-digit (or by nothing) are read up to the
      non-digit. */
  lemma {:induction false} LeadingDigitsStop(ds: string, rest: string, hex: bool)
    requires forall i :: 0 <= i < |ds| ==> IsDigit(ds[i], hex)
    requires rest == [] || !IsDigit(rest[0], hex)
    ensures LeadingDigits(ds + rest, hex) == ds
    decreases |ds|
  {
    if ds != [] {
      assert (ds + rest)[1..] == ds[1..] + rest;
      LeadingDigitsStop(ds[1..], rest, hex);
    }
  }

  /** The decimal rendering of a natural number, followed by text that
      neither continues the digits nor turns a lone "0" into a "0x" prefix,
      reads back as that number. */
  lemma {:induction false} ParseMagnitudeShow(m: nat, rest: string)
    requires rest == [] || !IsDecimalDigit(rest[0])
    requires m == 0 && rest != [] ==> rest[0] != 'x' && rest[0] != 'X'
    ensures ParseMagnitude(ShowNat(m) + rest) == Some(m)
  {
    var digits := ShowNat(m);
    var u := digits + rest;
    if |u| >= 2 && u[0] == '0' {
      assert m == 0 && digits == "0";
      assert u[1] == rest[0];
    }
    LeadingDigitsStop(digits, rest, false);
    ShowNatValue(m);
  }

  /** Text that does not start with whitespace is read by the sign stage
      directly. */
  lemma {:induction false} ParseIntNoWhitespace(s: string)
    requires s != [] && !IsJsWhitespace(s[0])
    ensures ParseInt(s) == ParseSigned(s)
  {
  }

  /** Round trip: `parseInt` reads back the decimal rendering of any integer,
      also when other text follows, provided that text does not start with a
      digit and, after a lone "0", does not start with "x" or "X" (which
      would switch to base 16). */
  lemma {:induction false} ParseIntShow(n: int, rest: string)
    requires rest == [] || !IsDecimalDigit(rest[0])
    requires n == 0 && rest != [] ==> rest[0] != 'x' && rest[0] != 'X'
    ensures ParseInt(Show(n) + rest) == Some(n)
  {
    if n < 0 {
      ParseIntShowNegative(n, rest);
    } else {
      ParseIntShowNatural(n, rest);
    }
  }

  /** `parseInt` reads back a rendered natural number. */
  lemma {:induction false} ParseIntShowNatural(n: int, rest: string)
    requires n >= 0
    requires rest == [] || !IsDecimalDigit(rest[0])
    requires n == 0 && rest != [] ==> rest[0] != 'x' && rest[0] != 'X'
    ensures ParseInt(Show(n) + rest) == Some(n)
  {
    var s := Show(n) + rest;
    assert s == ShowNat(n) + rest;
    assert ParseMagnitude(s) == Some(n) by {
      ParseMagnitudeShow(n, rest);
    }
    assert s[0] == ShowNat(n)[0];
    ParseUnsigned(s, n);
  }

  /** `parseInt` reads back a rendered negative number. */
  lemma {:induction false} ParseIntShowNegative(n: int, rest: string)
    requires n < 0
    requires rest == [] || !IsDecimalDigit(rest[0])
    ensures ParseInt(Show(n) + rest) == Some(n)
  {
    ShowNegative(n, rest);
    ShowNatValue(-n);
    ParseNegativeDigits(ShowNat(-n), rest, -n);
  }

  /** "-" before a run of decimal digits without a leading zero reads as the
      negated value of the digits, when what follows is not a digit. */
  lemma {:induction false} ParseNegativeDigits(ds: string, rest: string, m: int)
    requires ds != [] && ds[0] != '0' && forall i :: 0 <= i < |ds| ==> IsDecimalDigit(ds[i])
    requires DigitsValue(ds, false) == m
    requires rest == [] || !IsDecimalDigit(rest[0])
    ensures ParseInt(['-'] + (ds + rest)) == Some(-m)
  {
    var u := ds + rest;
    var s := ['-'] + u;
    assert s[0] == '-' && s[1..] == u;
    ParseIntNoWhitespace(s);
    assert u[0] == ds[0];
    LeadingDigitsStop(ds, rest, false);
  }

  /** A negative rendering is "-" before the rendered magnitude. */
  lemma {:induction false} ShowNegative(n: int, rest: string)
    requires n < 0
    ensures Show(n) + rest == ['-'] + (ShowNat(-n) + rest)
  {
    assert Show(n) == ['-'] + ShowNat(-n);
  }

  lemma {:induction false} ParseUnsigned(s: string, m: nat)
    requires s != [] && IsDecimalDigit(s[0])
    requires ParseMagnitude(s) == Some(m)
    ensures ParseInt(s) == Some(m)
  {
    ParseIntNoWhitespace(s);
    assert s[0] != '-' && s[0] != '+';
  }

  /** Leading whitespace never changes what `parseInt` reads. */
  lemma {:induction false} TrimStartSkipsWhitespace(ws: string, s: string)
    requires forall i :: 0 <= i < |ws| ==> IsJsWhitespace(ws[i])
    ensures TrimStart(ws + s) == TrimStart(s)
    decreases |ws|
  {
    if ws != [] {
      var t := ws + s;
      assert t[0] == ws[0] && IsJsWhitespace(ws[0]);
      assert t[1..] == ws[1..] + s;
      TrimStartSkipsWhitespace(ws[1..], s);
      assert TrimStart(t) == TrimStart(t[1..]);
    } else {
      assert ws + s == s;
    }
  }

  /** Text that starts, after whitespace, with neither a sign nor a digit is
      NaN. */
  lemma {:induction false} NoDigitIsNaN(s: string)
    requires var t := TrimStart(s); t == [] || !(IsDecimalDigit(t[0]) || t[0] == '-' || t[0] == '+')
    ensures ParseInt(s) == None
  {
    var t := TrimStart(s);
    assert t == [] || t[0] != '0';
    assert LeadingDigits(t, false) == "";
    assert ParseMagnitude(t) == None;
    assert !(t != [] && (t[0] == '-' || t[0] == '+'));
  }
}
