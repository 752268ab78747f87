/**
  The Python string and integer built-ins the focus tool relies on: `str.isspace`,
  `str.strip`, `str.split` with a one-character separator, `str(n)` for integers,
  `int(s)` for strings, and the `02d` zero-padding of an f-string.
 */
module PyText {
  import opened Wrappers

  /** `c.isspace()`: the characters Python treats as whitespace. */
  predicate IsSpace(c: char) {
    || ('\t' <= c <= '\r')                  // tab, line feed, vertical tab, form feed, carriage return
    || ('\U{1C}' <= c <= '\U{1F}')          // file, group, record and unit separators
    || c == ' ' || c == '\U{85}' || c == '\U{A0}' || c == '\U{1680}'
    || ('\U{2000}' <= c <= '\U{200A}')
    || c == '\U{2028}' || c == '\U{2029}' || c == '\U{202F}' || c == '\U{205F}' || c == '\U{3000}'
  }

  /**
    The two kinds of padding the program strips. `str.strip()` removes every `isspace`
    character (`StrBlanks`). `int()` removes fewer (`IntBlanks`): CPython turns each
    non-ASCII whitespace character into a space and then skips only ASCII tab, line
    feed, vertical tab, form feed, carriage return and space, so the separators
    U+001C..U+001F are not skipped and make the number invalid.
   */
  datatype Blanks = StrBlanks | IntBlanks

  predicate IsBlank(kind: Blanks, c: char) {
    IsSpace(c) && (kind == IntBlanks ==> !('\U{1C}' <= c <= '\U{1F}'))
  }

  predicate AllBlank(kind: Blanks, s: string) {
    forall i :: 0 <= i < |s| ==> IsBlank(kind, s[i])
  }

  /** A string with no padding of the given kind at either end. */
  predicate Unpadded(kind: Blanks, s: string) {
    s == [] || (!IsBlank(kind, s[0]) && !IsBlank(kind, s[|s| - 1]))
  }

  /** `s.lstrip()`, for either kind of padding. */
  function TrimLeft(kind: Blanks, s: string): (r: string)
    ensures |r| <= |s|
    ensures r == [] || !IsBlank(kind, r[0])
  {
    if s != [] && IsBlank(kind, s[0]) then TrimLeft(kind, s[1..]) else s
  }

  /** `s.rstrip()`, for either kind of padding. */
  function TrimRight(kind: Blanks, s: string): (r: string)
    ensures |r| <= |s|
    ensures r == [] || !IsBlank(kind, r[|r| - 1])
    ensures r != [] ==> r[0] == s[0]
  {
    if s != [] && IsBlank(kind, s[|s| - 1]) then TrimRight(kind, s[..|s| - 1]) else s
  }

  /** `lstrip()` keeps a suffix and cuts only padding. */
  lemma {:induction false} TrimLeftSlice(kind: Blanks, s: string)
    ensures TrimLeft(kind, s) == s[|s| - |TrimLeft(kind, s)|..]
    ensures AllBlank(kind, s[..|s| - |TrimLeft(kind, s)|])
  {
    if s != [] && IsBlank(kind, s[0]) {
      var t := s[1..];
      var r := TrimLeft(kind, t);
      assert TrimLeft(kind, s) == r;
      TrimLeftSlice(kind, t);
      var cut := |t| - |r|;
      assert s[cut + 1..] == t[cut..];
      assert s[..cut + 1] == [s[0]] + t[..cut];
    }
  }

  /** `rstrip()` keeps a prefix and cuts only padding. */
  lemma {:induction false} TrimRightSlice(kind: Blanks, s: string)
    ensures TrimRight(kind, s) == s[..|TrimRight(kind, s)|]
    ensures AllBlank(kind, s[|TrimRight(kind, s)|..])
  {
    if s != [] && IsBlank(kind, s[|s| - 1]) {
      var p := s[..|s| - 1];
      TrimRightSlice(kind, p);
      assert s[|TrimRight(kind, s)|..] == p[|TrimRight(kind, p)|..] + [s[|s| - 1]];
    }
  }

  /**
    Both ends stripped of the given kind of padding: the result has none at its ends and
    is no longer than `s` (`StripSlice` says which slice of `s` it is).
   */
  function StripBlanks(kind: Blanks, s: string): (r: string)
    ensures Unpadded(kind, r)
    ensures |r| <= |s|
  {
    TrimRight(kind, TrimLeft(kind, s))
  }

  /** `s.strip()` */
  function Strip(s: string): (r: string)
    ensures Unpadded(StrBlanks, r)
    ensures |r| <= |s|
  {
    StripBlanks(StrBlanks, s)
  }

  /** What stripping cuts from either side of `s` is padding, and what it keeps is a slice of `s`. */
  lemma StripSlice(kind: Blanks, s: string) returns (lead: nat)
    ensures lead + |StripBlanks(kind, s)| <= |s|
    ensures StripBlanks(kind, s) == s[lead..lead + |StripBlanks(kind, s)|]
    ensures AllBlank(kind, s[..lead]) && AllBlank(kind, s[lead + |StripBlanks(kind, s)|..])
  {
    var l := TrimLeft(kind, s);
    var r := TrimRight(kind, l);
    TrimLeftSlice(kind, s);
    TrimRightSlice(kind, l);
    lead := |s| - |l|;
    SliceOfSuffix(s, l, r, lead);
  }

  /** A prefix of a suffix of `s` sits in `s` between the two cut points. */
  lemma SliceOfSuffix(s: string, l: string, r: string, lead: nat)
    requires lead <= |s| && l == s[lead..] && |r| <= |l| && r == l[..|r|]
    ensures s[lead..lead + |r|] == r && s[lead + |r|..] == l[|r|..]
  {
  }

  /** Stripping a string that already has no padding at its ends changes nothing. */
  lemma StripUnpadded(kind: Blanks, s: string)
    requires Unpadded(kind, s)
    ensures StripBlanks(kind, s) == s
  {
  }

  /** Padding around a string makes no difference to what stripping returns. */
  lemma {:induction false} StripIgnoresPadding(kind: Blanks, before: string, s: string, after: string)
    requires AllBlank(kind, before) && AllBlank(kind, after)
    ensures StripBlanks(kind, before + s + after) == StripBlanks(kind, s)
  {
    assert before + s + after == before + (s + after);
    TrimLeftSkipsBlanks(kind, before, s + after);
    var l := TrimLeft(kind, s);
    if l == [] {
      TrimLeftEmpty(kind, s, after);
      TrimLeftSkipsBlanks(kind, after, []);
      assert after + [] == after;
      assert TrimLeft(kind, s + after) == [];
    } else {
      TrimLeftAppend(kind, s, after);
      TrimRightSkipsBlanks(kind, l, after);
    }
  }

  lemma {:induction false} TrimLeftSkipsBlanks(kind: Blanks, pad: string, s: string)
    requires AllBlank(kind, pad)
    ensures TrimLeft(kind, pad + s) == TrimLeft(kind, s)
    decreases |pad|
  {
    if pad != [] {
      assert (pad + s)[1..] == pad[1..] + s;
      TrimLeftSkipsBlanks(kind, pad[1..], s);
    } else {
      assert pad + s == s;
    }
  }

  lemma {:induction false} TrimRightSkipsBlanks(kind: Blanks, s: string, pad: string)
    requires AllBlank(kind, pad)
    ensures TrimRight(kind, s + pad) == TrimRight(kind, s)
    decreases |pad|
  {
    if pad != [] {
      assert (s + pad)[..|s + pad| - 1] == s + pad[..|pad| - 1];
      TrimRightSkipsBlanks(kind, s, pad[..|pad| - 1]);
    } else {
      assert s + pad == s;
    }
  }

  lemma {:induction false} TrimLeftEmpty(kind: Blanks, s: string, t: string)
    requires TrimLeft(kind, s) == []
    ensures TrimLeft(kind, s + t) == TrimLeft(kind, t)
    decreases |s|
  {
    if s == [] {
      assert s + t == t;
    } else {
      assert (s + t)[1..] == s[1..] + t;
      TrimLeftEmpty(kind, s[1..], t);
    }
  }

  lemma {:induction false} TrimLeftAppend(kind: Blanks, s: string, t: string)
    requires TrimLeft(kind, s) != []
    ensures TrimLeft(kind, s + t) == TrimLeft(kind, s) + t
    decreases |s|
  {
    var st := s + t;
    assert st[0] == s[0];
    if IsBlank(kind, s[0]) {
      assert TrimLeft(kind, s) == TrimLeft(kind, s[1..]);
      assert st[1..] == s[1..] + t;
      assert TrimLeft(kind, st) == TrimLeft(kind, s[1..] + t);
      TrimLeftAppend(kind, s[1..], t);
    } else {
      assert TrimLeft(kind, s) == s;
      assert TrimLeft(kind, st) == st;
    }
  }

  // ---------------------------------------------------------------------------
  // Decimal digits

  predicate IsDigit(c: char) {
    '0' <= c <= '9'
  }

  function DigitValue(c: char): (d: nat)
    requires IsDigit(c)
    ensures d < 10
  {
    (c as int) - ('0' as int)
  }

  function DigitChar(d: nat): (c: char)
    requires d < 10
    ensures IsDigit(c) && DigitValue(c) == d
  {
    ('0' as int + d) as char
  }

  predicate AllDigits(s: string) {
    forall i :: 0 <= i < |s| ==> IsDigit(s[i])
  }

  /** The characters `int()` accepts after the sign: ASCII digits and `_` separators. */
  predicate DigitsOrSeparators(s: string) {
    forall i :: 0 <= i < |s| ==> IsDigit(s[i]) || s[i] == '_'
  }

  /**
    The digit body `int()` accepts: at least one digit, starting and ending with a
    digit, and never two `_` separators in a row.
   */
  predicate WellFormedDigits(s: string) {
    && |s| > 0
    && DigitsOrSeparators(s)
    && IsDigit(s[0]) && IsDigit(s[|s| - 1])
    && forall i :: 0 <= i < |s| - 1 ==> !(s[i] == '_' && s[i + 1] == '_')
  }

  /** The number written by the digits of `s`, separators skipped. */
  function DigitsValue(s: string): nat
    requires DigitsOrSeparators(s)
  {
    if s == [] then 0
    else if s[|s| - 1] == '_' then DigitsValue(s[..|s| - 1])
    else DigitsValue(s[..|s| - 1]) * 10 + DigitValue(s[|s| - 1])
  }

  /** `str(n)` for a non-negative integer: its shortest decimal form. */
  function NatToString(n: nat): (r: string)
    ensures |r| > 0 && AllDigits(r)
    ensures r[0] == '0' ==> n == 0
    ensures |r| == 1 <==> n < 10
    ensures n < 100 ==> |r| <= 2
    ensures DigitsValue(r) == n
  {
    if n < 10 then [DigitChar(n)]
    else
      var r := NatToString(n / 10) + [DigitChar(n % 10)];
      assert r[..|r| - 1] == NatToString(n / 10);
      r
  }

  /** `str(i)` for any integer. */
  function IntToString(i: int): (r: string)
    ensures |r| > 0 && IsDigit(r[|r| - 1])
    ensures forall k :: 0 <= k < |r| ==> IsDigit(r[k]) || r[k] == '-'
    ensures (r[0] == '-') == (i < 0)
    ensures var d := if i < 0 then r[1..] else r;
            |d| > 0 && AllDigits(d) && (d[0] == '0' ==> |d| == 1)
  {
    if i < 0 then "-" + NatToString(-i) else NatToString(i)
  }

  /**
    `int(s)` for a string: padding `int()` skips is ignored (see `Blanks`), then one
    optional `+` or `-`, then a well-formed digit body. `None` stands for the
    `ValueError` Python raises.
   */
  function ParseInt(s: string): Option<int> {
    ParseStripped(StripBlanks(IntBlanks, s))
  }

  /** `int()` once the padding is gone. */
  function ParseStripped(t: string): Option<int> {
    if |t| > 0 && (t[0] == '-' || t[0] == '+') then
      if WellFormedDigits(t[1..]) then
        var magnitude: int := DigitsValue(t[1..]);
        Some(if t[0] == '-' then -magnitude else magnitude)
      else None
    else if WellFormedDigits(t) then Some(DigitsValue(t))
    else None
  }

  /** `int(str(i)) == i`: the decimal form of an integer parses back to it. */
  lemma IntRoundTrip(i: int)
    ensures ParseInt(IntToString(i)) == Some(i)
  {
    if i < 0 {
      var d := NatToString(-i);
      assert IntToString(i) == "-" + d;
      assert ParseInt("-" + d) == Some(-(DigitsValue(d) as int)) by {
        DigitsParse(d);
      }
    } else {
      var d := NatToString(i);
      assert IntToString(i) == d;
      assert ParseInt(d) == Some(DigitsValue(d)) by {
        DigitsParse(d);
      }
    }
  }

  /** `int()` reads a digit string, with or without a minus sign in front, as its value. */
  lemma DigitsParse(d: string)
    requires |d| > 0 && AllDigits(d)
    ensures ParseInt(d) == Some(DigitsValue(d))
    ensures ParseInt("-" + d) == Some(-(DigitsValue(d) as int))
  {
    var r := "-" + d;
    NumberUnpadded(IntBlanks, d);
    NumberUnpadded(IntBlanks, r);
    StripUnpadded(IntBlanks, d);
    StripUnpadded(IntBlanks, r);
    SignedDigits(d);
  }

  /** Digits and a minus sign are padding of neither kind. */
  lemma NumberUnpadded(kind: Blanks, r: string)
    requires |r| > 0 && IsDigit(r[|r| - 1]) && (IsDigit(r[0]) || r[0] == '-')
    ensures Unpadded(kind, r)
  {
  }

  /** A plain digit string, with or without a minus sign in front, reads as its value. */
  lemma SignedDigits(d: string)
    requires |d| > 0 && AllDigits(d)
    ensures ParseStripped(d) == Some(DigitsValue(d))
    ensures ParseStripped("-" + d) == Some(-(DigitsValue(d) as int))
  {
    DigitsWellFormed(d);
    assert d[0] != '-' && d[0] != '+';
    assert ("-" + d)[1..] == d;
  }

  lemma DigitsWellFormed(s: string)
    requires |s| > 0 && AllDigits(s)
    ensures WellFormedDigits(s)
  {
  }

  /** `int()` does not care about the padding it skips around the number. */
  lemma ParseIntIgnoresPadding(before: string, s: string, after: string)
    requires AllBlank(IntBlanks, before) && AllBlank(IntBlanks, after)
    ensures ParseInt(before + s + after) == ParseInt(s)
  {
    StripIgnoresPadding(IntBlanks, before, s, after);
  }

  /**
    A separator character U+001C..U+001F in front of a number is whitespace to
    `strip()` but makes `int()` fail.
   */
  lemma {:induction false} IntRejectsSeparator(c: char, d: string)
    requires '\U{1C}' <= c <= '\U{1F}'
    requires |d| > 0 && AllDigits(d)
    ensures Strip([c] + d) == d
    ensures ParseInt([c] + d) == None
  {
    var s := [c] + d;
    assert s[1..] == d;
    assert TrimLeft(StrBlanks, s) == TrimLeft(StrBlanks, d);
    NumberUnpadded(StrBlanks, d);
    StripUnpadded(StrBlanks, d);
    assert TrimLeft(IntBlanks, s) == s;
    assert StripBlanks(IntBlanks, s) == s;
    assert !WellFormedDigits(s);
  }

  /** `f"{n:02d}"`: the decimal form of `n`, zero-filled on the left to two characters. */
  function Pad2(n: nat): (r: string)
    ensures |r| >= 2 && AllDigits(r)
    ensures n < 100 ==> |r| == 2
    ensures |r| == 2 || r[0] != '0'
    ensures DigitsValue(r) == n
  {
    var digits := NatToString(n);
    if |digits| < 2 then
      var r := "0" + digits;
      assert r[..1] == "0";
      r
    else digits
  }

  // ---------------------------------------------------------------------------
  // Splitting on a separator

  /** `sep.join(pieces)` with a one-character separator. */
  function Join(pieces: seq<string>, sep: char): string
    requires |pieces| > 0
  {
    if |pieces| == 1 then pieces[0] else pieces[0] + [sep] + Join(pieces[1..], sep)
  }

  /**
    `s.split(sep)` with a one-character separator: at least one piece, none of them
    holding the separator, and joining them again gives back `s`.
   */
  function Split(s: string, sep: char): (r: seq<string>)
    ensures |r| > 0
    ensures forall i :: 0 <= i < |r| ==> sep !in r[i]
    ensures Join(r, sep) == s
  {
    if s == [] then [[]]
    else
      var rest := Split(s[1..], sep);
      if s[0] == sep then
        assert [[]] + rest == [[]] + rest && ([[]] + rest)[1..] == rest;
        [[]] + rest
      else
        var r := [[s[0]] + rest[0]] + rest[1..];
        assert r[1..] == rest[1..];
        assert |rest| > 1 ==> Join(rest, sep) == rest[0] + [sep] + Join(rest[1..], sep);
        r
  }

  lemma {:induction false} SplitSeparatorFree(p: string, tail: string, sep: char)
    requires sep !in p
    ensures Split(p + tail, sep) == [p + Split(tail, sep)[0]] + Split(tail, sep)[1..]
    decreases |p|
  {
    if p == [] {
      assert p + tail == tail;
      var t := Split(tail, sep);
      assert p + t[0] == t[0];
      assert [t[0]] + t[1..] == t;
    } else {
      assert (p + tail)[1..] == p[1..] + tail;
      SplitSeparatorFree(p[1..], tail, sep);
      assert [p[0]] + (p[1..] + Split(tail, sep)[0]) == p + Split(tail, sep)[0];
    }
  }

  /** Splitting what was joined from separator-free pieces gives the pieces back. */
  lemma {:induction false} SplitJoin(pieces: seq<string>, sep: char)
    requires |pieces| > 0
    requires forall i :: 0 <= i < |pieces| ==> sep !in pieces[i]
    ensures Split(Join(pieces, sep), sep) == pieces
    decreases |pieces|
  {
    if |pieces| == 1 {
      SplitSeparatorFree(pieces[0], [], sep);
      assert pieces[0] + [] == pieces[0];
    } else {
      var rest := Join(pieces[1..], sep);
      assert Join(pieces, sep) == pieces[0] + ([sep] + rest);
      SplitSeparatorFree(pieces[0], [sep] + rest, sep);
      assert ([sep] + rest)[1..] == rest;
      SplitJoin(pieces[1..], sep);
      assert pieces[0] + [] == pieces[0];
    }
  }
}
