/** The pieces of Python's string library that the linker relies on:
    `str.split(sep)` (and `re.split` over a character class), `str.split()`,
    `sep.join`, `str.strip`, `str.lower` on ASCII, and `int()` / `str()` on
    decimal integers. */
module Strings {
  import opened Wrappers

  predicate IsAsciiLetter(c: char) {
    'a' <= c <= 'z' || 'A' <= c <= 'Z'
  }

  predicate IsLowerLetter(c: char) {
    'a' <= c <= 'z'
  }

  /** Python's `str.isspace()` (Unicode 15.0), which is also what `\s`,
      `str.split()` and `str.strip()` treat as whitespace: tab, line feed,
      vertical tab, form feed, carriage return, the four information
      separators, space, next line, no-break space, Ogham space mark, the
      en quad to hair space block, line and paragraph separator, narrow
      no-break space, medium mathematical space and ideographic space. */
  predicate IsWhitespace(c: char) {
    var x := c as int;
    || 0x09 <= x <= 0x0D
    || 0x1C <= x <= 0x20
    || x == 0x85 || x == 0xA0 || x == 0x1680
    || 0x2000 <= x <= 0x200A
    || x == 0x2028 || x == 0x2029 || x == 0x202F || x == 0x205F || x == 0x3000
  }

  predicate IsDigit(c: char) {
    '0' <= c <= '9'
  }

  predicate NoWhitespace(s: string) {
    forall i :: 0 <= i < |s| ==> !IsWhitespace(s[i])
  }

  predicate NoneIn(s: string, seps: set<char>) {
    forall i :: 0 <= i < |s| ==> s[i] !in seps
  }

  function AsciiLower(c: char): (d: char)
    ensures IsAsciiLetter(c) ==> IsLowerLetter(d)
    ensures !IsAsciiLetter(c) ==> d == c
  {
    if 'A' <= c <= 'Z' then (c as int + 32) as char else c
  }

  function Lower(s: string): (r: string)
    ensures |r| == |s|
    ensures forall i :: 0 <= i < |s| ==> r[i] == AsciiLower(s[i])
  {
    seq(|s|, i requires 0 <= i < |s| => AsciiLower(s[i]))
  }

  predicate StartsWith(s: string, prefix: string) {
    |prefix| <= |s| && s[..|prefix|] == prefix
  }

  predicate EndsWith(s: string, suffix: string) {
    |suffix| <= |s| && s[|s| - |suffix|..] == suffix
  }

  // ---------------------------------------------------------------------
  // str.split(sep) and re.split("[...]", s): every separator ends a piece,
  // so k separators give k + 1 (possibly empty) pieces.

  function SplitOn(s: string, seps: set<char>): (parts: seq<string>)
    ensures |parts| >= 1
    ensures forall p :: p in parts ==> NoneIn(p, seps)
    decreases |s|
  {
    if s == [] then [""]
    else
      var rest := SplitOn(s[1..], seps);
      if s[0] in seps then [""] + rest
      else
        assert NoneIn([s[0]] + rest[0], seps) by {
          assert rest[0] in rest;
        }
        [[s[0]] + rest[0]] + rest[1..]
  }

  /** `sep.join(xs)`. */
  function JoinWith(xs: seq<string>, sep: string): string
    decreases |xs|
  {
    if xs == [] then ""
    else if |xs| == 1 then xs[0]
    else xs[0] + sep + JoinWith(xs[1..], sep)
  }

  lemma {:induction false} SplitOnNoSeparator(s: string, seps: set<char>)
    requires NoneIn(s, seps)
    ensures SplitOn(s, seps) == [s]
    decreases |s|
  {
    if s != [] {
      SplitOnNoSeparator(s[1..], seps);
      assert [s[0]] + s[1..] == s;
    }
  }

  /** A separator-free prefix is glued to the first piece of what follows it. */
  lemma {:induction false} SplitOnPrefix(a: string, t: string, seps: set<char>)
    requires NoneIn(a, seps)
    ensures SplitOn(a + t, seps) == [a + SplitOn(t, seps)[0]] + SplitOn(t, seps)[1..]
    decreases |a|
  {
    if a != [] {
      assert (a + t)[1..] == a[1..] + t;
      SplitOnPrefix(a[1..], t, seps);
      assert [a[0]] + (a[1..] + SplitOn(t, seps)[0]) == a + SplitOn(t, seps)[0];
    } else {
      var parts := SplitOn(t, seps);
      assert a + t == t;
      assert a + parts[0] == parts[0];
      assert parts == [parts[0]] + parts[1..];
    }
  }

  /** Splitting undoes joining: `sep.join(xs).split(sep) == xs` when no piece holds the separator. */
  lemma {:induction false} SplitJoin(xs: seq<string>, sep: char)
    requires |xs| >= 1
    requires forall x :: x in xs ==> NoneIn(x, {sep})
    ensures SplitOn(JoinWith(xs, [sep]), {sep}) == xs
    decreases |xs|
  {
    if |xs| == 1 {
      SplitOnNoSeparator(xs[0], {sep});
    } else {
      var tail := JoinWith(xs[1..], [sep]);
      assert JoinWith(xs, [sep]) == xs[0] + ([sep] + tail);
      SplitOnPrefix(xs[0], [sep] + tail, {sep});
      assert ([sep] + tail)[1..] == tail;
      SplitJoin(xs[1..], sep);
      assert SplitOn([sep] + tail, {sep}) == [""] + xs[1..];
      assert xs[0] + "" == xs[0];
      assert xs == [xs[0]] + xs[1..];
    }
  }

  lemma {:induction false} JoinWithCons(a: string, x: string, ys: seq<string>, sep: string)
    ensures JoinWith([a + x] + ys, sep) == a + JoinWith([x] + ys, sep)
  {
    if ys == [] {
    } else {
      assert ([a + x] + ys)[1..] == ys;
      assert ([x] + ys)[1..] == ys;
    }
  }

  /** Joining undoes splitting: `sep.join(s.split(sep)) == s` for every string. */
  lemma {:induction false} JoinSplit(s: string, sep: char)
    ensures JoinWith(SplitOn(s, {sep}), [sep]) == s
    decreases |s|
  {
    if s != [] {
      var rest := SplitOn(s[1..], {sep});
      JoinSplit(s[1..], sep);
      if s[0] == sep {
        assert ([""] + rest)[1..] == rest;
        assert s == [sep] + s[1..];
      } else {
        assert rest == [rest[0]] + rest[1..];
        JoinWithCons([s[0]], rest[0], rest[1..], [sep]);
        assert s == [s[0]] + s[1..];
      }
    }
  }

  /** Appending a separator and a separator-free tail adds exactly that tail as the last piece. */
  lemma {:induction false} SplitOnSuffix(s: string, c: char, q: string, seps: set<char>)
    requires c in seps && NoneIn(q, seps)
    ensures SplitOn(s + [c] + q, seps) == SplitOn(s, seps) + [q]
    decreases |s|
  {
    if s == [] {
      assert s + [c] + q == [c] + q;
      assert ([c] + q)[1..] == q;
      SplitOnNoSeparator(q, seps);
    } else {
      assert (s + [c] + q)[1..] == s[1..] + [c] + q;
      SplitOnSuffix(s[1..], c, q, seps);
    }
  }

  // ---------------------------------------------------------------------
  // str.split() with no argument: the maximal runs of non-whitespace.

  function WordsFrom(s: string, current: string): (ws: seq<string>)
    decreases |s|
  {
    if s == [] then (if current == [] then [] else [current])
    else if IsWhitespace(s[0]) then (if current == [] then [] else [current]) + WordsFrom(s[1..], "")
    else WordsFrom(s[1..], current + [s[0]])
  }

  function Words(s: string): seq<string> {
    WordsFrom(s, "")
  }

  /** Every word is nonempty and holds no whitespace. */
  lemma {:induction false} WordsFromShape(s: string, current: string)
    requires NoWhitespace(current)
    ensures forall w :: w in WordsFrom(s, current) ==> w != [] && NoWhitespace(w)
    decreases |s|
  {
    if s != [] {
      if IsWhitespace(s[0]) {
        WordsFromShape(s[1..], "");
      } else {
        WordsFromShape(s[1..], current + [s[0]]);
      }
    }
  }

  lemma {:induction false} WordsFromAppend(x: string, t: string, current: string)
    requires NoWhitespace(x)
    ensures WordsFrom(x + t, current) == WordsFrom(t, current + x)
    decreases |x|
  {
    if x == [] {
      assert x + t == t;
      assert current + x == current;
    } else {
      assert (x + t)[1..] == x[1..] + t;
      WordsFromAppend(x[1..], t, current + [x[0]]);
      assert current + [x[0]] + x[1..] == current + x;
    }
  }

  /** `" ".join(xs).split() == xs` when the pieces are nonempty words. */
  lemma {:induction false} WordsOfJoin(xs: seq<string>)
    requires forall x :: x in xs ==> x != [] && NoWhitespace(x)
    ensures Words(JoinWith(xs, " ")) == xs
    decreases |xs|
  {
    if xs == [] {
    } else if |xs| == 1 {
      WordsFromAppend(xs[0], "", "");
      assert xs[0] + "" == xs[0];
      assert "" + xs[0] == xs[0];
    } else {
      var tail := JoinWith(xs[1..], " ");
      assert JoinWith(xs, " ") == xs[0] + (" " + tail);
      WordsFromAppend(xs[0], " " + tail, "");
      assert "" + xs[0] == xs[0];
      assert (" " + tail)[1..] == tail;
      assert forall x :: x in xs[1..] ==> x in xs;
      WordsOfJoin(xs[1..]);
      assert xs == [xs[0]] + xs[1..];
    }
  }

  // ---------------------------------------------------------------------
  // str.strip()

  function TrimStart(s: string): (r: string)
    ensures |r| <= |s|
    decreases |s|
  {
    if s != [] && IsWhitespace(s[0]) then TrimStart(s[1..]) else s
  }

  function TrimEnd(s: string): (r: string)
    ensures |r| <= |s|
    decreases |s|
  {
    if s != [] && IsWhitespace(s[|s| - 1]) then TrimEnd(s[..|s| - 1]) else s
  }

  function Strip(s: string): string {
    TrimEnd(TrimStart(s))
  }

  lemma {:induction false} StripShape(s: string)
    ensures var r := Strip(s);
      r == [] || (!IsWhitespace(r[0]) && !IsWhitespace(r[|r| - 1]))
  {
    var t := TrimStart(s);
    TrimStartShape(s);
    TrimEndShape(t);
  }

  lemma {:induction false} TrimStartShape(s: string)
    ensures var r := TrimStart(s); r == [] || !IsWhitespace(r[0])
    ensures exists k :: 0 <= k <= |s| && TrimStart(s) == s[k..]
    decreases |s|
  {
    if s != [] && IsWhitespace(s[0]) {
      TrimStartShape(s[1..]);
      var k :| 0 <= k <= |s[1..]| && TrimStart(s[1..]) == s[1..][k..];
      assert s[1..][k..] == s[k + 1..];
    } else {
      assert s == s[0..];
    }
  }

  lemma {:induction false} TrimEndShape(t: string)
    ensures var r := TrimEnd(t); r == [] || !IsWhitespace(r[|r| - 1])
    ensures exists k :: 0 <= k <= |t| && TrimEnd(t) == t[..k]
    ensures t != [] && !IsWhitespace(t[0]) ==> TrimEnd(t) != [] && TrimEnd(t)[0] == t[0]
    decreases |t|
  {
    if t != [] && IsWhitespace(t[|t| - 1]) {
      TrimEndShape(t[..|t| - 1]);
      var k :| 0 <= k <= |t| - 1 && TrimEnd(t[..|t| - 1]) == t[..|t| - 1][..k];
      assert t[..|t| - 1][..k] == t[..k];
    } else {
      assert t == t[..|t|];
    }
  }

  /** `strip()` removes a no-break space and an ideographic space as well as ASCII whitespace. */
  lemma StripUnicodeSpaces()
    ensures Strip("\U{3000} apple\U{00A0}") == "apple"
  {
    var s := "\U{3000} apple\U{00A0}";
    assert s[1..] == " apple\U{00A0}";
    assert s[2..] == "apple\U{00A0}";
    assert TrimStart(s) == "apple\U{00A0}";
    assert "apple\U{00A0}"[..5] == "apple";
  }

  lemma {:induction false} StripNoWhitespace(s: string)
    requires NoWhitespace(s)
    ensures Strip(s) == s
  {
    if s != [] {
      assert !IsWhitespace(s[0]);
      assert !IsWhitespace(s[|s| - 1]);
    }
  }

  // ---------------------------------------------------------------------
  // int() on a decimal literal and str() on a natural number

  function DigitValue(c: char): nat
    requires IsDigit(c)
  {
    c as int - '0' as int
  }

  function DigitChar(d: nat): (c: char)
    requires d < 10
    ensures IsDigit(c) && DigitValue(c) == d
  {
    ('0' as int + d) as char
  }

  predicate AllDigits(s: string) {
    forall i :: 0 <= i < |s| ==> IsDigit(s[i])
  }

  predicate IsDigitOrUnderscore(c: char) {
    IsDigit(c) || c == '_'
  }

  /** The value of a run of digits, underscores being skipped. */
  function DigitsValue(s: string): nat
    requires forall i :: 0 <= i < |s| ==> IsDigitOrUnderscore(s[i])
    decreases |s|
  {
    if s == [] then 0
    else
      var last := s[|s| - 1];
      assert IsDigitOrUnderscore(last);
      if last == '_' then DigitsValue(s[..|s| - 1])
      else DigitsValue(s[..|s| - 1]) * 10 + DigitValue(last)
  }

  /** The digits `int()` accepts: one or more digits, single underscores
      allowed between two digits. */
  predicate IntegerDigits(s: string) {
    && s != [] && IsDigit(s[0]) && IsDigit(s[|s| - 1])
    && (forall i :: 0 <= i < |s| ==> IsDigitOrUnderscore(s[i]))
    && (forall i :: 0 <= i < |s| - 1 && s[i] == '_' ==> s[i + 1] != '_')
  }

  function ParseDigits(s: string): Option<int> {
    if IntegerDigits(s) then Some(DigitsValue(s)) else None
  }

  /** Python's `int(s)` in base 10: surrounding whitespace, an optional
      sign, then one or more digits with single underscores between them. */
  function ParseInt(s: string): Option<int> {
    var t := Strip(s);
    if t != [] && t[0] == '-' then
      match ParseDigits(t[1..])
      case Some(n) => Some(-n)
      case None => None
    else if t != [] && t[0] == '+' then ParseDigits(t[1..])
    else ParseDigits(t)
  }

  /** Python's `str(n)` for a natural number. */
  function NatToString(n: nat): (s: string)
    ensures s != [] && AllDigits(s)
    decreases n
  {
    if n < 10 then [DigitChar(n)] else NatToString(n / 10) + [DigitChar(n % 10)]
  }

  lemma {:induction false} NatToStringValue(n: nat)
    ensures DigitsValue(NatToString(n)) == n
    decreases n
  {
    var s := NatToString(n);
    if n >= 10 {
      NatToStringValue(n / 10);
      assert s[..|s| - 1] == NatToString(n / 10);
    } else {
      assert s[..|s| - 1] == [];
    }
  }

  /** `int(str(n)) == n`. */
  lemma ParseIntNatToString(n: nat)
    ensures ParseInt(NatToString(n)) == Some(n)
  {
    var s := NatToString(n);
    assert NoWhitespace(s) by {
      forall i | 0 <= i < |s| ensures !IsWhitespace(s[i]) {
        assert IsDigit(s[i]);
      }
    }
    StripNoWhitespace(s);
    NatToStringValue(n);
    assert IsDigit(s[0]);
  }

  /** Python's `str(i)` for any integer. */
  function IntToString(i: int): (s: string)
    ensures s != []
  {
    if i < 0 then "-" + NatToString(-i) else NatToString(i)
  }

  /** `int(str(i)) == i`. */
  lemma ParseIntIntToString(i: int)
    ensures ParseInt(IntToString(i)) == Some(i)
  {
    var s := IntToString(i);
    var d := NatToString(if i < 0 then -i else i);
    ParseIntNatToString(if i < 0 then -i else i);
    if i < 0 {
      assert NoWhitespace(s) by {
        forall k | 0 <= k < |s| ensures !IsWhitespace(s[k]) {
          if k > 0 {
            assert s[k] == d[k - 1];
            assert IsDigit(d[k - 1]);
          }
        }
      }
      StripNoWhitespace(s);
      assert s[1..] == d;
      assert Strip(d) == d by {
        assert NoWhitespace(d) by {
          forall k | 0 <= k < |d| ensures !IsWhitespace(d[k]) {
            assert IsDigit(d[k]);
          }
        }
        StripNoWhitespace(d);
      }
      assert IsDigit(d[0]);
    }
  }

  /** `int()` skips a single underscore between digits. */
  lemma ParseIntUnderscore()
    ensures ParseInt("1_0") == Some(10)
  {
    assert Strip("1_0") == "1_0";
    assert "1_0"[..2] == "1_" && "1_"[..1] == "1";
    assert DigitsValue("1_0") == DigitsValue("1_") * 10 + 0;
    assert DigitsValue("1_") == DigitsValue("1");
  }

  /** `int()` rejects a doubled, leading or trailing underscore. */
  lemma ParseIntMisplacedUnderscores()
    ensures ParseInt("1__0") == None && ParseInt("_1") == None && ParseInt("1_") == None
  {
    assert Strip("1__0") == "1__0";
    assert "1__0"[1] == '_' && "1__0"[2] == '_';
    assert Strip("_1") == "_1";
    assert Strip("1_") == "1_";
  }
}
