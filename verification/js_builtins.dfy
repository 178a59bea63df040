/**
 * The JavaScript built-ins the toolkit's logic leans on, stated on Dafny strings:
 * String.prototype.split (with a one-character separator), trim, toLowerCase,
 * includes, and the global parseInt with no radix argument.
 * NaN, the only non-number parseInt yields, is `None`.
 */
module JsBuiltins {

  datatype Option<T> = None | Some(value: T)

  // ---------------------------------------------------------------- whitespace

  /** The WhiteSpace and LineTerminator code points of ECMAScript, which both
      `trim` and `parseInt` skip. */
  predicate IsJsSpace(c: char)
  {
    || c == '\t' || c == '\n' || c == '\U{000B}' || c == '\U{000C}' || c == '\r'
    || c == ' ' || c == '\U{00A0}' || c == '\U{1680}'
    || ('\U{2000}' <= c <= '\U{200A}')
    || c == '\U{2028}' || c == '\U{2029}' || c == '\U{202F}' || c == '\U{205F}'
    || c == '\U{3000}' || c == '\U{FEFF}'
  }

  /** `String.prototype.trimStart`: drop leading whitespace. */
  function TrimStart(s: string): string
  {
    if |s| > 0 && IsJsSpace(s[0]) then TrimStart(s[1..]) else s
  }

  /** What `trimStart` leaves is the longest suffix that does not start with
      whitespace: everything before it is whitespace. */
  lemma {:induction false} TrimStartShape(s: string)
    ensures var r := TrimStart(s);
      && |r| <= |s| && r == s[|s| - |r|..]
      && (forall i :: 0 <= i < |s| - |r| ==> IsJsSpace(s[i]))
      && (r == [] || !IsJsSpace(r[0]))
  {
    if |s| > 0 && IsJsSpace(s[0]) {
      TrimStartShape(s[1..]);
    }
  }

  /** `String.prototype.trimEnd`: drop trailing whitespace. */
  function TrimEnd(s: string): string
  {
    if |s| > 0 && IsJsSpace(s[|s| - 1]) then TrimEnd(s[..|s| - 1]) else s
  }

  /** What `trimEnd` leaves is the longest prefix that does not end with
      whitespace: everything after it is whitespace. */
  lemma {:induction false} TrimEndShape(s: string)
    ensures var r := TrimEnd(s);
      && |r| <= |s| && r == s[..|r|]
      && (forall i :: |r| <= i < |s| ==> IsJsSpace(s[i]))
      && (r == [] || !IsJsSpace(r[|r| - 1]))
  {
    if |s| > 0 && IsJsSpace(s[|s| - 1]) {
      TrimEndShape(s[..|s| - 1]);
    }
  }

  /** `String.prototype.trim`. */
  function Trim(s: string): string
  {
    TrimEnd(TrimStart(s))
  }

  /** `trim` keeps one contiguous stretch of `s`: everything before it and
      after it is whitespace, and it neither starts nor ends with whitespace. */
  lemma TrimShape(s: string)
    ensures var r := Trim(s); var a := |s| - |TrimStart(s)|;
      && 0 <= a && a + |r| <= |s| && r == s[a..a + |r|]
      && (forall i :: 0 <= i < a ==> IsJsSpace(s[i]))
      && (forall i :: a + |r| <= i < |s| ==> IsJsSpace(s[i]))
      && (r == [] || (!IsJsSpace(r[0]) && !IsJsSpace(r[|r| - 1])))
  {
    var t := TrimStart(s);
    TrimStartShape(s);
    TrimEndShape(t);
    var r := TrimEnd(t);
    var a := |s| - |t|;
    forall i | a + |r| <= i < |s|
      ensures IsJsSpace(s[i])
    {
      assert s[i] == t[i - a];
    }
    if r != [] {
      assert r[0] == t[0];
    }
  }

  // ---------------------------------------------------------------- split

  /** `s.split(sep)` for a one-character separator: the pieces between
      separators, including empty ones; never an empty list. */
  function Split(s: string, sep: char): (parts: seq<string>)
    ensures |parts| >= 1
  {
    if |s| == 0 then [""]
    else
      var rest := Split(s[1..], sep);
      if s[0] == sep then [""] + rest
      else [[s[0]] + rest[0]] + rest[1..]
  }

  /** No piece of a split holds the separator. */
  lemma {:induction false} SplitPiecesFree(s: string, sep: char)
    ensures forall i :: 0 <= i < |Split(s, sep)| ==> sep !in Split(s, sep)[i]
  {
    if |s| > 0 {
      SplitPiecesFree(s[1..], sep);
    }
  }

  /** A string holding the separator splits into at least two pieces. */
  lemma {:induction false} SplitAtSeparator(s: string, sep: char)
    requires sep in s
    ensures |Split(s, sep)| >= 2
  {
    if s[0] != sep {
      SplitAtSeparator(s[1..], sep);
    }
  }

  /** `parts.join(sep)`, the inverse of `Split`. */
  function Join(parts: seq<string>, sep: char): string
  {
    if |parts| == 0 then ""
    else if |parts| == 1 then parts[0]
    else parts[0] + [sep] + Join(parts[1..], sep)
  }

  /** Joining the pieces of a split gives back the string. */
  lemma {:induction false} JoinSplit(s: string, sep: char)
    ensures Join(Split(s, sep), sep) == s
  {
    if |s| > 0 {
      var rest := Split(s[1..], sep);
      JoinSplit(s[1..], sep);
      if s[0] == sep {
        assert Split(s, sep) == [""] + rest;
        assert ([""] + rest)[1..] == rest;
      } else {
        var parts := Split(s, sep);
        assert parts == [[s[0]] + rest[0]] + rest[1..];
        if |rest| == 1 {
          assert parts == [[s[0]] + rest[0]];
        } else {
          assert parts[1..] == rest[1..];
          assert Join(rest, sep) == rest[0] + [sep] + Join(rest[1..], sep);
        }
      }
    }
  }

  /** Splitting a join of separator-free pieces gives back the pieces. */
  lemma {:induction false} SplitJoin(parts: seq<string>, sep: char)
    requires |parts| >= 1
    requires forall i :: 0 <= i < |parts| ==> sep !in parts[i]
    ensures Split(Join(parts, sep), sep) == parts
  {
    if |parts| == 1 {
      SplitPieceAlone(parts[0], sep);
    } else {
      SplitJoin(parts[1..], sep);
      SplitPrefixed(parts[0], Join(parts[1..], sep), sep);
      assert [parts[0]] + parts[1..] == parts;
    }
  }

  /** A separator-free string splits into itself. */
  lemma {:induction false} SplitPieceAlone(p: string, sep: char)
    requires sep !in p
    ensures Split(p, sep) == [p]
  {
    if |p| > 0 {
      SplitPieceAlone(p[1..], sep);
      assert [p[0]] + p[1..] == p;
    }
  }

  /** Splitting `p + [sep] + t` for a separator-free `p` puts `p` in front of the pieces of `t`. */
  lemma {:induction false} SplitPrefixed(p: string, t: string, sep: char)
    requires sep !in p
    ensures Split(p + [sep] + t, sep) == [p] + Split(t, sep)
  {
    var s := p + [sep] + t;
    if |p| == 0 {
      assert s[1..] == t;
    } else {
      assert s[1..] == p[1..] + [sep] + t;
      SplitPrefixed(p[1..], t, sep);
      assert [p[0]] + p[1..] == p;
    }
  }

  // ---------------------------------------------------------------- parseInt

  /** The value of a digit character in radices up to 36 (`0`-`9`, then letters); 36 for anything else. */
  function DigitValue(c: char): nat
  {
    if '0' <= c <= '9' then c as nat - '0' as nat
    else if 'a' <= c <= 'z' then c as nat - 'a' as nat + 10
    else if 'A' <= c <= 'Z' then c as nat - 'A' as nat + 10
    else 36
  }

  predicate IsDigit(c: char, radix: nat)
  {
    DigitValue(c) < radix
  }

  /** The longest prefix of `s` made of radix-`radix` digits. */
  function DigitPrefix(s: string, radix: nat): (r: string)
    ensures |r| <= |s| && r == s[..|r|]
    ensures forall i :: 0 <= i < |r| ==> IsDigit(r[i], radix)
    ensures |r| < |s| ==> !IsDigit(s[|r|], radix)
  {
    if |s| > 0 && IsDigit(s[0], radix) then [s[0]] + DigitPrefix(s[1..], radix) else ""
  }

  /** The number a string of digits denotes, most significant digit first. */
  function DigitsValue(ds: string, radix: nat): nat
    requires forall i :: 0 <= i < |ds| ==> IsDigit(ds[i], radix)
  {
    if |ds| == 0 then 0
    else DigitsValue(ds[..|ds| - 1], radix) * radix + DigitValue(ds[|ds| - 1])
  }

  /** The global `parseInt(s)` with no radix: skip leading whitespace, then
      read a signed number. */
  function ParseInt(s: string): Option<int>
  {
    ParseSigned(TrimStart(s))
  }

  /** `parseInt` finds a number only where the text, after its leading
      whitespace, starts with a sign or a decimal digit; the result is
      negative only after a minus sign; and a decimal digit that does not
      open a `0x` prefix always yields a number. */
  lemma ParseIntShape(s: string)
    ensures var t := TrimStart(s);
      ParseInt(s).Some? ==> |t| > 0 && (t[0] == '-' || t[0] == '+' || IsDigit(t[0], 10))
    ensures var t := TrimStart(s);
      ParseInt(s).Some? && ParseInt(s).value < 0 ==> t[0] == '-'
    ensures var t := TrimStart(s);
      |t| > 0 && IsDigit(t[0], 10) && !(|t| >= 2 && t[0] == '0' && (t[1] == 'x' || t[1] == 'X'))
      ==> ParseInt(s).Some? && ParseInt(s).value >= 0
  {
    var t := TrimStart(s);
    if |t| > 0 && !(t[0] == '-' || t[0] == '+') {
      var hex := |t| >= 2 && t[0] == '0' && (t[1] == 'x' || t[1] == 'X');
      var ds := DigitPrefix(if hex then t[2..] else t, if hex then 16 else 10);
      if !hex && IsDigit(t[0], 10) {
        assert ds[0] == t[0];
      }
    }
  }

  /** An optional sign, then the magnitude; a `-` negates it. */
  function ParseSigned(t: string): Option<int>
  {
    if |t| > 0 && (t[0] == '-' || t[0] == '+') then
      match ParseMagnitude(t[1..])
      case None => None
      case Some(m) => var v: int := m; Some(if t[0] == '-' then -v else v)
    else
      match ParseMagnitude(t)
      case None => None
      case Some(m) => Some(m)
  }

  /** A `0x`/`0X` prefix switches to radix 16; then the longest run of digits
      is read, and NaN (`None`) results when there is none. */
  function ParseMagnitude(u: string): Option<nat>
  {
    var hex := |u| >= 2 && u[0] == '0' && (u[1] == 'x' || u[1] == 'X');
    var radix := if hex then 16 else 10;
    var ds := DigitPrefix(if hex then u[2..] else u, radix);
    if ds == [] then None else Some(DigitsValue(ds, radix))
  }

  /** The decimal numeral of `n`, as `String(n)` writes a non-negative integer. */
  function DecimalText(n: nat): (r: string)
    ensures |r| >= 1
    ensures forall i :: 0 <= i < |r| ==> '0' <= r[i] <= '9'
  {
    if n < 10 then [(n + '0' as nat) as char]
    else DecimalText(n / 10) + [(n % 10 + '0' as nat) as char]
  }

  lemma {:induction false} DecimalTextValue(n: nat)
    ensures forall i :: 0 <= i < |DecimalText(n)| ==> IsDigit(DecimalText(n)[i], 10)
    ensures DigitsValue(DecimalText(n), 10) == n
  {
    var r := DecimalText(n);
    if n >= 10 {
      DecimalTextValue(n / 10);
      assert r[..|r| - 1] == DecimalText(n / 10);
    }
  }

  /** `parseInt` reads back the numeral of any non-negative integer, whatever
      whitespace precedes it and whatever non-digit follows it (except that
      `0` followed by `x` or `X` is the radix-16 prefix). */
  lemma ParseIntDecimal(ws: string, n: nat, rest: string)
    requires forall i :: 0 <= i < |ws| ==> IsJsSpace(ws[i])
    requires rest == [] || !IsDigit(rest[0], 10)
    requires n == 0 && rest != [] ==> rest[0] != 'x' && rest[0] != 'X'
    ensures ParseInt(ws + DecimalText(n) + rest) == Some(n)
  {
    var t := DecimalText(n) + rest;
    var s := ws + t;
    assert s == ws + DecimalText(n) + rest;
    TrimStartSkips(ws, t);
    ParseIntNumeral(n, rest);
    assert ParseInt(s) == ParseSigned(t);
  }


  /** The unsigned, unprefixed case of `ParseIntDecimal`. */
  lemma ParseIntNumeral(n: nat, rest: string)
    requires rest == [] || !IsDigit(rest[0], 10)
    requires n == 0 && rest != [] ==> rest[0] != 'x' && rest[0] != 'X'
    ensures ParseSigned(DecimalText(n) + rest) == Some(n)
  {
    var d := DecimalText(n);
    DecimalTextValue(n);
    var t := d + rest;
    assert t[0] == d[0];
    assert !(t[0] == '-' || t[0] == '+');
    var hex := |t| >= 2 && t[0] == '0' && (t[1] == 'x' || t[1] == 'X');
    assert !hex by {
      if |d| >= 2 {
        assert t[1] == d[1];
      } else if |t| >= 2 {
        assert t[1] == rest[0];
        assert d == [(n + '0' as nat) as char];
      }
    }
    DigitPrefixStops(d, rest, 10);
  }

  /** Leading whitespace is what `TrimStart` removes. */
  lemma {:induction false} TrimStartSkips(ws: string, t: string)
    requires forall i :: 0 <= i < |ws| ==> IsJsSpace(ws[i])
    requires t == [] || !IsJsSpace(t[0])
    ensures TrimStart(ws + t) == t
  {
    if |ws| > 0 {
      assert (ws + t)[1..] == ws[1..] + t;
      TrimStartSkips(ws[1..], t);
    }
  }

  /** The digit prefix of `d + rest` is `d` when `rest` does not start with a digit. */
  lemma {:induction false} DigitPrefixStops(d: string, rest: string, radix: nat)
    requires forall i :: 0 <= i < |d| ==> IsDigit(d[i], radix)
    requires rest == [] || !IsDigit(rest[0], radix)
    ensures DigitPrefix(d + rest, radix) == d
  {
    if |d| > 0 {
      assert (d + rest)[1..] == d[1..] + rest;
      DigitPrefixStops(d[1..], rest, radix);
      assert [d[0]] + d[1..] == d;
    }
  }

  // ---------------------------------------------------------------- toLowerCase, includes

  /** `toLowerCase` on one character: ASCII capitals become small letters. */
  function LowerChar(c: char): char
  {
    if 'A' <= c <= 'Z' then (c as int + 32) as char else c
  }

  /** `String.prototype.toLowerCase`, letter by letter. */
  function ToLowerCase(s: string): (r: string)
    ensures |r| == |s|
    ensures forall i :: 0 <= i < |s| ==> r[i] == LowerChar(s[i])
  {
    if |s| == 0 then "" else [LowerChar(s[0])] + ToLowerCase(s[1..])
  }

  /** `token` occurs in `s` starting at position `i`. */
  predicate OccursAt(s: string, token: string, i: int)
  {
    0 <= i && i + |token| <= |s| && s[i..i + |token|] == token
  }

  /** `s.includes(token)`: scan each start position in turn. */
  function Includes(s: string, token: string): (b: bool)
    ensures b <==> exists i :: OccursAt(s, token, i)
  {
    if |token| <= |s| && s[..|token|] == token then
      assert OccursAt(s, token, 0);
      true
    else if |s| == 0 then
      assert forall i :: !OccursAt(s, token, i);
      false
    else
      var b := Includes(s[1..], token);
      OccursShift(s, token);
      b
  }

  /** An occurrence at a later position of `s` is an occurrence in `s[1..]`, one position earlier. */
  lemma OccursShift(s: string, token: string)
    requires |s| > 0 && !OccursAt(s, token, 0)
    ensures (exists i :: OccursAt(s, token, i)) <==> (exists i :: OccursAt(s[1..], token, i))
  {
    forall i | OccursAt(s, token, i) ensures OccursAt(s[1..], token, i - 1) {
      assert s[1..][i - 1..i - 1 + |token|] == s[i..i + |token|];
    }
    forall i | OccursAt(s[1..], token, i) ensures OccursAt(s, token, i + 1) {
      assert s[1..][i..i + |token|] == s[i + 1..i + 1 + |token|];
    }
  }
}
