/** The string operations the app calls, written out over `seq<char>`:
    `toLowerCase`, `includes`, `trim`, `split`, `Number(...)`, `parseInt(..., 10)`,
    `n.toString()` and `.length` (UTF-16 code units). */
module Text {
  import opened Wrappers
  import Seqs

  /** `toLowerCase` on the ASCII letters; every other character is kept. */
  function ToLower(s: string): (r: string)
    ensures |r| == |s|
    ensures forall i :: 0 <= i < |s| ==> r[i] == LowerChar(s[i])
  {
    seq(|s|, i requires 0 <= i < |s| => LowerChar(s[i]))
  }

  function LowerChar(c: char): char
  {
    if 'A' <= c <= 'Z' then (c as int + 32) as char else c
  }

  /** `hay.includes(needle)`: `needle` occurs in `hay` at some position. */
  predicate Includes(hay: string, needle: string)
    decreases |hay|
  {
    if |needle| > |hay| then false
    else hay[..|needle|] == needle || (|hay| > 0 && Includes(hay[1..], needle))
  }

  lemma {:induction false} IncludesAt(hay: string, needle: string, i: nat)
    requires i + |needle| <= |hay| && hay[i..i + |needle|] == needle
    ensures Includes(hay, needle)
    decreases i
  {
    if i > 0 {
      assert hay[1..][i - 1..i - 1 + |needle|] == hay[i..i + |needle|];
      IncludesAt(hay[1..], needle, i - 1);
    }
  }

  /** The empty search term is contained in every string, so an empty search
      keeps everything. */
  lemma IncludesEmpty(hay: string)
    ensures Includes(hay, "")
  {
    assert hay[..0] == "";
  }

  /** The characters `String.prototype.trim` removes: the ECMAScript WhiteSpace
      (tab, vertical tab, form feed, space, no-break space, the byte order mark
      and the Unicode space separators) and LineTerminator characters. */
  predicate IsWhitespace(c: char)
  {
    var u := c as int;
    u == 0x09 || u == 0x0A || u == 0x0B || u == 0x0C || u == 0x0D || u == 0x20
    || u == 0xA0 || u == 0x1680 || (0x2000 <= u <= 0x200A)
    || u == 0x2028 || u == 0x2029 || u == 0x202F || u == 0x205F
    || u == 0x3000 || u == 0xFEFF
  }

  function TrimStart(s: string): (r: string)
    ensures |r| <= |s| && r == s[|s| - |r|..]
    ensures |r| > 0 ==> !IsWhitespace(r[0])
    ensures forall i :: 0 <= i < |s| - |r| ==> IsWhitespace(s[i])
  {
    if |s| > 0 && IsWhitespace(s[0]) then TrimStart(s[1..]) else s
  }

  function TrimEnd(s: string): (r: string)
    ensures |r| <= |s| && r == s[..|r|]
    ensures |r| > 0 ==> !IsWhitespace(r[|r| - 1])
    ensures forall i :: |r| <= i < |s| ==> IsWhitespace(s[i])
  {
    if |s| > 0 && IsWhitespace(s[|s| - 1]) then TrimEnd(s[..|s| - 1]) else s
  }

  /** `s.trim()`. */
  function Trim(s: string): (r: string)
  {
    TrimEnd(TrimStart(s))
  }

  /** `s.trim()` is exactly the piece of `s` left after removing whitespace at
      both ends: a contiguous slice that neither starts nor ends with
      whitespace, and every removed character is whitespace. */
  lemma TrimIsSlice(s: string)
    ensures exists a, b :: (0 <= a <= b <= |s| && Trim(s) == s[a..b]
      && (forall i :: 0 <= i < a ==> IsWhitespace(s[i]))
      && (forall i :: b <= i < |s| ==> IsWhitespace(s[i])))
    ensures |Trim(s)| > 0 ==> !IsWhitespace(Trim(s)[0]) && !IsWhitespace(Trim(s)[|Trim(s)| - 1])
  {
    var a, b := TrimBounds(s);
    TrimEnds(s);
  }

  /** Where `trim` cuts. */
  lemma TrimBounds(s: string) returns (a: nat, b: nat)
    ensures a <= b <= |s| && Trim(s) == s[a..b]
    ensures forall i :: 0 <= i < a ==> IsWhitespace(s[i])
    ensures forall i :: b <= i < |s| ==> IsWhitespace(s[i])
  {
    var t := TrimStart(s);
    a := |s| - |t|;
    b := a + |TrimEnd(t)|;
    SliceOfSuffix(s, a, |TrimEnd(t)|);
    forall i | b <= i < |s|
      ensures IsWhitespace(s[i])
    {
      assert s[i] == t[i - a];
    }
  }

  lemma TrimEnds(s: string)
    ensures |Trim(s)| > 0 ==> !IsWhitespace(Trim(s)[0]) && !IsWhitespace(Trim(s)[|Trim(s)| - 1])
  {
    var t := TrimStart(s);
    if |Trim(s)| > 0 {
      assert Trim(s)[0] == t[0];
    }
  }

  /** A prefix of a suffix is a slice. */
  lemma SliceOfSuffix(s: string, a: nat, n: nat)
    requires a + n <= |s|
    ensures s[a..][..n] == s[a..a + n]
  {
  }

  /** A string is blank when trimming leaves nothing: every character is
      whitespace. */
  lemma TrimEmptyIffBlank(s: string)
    ensures Trim(s) == "" <==> forall i :: 0 <= i < |s| ==> IsWhitespace(s[i])
  {
    if !forall i :: 0 <= i < |s| ==> IsWhitespace(s[i]) {
      TrimIsSlice(s);
    }
  }

  /** `s.split(sep)` for a one-character separator. */
  function Split(s: string, sep: char): (parts: seq<string>)
    ensures |parts| >= 1
    ensures forall i :: 0 <= i < |parts| ==> sep !in parts[i]
    decreases |s|
  {
    if sep in s then
      var i := FirstIndexOf(s, sep);
      [s[..i]] + Split(s[i + 1..], sep)
    else [s]
  }

  function FirstIndexOf(s: string, c: char): (i: nat)
    requires c in s
    ensures i < |s| && s[i] == c && c !in s[..i]
  {
    if s[0] == c then 0 else 1 + FirstIndexOf(s[1..], c)
  }

  /** `parts.join(sep)`. */
  function Join(parts: seq<string>, sep: string): string
  {
    if |parts| == 0 then ""
    else if |parts| == 1 then parts[0]
    else parts[0] + sep + Join(parts[1..], sep)
  }

  /** Splitting loses nothing: joining the pieces back gives the input. */
  lemma {:induction false} SplitJoin(s: string, sep: char)
    ensures Join(Split(s, sep), [sep]) == s
    decreases |s|
  {
    if sep in s {
      var i := FirstIndexOf(s, sep);
      SplitJoin(s[i + 1..], sep);
      var rest := Split(s[i + 1..], sep);
      assert Split(s, sep) == [s[..i]] + rest;
      assert (Split(s, sep))[1..] == rest;
      assert s == s[..i] + [sep] + s[i + 1..];
    }
  }

  /** The first `c` is where `c` occurs with none before it. */
  lemma FirstIndexOfAt(s: string, c: char, h: nat)
    requires h < |s| && s[h] == c && c !in s[..h]
    ensures c in s && FirstIndexOf(s, c) == h
  {
    assert s[h] in s;
  }

  /** `parts.map(m => m.trim())`. */
  function TrimEach(parts: seq<string>): (r: seq<string>)
    ensures |r| == |parts| && forall i :: 0 <= i < |r| ==> r[i] == Trim(parts[i])
  {
    seq(|parts|, i requires 0 <= i < |parts| => Trim(parts[i]))
  }

  /** No whitespace at either end. */
  predicate Trimmed(g: string)
  {
    |g| == 0 || (!IsWhitespace(g[0]) && !IsWhitespace(g[|g| - 1]))
  }

  /** Trimming gives such a string back, also from behind one space. */
  lemma TrimOfTrimmed(p: string, g: string)
    requires Trimmed(g) && (p == g || p == " " + g)
    ensures Trim(p) == g
  {
    assert TrimStart(g) == g;
    if p != g {
      assert p[0] == ' ' && p[1..] == g;
    }
    assert TrimEnd(g) == g;
  }

  lemma TrimEachCons(p: string, rest: seq<string>)
    ensures TrimEach([p] + rest) == [Trim(p)] + TrimEach(rest)
  {
    assert forall i :: 1 <= i < |rest| + 1 ==> ([p] + rest)[i] == rest[i - 1];
  }

  /** Regrouping `p + (g + sep + j)` around the first character of `sep`. */
  lemma RegroupAtSeparator(p: string, g: string, sep: string, j: string)
    requires |sep| >= 1
    ensures p + (g + sep + j) == (p + g) + [sep[0]] + (sep[1..] + j)
  {
    Seqs.HeadTail(sep);
  }

  /** The first group, a comma, and the rest behind one space. */
  lemma JoinCommaSpace(p: string, groups: seq<string>)
    requires |groups| >= 2
    ensures p + Join(groups, ", ") == (p + groups[0]) + [','] + (" " + Join(groups[1..], ", "))
  {
    var sep := ", ";
    assert sep[0] == ',' && sep[1..] == " ";
    RegroupAtSeparator(p, groups[0], sep, Join(groups[1..], sep));
  }

  /** Splitting where the first separator follows a piece without one. */
  lemma SplitAtFirst(h: string, c: char, tail: string)
    requires c !in h
    ensures Split(h + [c] + tail, c) == [h] + Split(tail, c)
  {
    var s := h + [c] + tail;
    assert s[..|h|] == h;
    FirstIndexOfAt(s, c, |h|);
    assert s[|h| + 1..] == tail;
  }

  /** One group more in front: its piece trims to it, and the pieces after
      the first comma are those of the remaining groups. */
  lemma TrimmedSplitCons(p: string, groups: seq<string>)
    requires |groups| >= 2 && ',' !in p + groups[0] && Trim(p + groups[0]) == groups[0]
    requires TrimEach(Split(" " + Join(groups[1..], ", "), ',')) == groups[1..]
    ensures TrimEach(Split(p + Join(groups, ", "), ',')) == groups
  {
    var h := p + groups[0];
    var tail := " " + Join(groups[1..], ", ");
    JoinCommaSpace(p, groups);
    SplitAtFirst(h, ',', tail);
    TrimEachCons(h, Split(tail, ','));
    Seqs.HeadTail(groups);
  }

  /** The first piece: no comma, and it trims to its group. */
  lemma FirstPiece(p: string, g: string)
    requires (p == "" || p == " ") && ',' !in g && Trimmed(g)
    ensures ',' !in p + g && Trim(p + g) == g
  {
    TrimOfTrimmed(p + g, g);
  }

  /** A single group: one piece. */
  lemma TrimmedSplitOfOne(p: string, groups: seq<string>)
    requires |groups| == 1 && ',' !in p + groups[0] && Trim(p + groups[0]) == groups[0]
    ensures TrimEach(Split(p + Join(groups, ", "), ',')) == groups
  {
    assert p + Join(groups, ", ") == p + groups[0];
    assert Split(p + groups[0], ',') == [p + groups[0]];
  }

  /** Splitting `groups.join(', ')` at the commas and trimming the pieces
      gives the groups back when none contains a comma or has whitespace at
      either end; `p` is what stands before the first group. */
  lemma {:induction false} TrimmedSplitOfJoin(p: string, groups: seq<string>)
    requires |groups| >= 1 && (p == "" || p == " ")
    requires forall i :: 0 <= i < |groups| ==> ',' !in groups[i] && Trimmed(groups[i])
    ensures TrimEach(Split(p + Join(groups, ", "), ',')) == groups
    decreases |groups|
  {
    FirstPiece(p, groups[0]);
    if |groups| == 1 {
      TrimmedSplitOfOne(p, groups);
    } else {
      TrimmedSplitOfJoin(" ", groups[1..]);
      TrimmedSplitCons(p, groups);
    }
  }


  predicate IsDigit(c: char)
  {
    '0' <= c <= '9'
  }

  predicate AllDigits(s: string)
  {
    forall i :: 0 <= i < |s| ==> IsDigit(s[i])
  }

  /** The number written by a run of decimal digits. */
  function DigitsValue(s: string): (n: nat)
    requires AllDigits(s)
  {
    if |s| == 0 then 0
    else DigitsValue(s[..|s| - 1]) * 10 + (s[|s| - 1] as int - '0' as int)
  }

  /** `n.toString()` for an integer. */
  function DecimalString(n: int): (s: string)
    decreases if n < 0 then 1 - n else n
  {
    if n < 0 then "-" + DecimalString(-n)
    else if n < 10 then [('0' as int + n) as char]
    else DecimalString(n / 10) + [('0' as int + n % 10) as char]
  }

  lemma {:induction false} DecimalStringOfNat(n: nat)
    ensures |DecimalString(n)| > 0 && AllDigits(DecimalString(n))
    ensures DigitsValue(DecimalString(n)) == n
  {
    if n >= 10 {
      DecimalStringOfNat(n / 10);
      var s := DecimalString(n);
      assert s[..|s| - 1] == DecimalString(n / 10);
    }
  }

  /** `10` to the power `n`. */
  function Pow10(n: nat): (p: nat)
    ensures p >= 1
  {
    if n == 0 then 1 else 10 * Pow10(n - 1)
  }

  /** The value of the decimal literal with integer digits `whole` and
      fraction digits `frac`. */
  function DecimalValue(whole: string, frac: string): real
    requires AllDigits(whole) && AllDigits(frac)
  {
    DigitsValue(whole) as real + DigitsValue(frac) as real / Pow10(|frac|) as real
  }

  /** An unsigned decimal literal: `digits`, `digits.`, `digits.digits` or
      `.digits`, with at least one digit; `None` for anything else. */
  function UnsignedNumberValue(u: string): (r: Option<real>)
    ensures r.Some? ==> forall i :: 0 <= i < |u| ==> IsDigit(u[i]) || u[i] == '.'
    ensures r.Some? ==> |u| > 0 && r.value >= 0.0
  {
    var i := if '.' in u then FirstIndexOf(u, '.') else |u|;
    var whole := u[..i];
    var frac := if i < |u| then u[i + 1..] else "";
    if AllDigits(whole) && AllDigits(frac) && |whole| + |frac| > 0 then
      assert forall k :: 0 <= k < |u| ==> u[k] == (if k < i then whole[k] else if k == i then '.' else frac[k - i - 1]);
      Some(DecimalValue(whole, frac))
    else None
  }

  /** Digits and decimal points, with at most a sign in front. */
  predicate NumericShape(t: string)
  {
    forall i :: 0 <= i < |t| ==> IsDigit(t[i]) || t[i] == '.' || (i == 0 && (t[i] == '-' || t[i] == '+'))
  }

  /** A signed literal: the sign is followed by an unsigned one. */
  function SignedNumberValue(t: string): (r: Option<real>)
    requires |t| > 0 && (t[0] == '-' || t[0] == '+')
    ensures r.Some? ==> NumericShape(t)
  {
    match UnsignedNumberValue(t[1..])
    case None => None
    case Some(v) =>
      assert forall i :: 1 <= i < |t| ==> t[i] == t[1..][i - 1];
      Some(if t[0] == '-' then -v else v)
  }

  /** `Number(s)` on a string: surrounding whitespace is ignored, an empty
      string is 0, an optionally signed decimal literal with or without a
      fraction is its value, and anything else is `NaN` (`None`). */
  function NumberValue(s: string): (r: Option<real>)
    ensures |Trim(s)| == 0 ==> r == Some(0.0)
    ensures r.Some? ==> NumericShape(Trim(s))
  {
    var t := Trim(s);
    if |t| == 0 then Some(0.0)
    else if t[0] == '-' || t[0] == '+' then SignedNumberValue(t)
    else UnsignedNumberValue(t)
  }

  lemma NoWhitespaceTrim(s: string)
    requires forall i :: 0 <= i < |s| ==> !IsWhitespace(s[i])
    ensures Trim(s) == s
  {
  }

  /** A run of digits is a literal without a fraction. */
  lemma UnsignedNumberValueOfDigits(d: string)
    requires |d| > 0 && AllDigits(d)
    ensures UnsignedNumberValue(d) == Some(DigitsValue(d) as real)
  {
    assert d[..|d|] == d;
  }

  /** `Number` reads back what `toString` writes. */
  lemma NumberValueOfDecimalString(n: int)
    ensures NumberValue(DecimalString(n)) == Some(n as real)
  {
    var m := if n < 0 then -n else n;
    var d := DecimalString(m);
    DecimalStringOfNat(m);
    UnsignedNumberValueOfDigits(d);
    var s := DecimalString(n);
    NoWhitespaceTrim(s);
    if n < 0 {
      assert s == "-" + d;
      assert s[1..] == d;
      assert SignedNumberValue(s) == Some(n as real);
    } else {
      assert s == d && IsDigit(s[0]);
    }
  }

  /** `Number` of `whole.frac` is the decimal value of the two digit runs,
      so `'2.5'` is 2.5. */
  lemma NumberValueOfFraction(whole: string, frac: string)
    requires AllDigits(whole) && AllDigits(frac) && |whole| + |frac| > 0
    ensures NumberValue(whole + "." + frac) == Some(DecimalValue(whole, frac))
  {
    var s := whole + "." + frac;
    NoWhitespaceTrim(s);
    FirstIndexOfAt(s, '.', |whole|);
    assert s[..|whole|] == whole && s[|whole| + 1..] == frac;
  }

  /** The longest prefix of `s` made of decimal digits. */
  function DigitPrefix(s: string): (d: string)
    ensures |d| <= |s| && d == s[..|d|] && AllDigits(d)
    ensures |d| < |s| ==> !IsDigit(s[|d|])
  {
    if |s| > 0 && IsDigit(s[0]) then [s[0]] + DigitPrefix(s[1..]) else ""
  }

  /** `parseInt(s, 10)`: leading whitespace is skipped, then an optional sign,
      then the longest run of decimal digits; no digits at all is `NaN`
      (`None`). */
  function ParseInt(s: string): (r: Option<int>)
  {
    ParseSigned(TrimStart(s))
  }

  function ParseSigned(t: string): (r: Option<int>)
  {
    if |t| > 0 && (t[0] == '-' || t[0] == '+') then
      match ParseUnsigned(t[1..])
      case None => None
      case Some(v) => Some(if t[0] == '-' then -v else v)
    else ParseUnsigned(t)
  }

  function ParseUnsigned(t: string): (r: Option<int>)
  {
    var d := DigitPrefix(t);
    if |d| == 0 then None else Some(DigitsValue(d))
  }

  lemma DigitPrefixOfDigits(s: string)
    requires AllDigits(s)
    ensures DigitPrefix(s) == s
  {
    if |s| > 0 {
      DigitPrefixOfDigits(s[1..]);
    }
  }

  lemma ParseUnsignedOfDigits(d: string)
    requires |d| > 0 && AllDigits(d)
    ensures ParseUnsigned(d) == Some(DigitsValue(d))
  {
    DigitPrefixOfDigits(d);
  }

  /** Without leading whitespace, `parseInt` starts at the sign or digits. */
  lemma ParseIntNoLeadingSpace(s: string)
    requires |s| > 0 && !IsWhitespace(s[0])
    ensures ParseInt(s) == ParseSigned(s)
  {
  }

  lemma ParseIntOfDigits(d: string)
    requires |d| > 0 && AllDigits(d)
    ensures ParseInt(d) == Some(DigitsValue(d))
  {
    ParseIntNoLeadingSpace(d);
    ParseUnsignedOfDigits(d);
  }

  lemma ParseSignedNegative(s: string, d: string)
    requires |d| > 0 && AllDigits(d) && s == "-" + d
    ensures ParseSigned(s) == Some(-(DigitsValue(d) as int))
  {
    assert s[1..] == d;
    ParseUnsignedOfDigits(d);
  }

  lemma ParseIntOfNegativeDigits(d: string)
    requires |d| > 0 && AllDigits(d)
    ensures ParseInt("-" + d) == Some(-(DigitsValue(d) as int))
  {
    ParseIntNoLeadingSpace("-" + d);
    ParseSignedNegative("-" + d, d);
  }

  /** `parseInt` also reads back what `toString` writes. */
  lemma ParseIntOfDecimalString(n: int)
    ensures ParseInt(DecimalString(n)) == Some(n)
  {
    if n < 0 {
      ParseIntOfNegative(n);
    } else {
      DecimalStringOfNat(n);
      ParseIntOfDigits(DecimalString(n));
    }
  }

  lemma ParseIntOfNegative(n: int)
    requires n < 0
    ensures ParseInt(DecimalString(n)) == Some(n)
  {
    DecimalStringOfNat(-n);
    NegativeDecimalString(n);
    ParseIntOfMinus(DecimalString(n), DecimalString(-n), -n);
  }

  lemma ParseIntOfMinus(s: string, d: string, m: int)
    requires |d| > 0 && AllDigits(d) && DigitsValue(d) == m && s == "-" + d
    ensures ParseInt(s) == Some(-m)
  {
    ParseIntOfNegativeDigits(d);
  }

  lemma NegativeDecimalString(n: int)
    requires n < 0
    ensures DecimalString(n) == "-" + DecimalString(-n)
  {
  }

  /** `s.length` in JavaScript: the number of UTF-16 code units, so a
      character outside the Basic Multilingual Plane counts twice. */
  function Utf16Length(s: string): (n: nat)
    ensures |s| <= n <= 2 * |s|
    ensures (forall i :: 0 <= i < |s| ==> s[i] as int <= 0xFFFF) ==> n == |s|
  {
    if |s| == 0 then 0
    else (if s[0] as int >= 0x1_0000 then 2 else 1) + Utf16Length(s[1..])
  }
}
