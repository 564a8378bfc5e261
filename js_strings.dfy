/** The JavaScript string and number-formatting operations the source relies on:
    `toLowerCase`, `includes`, `split`, `join`, `trim`, `indexOf`, `replace` with a
    string pattern, `parseInt` and the decimal rendering of integers in template
    literals. Strings are sequences of UTF-16-free characters; lower-casing is ASCII only. */
module JsStrings {
  import opened Wrappers

  // ---------------------------------------------------------------------------
  // Lower-casing and substring search
  // ---------------------------------------------------------------------------

  predicate IsUpper(c: char) { 'A' <= c <= 'Z' }

  function LowerChar(c: char): char {
    if IsUpper(c) then (c as int + 32) as char else c
  }

  /** `s.toLowerCase()`, restricted to the ASCII letters. */
  function Lower(s: string): string {
    seq(|s|, i requires 0 <= i < |s| => LowerChar(s[i]))
  }

  /** Lower-casing twice is lower-casing once, so comparing lower-cased strings is stable. */
  lemma LowerIdempotent(s: string)
    ensures Lower(Lower(s)) == Lower(s)
    ensures forall i :: 0 <= i < |s| ==> !IsUpper(Lower(s)[i])
  {
    forall i | 0 <= i < |s|
      ensures Lower(Lower(s))[i] == Lower(s)[i] && !IsUpper(Lower(s)[i])
    {
      assert Lower(s)[i] == LowerChar(s[i]);
    }
  }

  predicate StartsWith(s: string, prefix: string) {
    |prefix| <= |s| && s[..|prefix|] == prefix
  }

  /** `s.includes(t)`. */
  predicate Includes(s: string, t: string)
    decreases |s|
  {
    StartsWith(s, t) || (|s| > 0 && Includes(s[1..], t))
  }

  /** `includes` holds exactly when `t` occurs at some position of `s`. */
  lemma {:induction false} IncludesIffOccurs(s: string, t: string)
    ensures Includes(s, t) <==> exists i :: 0 <= i <= |s| && StartsWith(s[i..], t)
    decreases |s|
  {
    assert s[0..] == s;
    if |s| > 0 {
      IncludesIffOccurs(s[1..], t);
      if Includes(s[1..], t) {
        var i :| 0 <= i <= |s[1..]| && StartsWith(s[1..][i..], t);
        assert s[1..][i..] == s[i + 1..];
        assert StartsWith(s[i + 1..], t);
      }
      if i :| 0 <= i <= |s| && StartsWith(s[i..], t) {
        if i > 0 {
          assert s[1..][i - 1..] == s[i..];
          assert StartsWith(s[1..][i - 1..], t);
        }
      }
    }
  }

  // ---------------------------------------------------------------------------
  // split and join
  // ---------------------------------------------------------------------------

  /** `s.split(c)` for a one-character separator: the pieces between occurrences of `c`. */
  function Split(s: string, c: char): (r: seq<string>)
    ensures |r| >= 1
    decreases |s|
  {
    if |s| == 0 then [""]
    else
      var rest := Split(s[1..], c);
      if s[0] == c then [""] + rest else [[s[0]] + rest[0]] + rest[1..]
  }

  /** No piece of a split contains the separator. */
  lemma {:induction false} SplitPiecesFree(s: string, c: char)
    ensures forall k :: 0 <= k < |Split(s, c)| ==> c !in Split(s, c)[k]
    decreases |s|
  {
    if |s| > 0 {
      SplitPiecesFree(s[1..], c);
      var rest := Split(s[1..], c);
      if s[0] != c {
        assert c !in [s[0]] + rest[0];
      }
    }
  }

  /** `xs.join(sep)`. */
  function Join(xs: seq<string>, sep: string): string
    decreases |xs|
  {
    if |xs| == 0 then "" else if |xs| == 1 then xs[0] else xs[0] + sep + Join(xs[1..], sep)
  }

  /** Joining the pieces of a split with the separator gives back the string. */
  lemma {:induction false} JoinSplit(s: string, c: char)
    ensures Join(Split(s, c), [c]) == s
    decreases |s|
  {
    if |s| > 0 {
      var rest := Split(s[1..], c);
      JoinSplit(s[1..], c);
      if s[0] == c {
        assert Split(s, c) == [""] + rest;
        assert ([""] + rest)[1..] == rest;
      } else if |rest| == 1 {
        assert Split(s, c) == [[s[0]] + rest[0]];
        assert s == [s[0]] + s[1..];
      } else {
        var pieces := [[s[0]] + rest[0]] + rest[1..];
        assert Split(s, c) == pieces;
        assert pieces[1..] == rest[1..];
        assert s == [s[0]] + s[1..];
      }
    }
  }

  /** A string without the separator splits into itself. */
  lemma {:induction false} SplitWithoutSeparator(s: string, c: char)
    requires c !in s
    ensures Split(s, c) == [s]
    decreases |s|
  {
    if |s| > 0 {
      assert c !in s[1..];
      SplitWithoutSeparator(s[1..], c);
      assert s == [s[0]] + s[1..];
    }
  }

  /** The pieces of `[x] + t` from the pieces `r` of `t`: `x` either is the separator and starts
      a new first piece, or joins the first piece. */
  function ConsPiece(x: char, r: seq<string>, c: char): seq<string>
    requires |r| >= 1
  {
    if x == c then [""] + r else [[x] + r[0]] + r[1..]
  }

  /** One step of `Split`. */
  lemma SplitCons(x: char, t: string, c: char)
    ensures Split([x] + t, c) == ConsPiece(x, Split(t, c), c)
  {
    assert ([x] + t)[1..] == t;
  }

  /** Adding a character in front only touches the first pieces. */
  lemma ConsPieceAppend(x: char, r: seq<string>, tail: seq<string>, c: char)
    requires |r| >= 1
    ensures ConsPiece(x, r + tail, c) == ConsPiece(x, r, c) + tail
  {
    if x != c {
      assert (r + tail)[0] == r[0];
      assert (r + tail)[1..] == r[1..] + tail;
    }
  }

  /** An occurrence of the separator at position `i` cuts the split in two. */
  lemma {:induction false} SplitAt(s: string, i: nat, c: char)
    requires i < |s| && s[i] == c
    ensures Split(s, c) == Split(s[..i], c) + Split(s[i + 1..], c)
    decreases i
  {
    if i > 0 {
      SplitAt(s[1..], i - 1, c);
      assert s[1..][..i - 1] == s[..i][1..];
      assert s[1..][i..] == s[i + 1..];
      SplitConsAppend(s[0], s[1..], s[..i][1..], Split(s[i + 1..], c), c);
      assert s == [s[0]] + s[1..];
      assert s[..i] == [s[0]] + s[..i][1..];
    }
  }

  /** If the pieces of `t` are those of `p` followed by `tail`, putting one more character in
      front of both keeps that so. */
  lemma SplitConsAppend(x: char, t: string, p: string, tail: seq<string>, c: char)
    requires Split(t, c) == Split(p, c) + tail
    ensures Split([x] + t, c) == Split([x] + p, c) + tail
  {
    SplitCons(x, t, c);
    SplitCons(x, p, c);
    ConsPieceAppend(x, Split(p, c), tail, c);
  }

  /** An occurrence of the separator cuts the split in two. */
  lemma SplitAtSeparator(a: string, b: string, c: char)
    ensures Split(a + [c] + b, c) == Split(a, c) + Split(b, c)
  {
    var s := a + [c] + b;
    SplitAt(s, |a|, c);
    assert s[..|a|] == a;
    assert s[|a| + 1..] == b;
  }

  /** A separator-free prefix sticks to the first piece. */
  lemma {:induction false} SplitAfterPrefix(t: string, u: string, c: char)
    requires c !in t
    ensures Split(t + u, c) == [t + Split(u, c)[0]] + Split(u, c)[1..]
    decreases |t|
  {
    if |t| > 0 {
      assert c !in t[1..];
      SplitAfterPrefix(t[1..], u, c);
      assert (t + u)[1..] == t[1..] + u;
      assert [t[0]] + (t[1..] + Split(u, c)[0]) == t + Split(u, c)[0];
    } else {
      assert t + u == u;
      assert t + Split(u, c)[0] == Split(u, c)[0];
      assert Split(u, c) == [Split(u, c)[0]] + Split(u, c)[1..];
    }
  }

  /** `t + x` for every `x` of `xs`, in order. */
  function PrefixEach(t: string, xs: seq<string>): (r: seq<string>)
    ensures |r| == |xs|
    decreases |xs|
  {
    if |xs| == 0 then [] else [t + xs[0]] + PrefixEach(t, xs[1..])
  }

  /** Splitting a join whose separator is `c` followed by `t` recovers the parts, each part after
      the first still carrying the `t`. With `t` empty this is the plain round trip. */
  lemma {:induction false} SplitJoin(xs: seq<string>, c: char, t: string)
    requires |xs| >= 1
    requires c !in t
    requires forall k :: 0 <= k < |xs| ==> c !in xs[k]
    ensures Split(Join(xs, [c] + t), c) == [xs[0]] + PrefixEach(t, xs[1..])
    decreases |xs|
  {
    if |xs| == 1 {
      SplitWithoutSeparator(xs[0], c);
    } else {
      var tail := Join(xs[1..], [c] + t);
      assert Join(xs, [c] + t) == xs[0] + [c] + (t + tail);
      SplitAtSeparator(xs[0], t + tail, c);
      SplitWithoutSeparator(xs[0], c);
      SplitJoin(xs[1..], c, t);
      SplitAfterPrefix(t, tail, c);
      assert xs[1..][1..] == xs[2..];
      assert PrefixEach(t, xs[1..]) == [t + xs[1]] + PrefixEach(t, xs[2..]);
    }
  }

  /** Prefixing with the empty string changes nothing. */
  lemma {:induction false} PrefixEachEmpty(xs: seq<string>)
    ensures PrefixEach("", xs) == xs
    decreases |xs|
  {
    if |xs| > 0 {
      PrefixEachEmpty(xs[1..]);
      assert "" + xs[0] == xs[0];
      assert xs == [xs[0]] + xs[1..];
    }
  }

  /** Splitting a join at its one-character separator gives the pieces back, when no piece
      contains the separator. */
  lemma SplitOfJoin(xs: seq<string>, c: char)
    requires |xs| >= 1
    requires forall k :: 0 <= k < |xs| ==> c !in xs[k]
    ensures Split(Join(xs, [c]), c) == xs
  {
    assert [c] + "" == [c];
    SplitJoin(xs, c, "");
    PrefixEachEmpty(xs[1..]);
    assert [xs[0]] + xs[1..] == xs;
  }

  /** The last piece of `s.split(c)`, which is what `s.split(c).pop()` returns. */
  function LastPiece(s: string, c: char): (r: string)
    ensures c !in r
  {
    var pieces := Split(s, c);
    SplitPiecesFree(s, c);
    pieces[|pieces| - 1]
  }

  // ---------------------------------------------------------------------------
  // trim
  // ---------------------------------------------------------------------------

  /** The WhiteSpace and LineTerminator characters that `trim` and `parseInt` skip. */
  predicate IsJsSpace(c: char) {
    c == ' ' || c == '\t' || c == '\n' || c == '\r' || c == '\U{B}' || c == '\U{C}'
    || c == '\U{A0}' || c == '\U{1680}' || ('\U{2000}' <= c <= '\U{200A}')
    || c == '\U{2028}' || c == '\U{2029}' || c == '\U{202F}' || c == '\U{205F}'
    || c == '\U{3000}' || c == '\U{FEFF}'
  }

  /** `s.trimStart()`: the suffix left after dropping the leading white space. */
  function TrimStart(s: string): (r: string)
    ensures |r| <= |s| && r == s[|s| - |r|..]
    ensures forall k :: 0 <= k < |s| - |r| ==> IsJsSpace(s[k])
    ensures r == "" || !IsJsSpace(r[0])
    decreases |s|
  {
    if |s| > 0 && IsJsSpace(s[0]) then TrimStart(s[1..]) else s
  }

  /** `s.trimEnd()`: the prefix left after dropping the trailing white space. */
  function TrimEnd(s: string): (r: string)
    ensures |r| <= |s| && r == s[..|r|]
    ensures forall k :: |r| <= k < |s| ==> IsJsSpace(s[k])
    ensures r == "" || !IsJsSpace(r[|r| - 1])
    decreases |s|
  {
    if |s| > 0 && IsJsSpace(s[|s| - 1]) then TrimEnd(s[..|s| - 1]) else s
  }

  /** `s.trim()`: the middle block of `s` between its leading and trailing white space. */
  function Trim(s: string): (r: string)
    ensures |r| <= |s|
    ensures r == "" || (!IsJsSpace(r[0]) && !IsJsSpace(r[|r| - 1]))
  {
    TrimEnd(TrimStart(s))
  }

  // ---------------------------------------------------------------------------
  // Integers as text: template-literal rendering and parseInt
  // ---------------------------------------------------------------------------

  predicate IsDigit(c: char) { '0' <= c <= '9' }

  function DigitChar(d: nat): (c: char)
    requires d < 10
    ensures IsDigit(c)
  {
    ('0' as int + d) as char
  }

  /** The decimal digits of `n`, most significant first, without leading zeros. */
  function NatToString(n: nat): (r: string)
    ensures |r| >= 1
    ensures forall k :: 0 <= k < |r| ==> IsDigit(r[k])
    decreases n
  {
    if n < 10 then [DigitChar(n)] else NatToString(n / 10) + [DigitChar(n % 10)]
  }

  /** How `${n}` renders an integer. */
  function IntToString(n: int): string {
    if n < 0 then "-" + NatToString(-n) else NatToString(n)
  }

  /** The value parseInt gives a character as a digit, 36 when it is no digit in any radix. */
  function DigitValue(c: char): nat {
    if '0' <= c <= '9' then c as nat - '0' as nat
    else if 'a' <= c <= 'z' then c as nat - 'a' as nat + 10
    else if 'A' <= c <= 'Z' then c as nat - 'A' as nat + 10
    else 36
  }

  /** The length of the run of radix-`radix` digits at the start of `s`. */
  function DigitRunLength(s: string, radix: nat): (k: nat)
    ensures k <= |s|
    ensures forall j :: 0 <= j < k ==> DigitValue(s[j]) < radix
    ensures k == |s| || DigitValue(s[k]) >= radix
    decreases |s|
  {
    if |s| > 0 && DigitValue(s[0]) < radix then 1 + DigitRunLength(s[1..], radix) else 0
  }

  /** The number a string of digits denotes in the given radix. */
  function DigitsValue(ds: string, radix: nat): nat
    decreases |ds|
  {
    if |ds| == 0 then 0 else DigitsValue(ds[..|ds| - 1], radix) * radix + DigitValue(ds[|ds| - 1])
  }

  /** `parseInt(s)` with no radix argument; `None` stands for NaN. Leading white space is
      skipped, then an optional sign is read. */
  function ParseInt(s: string): Option<int> {
    var t := TrimStart(s);
    if |t| > 0 && t[0] == '-' then
      match ParseUnsigned(t[1..])
      case Some(v) => Some(-(v as int))
      case None => None
    else if |t| > 0 && t[0] == '+' then AsInt(ParseUnsigned(t[1..]))
    else AsInt(ParseUnsigned(t))
  }

  function AsInt(v: Option<nat>): Option<int> {
    match v
    case Some(n) => Some(n)
    case None => None
  }

  /** The digits after the sign: a "0x"/"0X" prefix selects radix 16, otherwise radix 10; the
      longest run of digits is read and an empty run gives NaN. */
  function ParseUnsigned(body: string): Option<nat> {
    var hex := |body| >= 2 && body[0] == '0' && (body[1] == 'x' || body[1] == 'X');
    var radix := if hex then 16 else 10;
    var digits := if hex then body[2..] else body;
    var k := DigitRunLength(digits, radix);
    if k == 0 then None else Some(DigitsValue(digits[..k], radix))
  }

  lemma {:induction false} NatToStringValue(n: nat)
    ensures DigitsValue(NatToString(n), 10) == n
    decreases n
  {
    if n >= 10 {
      NatToStringValue(n / 10);
      var r := NatToString(n);
      assert r[..|r| - 1] == NatToString(n / 10);
    }
  }

  lemma {:induction false} NatToStringLeadingDigit(n: nat)
    ensures n >= 1 ==> NatToString(n)[0] != '0'
    ensures n < 10 <==> |NatToString(n)| == 1
    decreases n
  {
    if n >= 10 {
      NatToStringLeadingDigit(n / 10);
    }
  }

  lemma {:induction false} DigitRunOfDigits(p: string, rest: string)
    requires forall k :: 0 <= k < |p| ==> IsDigit(p[k])
    requires rest == "" || !IsDigit(rest[0])
    ensures DigitRunLength(p + rest, 10) == |p|
    decreases |p|
  {
    if |p| > 0 {
      assert (p + rest)[1..] == p[1..] + rest;
      DigitRunOfDigits(p[1..], rest);
    } else {
      assert p + rest == rest;
    }
  }

  lemma ParseUnsignedOfNatToString(body: string, m: nat, rest: string)
    requires rest == "" || DigitValue(rest[0]) == 36
    requires body == NatToString(m) + rest
    ensures ParseUnsigned(body) == Some(m)
  {
    var digits := NatToString(m);
    NatToStringLeadingDigit(m);
    assert body[0] == digits[0];
    assert |digits| == 1 && |body| >= 2 ==> body[1] == rest[0];
    assert !(|body| >= 2 && body[0] == '0' && (body[1] == 'x' || body[1] == 'X'));
    DigitRunOfDigits(digits, rest);
    assert body[..|digits|] == digits;
    NatToStringValue(m);
  }

  /** parseInt reads back the decimal rendering of any integer, whatever follows it as long as
      that does not start with a letter or digit (for instance the "-01-01" of a date). */
  lemma ParseIntOfIntToString(n: int, rest: string)
    requires rest == "" || DigitValue(rest[0]) == 36
    ensures ParseInt(IntToString(n) + rest) == Some(n)
  {
    var s := IntToString(n) + rest;
    if n < 0 {
      ParseIntOfNegative(s, -n, rest);
    } else {
      ParseIntOfNatural(s, n, rest);
    }
  }

  lemma ParseIntOfNegative(s: string, m: nat, rest: string)
    requires m > 0
    requires rest == "" || DigitValue(rest[0]) == 36
    requires s == "-" + NatToString(m) + rest
    ensures ParseInt(s) == Some(-(m as int))
  {
    var body := s[1..];
    assert body == NatToString(m) + rest by {
      assert s == "-" + (NatToString(m) + rest);
    }
    ParseUnsignedOfNatToString(body, m, rest);
    ParseIntAfterMinus(s, m);
  }

  lemma ParseIntOfNatural(s: string, m: nat, rest: string)
    requires rest == "" || DigitValue(rest[0]) == 36
    requires s == NatToString(m) + rest
    ensures ParseInt(s) == Some(m)
  {
    ParseIntAtDigit(s);
    ParseUnsignedOfNatToString(s, m, rest);
  }

  lemma ParseIntAtDigit(s: string)
    requires |s| > 0 && IsDigit(s[0])
    ensures ParseInt(s) == AsInt(ParseUnsigned(s))
  {
    assert TrimStart(s) == s by { assert !IsJsSpace(s[0]); }
  }

  lemma ParseIntAfterMinus(s: string, v: nat)
    requires |s| > 0 && s[0] == '-'
    requires ParseUnsigned(s[1..]) == Some(v)
    ensures ParseInt(s) == Some(-(v as int))
  {
    assert TrimStart(s) == s by { assert !IsJsSpace(s[0]); }
  }

  /** Distinct integers render as distinct strings. */
  lemma IntToStringInjective(m: int, n: int)
    requires IntToString(m) == IntToString(n)
    ensures m == n
  {
    ParseIntOfIntToString(m, "");
    ParseIntOfIntToString(n, "");
    assert IntToString(m) + "" == IntToString(m);
    assert IntToString(n) + "" == IntToString(n);
  }

  // ---------------------------------------------------------------------------
  // indexOf and replace
  // ---------------------------------------------------------------------------

  /** `s.indexOf(t)`: the first position where `t` occurs; `None` stands for -1. */
  function IndexOf(s: string, t: string): (r: Option<nat>)
    ensures r.Some? ==> r.value <= |s| && StartsWith(s[r.value..], t)
    ensures r.Some? ==> forall j :: 0 <= j < r.value ==> !StartsWith(s[j..], t)
    ensures r.None? ==> forall j :: 0 <= j <= |s| ==> !StartsWith(s[j..], t)
  {
    IndexFrom(s, t, 0)
  }

  /** The first position at or after `i` where `t` occurs in `s`. */
  function IndexFrom(s: string, t: string, i: nat): (r: Option<nat>)
    requires i <= |s|
    ensures r.Some? ==> i <= r.value <= |s| && StartsWith(s[r.value..], t)
    ensures r.Some? ==> forall j :: i <= j < r.value ==> !StartsWith(s[j..], t)
    ensures r.None? ==> forall j :: i <= j <= |s| ==> !StartsWith(s[j..], t)
    decreases |s| - i
  {
    if StartsWith(s[i..], t) then Some(i)
    else if i == |s| then None
    else IndexFrom(s, t, i + 1)
  }

  /** `s.replace(pattern, replacement)` with a string pattern: only the first occurrence is
      replaced (the replacement is taken literally; the source never uses `$` in it). */
  function ReplaceFirst(s: string, pattern: string, replacement: string): (r: string)
    ensures IndexOf(s, pattern).None? ==> r == s
    ensures IndexOf(s, pattern).Some? ==>
      var i := IndexOf(s, pattern).value;
      && StartsWith(s[i..], pattern)
      && r == s[..i] + replacement + s[i + |pattern|..]
  {
    match IndexOf(s, pattern)
    case None => s
    case Some(i) => s[..i] + replacement + s[i + |pattern|..]
  }
}
