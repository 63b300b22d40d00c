/**
 * The pieces of JavaScript's string and number behaviour the planner relies on:
 * `String.prototype.trim`, `parseInt(s, 10)`, `String(n)` for integers,
 * `padStart(2, '0')`, `Array.prototype.join`, a global single-character
 * `replace`, and the truncating `%` operator.
 */
module JsText {
  import opened Wrappers

  /**
   * The property names a plain object literal inherits from `Object.prototype`
   * (sections 20.1.3 and B.2.2 of ECMAScript 2024). `obj[key]` finds a value for these
   * even when `obj` has no own property of that name: a function, or for `__proto__` the
   * prototype object itself, and each of them is truthy and not `null`.
   */
  const ObjectPrototypeKeys: set<string> := {
    "constructor", "hasOwnProperty", "isPrototypeOf", "propertyIsEnumerable",
    "toLocaleString", "toString", "valueOf", "__proto__",
    "__defineGetter__", "__defineSetter__", "__lookupGetter__", "__lookupSetter__"
  }

  /** The characters `trim` removes: ECMAScript WhiteSpace and LineTerminator. */
  predicate IsSpace(c: char)
    ensures IsSpace(c) ==> !('0' <= c <= '9') && c != '-' && c != '+'
  {
    c == ' ' || c == '\t' || c == '\n' || c == '\U{000B}' || c == '\U{000C}' || c == '\r'
    || c == '\U{00A0}' || c == '\U{1680}' || ('\U{2000}' <= c <= '\U{200A}')
    || c == '\U{2028}' || c == '\U{2029}' || c == '\U{202F}' || c == '\U{205F}'
    || c == '\U{3000}' || c == '\U{FEFF}'
  }

  /** `trimStart`: drops the leading run of space characters. */
  function TrimStart(s: string): (r: string)
    ensures |r| <= |s| && r == s[|s| - |r|..]
    ensures forall i :: 0 <= i < |s| - |r| ==> IsSpace(s[i])
    ensures r == [] || !IsSpace(r[0])
  {
    if |s| > 0 && IsSpace(s[0]) then TrimStart(s[1..]) else s
  }

  /** `trimEnd`: drops the trailing run of space characters. */
  function TrimEnd(s: string): (r: string)
    ensures |r| <= |s| && r == s[..|r|]
    ensures forall i :: |r| <= i < |s| ==> IsSpace(s[i])
    ensures r == [] || !IsSpace(r[|r| - 1])
  {
    if |s| > 0 && IsSpace(s[|s| - 1]) then TrimEnd(s[..|s| - 1]) else s
  }

  /** `trim`: the input without its leading and trailing runs of space characters. */
  function Trim(s: string): (r: string)
    ensures exists a, b :: (0 <= a <= b <= |s| && r == s[a..b]
      && (forall i :: 0 <= i < a ==> IsSpace(s[i]))
      && (forall i :: b <= i < |s| ==> IsSpace(s[i])))
    ensures r == [] || (!IsSpace(r[0]) && !IsSpace(r[|r| - 1]))
  {
    var t := TrimStart(s);
    var r := TrimEnd(t);
    TrimWitness(s, t, r);
    r
  }

  lemma TrimWitness(s: string, t: string, r: string)
    requires |t| <= |s| && t == s[|s| - |t|..] && forall i :: 0 <= i < |s| - |t| ==> IsSpace(s[i])
    requires |r| <= |t| && r == t[..|r|] && forall i :: |r| <= i < |t| ==> IsSpace(t[i])
    ensures var a, b := |s| - |t|, |s| - |t| + |r|;
      0 <= a <= b <= |s| && r == s[a..b]
      && (forall i :: 0 <= i < a ==> IsSpace(s[i]))
      && (forall i :: b <= i < |s| ==> IsSpace(s[i]))
  {
    var a := |s| - |t|;
    forall i | a + |r| <= i < |s| ensures IsSpace(s[i]) {
      assert s[i] == t[i - a];
    }
  }

  /** A string the source treats as blank: `!s.trim()`. */
  predicate IsBlank(s: string) {
    Trim(s) == ""
  }

  lemma {:induction false} TrimStartOfSpaces(s: string)
    requires forall i :: 0 <= i < |s| ==> IsSpace(s[i])
    ensures TrimStart(s) == ""
  {
    if |s| > 0 {
      TrimStartOfSpaces(s[1..]);
    }
  }

  /** A string is blank exactly when every one of its characters is a space. */
  lemma BlankIffAllSpace(s: string)
    ensures IsBlank(s) <==> forall i :: 0 <= i < |s| ==> IsSpace(s[i])
  {
    if forall i :: 0 <= i < |s| ==> IsSpace(s[i]) {
      TrimStartOfSpaces(s);
    }
    if IsBlank(s) {
      var a, b :| 0 <= a <= b <= |s| && Trim(s) == s[a..b]
        && (forall i :: 0 <= i < a ==> IsSpace(s[i]))
        && (forall i :: b <= i < |s| ==> IsSpace(s[i]));
      assert a == b;
    }
  }

  /** Every character of `s` is a space character, tested from the front. */
  predicate AllSpace(s: string) {
    s == [] || (IsSpace(s[0]) && AllSpace(s[1..]))
  }

  lemma {:induction false} AllSpaceIff(s: string)
    ensures AllSpace(s) <==> forall i :: 0 <= i < |s| ==> IsSpace(s[i])
  {
    if s != [] {
      AllSpaceIff(s[1..]);
      assert forall i :: 1 <= i < |s| ==> s[i] == s[1..][i - 1];
    }
  }

  /** `s.trim() === ''` holds exactly when `s` is made only of space characters. */
  lemma BlankIsAllSpace(s: string)
    ensures IsBlank(s) <==> AllSpace(s)
  {
    BlankIffAllSpace(s);
    AllSpaceIff(s);
  }

  predicate IsDigit(c: char) {
    '0' <= c <= '9'
  }

  predicate AllDigits(s: string) {
    forall i :: 0 <= i < |s| ==> IsDigit(s[i])
  }

  function DigitValue(c: char): (d: nat)
    requires IsDigit(c)
    ensures d < 10
  {
    c as int - '0' as int
  }

  function DigitChar(d: nat): (c: char)
    requires d < 10
    ensures IsDigit(c) && DigitValue(c) == d
  {
    ('0' as int + d) as char
  }

  /** The decimal value of a digit string, most significant digit first. */
  function DigitsValue(s: string): (n: nat)
    requires AllDigits(s)
  {
    if s == [] then 0 else DigitsValue(s[..|s| - 1]) * 10 + DigitValue(s[|s| - 1])
  }

  /** `String(n)` for a non-negative integer: its shortest decimal spelling. */
  function DecimalString(n: nat): (s: string)
    ensures |s| > 0 && AllDigits(s) && DigitsValue(s) == n
    ensures |s| > 1 ==> s[0] != '0'
    ensures n < 10 <==> |s| == 1
  {
    if n < 10 then [DigitChar(n)]
    else
      var p := DecimalString(n / 10);
      var s := p + [DigitChar(n % 10)];
      assert s[..|s| - 1] == p;
      s
  }

  /** `String(n)` for any integer. */
  function IntToString(n: int): (s: string)
    ensures |s| > 0
    ensures n >= 0 ==> s == DecimalString(n)
    ensures n < 0 ==> s == "-" + DecimalString(-n)
  {
    if n < 0 then "-" + DecimalString(-n) else DecimalString(n)
  }

  /** `padStart(2, '0')`: strings shorter than two characters get leading zeros. */
  function PadStart2(s: string): (r: string)
    ensures |s| >= 2 ==> r == s
    ensures |s| < 2 ==> |r| == 2 && r[2 - |s|..] == s
    ensures forall i :: 0 <= i < |r| - |s| ==> r[i] == '0'
  {
    if |s| >= 2 then s else if |s| == 1 then "0" + s else "00"
  }

  /** Two-digit zero-padded decimal: `String(n).padStart(2, '0')` for n < 100. */
  function TwoDigits(n: nat): (r: string)
    requires n < 100
    ensures |r| == 2 && AllDigits(r) && DigitsValue(r) == n
  {
    var d := DecimalString(n);
    var r := PadStart2(d);
    if n < 10 then
      assert r == ['0', d[0]];
      assert r[..1] == ['0'];
      r
    else
      assert d == d[..1] + d[1..];
      r
  }

  /** The longest prefix of `s` made of decimal digits. */
  function DigitPrefix(s: string): (r: string)
    ensures r <= s && AllDigits(r)
    ensures |r| == |s| || !IsDigit(s[|r|])
  {
    if |s| > 0 && IsDigit(s[0]) then [s[0]] + DigitPrefix(s[1..]) else ""
  }

  /**
   * `parseInt(s, 10)`: skip leading space, read an optional sign, then the longest run of
   * decimal digits; no digit at all is NaN (`None`). Trailing characters are ignored.
   */
  function ParseInt(s: string): (r: Option<int>)
    ensures r.Some? ==> var t := TrimStart(s); |t| > 0 && (IsDigit(t[0]) || t[0] == '-' || t[0] == '+')
    ensures var t := TrimStart(s); |t| > 0 && IsDigit(t[0]) ==> r.Some? && r.value >= 0
  {
    var t := TrimStart(s);
    var negative := |t| > 0 && t[0] == '-';
    var body := if |t| > 0 && (t[0] == '-' || t[0] == '+') then t[1..] else t;
    var digits := DigitPrefix(body);
    if digits == [] then None
    else if negative then Some(0 - DigitsValue(digits))
    else Some(DigitsValue(digits))
  }

  lemma {:induction false} DigitPrefixOfDigits(s: string, rest: string)
    requires AllDigits(s)
    requires rest == [] || !IsDigit(rest[0])
    ensures DigitPrefix(s + rest) == s
  {
    if s != [] {
      assert (s + rest)[1..] == s[1..] + rest;
      DigitPrefixOfDigits(s[1..], rest);
    }
  }

  /** `parseInt` reads back what `String` writes, for every integer. */
  lemma ParseIntOfIntToString(n: int)
    ensures ParseInt(IntToString(n)) == Some(n)
  {
    var d := DecimalString(if n < 0 then -n else n);
    ParseIntOfDigits(d);
  }

  /** A non-empty digit string, with or without a minus sign, parses to its value. */
  lemma ParseIntOfDigits(d: string)
    requires d != [] && AllDigits(d)
    ensures ParseInt(d) == Some(DigitsValue(d))
    ensures ParseInt("-" + d) == Some(0 - DigitsValue(d))
  {
    DigitPrefixOfDigits(d, "");
    assert d + "" == d;
    ParsePlain(d);
    ParseNegative(d);
  }

  /** A string without leading space is its own `trimStart`. */
  lemma TrimStartUnpadded(s: string)
    requires s == [] || !IsSpace(s[0])
    ensures TrimStart(s) == s
  {
  }

  lemma ParsePlain(d: string)
    requires d != [] && AllDigits(d) && DigitPrefix(d) == d
    ensures ParseInt(d) == Some(DigitsValue(d))
  {
    assert IsDigit(d[0]);
    TrimStartUnpadded(d);
  }

  lemma ParseNegative(d: string)
    requires d != [] && AllDigits(d) && DigitPrefix(d) == d
    ensures ParseInt("-" + d) == Some(0 - DigitsValue(d))
  {
    var m := "-" + d;
    assert m[0] == '-' && !IsSpace('-');
    TrimStartUnpadded(m);
    assert m[1..] == d;
    assert DigitPrefix(m[1..]) == d;
  }

  /** JavaScript's `a % b`: the remainder of truncating division, with the sign of `a`. */
  function JsRem(a: int, b: int): (r: int)
    requires b != 0
    ensures a >= 0 ==> 0 <= r < (if b > 0 then b else -b)
    ensures a < 0 ==> -(if b > 0 then b else -b) < r <= 0
    ensures exists q :: a == q * b + r
  {
    var m := if b > 0 then b else -b;
    if a >= 0 then
      var r := a % m;
      assert a == (a / m) * m + r;
      assert a == (if b > 0 then a / m else -(a / m)) * b + r;
      r
    else
      var r := -((-a) % m);
      assert -a == ((-a) / m) * m - r;
      assert a == (if b > 0 then -((-a) / m) else (-a) / m) * b + r;
      r
  }

  /** `Array.prototype.join(sep)` over strings. */
  function Join(parts: seq<string>, sep: string): (r: string)
    ensures parts == [] ==> r == ""
    ensures |parts| == 1 ==> r == parts[0]
    ensures |parts| > 1 ==> parts[0] + sep <= r
  {
    if parts == [] then ""
    else if |parts| == 1 then parts[0]
    else parts[0] + sep + Join(parts[1..], sep)
  }

  /** Joining two non-empty lists is joining each and gluing with the separator. */
  lemma {:induction false} JoinAppend(a: seq<string>, b: seq<string>, sep: string)
    requires a != [] && b != []
    ensures Join(a + b, sep) == Join(a, sep) + sep + Join(b, sep)
  {
    if |a| == 1 {
      assert (a + b)[1..] == b;
    } else {
      assert (a + b)[1..] == a[1..] + b;
      JoinAppend(a[1..], b, sep);
    }
  }

  /** A join ends with the separator followed by its last part when there are several. */
  lemma {:induction false} JoinEndsWith(parts: seq<string>, sep: string)
    requires |parts| >= 2
    ensures var j := Join(parts, sep); var t := sep + parts[|parts| - 1];
      |t| <= |j| && j[|j| - |t|..] == t
  {
    if |parts| > 2 {
      JoinEndsWith(parts[1..], sep);
    }
  }

  /** `s.replace(/c/g, rep)` for a single character `c`. */
  function ReplaceChar(s: string, c: char, rep: string): (r: string)
    ensures c !in rep ==> c !in r
    ensures forall x :: x in r ==> x in s || x in rep
  {
    if s == [] then ""
    else (if s[0] == c then rep else [s[0]]) + ReplaceChar(s[1..], c, rep)
  }

  /** Replacing distributes over concatenation. */
  lemma {:induction false} ReplaceCharAppend(a: string, b: string, c: char, rep: string)
    ensures ReplaceChar(a + b, c, rep) == ReplaceChar(a, c, rep) + ReplaceChar(b, c, rep)
  {
    if a != [] {
      assert (a + b)[1..] == a[1..] + b;
      ReplaceCharAppend(a[1..], b, c, rep);
    } else {
      assert a + b == b;
    }
  }

  /** A string that neither starts nor ends with a space character is its own trim. */
  lemma TrimOfUnpadded(s: string)
    requires s != [] && !IsSpace(s[0]) && !IsSpace(s[|s| - 1])
    ensures Trim(s) == s
  {
    assert TrimStart(s) == s;
    assert TrimEnd(s) == s;
  }

  /** Trimming twice is trimming once. */
  lemma TrimIdempotent(s: string)
    ensures Trim(Trim(s)) == Trim(s)
  {
    var t := Trim(s);
    if t != "" {
      TrimOfUnpadded(t);
    } else {
      assert TrimStart(t) == t;
    }
  }

  /** A digit string of at most two digits has a value below 100. */
  lemma TwoDigitValue(s: string)
    requires AllDigits(s) && |s| <= 2
    ensures DigitsValue(s) < 100
  {
    if |s| == 2 {
      assert DigitsValue(s[..1]) == DigitValue(s[0]) by {
        assert s[..1][..0] == [];
      }
    } else if |s| == 1 {
      assert s[..0] == [];
    }
  }

  /** The decimal spelling of a number below 100 has one or two digits. */
  lemma DecimalStringBelow100(n: nat)
    requires n < 100
    ensures 1 <= |DecimalString(n)| <= 2
  {
  }

  /** `groups.map(g => g.join(sep))`. */
  function JoinEach(groups: seq<seq<string>>, sep: string): (r: seq<string>)
    ensures |r| == |groups|
  {
    if groups == [] then [] else [Join(groups[0], sep)] + JoinEach(groups[1..], sep)
  }

  /** The concatenation of a list of lists. */
  function Flatten(groups: seq<seq<string>>): seq<string> {
    if groups == [] then [] else groups[0] + Flatten(groups[1..])
  }

  lemma {:induction false} FlattenAppend(a: seq<seq<string>>, b: seq<seq<string>>)
    ensures Flatten(a + b) == Flatten(a) + Flatten(b)
  {
    if a == [] {
      assert a + b == b;
    } else {
      assert (a + b)[1..] == a[1..] + b;
      FlattenAppend(a[1..], b);
    }
  }

  lemma {:induction false} JoinEachAppend(a: seq<seq<string>>, b: seq<seq<string>>, sep: string)
    ensures JoinEach(a + b, sep) == JoinEach(a, sep) + JoinEach(b, sep)
  {
    if a == [] {
      assert a + b == b;
    } else {
      assert (a + b)[1..] == a[1..] + b;
      JoinEachAppend(a[1..], b, sep);
    }
  }

  lemma {:induction false} FlattenNonEmpty(groups: seq<seq<string>>)
    requires groups != [] && groups[0] != []
    ensures Flatten(groups) != []
  {
  }

  /**
   * Joining the joined groups with the separator is joining all their parts: the
   * separator between two groups is the same as inside a group.
   */
  lemma {:induction false} JoinFlatten(groups: seq<seq<string>>, sep: string)
    requires groups != []
    requires forall i :: 0 <= i < |groups| ==> groups[i] != []
    ensures Join(JoinEach(groups, sep), sep) == Join(Flatten(groups), sep)
  {
    var g := groups[0];
    if |groups| == 1 {
      assert Flatten(groups) == g + Flatten([]);
      assert g + [] == g;
    } else {
      var rest := groups[1..];
      JoinFlatten(rest, sep);
      FlattenNonEmpty(rest);
      JoinAppend(g, Flatten(rest), sep);
    }
  }

  lemma ReplaceCharSingle(x: char, c: char, rep: string)
    ensures ReplaceChar([x], c, rep) == if x == c then rep else [x]
  {
    assert [x][1..] == [];
    if x == c {
      assert rep + "" == rep;
    }
  }

  lemma {:induction false} ReplaceCharAbsent(s: string, c: char, rep: string)
    requires c !in s
    ensures ReplaceChar(s, c, rep) == s
  {
    if s != [] {
      assert s[1..] == s[1..];
      assert c !in s[1..];
      ReplaceCharAbsent(s[1..], c, rep);
      assert s == [s[0]] + s[1..];
    }
  }
}
