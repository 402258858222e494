/** String helpers shared by the backend (Python `str`) and the frontend
    (JavaScript `string`) models. Case mapping and whitespace are ASCII only. */
module Text {
  import opened Wrappers

  predicate StartsWith(s: string, p: string) {
    |p| <= |s| && s[..|p|] == p
  }

  predicate EndsWith(s: string, p: string) {
    |p| <= |s| && s[|s| - |p|..] == p
  }

  /** `sub in s` */
  predicate Contains(s: string, sub: string)
    decreases |s|
  {
    StartsWith(s, sub) || (s != [] && Contains(s[1..], sub))
  }

  lemma {:induction false} ContainsAt(s: string, sub: string, i: nat)
    requires i + |sub| <= |s| && s[i..i + |sub|] == sub
    ensures Contains(s, sub)
    decreases i
  {
    if i > 0 {
      assert s[1..][i - 1..i - 1 + |sub|] == sub;
      ContainsAt(s[1..], sub, i - 1);
    }
  }

  lemma {:induction false} ContainsWitness(s: string, sub: string) returns (i: nat)
    requires Contains(s, sub)
    ensures i + |sub| <= |s| && s[i..i + |sub|] == sub
    decreases |s|
  {
    if StartsWith(s, sub) {
      i := 0;
    } else {
      var j := ContainsWitness(s[1..], sub);
      i := j + 1;
      assert s[i..i + |sub|] == s[1..][j..j + |sub|];
    }
  }

  lemma {:induction false} ContainsInPrefix(a: string, b: string, sub: string)
    requires Contains(a, sub)
    ensures Contains(a + b, sub)
  {
    var i := ContainsWitness(a, sub);
    assert (a + b)[i..i + |sub|] == a[i..i + |sub|];
    ContainsAt(a + b, sub, i);
  }

  lemma {:induction false} ContainsInSuffix(a: string, b: string, sub: string)
    requires Contains(b, sub)
    ensures Contains(a + b, sub)
  {
    var i := ContainsWitness(b, sub);
    assert (a + b)[|a| + i..|a| + i + |sub|] == b[i..i + |sub|];
    ContainsAt(a + b, sub, |a| + i);
  }

  function LowerChar(c: char): char {
    if 'A' <= c <= 'Z' then (c as int + 32) as char else c
  }

  /** `str.lower()` / `String.prototype.toLowerCase()`, ASCII letters only */
  function Lower(s: string): (r: string)
    ensures |r| == |s|
    ensures forall i :: 0 <= i < |s| ==> r[i] == LowerChar(s[i])
  {
    seq(|s|, i requires 0 <= i < |s| => LowerChar(s[i]))
  }

  predicate IsSpace(c: char) {
    c == ' ' || c == '\t' || c == '\n' || c == '\r' || c == '\U{000B}' || c == '\U{000C}'
  }

  function TrimStart(s: string): (r: string)
    ensures |r| <= |s| && r == s[|s| - |r|..]
    ensures forall i :: 0 <= i < |s| - |r| ==> IsSpace(s[i])
    ensures r == [] || !IsSpace(r[0])
    decreases |s|
  {
    if s != [] && IsSpace(s[0]) then TrimStart(s[1..]) else s
  }

  function TrimEnd(s: string): (r: string)
    ensures |r| <= |s| && r == s[..|r|]
    ensures forall i :: |r| <= i < |s| ==> IsSpace(s[i])
    ensures r == [] || !IsSpace(r[|r| - 1])
    decreases |s|
  {
    if s != [] && IsSpace(s[|s| - 1]) then TrimEnd(s[..|s| - 1]) else s
  }

  /** `str.strip()` / `String.prototype.trim()` */
  function Trim(s: string): (r: string)
    ensures |r| <= |s|
    ensures r == [] || (!IsSpace(r[0]) && !IsSpace(r[|r| - 1]))
  {
    TrimEnd(TrimStart(s))
  }

  /** Trimming keeps a contiguous piece of the text. */
  lemma {:induction false} TrimIsSlice(s: string) returns (a: nat)
    ensures a + |Trim(s)| <= |s| && s[a..a + |Trim(s)|] == Trim(s)
  {
    var front := TrimStart(s);
    var t := TrimEnd(front);
    assert t == Trim(s);
    a := |s| - |front|;
    assert front == s[a..];
    assert t == front[..|t|];
    assert s[a..a + |t|] == s[a..][..|t|];
  }

  /** Blanks dropped from the front of a text are dropped from the front of
      any longer text it starts, unless the prefix is blank throughout. */
  lemma {:induction false} TrimStartOfPrefix(s: string, p: string)
    requires StartsWith(s, p) && TrimStart(p) != []
    ensures StartsWith(TrimStart(s), TrimStart(p))
    decreases |p|
  {
    if IsSpace(p[0]) {
      assert s[0] == p[0];
      assert StartsWith(s[1..], p[1..]) by {
        assert s[1..][..|p| - 1] == s[..|p|][1..];
      }
      TrimStartOfPrefix(s[1..], p[1..]);
    } else {
      assert s[0] == p[0];
    }
  }

  /** Any prefix, trimmed, starts the text once its leading blanks are gone. */
  lemma {:induction false} PrefixTrimmed(s: string, p: string)
    requires StartsWith(s, p)
    ensures StartsWith(TrimStart(s), Trim(p))
  {
    var front := TrimStart(p);
    if front != [] {
      TrimStartOfPrefix(s, p);
      var ip := TrimEnd(front);
      assert TrimStart(s)[..|ip|] == front[..|front|][..|ip|];
    }
  }

  /** Trimming brings in no character that the text did not have. */
  lemma TrimAvoids(s: string, c: char)
    requires forall i :: 0 <= i < |s| ==> s[i] != c
    ensures forall i :: 0 <= i < |Trim(s)| ==> Trim(s)[i] != c
  {
    var front := TrimStart(s);
    var t := TrimEnd(front);
    assert t == Trim(s);
    forall i | 0 <= i < |t|
      ensures t[i] != c
    {
      assert t[i] == front[i];
      assert front[i] == s[|s| - |front| + i];
    }
  }

  lemma TrimNoSpaceEnds(s: string)
    requires s == [] || (!IsSpace(s[0]) && !IsSpace(s[|s| - 1]))
    ensures Trim(s) == s
  {
  }

  lemma {:induction false} TrimAllSpace(s: string)
    requires forall i :: 0 <= i < |s| ==> IsSpace(s[i])
    ensures TrimStart(s) == [] && Trim(s) == []
    decreases |s|
  {
    if s != [] {
      TrimAllSpace(s[1..]);
    }
  }

  function DigitChar(d: int): char
    requires 0 <= d < 10
  {
    "0123456789"[d]
  }

  predicate IsDigit(c: char) {
    '0' <= c <= '9'
  }

  function DigitValue(c: char): nat
    requires IsDigit(c)
  {
    c as int - '0' as int
  }

  function NatToString(n: nat): (r: string)
    ensures r != [] && forall i :: 0 <= i < |r| ==> IsDigit(r[i])
    decreases n
  {
    if n < 10 then [DigitChar(n)] else NatToString(n / 10) + [DigitChar(n % 10)]
  }

  /** `str(n)` in Python and `String(n)` / `${n}` in JavaScript, for integers */
  function IntToString(n: int): string {
    if n < 0 then "-" + NatToString(-n) else NatToString(n)
  }

  /** Value of a non-empty run of decimal digits. */
  function DigitsValue(t: string): nat
    requires forall i :: 0 <= i < |t| ==> IsDigit(t[i])
    decreases |t|
  {
    if t == [] then 0 else DigitsValue(t[..|t| - 1]) * 10 + DigitValue(t[|t| - 1])
  }

  lemma {:induction false} DigitsOfNat(n: nat)
    ensures DigitsValue(NatToString(n)) == n
    decreases n
  {
    if n >= 10 {
      var s := NatToString(n);
      assert s[..|s| - 1] == NatToString(n / 10);
      DigitsOfNat(n / 10);
    }
  }

  /** A digit string as Python's `int()` accepts it: digits, optionally with
      single underscores between digits. */
  predicate WellFormedDigits(t: string) {
    && t != []
    && IsDigit(t[0]) && IsDigit(t[|t| - 1])
    && (forall i :: 0 <= i < |t| ==> IsDigit(t[i]) || t[i] == '_')
    && !Contains(t, "__")
  }

  function RemoveUnderscores(t: string): (r: string)
    ensures (forall i :: 0 <= i < |t| ==> IsDigit(t[i]) || t[i] == '_')
                ==> (forall j :: 0 <= j < |r| ==> IsDigit(r[j]))
    decreases |t|
  {
    if t == [] then [] else if t[0] == '_' then RemoveUnderscores(t[1..]) else [t[0]] + RemoveUnderscores(t[1..])
  }

  lemma {:induction false} NoUnderscoresUnchanged(t: string)
    requires forall i :: 0 <= i < |t| ==> IsDigit(t[i])
    ensures RemoveUnderscores(t) == t
    decreases |t|
  {
    if t != [] {
      NoUnderscoresUnchanged(t[1..]);
    }
  }

  /** Python's `int(value)` for base-10 text: surrounding whitespace, an optional
      sign, digits with single underscores between them. `None` stands for the
      ValueError Python raises. */
  function ParseInt(value: string): (r: Option<int>)
    ensures r.Some? ==> Trim(value) != []
  {
    ParseSignedText(Trim(value))
  }

  function ParseSignedText(t: string): (r: Option<int>)
    ensures r.Some? ==> t != []
  {
    if t == [] then None
    else if t[0] == '-' then
      match ParseUnsigned(t[1..])
      case Some(m) => Some(-(m as int))
      case None => None
    else if t[0] == '+' then ParseUnsigned(t[1..])
    else ParseUnsigned(t)
  }

  function ParseUnsigned(t: string): (r: Option<nat>)
    ensures r.Some? <==> WellFormedDigits(t)
  {
    if WellFormedDigits(t) then Some(DigitsValue(RemoveUnderscores(t))) else None
  }

  lemma {:induction false} DigitsHaveNoDoubleUnderscore(digits: string)
    requires forall i :: 0 <= i < |digits| ==> IsDigit(digits[i])
    ensures !Contains(digits, "__")
    decreases |digits|
  {
    if digits != [] {
      assert !StartsWith(digits, "__") by {
        if |digits| >= 2 {
          assert digits[..2][0] == digits[0];
        }
      }
      DigitsHaveNoDoubleUnderscore(digits[1..]);
    }
  }

  lemma DigitsParse(digits: string)
    requires digits != [] && forall i :: 0 <= i < |digits| ==> IsDigit(digits[i])
    ensures ParseUnsigned(digits) == Some(DigitsValue(digits))
  {
    DigitsHaveNoDoubleUnderscore(digits);
    NoUnderscoresUnchanged(digits);
  }

  /** `int(s)` on text without surrounding whitespace parses the text itself. */
  lemma ParseIntUntrimmed(s: string)
    requires s != [] && !IsSpace(s[0]) && !IsSpace(s[|s| - 1])
    ensures ParseInt(s) == ParseSignedText(s)
  {
    TrimNoSpaceEnds(s);
  }

  lemma NegativeDigitsParse(s: string, digits: string)
    requires digits != [] && forall i :: 0 <= i < |digits| ==> IsDigit(digits[i])
    requires |s| == |digits| + 1 && s[0] == '-' && s[1..] == digits
    ensures ParseInt(s) == Some(-(DigitsValue(digits) as int))
  {
    assert s[|s| - 1] == digits[|digits| - 1];
    DigitsParse(digits);
    ParseIntUntrimmed(s);
  }

  lemma PositiveDigitsParse(digits: string)
    requires digits != [] && forall i :: 0 <= i < |digits| ==> IsDigit(digits[i])
    ensures ParseInt(digits) == Some(DigitsValue(digits))
  {
    UnsignedText(digits);
    DigitsParse(digits);
  }

  /** Text that starts and ends with a digit has no blanks to strip and no
      sign, so `int()` reads it as unsigned digits. */
  lemma UnsignedText(t: string)
    requires t != [] && IsDigit(t[0]) && IsDigit(t[|t| - 1])
    ensures ParseInt(t) == ParseUnsigned(t)
  {
    ParseIntUntrimmed(t);
  }

  /** Parsing the decimal text of a non-negative integer gives it back. */
  lemma {:induction false} NatToStringRoundTrip(n: nat)
    ensures ParseInt(NatToString(n)) == Some(n)
  {
    DigitsOfNat(n);
    PositiveDigitsParse(NatToString(n));
  }

  /** Lexicographic order on strings by code point, as SQLite compares TEXT
      under its default BINARY collation. */
  predicate LexLe(a: string, b: string)
    decreases |a|
  {
    a == [] || (b != [] && (a[0] < b[0] || (a[0] == b[0] && LexLe(a[1..], b[1..]))))
  }

  lemma {:induction false} LexLeTotal(a: string, b: string)
    ensures LexLe(a, b) || LexLe(b, a)
    decreases |a|
  {
    if a != [] && b != [] && a[0] == b[0] {
      LexLeTotal(a[1..], b[1..]);
    }
  }

  lemma {:induction false} LexLeTrans(a: string, b: string, c: string)
    requires LexLe(a, b) && LexLe(b, c)
    ensures LexLe(a, c)
    decreases |a|
  {
    if a != [] && a[0] == b[0] && b[0] == c[0] {
      LexLeTrans(a[1..], b[1..], c[1..]);
    }
  }

  lemma {:induction false} LexLeAntisym(a: string, b: string)
    requires LexLe(a, b) && LexLe(b, a)
    ensures a == b
    decreases |a|
  {
    if a != [] {
      LexLeAntisym(a[1..], b[1..]);
    }
  }

  /** The text of `s` before the first occurrence of `sep` (all of it if none):
      `s.split(sep)[0]`. */
  function BeforeFirst(s: string, sep: char): (r: string)
    ensures StartsWith(s, r)
    ensures forall i :: 0 <= i < |r| ==> r[i] != sep
    ensures |r| < |s| ==> s[|r|] == sep
    decreases |s|
  {
    if s == [] then [] else if s[0] == sep then [] else [s[0]] + BeforeFirst(s[1..], sep)
  }

  /** `sep.join(parts)` */
  function Join(parts: seq<string>, sep: string): string
    decreases |parts|
  {
    if parts == [] then "" else if |parts| == 1 then parts[0] else parts[0] + sep + Join(parts[1..], sep)
  }
}
