/**
 * The JavaScript string and number primitives the site's pages rely on,
 * stated over `seq<char>` and unbounded integers: white space as `\s` and
 * `trim()` see it, `parseInt(x, 10)`, `Number(x)` on integer strings,
 * number-to-string conversion, `includes`, `startsWith`, `split`, the regular
 * expressions `/\d{4}/` and `/\d+/g`, ASCII `toLowerCase`, and the truthiness
 * of the values the pages combine with `||`.
 */
module Js {
  import opened Wrappers

  // ---------------------------------------------------------------------------
  // Characters

  /** JavaScript's white space and line terminators: what `\s` matches, what
      `trim()` removes and what `parseInt` and `Number` skip. */
  predicate IsSpace(c: char) {
    c == '\t' || c == '\n' || c == '\U{000B}' || c == '\U{000C}' || c == '\r' || c == ' '
    || c == '\U{00A0}' || c == '\U{1680}' || ('\U{2000}' <= c <= '\U{200A}')
    || c == '\U{2028}' || c == '\U{2029}' || c == '\U{202F}' || c == '\U{205F}'
    || c == '\U{3000}' || c == '\U{FEFF}'
  }

  /** What `\d` matches: the ASCII digits only. */
  predicate IsDigit(c: char) {
    '0' <= c <= '9'
  }

  predicate AllDigits(s: string) {
    forall i :: 0 <= i < |s| ==> IsDigit(s[i])
  }

  predicate IsUpperAscii(c: char) {
    'A' <= c <= 'Z'
  }

  /** `toLowerCase` on one character, restricted to the ASCII letters. */
  function LowerChar(c: char): (r: char)
    ensures !IsUpperAscii(r)
    ensures IsUpperAscii(c) ==> r as int == c as int + 32
    ensures !IsUpperAscii(c) ==> r == c
  {
    if IsUpperAscii(c) then (c as int + 32) as char else c
  }

  /** `toLowerCase` with ASCII case mapping. */
  function Lower(s: string): (r: string)
    ensures |r| == |s|
    ensures forall i :: 0 <= i < |s| ==> r[i] == LowerChar(s[i])
  {
    if s == [] then [] else [LowerChar(s[0])] + Lower(s[1..])
  }

  // ---------------------------------------------------------------------------
  // Trimming

  function TrimStart(s: string): (r: string)
    ensures |r| <= |s| && r == s[|s| - |r|..]
    ensures forall i :: 0 <= i < |s| - |r| ==> IsSpace(s[i])
    ensures r == [] || !IsSpace(r[0])
  {
    if s != [] && IsSpace(s[0]) then TrimStart(s[1..]) else s
  }

  function TrimEnd(s: string): (r: string)
    ensures |r| <= |s| && r == s[..|r|]
    ensures forall i :: |r| <= i < |s| ==> IsSpace(s[i])
    ensures r == [] || !IsSpace(r[|r| - 1])
  {
    if s != [] && IsSpace(s[|s| - 1]) then TrimEnd(s[..|s| - 1]) else s
  }

  /** `trim()`: white space removed at both ends. */
  function Trim(s: string): (r: string)
    ensures r == [] || (!IsSpace(r[0]) && !IsSpace(r[|r| - 1]))
  {
    TrimEnd(TrimStart(s))
  }

  /** A property of every character survives trimming. */
  lemma TrimKeeps(s: string, p: char -> bool)
    requires forall i :: 0 <= i < |s| ==> p(s[i])
    ensures forall i :: 0 <= i < |Trim(s)| ==> p(Trim(s)[i])
  {
    var a := TrimStart(s);
    var r := TrimEnd(a);
    assert a == s[|s| - |a|..];
    forall i | 0 <= i < |a| ensures p(a[i]) {
      assert a[i] == s[|s| - |a| + i];
    }
    assert r == a[..|r|];
    forall i | 0 <= i < |r| ensures p(r[i]) {
      assert r[i] == a[i];
    }
    assert Trim(s) == r;
  }

  /** Trim leaves a string without white space unchanged. */
  lemma TrimNoSpace(s: string)
    requires forall i :: 0 <= i < |s| ==> !IsSpace(s[i])
    ensures Trim(s) == s
  {
    assert TrimStart(s) == s;
  }

  // ---------------------------------------------------------------------------
  // Digits and integers

  function DigitValue(c: char): (d: nat)
    requires IsDigit(c)
    ensures d < 10
  {
    c as int - '0' as int
  }

  function DigitChar(d: nat): (c: char)
    requires d < 10
    ensures IsDigit(c) && DigitValue(c) == d
  {
    ('0' as int + d) as char
  }

  /** The value of a run of decimal digits, most significant first. */
  function DigitsValue(ds: string): nat
    requires AllDigits(ds)
  {
    if ds == [] then 0 else DigitsValue(ds[..|ds| - 1]) * 10 + DigitValue(ds[|ds| - 1])
  }

  /** The longest prefix of `s` made of digits. */
  function LeadingDigits(s: string): (ds: string)
    ensures |ds| <= |s| && ds == s[..|ds|]
    ensures AllDigits(ds)
    ensures |ds| < |s| ==> !IsDigit(s[|ds|])
  {
    if s != [] && IsDigit(s[0]) then [s[0]] + LeadingDigits(s[1..]) else []
  }

  /** The decimal text of a natural number, without leading zeros. */
  function NatToString(n: nat): (s: string)
    ensures |s| > 0 && AllDigits(s)
    decreases n
  {
    if n < 10 then [DigitChar(n)] else NatToString(n / 10) + [DigitChar(n % 10)]
  }

  /** `String(n)` for an integer: a minus sign before the digits of a negative number. */
  function IntToString(n: int): (s: string)
    ensures |s| > 0
    ensures n >= 0 ==> AllDigits(s)
    ensures n < 0 ==> s[0] == '-' && AllDigits(s[1..]) && |s| > 1
  {
    if n < 0 then "-" + NatToString(-n) else NatToString(n)
  }

  lemma {:induction false} NatToStringValue(n: nat)
    ensures DigitsValue(NatToString(n)) == n
    decreases n
  {
    var s := NatToString(n);
    if n >= 10 {
      NatToStringValue(n / 10);
      assert s[..|s| - 1] == NatToString(n / 10);
    }
  }

  /** `parseInt(s, 10)`: leading white space skipped, an optional sign, then
      the longest run of digits; no digits is `NaN`, here `None`. */
  function ParseInt(s: string): (r: Option<int>)
    ensures r.None? <==> LeadingDigits(Unsigned(TrimStart(s))) == []
  {
    var t := TrimStart(s);
    var ds := LeadingDigits(Unsigned(t));
    if ds == [] then None
    else if |t| > 0 && t[0] == '-' then Some(-(DigitsValue(ds) as int))
    else Some(DigitsValue(ds))
  }

  /** The text after an optional leading sign. */
  function Unsigned(t: string): (u: string)
    ensures u == t || (|t| > 0 && (t[0] == '+' || t[0] == '-') && u == t[1..])
  {
    if |t| > 0 && (t[0] == '-' || t[0] == '+') then t[1..] else t
  }

  /** `Number(s)` on a string, for integer notation only: white space around
      the text is ignored and the empty string is 0. */
  function NumberOf(s: string): (r: Option<int>)
  {
    var t := Trim(s);
    var u := Unsigned(t);
    if t == [] then Some(0)
    else if u == [] || !AllDigits(u) then None
    else if t[0] == '-' then Some(-(DigitsValue(u) as int))
    else Some(DigitsValue(u))
  }

  /** A trimmed text that starts with a character other than a sign or a
      digit is not a number. */
  lemma NumberRejects(t: string)
    requires t != [] && Trim(t) == t && t[0] != '-' && t[0] != '+' && !IsDigit(t[0])
    ensures NumberOf(t) == None
  {
    assert Unsigned(t) == t;
  }

  /** A text with no white space at either end is its own trim. */
  lemma Untrimmed(s: string)
    requires s != [] && !IsSpace(s[0]) && !IsSpace(s[|s| - 1])
    ensures TrimStart(s) == s && Trim(s) == s
  {
  }

  /** A run of digits reads as its value, through both `Number` and
      `parseInt`. */
  lemma DigitsRead(ds: string)
    requires ds != [] && AllDigits(ds)
    ensures NumberOf(ds) == Some(DigitsValue(ds))
    ensures ParseInt(ds) == Some(DigitsValue(ds))
  {
    assert IsDigit(ds[0]) && IsDigit(ds[|ds| - 1]);
    Untrimmed(ds);
    LeadingAllDigits(ds);
    NumberPlain(ds);
    ParseIntPlain(ds);
  }

  /** A sign followed by a run of digits is its own trim, and the digits
      are what follows the sign. */
  lemma SignedShape(sign: char, ds: string)
    requires ds != [] && AllDigits(ds) && (sign == '-' || sign == '+')
    ensures Trim([sign] + ds) == [sign] + ds && TrimStart([sign] + ds) == [sign] + ds
    ensures Unsigned([sign] + ds) == ds
  {
    var s := [sign] + ds;
    assert s[|s| - 1] == ds[|ds| - 1] && IsDigit(ds[|ds| - 1]);
    Untrimmed(s);
    assert s[1..] == ds;
  }

  /** `parseInt` on a text starting with a minus sign and a run of digits. */
  lemma ParseIntMinus(t: string, u: string)
    requires t != [] && t[0] == '-' && TrimStart(t) == t && Unsigned(t) == u && u != [] && LeadingDigits(u) == u
    ensures ParseInt(t) == Some(-(DigitsValue(u) as int))
  {
  }

  /** `parseInt` on a run of digits. */
  lemma ParseIntPlain(t: string)
    requires t != [] && t[0] != '-' && t[0] != '+' && TrimStart(t) == t && LeadingDigits(t) == t
    ensures ParseInt(t) == Some(DigitsValue(t))
  {
  }

  /** `Number` on a trimmed minus sign and run of digits. */
  lemma NumberMinus(t: string, u: string)
    requires t != [] && t[0] == '-' && Trim(t) == t && Unsigned(t) == u && u != [] && AllDigits(u)
    ensures NumberOf(t) == Some(-(DigitsValue(u) as int))
  {
  }

  /** `Number` on a trimmed plus sign and run of digits. */
  lemma NumberPlus(t: string, u: string)
    requires t != [] && t[0] == '+' && Trim(t) == t && Unsigned(t) == u && u != [] && AllDigits(u)
    ensures NumberOf(t) == Some(DigitsValue(u))
  {
  }

  /** `Number` on a trimmed run of digits. */
  lemma NumberPlain(t: string)
    requires t != [] && t[0] != '-' && t[0] != '+' && Trim(t) == t && AllDigits(t)
    ensures NumberOf(t) == Some(DigitsValue(t))
  {
  }

  /** A minus sign followed by a run of digits reads as the negated value,
      through both `Number` and `parseInt`. */
  lemma MinusDigitsRead(ds: string)
    requires ds != [] && AllDigits(ds)
    ensures NumberOf(['-'] + ds) == Some(-(DigitsValue(ds) as int))
    ensures ParseInt(['-'] + ds) == Some(-(DigitsValue(ds) as int))
  {
    SignedShape('-', ds);
    LeadingAllDigits(ds);
    NumberMinus(['-'] + ds, ds);
    ParseIntMinus(['-'] + ds, ds);
  }

  /** A plus sign followed by a run of digits reads as their value. */
  lemma PlusDigitsRead(ds: string)
    requires ds != [] && AllDigits(ds)
    ensures NumberOf(['+'] + ds) == Some(DigitsValue(ds))
  {
    SignedShape('+', ds);
    NumberPlus(['+'] + ds, ds);
  }

  /** The decimal text of a number reads back as that number, through both
      `Number` and `parseInt`. */
  lemma {:induction false} IntToStringRoundTrip(n: int)
    ensures NumberOf(IntToString(n)) == Some(n)
    ensures ParseInt(IntToString(n)) == Some(n)
  {
    var m: nat := if n < 0 then -n else n;
    var ds := NatToString(m);
    NatToStringValue(m);
    if n < 0 {
      var s := ['-'] + ds;
      assert IntToString(n) == s;
      MinusDigitsRead(ds);
      assert NumberOf(s) == Some(n) && ParseInt(s) == Some(n);
    } else {
      assert IntToString(n) == ds;
      DigitsRead(ds);
      assert NumberOf(ds) == Some(n) && ParseInt(ds) == Some(n);
    }
  }

  /** An explicit plus sign before the digits of a number reads back as that number. */
  lemma PlusSignRoundTrip(n: nat)
    ensures NumberOf("+" + NatToString(n)) == Some(n)
  {
    NatToStringValue(n);
    assert "+" + NatToString(n) == ['+'] + NatToString(n);
    PlusDigitsRead(NatToString(n));
  }

  lemma {:induction false} LeadingAllDigits(s: string)
    requires AllDigits(s)
    ensures LeadingDigits(s) == s
  {
    if s != [] {
      LeadingAllDigits(s[1..]);
    }
  }

  /** `IntToString` is injective: different numbers have different texts. */
  lemma IntToStringInjective(a: int, b: int)
    requires IntToString(a) == IntToString(b)
    ensures a == b
  {
    IntToStringRoundTrip(a);
    IntToStringRoundTrip(b);
  }

  // ---------------------------------------------------------------------------
  // Substrings

  predicate StartsWith(s: string, prefix: string) {
    |prefix| <= |s| && s[..|prefix|] == prefix
  }

  /** `s.includes(sub)`. */
  predicate Contains(s: string, sub: string)
    decreases |s|
  {
    StartsWith(s, sub) || (s != [] && Contains(s[1..], sub))
  }

  /** `sub` occurs in `s` starting at position `i`. */
  predicate OccursAt(s: string, sub: string, i: int) {
    0 <= i <= |s| - |sub| && s[i..i + |sub|] == sub
  }

  /** `includes` holds exactly when `sub` occurs at some position of `s`. */
  lemma {:induction false} ContainsIff(s: string, sub: string)
    ensures Contains(s, sub) <==> exists i :: OccursAt(s, sub, i)
    decreases |s|
  {
    if StartsWith(s, sub) {
      assert OccursAt(s, sub, 0);
    } else if s != [] {
      ContainsIff(s[1..], sub);
      if Contains(s[1..], sub) {
        var i :| OccursAt(s[1..], sub, i);
        assert s[i + 1..i + 1 + |sub|] == s[1..][i..i + |sub|];
        assert OccursAt(s, sub, i + 1);
      }
      forall i | OccursAt(s, sub, i)
        ensures Contains(s[1..], sub)
      {
        assert i != 0;
        assert s[1..][i - 1..i - 1 + |sub|] == s[i..i + |sub|];
        assert OccursAt(s[1..], sub, i - 1);
      }
    }
  }

  /** A string contains every piece of itself. */
  lemma ContainsInfix(a: string, sub: string, b: string)
    ensures Contains(a + sub + b, sub)
  {
    var s := a + sub + b;
    assert s[|a|..|a| + |sub|] == sub;
    assert OccursAt(s, sub, |a|);
    ContainsIff(s, sub);
  }

  // ---------------------------------------------------------------------------
  // Splitting at a separator

  /** `s.split(sep)` for a one-character separator. */
  function Split(s: string, sep: char): (parts: seq<string>)
    ensures |parts| >= 1
    ensures forall k, i :: 0 <= k < |parts| && 0 <= i < |parts[k]| ==> parts[k][i] != sep
  {
    if s == [] then [""]
    else
      var rest := Split(s[1..], sep);
      if s[0] == sep then [""] + rest else [[s[0]] + rest[0]] + rest[1..]
  }

  /** The first piece of a split is the text before the first separator
      (the whole text when there is none). */
  lemma {:induction false} SplitHead(s: string, sep: char, k: nat)
    requires k <= |s| && (k == |s| || s[k] == sep)
    requires forall i :: 0 <= i < k ==> s[i] != sep
    ensures Split(s, sep)[0] == s[..k]
    decreases |s|
  {
    if s != [] && s[0] != sep {
      SplitHead(s[1..], sep, k - 1);
      assert [s[0]] + s[1..][..k - 1] == s[..k];
    }
  }

  /** `parts.join(sep)`. */
  function Join(parts: seq<string>, sep: char): string
    requires |parts| >= 1
  {
    if |parts| == 1 then parts[0] else parts[0] + [sep] + Join(parts[1..], sep)
  }

  /** Splitting and joining again gives back the original text. */
  lemma {:induction false} SplitJoin(s: string, sep: char)
    ensures Join(Split(s, sep), sep) == s
  {
    if s != [] {
      var rest := Split(s[1..], sep);
      SplitJoin(s[1..], sep);
      if s[0] != sep {
        var parts := Split(s, sep);
        if |rest| == 1 {
          assert parts == [[s[0]] + rest[0]];
        } else {
          assert parts[1..] == rest[1..];
          assert Join(parts, sep) == [s[0]] + rest[0] + [sep] + Join(rest[1..], sep);
        }
      }
    }
  }

  /** `s.split(sep)[k]`, `None` (JavaScript's `undefined`) past the last piece. */
  function Piece(s: string, sep: char, k: nat): (r: Option<string>)
    ensures r.Some? <==> k < |Split(s, sep)|
  {
    var parts := Split(s, sep);
    if k < |parts| then Some(parts[k]) else None
  }

  // ---------------------------------------------------------------------------
  // Regular expressions over digits

  /** Four digits stand at position `i` of `s`. */
  predicate FourDigitsAt(s: string, i: int) {
    0 <= i <= |s| - 4 && AllDigits(s[i..i + 4])
  }

  /** `s.match(/\d{4}/)?.[0]`: the leftmost four consecutive digits. */
  function FirstFourDigits(s: string): (r: Option<string>)
    ensures r.Some? ==> exists i :: FourDigitsAt(s, i) && r.value == s[i..i + 4]
                                    && forall j :: 0 <= j < i ==> !FourDigitsAt(s, j)
    ensures r.None? <==> forall i :: !FourDigitsAt(s, i)
    decreases |s|
  {
    if |s| < 4 then None
    else if AllDigits(s[..4]) then
      assert FourDigitsAt(s, 0) && s[..4] == s[0..4];
      Some(s[..4])
    else
      var r := FirstFourDigits(s[1..]);
      assert forall i :: FourDigitsAt(s[1..], i) <==> FourDigitsAt(s, i + 1) by {
        forall i ensures FourDigitsAt(s[1..], i) <==> FourDigitsAt(s, i + 1) {
          if 0 <= i <= |s| - 5 { assert s[1..][i..i + 4] == s[i + 1..i + 5]; }
        }
      }
      assert !FourDigitsAt(s, 0) by { assert s[0..4] == s[..4]; }
      assert forall i :: FourDigitsAt(s, i) ==> i >= 1 && FourDigitsAt(s[1..], i - 1);
      if r.Some? then
        var i :| FourDigitsAt(s[1..], i) && r.value == s[1..][i..i + 4]
                 && forall j :: 0 <= j < i ==> !FourDigitsAt(s[1..], j);
        assert s[1..][i..i + 4] == s[i + 1..i + 5];
        assert FourDigitsAt(s, i + 1);
        r
      else r
  }

  /** `s.match(/\d+/g)`: the maximal runs of digits, left to right. */
  function DigitRuns(s: string): (runs: seq<string>)
    ensures forall k :: 0 <= k < |runs| ==> |runs[k]| > 0 && AllDigits(runs[k])
    decreases |s|
  {
    if s == [] then []
    else if !IsDigit(s[0]) then DigitRuns(s[1..])
    else
      var ds := LeadingDigits(s);
      [ds] + DigitRuns(s[|ds|..])
  }

  /** The leading digits are the one all-digit prefix that is followed by a
      non-digit or by the end of the text. */
  lemma {:induction false} LeadingDigitsUnique(s: string, d: string)
    requires |d| <= |s| && d == s[..|d|] && AllDigits(d)
    requires |d| < |s| ==> !IsDigit(s[|d|])
    ensures LeadingDigits(s) == d
    decreases |d|
  {
    if d != [] {
      assert s[0] == d[0];
      assert d[1..] == s[1..][..|d| - 1];
      LeadingDigitsUnique(s[1..], d[1..]);
      assert [d[0]] + d[1..] == d;
    }
  }

  /** A text without digits has no digit run. */
  lemma {:induction false} NoDigitsNoRuns(s: string)
    requires forall i :: 0 <= i < |s| ==> !IsDigit(s[i])
    ensures DigitRuns(s) == []
    decreases |s|
  {
    if s != [] {
      NoDigitsNoRuns(s[1..]);
    }
  }

  /** A non-empty text of digits is one run. */
  lemma AllDigitsOneRun(s: string)
    requires s != [] && AllDigits(s)
    ensures DigitRuns(s) == [s]
  {
    LeadingDigitsUnique(s, s);
    assert s[|s|..] == [];
  }

  /** Two texts that do not join two digits: the runs of the whole are the
      runs of the first part followed by those of the second. With
      `NoDigitsNoRuns` and `AllDigitsOneRun` this determines the runs of
      every text: the maximal runs of digits, left to right. */
  lemma {:induction false} DigitRunsAppend(a: string, b: string)
    requires a == [] || b == [] || !IsDigit(a[|a| - 1]) || !IsDigit(b[0])
    ensures DigitRuns(a + b) == DigitRuns(a) + DigitRuns(b)
    decreases |a|
  {
    var s := a + b;
    if a == [] {
      assert s == b;
    } else if !IsDigit(a[0]) {
      assert s[1..] == a[1..] + b;
      DigitRunsAppend(a[1..], b);
    } else {
      var d := LeadingDigits(a);
      if |d| == |a| {
        assert d == a;
        LeadingDigitsUnique(s, a);
        assert s[|a|..] == b;
        assert a[|a|..] == [];
      } else {
        assert !IsDigit(a[|d|]);
        LeadingDigitsUnique(s, d);
        assert s[|d|..] == a[|d|..] + b;
        DigitRunsAppend(a[|d|..], b);
      }
    }
  }

  /** `"2024.05.10".match(/\d+/g)` is `["2024", "05", "10"]`: a date written
      with dots between three digit groups has exactly those runs. */
  lemma DottedRuns(y: string, m: string, d: string)
    requires y != [] && m != [] && d != [] && AllDigits(y) && AllDigits(m) && AllDigits(d)
    ensures DigitRuns(y + "." + m + "." + d) == [y, m, d]
  {
    AllDigitsOneRun(y);
    AllDigitsOneRun(m);
    AllDigitsOneRun(d);
    NoDigitsNoRuns(".");
    DigitRunsAppend(y, ".");
    DigitRunsAppend(m, ".");
    DigitRunsAppend(y + ".", m + ".");
    assert y + "." + m + "." == (y + ".") + (m + ".");
    DigitRunsAppend(y + "." + m + ".", d);
  }

  // ---------------------------------------------------------------------------
  // Values and truthiness

  /** A property value as the pages see it: absent, a string or a number. */
  datatype Value = Undefined | Str(s: string) | Num(n: int)

  /** JavaScript truthiness: `undefined`, `""` and `0` are falsy. */
  predicate Truthy(v: Value) {
    match v
    case Undefined => false
    case Str(s) => s != ""
    case Num(n) => n != 0
  }

  /** `String(v)`. */
  function ToText(v: Value): string {
    match v
    case Undefined => "undefined"
    case Str(s) => s
    case Num(n) => IntToString(n)
  }

  /** What React renders for a value: nothing for `undefined`. */
  function Render(v: Value): string {
    if v.Undefined? then "" else ToText(v)
  }

  function OfOption(o: Option<string>): (v: Value)
    ensures v.Undefined? <==> o.None?
  {
    match o
    case Some(s) => Str(s)
    case None => Undefined
  }

  /** A string property taken as a condition: present and non-empty. */
  predicate Present(o: Option<string>) {
    o.Some? && o.value != ""
  }

  /** `a || b` on two string properties. */
  function OrElse(a: Option<string>, b: Option<string>): (r: Option<string>)
    ensures Present(r) <==> Present(a) || Present(b)
    ensures Present(a) ==> r == a
  {
    if Present(a) then a else b
  }

  /** `a || b` on two cell values (`undefined`, a string or a number). */
  function Or(a: Value, b: Value): (r: Value)
    ensures Truthy(r) <==> Truthy(a) || Truthy(b)
    ensures Truthy(a) ==> r == a
  {
    if Truthy(a) then a else b
  }
}
