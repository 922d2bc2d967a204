/** The string operations the sources use (`trim`, `toLowerCase`, `includes`, `split`,
    `parseInt`, `String(n)`, `padStart`), stated over `seq<char>`.
    Whitespace is JavaScript's set (the `WhiteSpace` and `LineTerminator` characters);
    case mapping covers the ASCII letters only. */
module JsText {
  import opened JsCore

  /** Characters removed by `String.prototype.trim` and matched by `\s`: tab, line
      feed, vertical tab, form feed, carriage return, space, no-break space, the
      Unicode space separators, the line and paragraph separators and the byte order
      mark. */
  predicate IsSpace(c: char) {
    c == ' ' || c == '\t' || c == '\n' || c == '\r' || c == '\U{000B}' || c == '\U{000C}'
    || c == '\U{00A0}' || c == '\U{FEFF}' || c == '\U{1680}' || '\U{2000}' <= c <= '\U{200A}'
    || c == '\U{2028}' || c == '\U{2029}' || c == '\U{202F}' || c == '\U{205F}' || c == '\U{3000}'
  }

  predicate AllSpace(s: string) {
    forall i :: 0 <= i < |s| ==> IsSpace(s[i])
  }

  /** `trimStart`: the longest suffix that does not start with whitespace. */
  function TrimStart(s: string): (r: string)
    ensures |r| <= |s| && r == s[|s| - |r|..]
    ensures AllSpace(s[..|s| - |r|])
    ensures r == [] || !IsSpace(r[0])
  {
    if |s| > 0 && IsSpace(s[0]) then
      var r := TrimStart(s[1..]);
      assert s[..|s| - |r|] == [s[0]] + s[1..][..|s| - 1 - |r|];
      r
    else s
  }

  /** `trimEnd`: the longest prefix that does not end with whitespace. */
  function TrimEnd(s: string): (r: string)
    ensures |r| <= |s| && r == s[..|r|]
    ensures AllSpace(s[|r|..])
    ensures r == [] || !IsSpace(r[|r| - 1])
  {
    if |s| > 0 && IsSpace(s[|s| - 1]) then
      var r := TrimEnd(s[..|s| - 1]);
      assert s[|r|..] == s[..|s| - 1][|r|..] + [s[|s| - 1]];
      r
    else s
  }

  /** `trim`: drop leading and trailing whitespace. */
  function Trim(s: string): string {
    TrimEnd(TrimStart(s))
  }

  /** A trimmed string is empty exactly when the input is all whitespace. */
  lemma TrimEmptyIff(s: string)
    ensures Trim(s) == [] <==> AllSpace(s)
  {
    var a := TrimStart(s);
    var p := s[..|s| - |a|];
    assert s == p + a;
    assert AllSpace(s) <==> AllSpace(a) by {
      assert forall i :: 0 <= i < |a| ==> a[i] == s[i + |p|];
      assert forall i :: 0 <= i < |s| ==> s[i] == if i < |p| then p[i] else a[i - |p|];
    }
    assert AllSpace(a) ==> a == [];
    assert a[0..] == a;
  }

  /** Trimming a trimmed string changes nothing. */
  lemma TrimIdempotent(s: string)
    ensures Trim(Trim(s)) == Trim(s)
  {
    var a := TrimStart(s);
    var t := TrimEnd(a);
    if |t| > 0 {
      assert t[0] == a[0];
    }
    assert TrimStart(t) == t;
  }

  /** `s?.trim() || null`. */
  function TrimOrNull(s: Option<string>): (r: Option<string>)
    ensures r.None? <==> s.None? || AllSpace(s.value)
    ensures r.Some? ==> r.value == Trim(s.value) && r.value != ""
  {
    if s.Some? then TrimEmptyIff(s.value); (if Trim(s.value) == "" then None else Some(Trim(s.value)))
    else None
  }

  /** `c === "none" ? null : c`: the countdown field as stored. */
  function NoneToNull(c: string): (r: Option<string>)
    ensures r.None? <==> c == "none"
    ensures r.Some? ==> r.value == c
  {
    if c == "none" then None else Some(c)
  }

  /** ASCII `toLowerCase` of one character. */
  function Lower(c: char): char {
    if 'A' <= c <= 'Z' then (c as int + 32) as char else c
  }

  /** ASCII `toUpperCase` of one character. */
  function Upper(c: char): char {
    if 'a' <= c <= 'z' then (c as int - 32) as char else c
  }

  function ToLower(s: string): (r: string)
    ensures |r| == |s| && forall i :: 0 <= i < |s| ==> r[i] == Lower(s[i])
  {
    if |s| == 0 then [] else [Lower(s[0])] + ToLower(s[1..])
  }

  function ToUpper(s: string): (r: string)
    ensures |r| == |s| && forall i :: 0 <= i < |s| ==> r[i] == Upper(s[i])
  {
    if |s| == 0 then [] else [Upper(s[0])] + ToUpper(s[1..])
  }

  /** A string without capitals is its own lower case. */
  lemma LowerNoUpper(s: string)
    requires forall i :: 0 <= i < |s| ==> !('A' <= s[i] <= 'Z')
    ensures ToLower(s) == s
  {
  }

  predicate StartsWith(s: string, t: string) {
    |t| <= |s| && s[..|t|] == t
  }

  /** `s.includes(t)`. */
  predicate Contains(s: string, t: string)
    decreases |s|
  {
    StartsWith(s, t) || (|s| > 0 && Contains(s[1..], t))
  }

  /** `includes` holds exactly when `t` occurs at some position of `s`. */
  lemma {:induction false} ContainsAt(s: string, t: string, i: nat)
    requires i + |t| <= |s| && s[i..i + |t|] == t
    ensures Contains(s, t)
    decreases i
  {
    if i == 0 {
      assert s[..|t|] == s[0..|t|];
    } else {
      assert s[1..][i - 1..i - 1 + |t|] == s[i..i + |t|];
      ContainsAt(s[1..], t, i - 1);
    }
  }

  lemma {:induction false} ContainsWitness(s: string, t: string) returns (i: nat)
    requires Contains(s, t)
    ensures i + |t| <= |s| && s[i..i + |t|] == t
    decreases |s|
  {
    if StartsWith(s, t) {
      i := 0;
      assert s[0..|t|] == s[..|t|];
    } else {
      var j := ContainsWitness(s[1..], t);
      i := j + 1;
      assert s[i..i + |t|] == s[1..][j..j + |t|];
    }
  }

  /** When the first character of `t` does not occur in `p`, `t` occurs in `p + u`
      exactly when it occurs in `u`. */
  lemma ContainsAfter(p: string, u: string, t: string)
    requires |t| > 0 && forall i :: 0 <= i < |p| ==> p[i] != t[0]
    ensures Contains(p + u, t) <==> Contains(u, t)
  {
    var s := p + u;
    if Contains(s, t) {
      var i := ContainsWitness(s, t);
      assert s[i] == t[0];
      assert i >= |p|;
      assert u[i - |p|..i - |p| + |t|] == s[i..i + |t|];
      ContainsAt(u, t, i - |p|);
    }
    if Contains(u, t) {
      var j := ContainsWitness(u, t);
      assert s[j + |p|..j + |p| + |t|] == u[j..j + |t|];
      ContainsAt(s, t, j + |p|);
    }
  }

  lemma {:induction false} ToLowerConcat(a: string, b: string)
    ensures ToLower(a + b) == ToLower(a) + ToLower(b)
  {
    if |a| == 0 {
      assert a + b == b;
    } else {
      assert (a + b)[1..] == a[1..] + b;
      ToLowerConcat(a[1..], b);
    }
  }

  /** `String(n)` / `toString()` of a natural number, in decimal. */
  predicate IsDigit(c: char) {
    '0' <= c <= '9'
  }

  predicate AllDigits(s: string) {
    forall i :: 0 <= i < |s| ==> IsDigit(s[i])
  }

  function DigitChar(d: nat): char
    requires d < 10
  {
    ('0' as int + d) as char
  }

  function DigitVal(c: char): nat
    requires IsDigit(c)
  {
    c as int - '0' as int
  }

  /** The value of a string of decimal digits (`parseInt` on digits only). */
  function DecValue(ds: string): nat
    requires AllDigits(ds)
  {
    if |ds| == 0 then 0 else DecValue(ds[..|ds| - 1]) * 10 + DigitVal(ds[|ds| - 1])
  }

  function NatToString(n: nat): (r: string)
    ensures |r| > 0 && AllDigits(r)
  {
    if n < 10 then [DigitChar(n)] else NatToString(n / 10) + [DigitChar(n % 10)]
  }

  /** Printing a number and reading it back gives the number. */
  lemma {:induction false} DecRoundTrip(n: nat)
    ensures DecValue(NatToString(n)) == n
  {
    var r := NatToString(n);
    if n >= 10 {
      DecRoundTrip(n / 10);
      assert r[..|r| - 1] == NatToString(n / 10);
    }
  }

  /** `String(n)` for an integer. */
  function IntToString(n: int): string {
    if n < 0 then "-" + NatToString(-n) else NatToString(n)
  }

  /** `s.replace(/\D/g, '')`: the digits of `s`, in order. */
  function KeepDigits(s: string): (r: string)
    ensures AllDigits(r) && |r| <= |s|
  {
    if |s| == 0 then []
    else if IsDigit(s[0]) then [s[0]] + KeepDigits(s[1..])
    else KeepDigits(s[1..])
  }

  lemma {:induction false} KeepDigitsConcat(a: string, b: string)
    ensures KeepDigits(a + b) == KeepDigits(a) + KeepDigits(b)
  {
    if |a| == 0 {
      assert a + b == b;
    } else {
      assert (a + b)[0] == a[0] && (a + b)[1..] == a[1..] + b;
      KeepDigitsConcat(a[1..], b);
    }
  }

  lemma {:induction false} KeepDigitsAll(s: string)
    requires AllDigits(s)
    ensures KeepDigits(s) == s
  {
    if |s| > 0 {
      KeepDigitsAll(s[1..]);
      assert [s[0]] + s[1..] == s;
    }
  }

  lemma {:induction false} NoDigitsKept(s: string)
    requires forall i :: 0 <= i < |s| ==> !IsDigit(s[i])
    ensures KeepDigits(s) == ""
  {
    if |s| > 0 {
      NoDigitsKept(s[1..]);
    }
  }

  /** `parseInt` of a string of digits only: `NaN` when empty, else its value. */
  lemma ParseDigits(ds: string)
    requires AllDigits(ds)
    ensures ds == [] ==> ParseIntJs(ds) == NaN
    ensures ds != [] ==> ParseIntJs(ds) == Int(DecValue(ds))
  {
    if ds != [] {
      assert !IsSpace(ds[0]) && ds[0] != '-' && ds[0] != '+';
      assert TrimStart(ds) == ds;
      DigitPrefixAll(ds);
    }
  }

  /** The longest prefix of `s` made of digits. */
  function DigitPrefix(s: string): (r: string)
    ensures AllDigits(r) && StartsWith(s, r)
    ensures |r| < |s| ==> !IsDigit(s[|r|])
  {
    if |s| > 0 && IsDigit(s[0]) then [s[0]] + DigitPrefix(s[1..]) else []
  }

  /** `parseInt(s)` in base 10: skip leading whitespace, an optional sign, then the
      longest run of digits; `NaN` when there is none. */
  function ParseIntJs(s: string): Num {
    var t := TrimStart(s);
    var neg := |t| > 0 && t[0] == '-';
    var body := if |t| > 0 && (t[0] == '-' || t[0] == '+') then t[1..] else t;
    var ds := DigitPrefix(body);
    if |ds| == 0 then NaN else Int(if neg then -(DecValue(ds) as int) else DecValue(ds) as int)
  }

  /** `parseInt` of a decimal numeral reads its value back. */
  lemma {:induction false} ParseIntOfNumeral(n: nat)
    ensures ParseIntJs(NatToString(n)) == Int(n)
  {
    var s := NatToString(n);
    assert !IsSpace(s[0]);
    assert TrimStart(s) == s;
    assert s[0] != '-' && s[0] != '+';
    DigitPrefixAll(s);
    DecRoundTrip(n);
  }

  lemma {:induction false} DigitPrefixAll(s: string)
    requires AllDigits(s)
    ensures DigitPrefix(s) == s
  {
    if |s| > 0 {
      DigitPrefixAll(s[1..]);
    }
  }

  /** `s.padStart(2, '0')`. */
  function PadStart2(s: string): (r: string)
    ensures |s| >= 2 ==> r == s
    ensures |s| < 2 ==> |r| == 2 && r[2 - |s|..] == s
  {
    if |s| >= 2 then s else if |s| == 1 then "0" + s else "00"
  }

  /** `s.split(c)`: the pieces between occurrences of `c`. */
  function SplitOn(s: string, c: char): (parts: seq<string>)
    ensures |parts| >= 1
    ensures forall k, i :: 0 <= k < |parts| && 0 <= i < |parts[k]| ==> parts[k][i] != c
  {
    if |s| == 0 then [""]
    else
      var rest := SplitOn(s[1..], c);
      if s[0] == c then [""] + rest
      else [[s[0]] + rest[0]] + rest[1..]
  }

  /** A string without the separator splits into itself. */
  lemma {:induction false} NoSeparatorSplit(s: string, c: char)
    requires forall i :: 0 <= i < |s| ==> s[i] != c
    ensures SplitOn(s, c) == [s]
  {
    if |s| > 0 {
      NoSeparatorSplit(s[1..], c);
      assert [s[0]] + s[1..] == s;
    }
  }

  /** `last` ends `s`, and unless it is all of `s` a separator comes just before it. */
  predicate EndPiece(s: string, last: string, c: char) {
    |last| <= |s| && s[|s| - |last|..] == last && (|last| < |s| ==> s[|s| - |last| - 1] == c)
  }

  /** What `LastPiece` states about the pieces of `s`. */
  predicate LastPieceFacts(s: string, c: char) {
    var parts := SplitOn(s, c);
    EndPiece(s, parts[|parts| - 1], c) &&
    (|parts| == 1 ==> parts[0] == s) &&
    (|parts| > 1 ==> |parts[|parts| - 1]| < |s|)
  }

  /** The last piece is the end of the string: everything after the last separator,
      or the whole string when there is none. */
  lemma {:induction false} LastPiece(s: string, c: char)
    ensures LastPieceFacts(s, c)
    decreases |s|
  {
    if |s| > 0 {
      LastPiece(s[1..], c);
      var rest := SplitOn(s[1..], c);
      if s[0] == c || |rest| > 1 {
        SeveralPiecesStep(s, c);
      } else {
        OnePieceStep(s, c);
      }
    }
  }

  /** The step of `LastPiece` when the last piece of `s` is that of its tail. */
  lemma SeveralPiecesStep(s: string, c: char)
    requires |s| > 0 && LastPieceFacts(s[1..], c)
    requires s[0] == c || |SplitOn(s[1..], c)| > 1
    ensures LastPieceFacts(s, c)
  {
    var parts, rest := SplitOn(s, c), SplitOn(s[1..], c);
    var last := rest[|rest| - 1];
    assert EndPiece(s[1..], last, c);
    assert |last| < |s| - 1 || s[0] == c;
    LastOfCons(s, c);
    assert parts[|parts| - 1] == last;
    EndPieceCons(s, last, c);
  }

  /** The step of `LastPiece` when `s` is one piece. */
  lemma OnePieceStep(s: string, c: char)
    requires |s| > 0 && LastPieceFacts(s[1..], c)
    requires s[0] != c && |SplitOn(s[1..], c)| == 1
    ensures LastPieceFacts(s, c)
  {
    var rest := SplitOn(s[1..], c);
    assert rest == [rest[0]];
    OnePieceCons(s, c);
    assert [s][0][|s| - |s|..] == s;
  }

  /** Without a separator first and with one piece after it, `s` is one piece. */
  lemma OnePieceCons(s: string, c: char)
    requires |s| > 0 && s[0] != c
    requires SplitOn(s[1..], c) == [s[1..]]
    ensures SplitOn(s, c) == [s]
  {
    assert [s[0]] + s[1..] == s;
  }

  /** With a separator first or several pieces after the first character, the last
      piece of `s` is the last piece of its tail. */
  lemma LastOfCons(s: string, c: char)
    requires |s| > 0
    requires s[0] == c || |SplitOn(s[1..], c)| > 1
    ensures var parts := SplitOn(s, c); var rest := SplitOn(s[1..], c);
      |parts| > 1 && parts[|parts| - 1] == rest[|rest| - 1]
  {
  }

  lemma EndPieceCons(s: string, last: string, c: char)
    requires |s| > 0 && EndPiece(s[1..], last, c)
    requires |last| < |s| - 1 || s[0] == c
    ensures EndPiece(s, last, c)
  {
    SuffixOfTail(s, |last|);
  }

  lemma SuffixOfTail(s: string, k: nat)
    requires 0 < |s| && k <= |s| - 1
    ensures s[1..][|s| - 1 - k..] == s[|s| - k..]
    ensures k < |s| - 1 ==> s[1..][|s| - 1 - k - 1] == s[|s| - k - 1]
  {
  }

  /** The piece before the first separator comes first. */
  lemma {:induction false} SplitFirst(a: string, c: char, b: string)
    requires forall i :: 0 <= i < |a| ==> a[i] != c
    ensures SplitOn(a + [c] + b, c) == [a] + SplitOn(b, c)
  {
    if |a| == 0 {
      assert a + [c] + b == [c] + b;
      assert ([c] + b)[1..] == b;
    } else {
      var s := a + [c] + b;
      assert s[0] == a[0] && s[1..] == a[1..] + [c] + b;
      SplitFirst(a[1..], c, b);
      assert [a[0]] + a[1..] == a;
    }
  }

  /** `parts.join(c)`. */
  function Join(parts: seq<string>, c: char): string
    requires |parts| >= 1
  {
    if |parts| == 1 then parts[0] else parts[0] + [c] + Join(parts[1..], c)
  }

  /** Joining pieces that do not contain the separator and splitting again gives the
      pieces back. */
  lemma {:induction false} SplitOfJoin(parts: seq<string>, c: char)
    requires |parts| >= 1
    requires forall k, i :: 0 <= k < |parts| && 0 <= i < |parts[k]| ==> parts[k][i] != c
    ensures SplitOn(Join(parts, c), c) == parts
    decreases |parts|
  {
    if |parts| == 1 {
      NoSeparatorSplit(parts[0], c);
    } else {
      SplitOfJoin(parts[1..], c);
      SplitFirst(parts[0], c, Join(parts[1..], c));
    }
  }

  /** Splitting and joining on the same character gives back the string. */
  lemma {:induction false} SplitJoin(s: string, c: char)
    ensures Join(SplitOn(s, c), c) == s
  {
    if |s| > 0 {
      SplitJoin(s[1..], c);
      var rest := SplitOn(s[1..], c);
      if s[0] != c {
        var parts := SplitOn(s, c);
        if |rest| == 1 {
          assert parts == [[s[0]] + rest[0]];
        } else {
          assert parts[1..] == rest[1..];
          assert Join(parts, c) == [s[0]] + rest[0] + [c] + Join(rest[1..], c);
        }
      }
    }
  }
}
