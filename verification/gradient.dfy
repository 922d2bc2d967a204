/** The background gradient helpers the wall option dialogs share
    (`applyBrightnessToGradient` and `buildGradient`): a four-stop CSS
    `linear-gradient` whose two middle stops carry an alpha byte, and a brightness
    that scales every `#rrggbbaa` alpha. Brightness is a whole percentage. */
module Gradient {
  import opened JsCore
  import opened JsText
  import Lists

  /* ------------------------------------------------------------------ hex bytes */

  /** `\w`: ASCII letters, digits and `_`. */
  predicate IsWord(c: char) {
    'a' <= c <= 'z' || 'A' <= c <= 'Z' || '0' <= c <= '9' || c == '_'
  }

  predicate AllWord(s: string) {
    forall i :: 0 <= i < |s| ==> IsWord(s[i])
  }

  /** `/(#\w{6})(\w{2})/` matches at the front of `s`. */
  predicate Matches(s: string) {
    |s| >= 9 && s[0] == '#' && AllWord(s[1..9])
  }

  predicate IsHexDigit(c: char) {
    '0' <= c <= '9' || 'a' <= c <= 'f' || 'A' <= c <= 'F'
  }

  function HexVal(c: char): (v: nat)
    requires IsHexDigit(c)
    ensures v < 16
  {
    if '0' <= c <= '9' then c as int - '0' as int
    else if 'a' <= c <= 'f' then c as int - 'a' as int + 10
    else c as int - 'A' as int + 10
  }

  /** The lower-case hex digit of `d`. */
  function HexDigit(d: nat): (c: char)
    requires d < 16
    ensures IsHexDigit(c) && IsWord(c) && HexVal(c) == d
  {
    if d < 10 then ('0' as int + d) as char else ('a' as int + d - 10) as char
  }

  /** `n.toString(16).padStart(2, '0')` for a byte. */
  function Hex2(n: nat): (s: string)
    requires n < 256
    ensures |s| == 2 && AllWord(s)
  {
    [HexDigit(n / 16), HexDigit(n % 16)]
  }

  /** `parseInt(a, 16)` of a two-character `\w\w` alpha: a leading `0x` is a prefix and
      leaves no digits; otherwise the hex digits at the front are read. */
  function ParseAlpha(a: string): Num
    requires |a| == 2
  {
    if a[0] == '0' && (a[1] == 'x' || a[1] == 'X') then NaN
    else if !IsHexDigit(a[0]) then NaN
    else if !IsHexDigit(a[1]) then Int(HexVal(a[0]))
    else Int(16 * HexVal(a[0]) + HexVal(a[1]))
  }

  /** Printing a byte and parsing it back gives the byte. */
  lemma HexRoundTrip(n: nat)
    requires n < 256
    ensures ParseAlpha(Hex2(n)) == Int(n)
  {
    assert Hex2(n)[0] == HexDigit(n / 16) && Hex2(n)[1] == HexDigit(n % 16);
  }

  /* ------------------------------------------------------------------ brightness */

  /** `Math.round(clamp(base * (brightness / 100), 0, 255))`, with the product taken as
      an exact fraction: the integer nearest to `base * brightness / 100`, halves rounded
      up, clamped to a byte. */
  function Scale(base: int, brightness: int): (r: int)
    ensures 0 <= r <= 255
    ensures base * brightness <= 0 ==> r == 0
    ensures base * brightness >= 25500 ==> r == 255
    ensures 0 < base * brightness < 25500 ==> 100 * r - 50 <= base * brightness < 100 * r + 50
  {
    var v := base * brightness;
    if v <= 0 then 0 else if v >= 25500 then 255 else (2 * v + 100) / 200
  }

  /** Brightness 100 keeps every byte. */
  lemma ScaleFull(base: int)
    requires 0 <= base <= 255
    ensures Scale(base, 100) == base
  {
    assert base * 100 == 100 * base;
    if 0 < base < 255 {
      assert (2 * (100 * base) + 100) / 200 == base by {
        assert 2 * (100 * base) + 100 == 200 * base + 100;
      }
    }
  }

  /** Brighter never means more transparent. */
  lemma ScaleMonotone(base: int, b1: int, b2: int)
    requires 0 <= base && b1 <= b2
    ensures Scale(base, b1) <= Scale(base, b2)
  {
    assert base * b1 <= base * b2 by {
      assert base * (b2 - b1) >= 0;
    }
  }

  /** The replacement alpha: `Math.round(NaN)` prints as `NaN`. */
  function AlphaOut(a: string, brightness: int): (r: string)
    requires |a| == 2
    ensures ParseAlpha(a).Int? ==> r == Hex2(Scale(ParseAlpha(a).i, brightness))
    ensures ParseAlpha(a).NaN? ==> r == "NaN"
  {
    match ParseAlpha(a)
    case NaN => "NaN"
    case Int(v) => Hex2(Scale(v, brightness))
  }

  /** `s.replace(/(#\w{6})(\w{2})/g, ...)`: scan left to right; at a `#` followed by
      eight word characters, keep `#` and the six colour characters, replace the two
      alpha characters, and continue after them. */
  function Rewrite(s: string, brightness: int): string
    decreases |s|
  {
    if |s| < 9 then s
    else if Matches(s) then s[..7] + AlphaOut(s[7..9], brightness) + Rewrite(s[9..], brightness)
    else [s[0]] + Rewrite(s[1..], brightness)
  }

  /** `applyBrightnessToGradient`: anything that is not a `linear-gradient` is returned
      as it is. */
  function ApplyBrightness(g: string, brightness: int): (r: string)
    ensures !Contains(g, "linear-gradient") ==> r == g
  {
    if Contains(g, "linear-gradient") then Rewrite(g, brightness) else g
  }

  /* ------------------------------------------------------------------ tokens */

  predicate NoHash(s: string) {
    forall i :: 0 <= i < |s| ==> s[i] != '#'
  }

  /** What `Rewrite` does to one token followed by a space. */
  function RewriteToken(t: string, brightness: int): string {
    if Matches(t) then t[..7] + AlphaOut(t[7..9], brightness) + t[9..]
    else t
  }

  lemma {:induction false} RewriteNoHash(t: string, rest: string, b: int)
    requires NoHash(t)
    ensures Rewrite(t + rest, b) == t + Rewrite(rest, b)
    decreases |t|
  {
    if |t| > 0 {
      var s := t + rest;
      if |s| >= 9 {
        assert s[0] == t[0] && s[1..] == t[1..] + rest;
        assert NoHash(t[1..]) by {
          forall i | 0 <= i < |t| - 1 ensures t[1..][i] != '#' {
            assert t[1..][i] == t[i + 1];
          }
        }
        RewriteNoHash(t[1..], rest, b);
        assert t[0] != '#';
        assert Rewrite(s, b) == [t[0]] + Rewrite(t[1..] + rest, b);
        assert t == [t[0]] + t[1..];
      } else {
        assert Rewrite(rest, b) == rest;
      }
    } else {
      assert t + rest == rest;
    }
  }

  /** A token with `#` at most in front, followed by a non-word character or nothing,
      is rewritten on its own. */
  lemma RewriteOneToken(t: string, rest: string, b: int)
    requires |t| > 0 && NoHash(t[1..])
    requires rest == [] || !IsWord(rest[0])
    ensures Rewrite(t + rest, b) == RewriteToken(t, b) + Rewrite(rest, b)
  {
    if t[0] != '#' {
      RewriteNoHash(t, rest, b);
    } else if Matches(t) {
      RewriteMatch(t, rest, b);
    } else {
      RewriteNoMatch(t, rest, b);
    }
  }

  lemma RewriteMatch(t: string, rest: string, b: int)
    requires Matches(t) && NoHash(t[1..])
    ensures Rewrite(t + rest, b) == RewriteToken(t, b) + Rewrite(rest, b)
  {
    var s := t + rest;
    assert s[..7] == t[..7] && s[7..9] == t[7..9] && s[..9] == t[..9];
    assert s[9..] == t[9..] + rest;
    assert NoHash(t[9..]) by {
      forall i | 0 <= i < |t| - 9 ensures t[9..][i] != '#' {
        assert t[9..][i] == t[1..][i + 8];
      }
    }
    RewriteNoHash(t[9..], rest, b);
    var x, y := t[..7], AlphaOut(t[7..9], b);
    assert Rewrite(s, b) == x + y + (t[9..] + Rewrite(rest, b));
    assert RewriteToken(t, b) == x + y + t[9..];
  }

  lemma RewriteNoMatch(t: string, rest: string, b: int)
    requires |t| > 0 && t[0] == '#' && NoHash(t[1..]) && !Matches(t)
    requires rest == [] || !IsWord(rest[0])
    ensures Rewrite(t + rest, b) == RewriteToken(t, b) + Rewrite(rest, b)
  {
    var s := t + rest;
    Unmatched(t, b);
    if |s| < 9 {
      ShortUnchanged(s, b);
      ShortUnchanged(rest, b);
    } else {
      if |t| >= 9 {
        MatchesPrefix(s, t);
      } else {
        assert s[|t|] == rest[0];
        NotMatchesAt(s, |t|);
      }
      calc {
        Rewrite(s, b);
        { RewriteSkip(s, b); }
        [s[0]] + Rewrite(s[1..], b);
        { assert s[1..] == t[1..] + rest; RewriteNoHash(t[1..], rest, b); }
        [t[0]] + (t[1..] + Rewrite(rest, b));
        { assert [t[0]] + t[1..] == t; }
        t + Rewrite(rest, b);
      }
    }
  }

  /** A token that does not match is its own rewrite. */
  lemma Unmatched(t: string, b: int)
    requires !Matches(t)
    ensures RewriteToken(t, b) == t
  {
  }

  /** Fewer than nine characters cannot hold a match. */
  lemma ShortUnchanged(s: string, b: int)
    requires |s| < 9
    ensures Rewrite(s, b) == s
  {
  }

  /** Without a match at the front, the scan keeps the first character and moves on. */
  lemma RewriteSkip(s: string, b: int)
    requires |s| >= 9 && !Matches(s)
    ensures Rewrite(s, b) == [s[0]] + Rewrite(s[1..], b)
  {
  }

  /** Only the first nine characters decide a match. */
  lemma MatchesPrefix(s: string, t: string)
    requires |s| >= 9 && |t| >= 9 && s[..9] == t[..9]
    ensures Matches(s) == Matches(t)
  {
    assert s[0] == s[..9][0] && t[0] == t[..9][0];
    assert s[1..9] == s[..9][1..] && t[1..9] == t[..9][1..];
  }

  /** A non-word character among the eight after the `#` rules a match out. */
  lemma NotMatchesAt(s: string, k: nat)
    requires 1 <= k <= 8 && k < |s| && !IsWord(s[k])
    ensures !Matches(s)
  {
    if |s| >= 9 {
      assert s[1..9][k - 1] == s[k];
    }
  }

  /** A token that does not start with `#` is left alone. */
  lemma Plain(t: string, b: int)
    requires |t| > 0 && t[0] != '#'
    ensures RewriteToken(t, b) == t
  {
  }

  /** `" " + t0 + " " + t1 + ... + " "`: a token list as the collapsed template spells it. */
  function SpacedJoin(ts: seq<string>): string {
    if |ts| == 0 then " " else " " + ts[0] + SpacedJoin(ts[1..])
  }

  function RewriteAll(ts: seq<string>, b: int): (r: seq<string>)
    ensures |r| == |ts| && forall i :: 0 <= i < |ts| ==> r[i] == RewriteToken(ts[i], b)
  {
    if |ts| == 0 then [] else [RewriteToken(ts[0], b)] + RewriteAll(ts[1..], b)
  }

  predicate CleanToken(t: string) {
    |t| > 0 && NoHash(t[1..]) && forall i :: 0 <= i < |t| ==> !IsSpace(t[i])
  }

  predicate AllClean(ts: seq<string>) {
    forall i :: 0 <= i < |ts| ==> CleanToken(ts[i])
  }

  /** On a spaced token list, the scan rewrites token by token. */
  lemma {:induction false} RewriteSpaced(ts: seq<string>, b: int)
    requires AllClean(ts)
    ensures Rewrite(SpacedJoin(ts), b) == SpacedJoin(RewriteAll(ts, b))
  {
    if |ts| > 0 {
      var rest := SpacedJoin(ts[1..]);
      var u := RewriteToken(ts[0], b);
      assert CleanToken(ts[0]);
      assert AllClean(ts[1..]) by {
        forall i | 0 <= i < |ts[1..]| ensures CleanToken(ts[1..][i]) {
          assert ts[1..][i] == ts[i + 1];
        }
      }
      calc {
        Rewrite(SpacedJoin(ts), b);
        { SpacedCons(ts[0], ts[1..]); assert ts == [ts[0]] + ts[1..]; }
        Rewrite(" " + (ts[0] + rest), b);
        { RewriteNoHash(" ", ts[0] + rest, b); }
        " " + Rewrite(ts[0] + rest, b);
        { assert rest[0] == ' '; RewriteOneToken(ts[0], rest, b); }
        " " + (u + Rewrite(rest, b));
        { RewriteSpaced(ts[1..], b); }
        " " + (u + SpacedJoin(RewriteAll(ts[1..], b)));
        { SpacedCons(u, RewriteAll(ts[1..], b)); }
        SpacedJoin([u] + RewriteAll(ts[1..], b));
      }
    }
  }

  lemma SpacedCons(t: string, ts: seq<string>)
    ensures SpacedJoin([t] + ts) == " " + (t + SpacedJoin(ts))
  {
    assert ([t] + ts)[1..] == ts;
  }

  /* ------------------------------------------------------------------ whitespace */

  /** `s.replace(/\s+/g, ' ')`. */
  function Collapse(s: string): string
    decreases |s|
  {
    if |s| == 0 then []
    else if IsSpace(s[0]) then
      var t := TrimStart(s);
      assert s[0..] == s;
      assert |t| < |s|;
      [' '] + Collapse(t)
    else [s[0]] + Collapse(s[1..])
  }

  lemma {:induction false} TrimStartRun(w: string, rest: string)
    requires AllSpace(w)
    requires rest == [] || !IsSpace(rest[0])
    ensures TrimStart(w + rest) == rest
    decreases |w|
  {
    if |w| > 0 {
      assert (w + rest)[1..] == w[1..] + rest;
      TrimStartRun(w[1..], rest);
    } else {
      assert w + rest == rest;
    }
  }

  lemma {:induction false} CollapseWord(t: string, rest: string)
    requires forall i :: 0 <= i < |t| ==> !IsSpace(t[i])
    ensures Collapse(t + rest) == t + Collapse(rest)
    decreases |t|
  {
    if |t| > 0 {
      assert (t + rest)[0] == t[0] && (t + rest)[1..] == t[1..] + rest;
      CollapseWord(t[1..], rest);
    } else {
      assert t + rest == rest;
    }
  }

  /** The template literal: whitespace runs `ws` around the tokens `ts`. */
  function RawJoin(ws: seq<string>, ts: seq<string>): string
    requires |ws| == |ts| + 1
  {
    if |ts| == 0 then ws[0] else ws[0] + ts[0] + RawJoin(ws[1..], ts[1..])
  }

  predicate AllRuns(ws: seq<string>) {
    forall i :: 0 <= i < |ws| ==> |ws[i]| > 0 && AllSpace(ws[i])
  }

  /** Collapsing the template literal leaves one space between tokens. */
  lemma {:induction false} CollapseRaw(ws: seq<string>, ts: seq<string>)
    requires |ws| == |ts| + 1 && AllRuns(ws) && AllClean(ts)
    ensures Collapse(RawJoin(ws, ts)) == SpacedJoin(ts)
  {
    var w := ws[0];
    if |ts| == 0 {
      TrimStartRun(w, []);
      assert w + [] == w;
    } else {
      var rest := RawJoin(ws[1..], ts[1..]);
      var s := w + (ts[0] + rest);
      assert RawJoin(ws, ts) == s;
      assert (ts[0] + rest)[0] == ts[0][0];
      TrimStartRun(w, ts[0] + rest);
      assert s[0] == w[0];
      CollapseWord(ts[0], rest);
      CollapseRaw(ws[1..], ts[1..]);
    }
  }

  /* ------------------------------------------------------------------ buildGradient */

  /** A picker colour: `#` and six word characters. */
  predicate ColourLike(c: string) {
    |c| == 7 && c[0] == '#' && AllWord(c[1..])
  }

  /** The template's tokens; `a1` and `a2` are the alphas of the two middle stops. */
  function Tokens(start: string, end: string, pos: int, a1: string, a2: string): seq<string> {
    var mid2 := if pos + 15 < 100 then pos + 15 else 100;
    ["linear-gradient(", "135deg,", start, "0%,", start + a1, IntToString(pos) + "%,",
     end + a2, IntToString(mid2) + "%,", end, "100%", ")"]
  }

  /** The whitespace runs of the template literal, line breaks and indentation included. */
  function TemplateRuns(): seq<string> {
    ["\n    ", "\n      ", "\n      ", " ", "\n      ", " ", "\n      ", " ", "\n      ", " ", "\n    ", "\n  "]
  }

  /** `buildGradient(start, end, pos, brightness)`: fill the template, collapse its
      whitespace, apply the brightness. */
  function BuildGradient(start: string, end: string, pos: int, brightness: int): string {
    ApplyBrightness(Collapse(RawJoin(TemplateRuns(), Tokens(start, end, pos, "cc", "99"))), brightness)
  }

  lemma NumeralClean(n: int)
    ensures CleanToken(IntToString(n) + "%,")
  {
    var p := if n < 0 then -n else n;
    var d := NatToString(p);
    var t := IntToString(n) + "%,";
    assert forall i :: 0 <= i < |d| ==> IsDigit(d[i]);
    forall i | 0 <= i < |t| ensures !IsSpace(t[i]) && (i > 0 ==> t[i] != '#') {
      if n < 0 {
        assert t == "-" + d + "%,";
      } else {
        assert t == d + "%,";
      }
    }
  }

  /** A picker colour and a picker colour with a word-character alpha are clean tokens. */
  lemma ColourClean(c: string, a: string)
    requires ColourLike(c) && AllWord(a)
    ensures CleanToken(c) && CleanToken(c + a)
  {
    var t := c + a;
    forall i | 0 <= i < |t| ensures !IsSpace(t[i]) && (i > 0 ==> t[i] != '#') {
      if 0 < i < 7 {
        assert t[i] == c[1..][i - 1];
      } else if i >= 7 {
        assert t[i] == a[i - 7];
      }
    }
    forall i | 0 <= i < |c| ensures !IsSpace(c[i]) && (i > 0 ==> c[i] != '#') {
      assert c[i] == t[i];
    }
  }

  lemma TokensClean(start: string, end: string, pos: int, a1: string, a2: string)
    requires ColourLike(start) && ColourLike(end) && |a1| == 2 && |a2| == 2 && AllWord(a1) && AllWord(a2)
    ensures AllClean(Tokens(start, end, pos, a1, a2))
  {
    var mid2 := if pos + 15 < 100 then pos + 15 else 100;
    NumeralClean(pos);
    NumeralClean(mid2);
    ColourClean(start, a1);
    ColourClean(end, a2);
    FixedClean("linear-gradient(");
    FixedClean("135deg,");
    FixedClean("0%,");
    FixedClean("100%");
    FixedClean(")");
    var ts := Tokens(start, end, pos, a1, a2);
    forall i | 0 <= i < |ts| ensures CleanToken(ts[i]) {
    }
  }

  lemma FixedClean(t: string)
    requires t == "linear-gradient(" || t == "135deg," || t == "0%," || t == "100%" || t == ")"
    ensures CleanToken(t)
  {
    assert forall i :: 0 <= i < |t| ==> t[i] != '#' && !IsSpace(t[i]);
    assert NoHash(t[1..]) by {
      forall i | 0 <= i < |t[1..]| ensures t[1..][i] != '#' {
        assert t[1..][i] == t[i + 1];
      }
    }
  }

  /** Rewriting the template's tokens touches only the two alpha stops. */
  lemma RewriteTokens(start: string, end: string, pos: int, a1: string, a2: string, b: int)
    requires ColourLike(start) && ColourLike(end) && |a1| == 2 && |a2| == 2 && AllWord(a1) && AllWord(a2)
    ensures RewriteAll(Tokens(start, end, pos, a1, a2), b)
         == Tokens(start, end, pos, AlphaOut(a1, b), AlphaOut(a2, b))
  {
    var mid2 := if pos + 15 < 100 then pos + 15 else 100;
    var p1, p2 := IntToString(pos) + "%,", IntToString(mid2) + "%,";
    var f := (t: string) => RewriteToken(t, b);
    RewriteAllIsMap(Tokens(start, end, pos, a1, a2), b);
    Map11(f, "linear-gradient(", "135deg,", start, "0%,", start + a1, p1, end + a2, p2, end, "100%", ")");
    RewriteColour(start, a1, b);
    RewriteColour(end, a2, b);
    NumeralPlain(pos, b);
    NumeralPlain(mid2, b);
    Plain("linear-gradient(", b);
    Plain("135deg,", b);
    Plain("0%,", b);
    Plain("100%", b);
    Plain(")", b);
  }

  /** `RewriteAll` is the map of `RewriteToken`. */
  lemma RewriteAllIsMap(ts: seq<string>, b: int)
    ensures RewriteAll(ts, b) == Lists.Map(ts, (t: string) => RewriteToken(t, b))
  {
  }

  /** A map over an eleven-element list, element by element. */
  lemma Map11<T, U>(f: T -> U, t0: T, t1: T, t2: T, t3: T, t4: T, t5: T, t6: T, t7: T, t8: T, t9: T, t10: T)
    ensures Lists.Map([t0, t1, t2, t3, t4, t5, t6, t7, t8, t9, t10], f) ==
      [f(t0), f(t1), f(t2), f(t3), f(t4), f(t5), f(t6), f(t7), f(t8), f(t9), f(t10)]
  {
  }

  /** A numeral token starts with a digit or `-`, so the scan leaves it alone. */
  lemma NumeralPlain(n: int, b: int)
    ensures RewriteToken(IntToString(n) + "%,", b) == IntToString(n) + "%,"
  {
    var t := IntToString(n) + "%,";
    if n >= 0 {
      assert t[0] == NatToString(n)[0];
    }
    Plain(t, b);
  }

  /** A picker colour alone is too short to match; with an alpha appended it matches. */
  lemma RewriteColour(c: string, a: string, b: int)
    requires ColourLike(c) && |a| == 2 && AllWord(a)
    ensures RewriteToken(c, b) == c
    ensures RewriteToken(c + a, b) == c + AlphaOut(a, b)
  {
    var t := c + a;
    assert t[1..9] == c[1..] + a;
    assert AllWord(t[1..9]) by {
      forall i | 0 <= i < 8 ensures IsWord(t[1..9][i]) {
        if i < 6 {
          assert t[1..9][i] == c[1..][i];
        } else {
          assert t[1..9][i] == a[i - 6];
        }
      }
    }
    assert Matches(t);
    assert t[..7] == c && t[7..9] == a && t[9..] == [];
  }

  lemma ContainsGradient(ts: seq<string>)
    requires |ts| > 0 && ts[0] == "linear-gradient("
    ensures Contains(SpacedJoin(ts), "linear-gradient")
  {
    var s := SpacedJoin(ts);
    assert s == " " + ts[0] + SpacedJoin(ts[1..]);
    assert s[1..16] == "linear-gradient";
    ContainsAt(s, "linear-gradient", 1);
  }

  /** Brightening the spaced template rescales exactly the two alpha stops. */
  lemma ApplySpaced(start: string, end: string, pos: int, a1: string, a2: string, b: int)
    requires ColourLike(start) && ColourLike(end) && |a1| == 2 && |a2| == 2 && AllWord(a1) && AllWord(a2)
    ensures ApplyBrightness(SpacedJoin(Tokens(start, end, pos, a1, a2)), b)
         == SpacedJoin(Tokens(start, end, pos, AlphaOut(a1, b), AlphaOut(a2, b)))
  {
    TokensClean(start, end, pos, a1, a2);
    ContainsGradient(Tokens(start, end, pos, a1, a2));
    RewriteSpaced(Tokens(start, end, pos, a1, a2), b);
    RewriteTokens(start, end, pos, a1, a2, b);
  }

  lemma TemplateRunsSpace()
    ensures |TemplateRuns()| == 12 && AllRuns(TemplateRuns())
  {
  }

  /** The template filled with any word-character alphas, collapsed and brightened. */
  lemma BuildWith(start: string, end: string, pos: int, a1: string, a2: string, b: int)
    requires ColourLike(start) && ColourLike(end) && |a1| == 2 && |a2| == 2 && AllWord(a1) && AllWord(a2)
    ensures ApplyBrightness(Collapse(RawJoin(TemplateRuns(), Tokens(start, end, pos, a1, a2))), b)
         == SpacedJoin(Tokens(start, end, pos, AlphaOut(a1, b), AlphaOut(a2, b)))
  {
    TokensClean(start, end, pos, a1, a2);
    TemplateRunsSpace();
    CollapseRaw(TemplateRuns(), Tokens(start, end, pos, a1, a2));
    ApplySpaced(start, end, pos, a1, a2, b);
  }

  lemma TemplateAlphaOut(a1: string, a2: string, b: int)
    requires a1 == "cc" && a2 == "99"
    ensures AllWord(a1) && AllWord(a2)
    ensures AlphaOut(a1, b) == Hex2(Scale(204, b)) && AlphaOut(a2, b) == Hex2(Scale(153, b))
  {
    assert ParseAlpha(a1) == Int(204) && ParseAlpha(a2) == Int(153);
  }

  /** The gradient `buildGradient` makes: `cc` (204) and `99` (153) scaled by the
      brightness, everything else as the template spells it. */
  lemma BuildGradientShape(start: string, end: string, pos: int, b: int)
    requires ColourLike(start) && ColourLike(end)
    ensures BuildGradient(start, end, pos, b)
         == SpacedJoin(Tokens(start, end, pos, Hex2(Scale(204, b)), Hex2(Scale(153, b))))
  {
    TemplateAlphaOut("cc", "99", b);
    BuildWith(start, end, pos, "cc", "99", b);
  }

  /** At full brightness the built gradient is the collapsed template itself. */
  lemma BuildGradientFull(start: string, end: string, pos: int)
    requires ColourLike(start) && ColourLike(end)
    ensures BuildGradient(start, end, pos, 100) == SpacedJoin(Tokens(start, end, pos, "cc", "99"))
  {
    BuildGradientShape(start, end, pos, 100);
    ScaleFull(204);
    ScaleFull(153);
    TemplateAlphas();
  }

  lemma TemplateAlphas()
    ensures Hex2(204) == "cc" && Hex2(153) == "99"
  {
    assert HexDigit(12) == 'c' && HexDigit(9) == '9';
  }

  /** Applying the brightness to an already built gradient scales the alphas a second
      time. */
  lemma ApplyTwice(start: string, end: string, pos: int, b: int)
    requires ColourLike(start) && ColourLike(end)
    ensures ApplyBrightness(BuildGradient(start, end, pos, b), b)
         == SpacedJoin(Tokens(start, end, pos, Hex2(Scale(Scale(204, b), b)), Hex2(Scale(Scale(153, b), b))))
  {
    BuildGradientShape(start, end, pos, b);
    var a1, a2 := Hex2(Scale(204, b)), Hex2(Scale(153, b));
    ApplySpaced(start, end, pos, a1, a2, b);
    HexRoundTrip(Scale(204, b));
    HexRoundTrip(Scale(153, b));
  }

  lemma SpacedHeadChar(ts: seq<string>, k: nat)
    requires |ts| > 0 && k < |ts[0]|
    ensures 1 + k < |SpacedJoin(ts)| && SpacedJoin(ts)[1 + k] == ts[0][k]
  {
    assert SpacedJoin(ts) == " " + ts[0] + SpacedJoin(ts[1..]);
  }

  lemma SpacedTailChar(ts: seq<string>, j: nat)
    requires |ts| > 0 && j < |SpacedJoin(ts[1..])|
    ensures 1 + |ts[0]| + j < |SpacedJoin(ts)|
    ensures SpacedJoin(ts)[1 + |ts[0]| + j] == SpacedJoin(ts[1..])[j]
  {
    assert SpacedJoin(ts) == " " + ts[0] + SpacedJoin(ts[1..]);
  }

  /** The first alpha sits at offset 45 of the spaced template. */
  lemma FirstAlphaAt(start: string, end: string, pos: int, a1: string, a2: string, k: nat)
    requires |start| == 7 && |a1| == 2 && k < 2
    ensures 45 + k < |SpacedJoin(Tokens(start, end, pos, a1, a2))|
    ensures SpacedJoin(Tokens(start, end, pos, a1, a2))[45 + k] == a1[k]
  {
    var ts := Tokens(start, end, pos, a1, a2);
    assert ts[4..][0] == start + a1;
    SpacedHeadChar(ts[4..], 7 + k);
    assert ts[3..][1..] == ts[4..] && |ts[3..][0]| == 3;
    SpacedTailChar(ts[3..], 8 + k);
    assert ts[2..][1..] == ts[3..] && |ts[2..][0]| == 7;
    SpacedTailChar(ts[2..], 12 + k);
    assert ts[1..][1..] == ts[2..] && |ts[1..][0]| == 7;
    SpacedTailChar(ts[1..], 20 + k);
    assert ts[1..] == ts[1..] && |ts[0]| == 16;
    SpacedTailChar(ts, 28 + k);
  }

  /** Different first-stop alphas give different gradients. */
  lemma TokensDiffer(start: string, end: string, pos: int, a1: string, a2: string, b1: string, b2: string)
    requires |start| == 7 && |a1| == 2 && |b1| == 2 && a1 != b1
    ensures SpacedJoin(Tokens(start, end, pos, a1, a2)) != SpacedJoin(Tokens(start, end, pos, b1, b2))
  {
    FirstAlphaAt(start, end, pos, a1, a2, 0);
    FirstAlphaAt(start, end, pos, a1, a2, 1);
    FirstAlphaAt(start, end, pos, b1, b2, 0);
    FirstAlphaAt(start, end, pos, b1, b2, 1);
    assert a1 == [a1[0], a1[1]] && b1 == [b1[0], b1[1]];
  }
}
