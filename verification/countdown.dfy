/** The countdown clock both inactive walls show (`CountdownDisplay` in
    app/wall/components/wall/layouts/InactiveWall.tsx and
    app/prizewheel/components/wall/InactiveWall.tsx): the label it parses, the
    per-second timer and the `m:ss` face. The interval timer is an explicit `Tick` event. */
module Countdown {
  import opened JsCore
  import opened JsText

  /** The seconds a label such as `2 Minutes` or `30 Seconds` stands for: `parseInt` of the
      text before the first space, times 60 when the lower-cased label mentions `minute`,
      as is when it mentions `second`, and 0 otherwise. `NaN` stays `NaN`. */
  function Seconds(text: string): (r: Num)
    ensures !Contains(ToLower(text), "minute") && !Contains(ToLower(text), "second") ==> r == Int(0)
    ensures r.NaN? ==> ParseIntJs(SplitOn(text, ' ')[0]).NaN?
  {
    var num := ParseIntJs(SplitOn(text, ' ')[0]);
    var lower := ToLower(text);
    if Contains(lower, "minute") then (if num.NaN? then NaN else Int(num.i * 60))
    else if Contains(lower, "second") then num
    else Int(0)
  }

  /** A label made of a number, a space and a unit word reads as that many minutes or
      seconds; a unit naming neither reads as 0. */
  lemma LabelSeconds(n: nat, unit: string)
    ensures Contains(ToLower(unit), "minute") ==> Seconds(NatToString(n) + " " + unit) == Int(n * 60)
    ensures !Contains(ToLower(unit), "minute") && Contains(ToLower(unit), "second")
      ==> Seconds(NatToString(n) + " " + unit) == Int(n)
    ensures !Contains(ToLower(unit), "minute") && !Contains(ToLower(unit), "second")
      ==> Seconds(NatToString(n) + " " + unit) == Int(0)
  {
    var d := NatToString(n);
    var text := d + " " + unit;
    assert text == d + [' '] + unit;
    SplitFirst(d, ' ', unit);
    ParseIntOfNumeral(n);
    var p := d + " ";
    assert text == p + unit;
    ToLowerConcat(p, unit);
    LowerNoUpper(p);
    ContainsAfter(p, ToLower(unit), "minute");
    ContainsAfter(p, ToLower(unit), "second");
  }

  /** The clock's state: the seconds left (`NaN` after an unreadable label) and whether
      it is counting. */
  datatype Clock = Clock(timeLeft: Num, active: bool)

  /** The clock before any label arrives. */
  function Initial(countdownActive: bool): (c: Clock)
    ensures c.timeLeft == Int(0) && c.active == countdownActive
  {
    Clock(Int(0), countdownActive)
  }

  /** The effect run when the label or the active flag changes: an empty label leaves the
      clock alone, any other label restarts it from its full length. */
  function Reset(c: Clock, countdown: string, countdownActive: bool): (r: Clock)
    ensures countdown == "" ==> r == c
    ensures countdown != "" ==> r.timeLeft == Seconds(countdown) && r.active == countdownActive
  {
    if countdown == "" then c else Clock(Seconds(countdown), countdownActive)
  }

  /** The interval exists only while the clock is active and the time left is not `<= 0`
      (a `NaN` time is not `<= 0`, so it runs). */
  predicate Running(c: Clock) {
    c.active && !(c.timeLeft.Int? && c.timeLeft.i <= 0)
  }

  /** One second of the interval: `t > 1 ? t - 1 : 0`. Without an interval nothing
      happens. */
  function Tick(c: Clock): (r: Clock)
    ensures !Running(c) ==> r == c
    ensures Running(c) ==> r.active && r.timeLeft.Int? && r.timeLeft.i >= 0
    ensures Running(c) && c.timeLeft.Int? ==> r.timeLeft == Int(c.timeLeft.i - 1)
    ensures Running(c) && c.timeLeft.NaN? ==> r.timeLeft == Int(0)
    ensures c.timeLeft.Int? && c.timeLeft.i >= 0 ==> r.timeLeft.Int? && 0 <= r.timeLeft.i <= c.timeLeft.i
  {
    if !Running(c) then c
    else
      var t := c.timeLeft;
      c.(timeLeft := Int(if t.Int? && t.i > 1 then t.i - 1 else 0))
  }

  /** `k` seconds of the interval. */
  function Ticks(c: Clock, k: nat): Clock
    decreases k
  {
    if k == 0 then c else Ticks(Tick(c), k - 1)
  }

  /** From `t` seconds the clock counts down one per second and stops at 0; it never goes
      below 0 and stays active. */
  lemma {:induction false} TicksCountDown(t: nat, k: nat)
    ensures Ticks(Clock(Int(t), true), k) == Clock(Int(if k <= t then t - k else 0), true)
    decreases k
  {
    if k > 0 {
      if t == 0 {
        assert Tick(Clock(Int(0), true)) == Clock(Int(0), true);
        TicksCountDown(0, k - 1);
      } else {
        assert Tick(Clock(Int(t), true)) == Clock(Int(t - 1), true);
        TicksCountDown(t - 1, k - 1);
      }
    }
  }

  /** An inactive clock never moves. */
  lemma {:induction false} TicksInactive(c: Clock, k: nat)
    requires !c.active
    ensures Ticks(c, k) == c
    decreases k
  {
    if k > 0 {
      TicksInactive(Tick(c), k - 1);
    }
  }

  /** JavaScript's `%`: the remainder takes the sign of the dividend. */
  function JsRem(a: int, d: int): (r: int)
    requires d > 0
    ensures a >= 0 ==> r == a % d
    ensures -d < r < d
  {
    if a >= 0 then a % d else -((-a) % d)
  }

  /** The face `m:ss`: `Math.floor(t / 60)`, a colon, and `t % 60` padded to two
      characters. `NaN` shows as `NaN:NaN`. */
  function Face(t: Num): string {
    match t
    case NaN => "NaN:NaN"
    case Int(i) => IntToString(i / 60) + ":" + PadStart2(IntToString(JsRem(i, 60)))
  }

  /** The display: nothing for an empty label or `none`, the face otherwise. */
  function Shown(countdown: string, c: Clock): (r: Option<string>)
    ensures r.None? <==> countdown == "" || countdown == "none"
    ensures r.Some? ==> r.value == Face(c.timeLeft)
  {
    if countdown == "" || countdown == "none" then None else Some(Face(c.timeLeft))
  }

  lemma TwoDigits(s: nat)
    requires s < 60
    ensures |PadStart2(NatToString(s))| == 2 && AllDigits(PadStart2(NatToString(s)))
    ensures DecValue(PadStart2(NatToString(s))) == s
  {
    var d := NatToString(s);
    DecRoundTrip(s);
    if s < 10 {
      var p := PadStart2(d);
      assert p == "0" + d;
      assert p[..1] == "0";
      assert DecValue(p[..1]) == 0 by {
        assert p[..1][..0] == [];
      }
    } else {
      assert |d| == 2 by {
        assert NatToString(s / 10) == [DigitChar(s / 10)];
      }
    }
  }

  /** Reading a face back: for a non-negative time the text after the colon is two
      digits worth less than 60, and minutes times 60 plus those seconds is the time. */
  lemma FaceReadsBack(t: nat)
    ensures |Face(Int(t))| >= 4 && Face(Int(t))[|Face(Int(t))| - 3] == ':'
    ensures AllDigits(Face(Int(t))[..|Face(Int(t))| - 3]) && AllDigits(Face(Int(t))[|Face(Int(t))| - 2..])
    ensures DecValue(Face(Int(t))[|Face(Int(t))| - 2..]) < 60
    ensures DecValue(Face(Int(t))[..|Face(Int(t))| - 3]) * 60 + DecValue(Face(Int(t))[|Face(Int(t))| - 2..]) == t
  {
    var f := Face(Int(t));
    var m := NatToString(t / 60);
    var s := PadStart2(NatToString(t % 60));
    TwoDigits(t % 60);
    DecRoundTrip(t / 60);
    assert f == m + ":" + s;
    assert f[..|f| - 3] == m;
    assert f[|f| - 2..] == s;
  }
}
