/** The calibrated turn penalty that production searches use. */
module TurnCurves {
  import opened SearchModel
  import opened PathCosts

  /** The curve production searches use. */
  ghost const CALIBRATED: imap<real, real> := imap a: real :: CalibratedNm(a)

  /** The calibrated penalty: zero to 45 degrees, linear to 20 NM at 90, quadratic to 200 NM at 180. */
  function CalibratedNm(angle: real): (nm: real)
    ensures 0.0 <= nm
  {
    if angle <= 45.0 then
      0.0
    else if angle <= 90.0 then
      20.0 * (angle - 45.0) / 45.0
    else if angle >= 180.0 then
      200.0
    else
      var t := (angle - 90.0) / 90.0;
      20.0 + 180.0 * t * t
  }

  lemma SquareGrows(s: real, t: real)
    requires 0.0 <= s <= t <= 1.0
    ensures s * s <= t * t <= 1.0
  {
    assert s * s <= s * t <= t * t <= t;
  }

  /** The calibrated penalty never falls as the turn sharpens, stays within 200 NM, and is never negative on any angle. */
  lemma SharperTurnsCostMore(a: real, b: real)
    requires a <= b
    ensures CalibratedNm(a) <= CalibratedNm(b) <= 200.0
    ensures forall enabled :: TurnPenalty(enabled, CALIBRATED).NonNegative()
    ensures TurnPenalty(true, CALIBRATED).Of(a) == CalibratedNm(a)
  {
    var s := if a <= 90.0 then 0.0 else if a >= 180.0 then 1.0 else (a - 90.0) / 90.0;
    var t := if b <= 90.0 then 0.0 else if b >= 180.0 then 1.0 else (b - 90.0) / 90.0;
    SquareGrows(s, t);
    assert 90.0 < a < 180.0 ==> CalibratedNm(a) == 20.0 + 180.0 * (s * s);
    assert 90.0 < b < 180.0 ==> CalibratedNm(b) == 20.0 + 180.0 * (t * t);
  }

  /** Where the calibrated pieces join, and halfway along each of them. */
  lemma CurveKnots()
    ensures CalibratedNm(45.0) == 0.0 && CalibratedNm(67.5) == 10.0 && CalibratedNm(90.0) == 20.0
    ensures CalibratedNm(135.0) == 65.0 && CalibratedNm(180.0) == 200.0
  {
    assert (135.0 - 90.0) / 90.0 == 0.5;
  }

  function Abs(x: real): real {
    if x < 0.0 then -x else x
  }

  /** The angle between two headings is the least rotation that takes one to the other, either way round and with any turns. */
  lemma TurnIsLeastRotation(a: real, b: real, n: int) returns (m: int)
    requires 0.0 <= a < 360.0 && 0.0 <= b < 360.0
    ensures TurnAngle(a, b) <= Abs(a - b + 360.0 * n as real)
    ensures TurnAngle(a, b) == Abs(a - b + 360.0 * m as real)
    ensures TurnAngle(a, b) == TurnAngle(b, a)
  {
    m := if a - b > 180.0 then -1 else if b - a > 180.0 then 1 else 0;
    if n >= 1 {
      assert 360.0 * n as real >= 360.0;
    } else if n <= -1 {
      assert 360.0 * n as real <= -360.0;
    }
  }

  /** With the calibrated penalty, turns within 45 degrees either way round are free, a reversal costs 200 NM, and an unknown heading nothing. */
  lemma TurnsAreCharged(opts: SearchOptions, inbound: real, outbound: real, n: int)
    requires opts.turn == TurnPenalty(true, CALIBRATED)
    ensures inbound < 0.0 || outbound < 0.0 ==> TurnCost(opts, inbound, outbound) == 0.0
    ensures 0.0 <= inbound < 360.0 && 0.0 <= outbound < 360.0 ==>
              && TurnCost(opts, inbound, outbound) == CalibratedNm(TurnAngle(inbound, outbound))
              && (Abs(inbound - outbound + 360.0 * n as real) <= 45.0 ==> TurnCost(opts, inbound, outbound) == 0.0)
              && (Abs(inbound - outbound) == 180.0 ==> TurnCost(opts, inbound, outbound) == 200.0)
  {
    if 0.0 <= inbound < 360.0 && 0.0 <= outbound < 360.0 {
      var m := TurnIsLeastRotation(inbound, outbound, n);
    }
  }
}
