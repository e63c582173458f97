/** The value grid a task's width snaps to when it is resized
    (`snapToGrid` and the outer part of `widthToValue`, scheduler.js:515-523).
    The fractional power that turns a width into a raw value is not part of
    this model: it arrives as an integer. */
module Grid {

  import Display
  import Settings

  /** `snapToGrid`: the nearest multiple of the snap delta, halves up. */
  function SnapToGrid(v: int): (r: int)
    ensures r % Settings.SnapDelta == 0
    ensures 2 * (r - v) <= Settings.SnapDelta && 2 * (v - r) < Settings.SnapDelta
  {
    Display.RoundDiv(v, Settings.SnapDelta) * Settings.SnapDelta
  }

  /** A value already on the grid stays where it is. */
  lemma SnapIdempotent(v: int)
    ensures SnapToGrid(SnapToGrid(v)) == SnapToGrid(v)
  {
    var r := SnapToGrid(v);
    var k := r / Settings.SnapDelta;
    assert r == k * Settings.SnapDelta;
    var r2 := Display.RoundDiv(r, Settings.SnapDelta);
    assert r2 == k;
  }

  /** `widthToValue` after the power: the larger of the minimum value and
      the snapped value, so on the grid and never below the minimum; a raw
      value below the minimum gives the minimum. */
  function WidthToValue(raw: int): (r: int)
    ensures r >= Settings.MinValue && r >= SnapToGrid(raw)
    ensures r == Settings.MinValue || r == SnapToGrid(raw)
    ensures r % Settings.SnapDelta == 0
    ensures raw >= Settings.MinValue ==> r == SnapToGrid(raw)
    ensures raw < Settings.MinValue ==> r == Settings.MinValue
  {
    var s := SnapToGrid(raw);
    if s < Settings.MinValue then Settings.MinValue else s
  }

  /** Applying `WidthToValue` to its own result changes nothing. */
  lemma WidthToValueIdempotent(raw: int)
    ensures WidthToValue(WidthToValue(raw)) == WidthToValue(raw)
  {
    var r := WidthToValue(raw);
    if r == SnapToGrid(raw) {
      SnapIdempotent(raw);
    } else {
      assert r == Settings.MinValue;
      assert SnapToGrid(r) == Settings.MinValue by {
        SnapIdempotent(Settings.MinValue);
        assert Display.RoundDiv(Settings.MinValue, Settings.SnapDelta) == 1;
      }
    }
  }
}
