/** The sampling temperature: the value held by the settings spin box, and
    the value actually handed to the OCR engine. */
module Temperature {

  /** The stand-in for a zero temperature, `1e-8`. */
  const Epsilon: real := 0.00000001

  /** The spin box's value after `setValue(v)` followed by `setRange(0, 1)`:
      whatever is set is clamped into the range. */
  function FieldValue(v: real): (r: real)
    ensures 0.0 <= r <= 1.0
    ensures 0.0 <= v <= 1.0 ==> r == v
    ensures v < 0.0 ==> r == 0.0
    ensures 1.0 < v ==> r == 1.0
  {
    if v < 0.0 then 0.0 else if 1.0 < v then 1.0 else v
  }

  /** The temperature handed to the engine: exactly zero is replaced by
      `Epsilon`, every other value passes through. */
  function EngineTemperature(v: real): (r: real)
    ensures r != 0.0
    ensures v == 0.0 ==> r == Epsilon
    ensures v != 0.0 ==> r == v
    ensures 0.0 <= v <= 1.0 ==> 0.0 < r <= 1.0
  {
    if v == 0.0 then Epsilon else v
  }

  /** Whatever the spin box was set to, the engine sees a temperature in
      (0, 1]. */
  lemma EngineTemperatureInRange(v: real)
    ensures 0.0 < EngineTemperature(FieldValue(v)) <= 1.0
  {
  }
}
