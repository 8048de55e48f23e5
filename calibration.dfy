/**
 * The `Telosb` calibration formulas, from a raw ADC sample to a physical quantity. The source
 * computes them in IEEE-754 doubles; here they are exact `real` arithmetic, an idealisation.
 */
module Calibration {

  /** Sensirion coefficients `c1`, `c2`, `c3` as the scripts declare them. */
  const C1: real := -2.0468
  const C2: real := 0.0367
  const C3: real := -0.0000015955

  /** `get_temperature` after `bytes_to_int`: the linear `c1 + c2 * raw`. */
  function Temperature(raw: nat): real {
    C1 + C2 * raw as real
  }

  /** `get_humidity` after `bytes_to_int`: `c1 + c2 * raw + c3 * (raw * raw)`. */
  function Humidity(raw: nat): real {
    C1 + C2 * raw as real + C3 * (raw * raw) as real
  }

  /** `v_sensor`: the sample as a fraction of the 12-bit range times the 1.5 V reference. */
  function VSensor(raw: nat): real {
    (raw as real / 4096.0) * 1.5
  }

  /** `i_light_metric`: the sensor voltage over the 100 kOhm load. */
  function ILightMetric(raw: nat): real {
    VSensor(raw) / 100000.0
  }

  /** `get_visible_light` after `bytes_to_int`, in lux. */
  function VisibleLight(raw: nat): real {
    0.625 * 1000000.0 * ILightMetric(raw) * 1000.0
  }

  /** `get_infrared_light` after `bytes_to_int`, in lux. */
  function InfraredLight(raw: nat): real {
    0.769 * 100000.0 * ILightMetric(raw) * 1000.0
  }

  /** The full-scale sample 4096 reads as the 1.5 V reference. */
  lemma VSensorFullScale()
    ensures VSensor(4096) == 1.5
    ensures VSensor(0) == 0.0
  {
  }

  /** Temperature is strictly increasing in the sample, and the sample can be recovered from it. */
  lemma TemperatureInverse(raw: nat, raw': nat)
    ensures (Temperature(raw) - C1) / C2 == raw as real
    ensures raw < raw' ==> Temperature(raw) < Temperature(raw')
  {
  }

  /**
   * Humidity rises with the sample over the range the 12-bit ADC produces and well beyond it:
   * the quadratic's peak lies past 11500.
   */
  lemma HumidityIncreasing(a: nat, b: nat)
    requires a < b <= 11500
    ensures Humidity(a) < Humidity(b)
  {
    var d := (b - a) as real;
    var slope := C2 + C3 * (a + b) as real;
    assert Humidity(b) - Humidity(a) == d * slope by {
      assert (b * b) as real - (a * a) as real == d * (a + b) as real;
    }
    assert slope > 0.0;
    assert d > 0.0;
    assert d * slope > 0.0;
  }

  /** Visible light is the sample scaled by 9375/4096 lux: zero at zero and non-decreasing. */
  lemma VisibleLightScale(raw: nat, raw': nat)
    ensures VisibleLight(raw) == raw as real * 9375.0 / 4096.0
    ensures VisibleLight(0) == 0.0
    ensures raw <= raw' ==> VisibleLight(raw) <= VisibleLight(raw')
  {
  }

  /** Infrared light is the sample scaled by 2307/8192 lux: zero at zero and non-decreasing. */
  lemma InfraredLightScale(raw: nat, raw': nat)
    ensures InfraredLight(raw) == raw as real * 2307.0 / 8192.0
    ensures InfraredLight(0) == 0.0
    ensures raw <= raw' ==> InfraredLight(raw) <= InfraredLight(raw')
  {
  }
}
