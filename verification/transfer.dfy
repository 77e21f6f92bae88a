/** The calibration transfer functions from ADC counts to physical units.
    transfer.py and SDM26/transfer.py define brakePressure, linearPotentiometer
    and mlx90614 with the same text, so they are defined once here; the two
    files differ only in steering, and only SDM26/transfer.py has the strain
    gauge maps. Python floats are modelled as exact reals. */
module Transfer {

  /** v_supply, the sensor supply voltage. */
  const SupplyVolts: real := 5.0

  /** brakePressure: the 12-bit ADC reading as a voltage, then the sensor's
      0.5 V offset and 10 bar/V gain. */
  function BrakePressure(adc: int): (bar: real)
    ensures bar == 50.0 * adc as real / 4095.0
    ensures 0 <= adc <= 4095 ==> 0.0 <= bar <= 50.0
  {
    var volts := (SupplyVolts * adc as real) / 4095.0;
    ((volts - 0.5) * 10.0) + 5.0
  }

  /** linearPotentiometer: shock travel in mm. */
  function LinearPotentiometer(adc: int): (mm: real)
    ensures mm == 0.014 * (adc as real - 198.0)
  {
    0.014 * adc as real - 2.772
  }

  /** mlx90614: the infrared thermometer's 0.02 K counts, in degrees Celsius. */
  function Mlx90614(adc: int): (celsius: real)
    ensures celsius + 273.15 == adc as real / 50.0
  {
    (adc as real * 0.02) - 273.15
  }

  /** steering in transfer.py: the raw count, unchanged. */
  function SteeringRaw(adc: int): (deg: real)
    ensures deg == adc as real
  {
    adc as real
  }

  /** steering in SDM26/transfer.py: centred on count 2304. */
  function Steering(adc: int): (deg: real)
    ensures deg * 11.078 == adc as real - 2304.0
  {
    (adc as real - 2304.0) / 11.078
  }

  /** fr_sg: front-right strain gauge load; its bridge is wired inverted. */
  function FrSg(adc: int): (lbs: real)
    ensures lbs * 9.24 == 4.7 * (63608.0 - adc as real)
  {
    -(4.7 / 9.24) * (adc as real - 63608.0)
  }

  /** fl_sg: front-left strain gauge load. */
  function FlSg(adc: int): (lbs: real)
    ensures lbs * 10.0 == 4.7 * (adc as real - 1432.0)
  {
    (4.7 / 10.0) * (adc as real - 1432.0)
  }

  /** rl_sg: rear-left strain gauge load. */
  function RlSg(adc: int): (lbs: real)
    ensures lbs * 7.3 == 4.7 * (adc as real - 931.0)
  {
    (4.7 / 7.3) * (adc as real - 931.0)
  }

  /** brakePressure is strictly increasing, 0 bar at count 0 and 50 bar at
      full scale. */
  lemma BrakePressureShape(a: int, b: int)
    ensures a < b ==> BrakePressure(a) < BrakePressure(b)
    ensures BrakePressure(0) == 0.0 && BrakePressure(4095) == 50.0
  {
  }

  /** linearPotentiometer is strictly increasing and reads zero at count 198. */
  lemma LinearPotentiometerShape(a: int, b: int)
    ensures a < b ==> LinearPotentiometer(a) < LinearPotentiometer(b)
    ensures LinearPotentiometer(198) == 0.0
  {
  }

  /** mlx90614 is strictly increasing and reads absolute zero at count 0. */
  lemma Mlx90614Shape(a: int, b: int)
    ensures a < b ==> Mlx90614(a) < Mlx90614(b)
    ensures Mlx90614(0) == -273.15
  {
  }

  /** The SDM26 steering map is strictly increasing and centred on 2304. */
  lemma SteeringShape(a: int, b: int)
    ensures a < b ==> Steering(a) < Steering(b)
    ensures Steering(2304) == 0.0
  {
  }

  /** fr_sg is strictly decreasing and zero at 63608; fl_sg and rl_sg are
      strictly increasing and zero at 1432 and 931. */
  lemma StrainGaugeShape(a: int, b: int)
    ensures a < b ==> FrSg(a) > FrSg(b) && FlSg(a) < FlSg(b) && RlSg(a) < RlSg(b)
    ensures FrSg(63608) == 0.0 && FlSg(1432) == 0.0 && RlSg(931) == 0.0
  {
  }
}
