/** The calibration registries: the `match device.name` statement of each
    decoder revision, as a function from channel name to the case it runs. */
module Registry {
  import opened Common
  import opened Devices
  import Transfer

  /** A case that only installs a conversion. */
  function Converts(c: Conversion): Option<Rule>
  {
    Some(Rule(Some(c), false))
  }

  /** A case that installs a conversion and sets signed. */
  function SignedConverts(c: Conversion): Option<Rule>
  {
    Some(Rule(Some(c), true))
  }

  /** A case that only sets signed, keeping the factor 1.0. */
  const SignedOnly: Option<Rule> := Some(Rule(None, true))

  /** lambda v: v */
  const Identity: Conversion := Affine(1.0, 0.0)

  /** lambda v: (v * 0.02) - 273.15, the wheel thermometers. */
  const Temperature: Conversion := Affine(0.02, -273.15)

  /** lambda v: -11052026.1 * v + 2606.22253 */
  const FlStrain: Conversion := Affine(-11052026.1, 2606.22253)

  /** lambda v: -1401922.44 * v + 92026.0137 */
  const RlStrain: Conversion := Affine(-1401922.44, 92026.0137)

  /** configure_devices in SDM26/devices.py, the canonical SDM26 table. */
  function Sdm26(name: string): Option<Rule>
  {
    match name
    case "TS" => Converts(Scale(0.000001))
    case "CURRENT" => SignedConverts(Scale(1.25))
    case "BATTERY" => SignedConverts(Scale(1.25 / 1000.0))
    case "FL_SG" => Converts(FlStrain)
    case "FR_SG" => Converts(Identity)
    case "RL_SG" => Converts(RlStrain)
    case "RR_SG" => Converts(Identity)
    case "IMU_X_ACCEL" | "IMU_Y_ACCEL" | "IMU_Z_ACCEL" => SignedConverts(Affine(0.122, 0.0))
    case "IMU_X_GYRO" | "IMU_Y_GYRO" | "IMU_Z_GYRO" => SignedConverts(Affine(17.50, 0.0))
    case "FLW_AMB" | "FRW_AMB" | "RLW_AMB" | "RRW_AMB"
       | "FLW_OBJ" | "FRW_OBJ" | "RLW_OBJ" | "RRW_OBJ" => Converts(Temperature)
    case "STEERING" => Converts(Affine(0.084769, -152.846451))
    case "FRSHOCK" => Converts(Affine(-0.018444, 75.894221))
    case "FLSHOCK" => Converts(Affine(-0.018586, 76.399026))
    case "RLSHOCK" => Converts(Affine(-0.018600, 76.618397))
    case "RRSHOCK" => Converts(Affine(-0.018498, 76.591013))
    case _ => None
  }

  /** The table inlined in SDM26/process_multi_benji2.py. */
  function Multi(name: string): Option<Rule>
  {
    match name
    case "TS" => Converts(Scale(1.0 / 1000.0))
    case "CURRENT" => SignedConverts(Scale(1.25))
    case "BATTERY" => SignedConverts(Scale(1.25 / 1000.0))
    case "FL_SG" => Converts(FlStrain)
    case "FR_SG" => Converts(Identity)
    case "RL_SG" => Converts(RlStrain)
    case "RR_SG" => Converts(Identity)
    case "IMU_X_ACCEL" | "IMU_Y_ACCEL" | "IMU_Z_ACCEL"
       | "IMU_X_GYRO" | "IMU_Y_GYRO" | "IMU_Z_GYRO" => SignedOnly
    case "FLW_AMB" | "FRW_AMB" | "RLW_AMB" | "RRW_AMB"
       | "FLW_RTR" | "FRW_RTR" | "RLW_RTR" | "RRW_RTR" => Converts(Temperature)
    case _ => None
  }

  /** The table inlined in the root SDM26_benji2_to_csv.py. */
  function RootCsv(name: string): Option<Rule>
  {
    match name
    case "TS" => Converts(Scale(0.000001))
    case "CURRENT" => SignedConverts(Scale(1.25))
    case "BATTERY" => SignedConverts(Scale(1.25 / 1000.0))
    case "FL_SG" => Converts(FlStrain)
    case "FR_SG" => Converts(Identity)
    case "RL_SG" => Converts(RlStrain)
    case "RR_SG" => Converts(Identity)
    case "IMU_X_ACCEL" | "IMU_Y_ACCEL" | "IMU_Z_ACCEL" => SignedOnly
    case "IMU_X_GYRO" | "IMU_Y_GYRO" | "IMU_Z_GYRO" => SignedConverts(Affine(1.0 / 65.6, 0.0))
    case "FLW_AMB" | "FRW_AMB" | "RLW_AMB" | "RRW_AMB"
       | "FLW_RTR" | "FRW_RTR" | "RLW_RTR" | "RRW_RTR" => Converts(Temperature)
    case "STEERING" => Converts(Affine(345.0 / 5000.0, 0.0))
    case _ => None
  }

  /** The table inlined in process_benji2.py, with the older strain gauge
      calibrations and no RR_SG case. */
  function ProcessBenji2(name: string): Option<Rule>
  {
    match name
    case "TS" => Converts(Scale(1.0 / 1000.0))
    case "CURRENT" => SignedConverts(Scale(1.25))
    case "BATTERY" => SignedConverts(Scale(1.25 / 1000.0))
    case "FL_SG" => Converts(Affine(4.7 / 10.0, -(4.7 / 10.0) * 1432.0))
    case "FR_SG" => Converts(Affine(-(4.7 / 9.24), (4.7 / 9.24) * 63608.0))
    case "RL_SG" => Converts(Affine(4.7 / 7.3, -(4.7 / 7.3) * 931.0))
    case "IMU_X_ACCEL" | "IMU_Y_ACCEL" | "IMU_Z_ACCEL"
       | "IMU_X_GYRO" | "IMU_Y_GYRO" | "IMU_Z_GYRO" => SignedOnly
    case "FLW_AMB" | "FRW_AMB" | "RLW_AMB" | "RRW_AMB"
       | "FLW_RTR" | "FRW_RTR" | "RLW_RTR" | "RRW_RTR" => Converts(Temperature)
    case _ => None
  }

  /** The table inlined in process_benji2_csv.py. */
  function Benji2Csv(name: string): Option<Rule>
  {
    match name
    case "TS" => Converts(Scale(1.0 / 1000.0))
    case "CURRENT" => SignedConverts(Scale(1.25))
    case "BATTERY" => SignedConverts(Scale(1.25 / 1000.0))
    case "FL_SG" => Converts(FlStrain)
    case "FR_SG" => Converts(Identity)
    case "RL_SG" => Converts(RlStrain)
    case "RR_SG" => Converts(Identity)
    case "IMU_X_ACCEL" | "IMU_Y_ACCEL" | "IMU_Z_ACCEL"
       | "IMU_X_GYRO" | "IMU_Y_GYRO" | "IMU_Z_GYRO" => SignedOnly
    case _ => None
  }

  /** The table inlined in process_benji2_motec.py: no IMU or wheel cases. */
  function Benji2Motec(name: string): Option<Rule>
  {
    match name
    case "TS" => Converts(Scale(1.0 / 1000.0))
    case "CURRENT" => SignedConverts(Scale(1.25))
    case "BATTERY" => SignedConverts(Scale(1.25 / 1000.0))
    case "FL_SG" => Converts(FlStrain)
    case "FR_SG" => Converts(Identity)
    case "RL_SG" => Converts(RlStrain)
    case "RR_SG" => Converts(Identity)
    case _ => None
  }

  /** The channels every table except the MoTeC one makes signed. */
  const SignedChannels: set<string> :=
    {"CURRENT", "BATTERY", "IMU_X_ACCEL", "IMU_Y_ACCEL", "IMU_Z_ACCEL",
     "IMU_X_GYRO", "IMU_Y_GYRO", "IMU_Z_GYRO"}

  /** The four shock potentiometers of the SDM26 table. */
  const Shocks: set<string> := {"FRSHOCK", "FLSHOCK", "RLSHOCK", "RRSHOCK"}

  /** A channel the registry has no case for, such as the CH_COUNT marker or
      an empty name, keeps the factor 1.0 and stays unsigned. */
  predicate Untouched(d: Device, registry: Rules)
  {
    var e := Configure(d, registry);
    e.conversion == d.conversion && e.signed == d.signed
  }

  /** In the SDM26 table exactly CURRENT, BATTERY and the six IMU channels
      become signed; CH_COUNT and the empty name are left alone. */
  lemma Sdm26Signed(d: Device)
    requires !d.signed
    ensures Configure(d, Sdm26).signed <==> d.name in SignedChannels
    ensures d.name == "CH_COUNT" || d.name == "" ==> Untouched(d, Sdm26)
  {
  }

  /** The same holds for the multi-file, root CSV, process_benji2 and
      process_benji2_csv tables; the MoTeC table signs only CURRENT and
      BATTERY. */
  lemma OtherTablesSigned(d: Device)
    requires !d.signed
    ensures Configure(d, Multi).signed <==> d.name in SignedChannels
    ensures Configure(d, RootCsv).signed <==> d.name in SignedChannels
    ensures Configure(d, ProcessBenji2).signed <==> d.name in SignedChannels
    ensures Configure(d, Benji2Csv).signed <==> d.name in SignedChannels
    ensures Configure(d, Benji2Motec).signed <==> d.name == "CURRENT" || d.name == "BATTERY"
  {
  }

  /** The SDM26 table's fixed scalings, in physical terms: microsecond
      timestamps, 1.25 mA current steps, 1.25 mV battery steps, 0.122 mg
      and 17.5 mdps IMU steps, and the thermometers' 0.02 K steps. */
  lemma Sdm26Scalings(d: Device, v: int)
    ensures var e := Configure(d, Sdm26); var x := v as real;
      (d.name == "TS" ==> Apply(e.conversion, v) == x / 1000000.0) &&
      (d.name == "CURRENT" ==> Apply(e.conversion, v) == x * 1.25 && e.signed) &&
      (d.name == "BATTERY" ==> Apply(e.conversion, v) * 1000.0 == x * 1.25 && e.signed) &&
      (d.name in {"IMU_X_ACCEL", "IMU_Y_ACCEL", "IMU_Z_ACCEL"} ==>
        Apply(e.conversion, v) == x * 0.122 && e.signed) &&
      (d.name in {"IMU_X_GYRO", "IMU_Y_GYRO", "IMU_Z_GYRO"} ==>
        Apply(e.conversion, v) == x * 17.5 && e.signed)
  {
  }

  /** The SDM26 wheel thermometers use the mlx90614 transfer function. */
  lemma Sdm26Temperatures(d: Device, v: int)
    ensures var e := Configure(d, Sdm26);
      d.name in {"FLW_AMB", "FRW_AMB", "RLW_AMB", "RRW_AMB", "FLW_OBJ", "FRW_OBJ", "RLW_OBJ", "RRW_OBJ"} ==>
        Apply(e.conversion, v) == Transfer.Mlx90614(v) && e.signed == d.signed
  {
  }

  /** The SDM26 shock potentiometers read lower as the raw count rises, and
      the steering sensor reads higher. */
  lemma Sdm26Directions(d: Device, v: int, w: int)
    requires v < w
    ensures var e := Configure(d, Sdm26);
      (d.name in Shocks ==> Apply(e.conversion, v) > Apply(e.conversion, w)) &&
      (d.name == "STEERING" ==> Apply(e.conversion, v) < Apply(e.conversion, w))
  {
    var e := Configure(d, Sdm26);
    if d.name in Shocks || d.name == "STEERING" {
      ApplyMonotone(e.conversion, v, w);
    }
  }

  /** process_benji2.py's strain gauge lambdas are the fr_sg, fl_sg and
      rl_sg transfer functions; RR_SG keeps the raw reading. */
  lemma ProcessBenji2StrainGauges(d: Device, v: int)
    ensures var e := Configure(d, ProcessBenji2);
      (d.name == "FL_SG" ==> Apply(e.conversion, v) == Transfer.FlSg(v)) &&
      (d.name == "FR_SG" ==> Apply(e.conversion, v) == Transfer.FrSg(v)) &&
      (d.name == "RL_SG" ==> Apply(e.conversion, v) == Transfer.RlSg(v)) &&
      (d.name == "RR_SG" ==> e == d)
  {
  }

  /** The differences of the root CSV table: gyros in 65.6 LSB/dps units and
      steering as a 0-5 V reading over a 345 degree range. */
  lemma RootCsvScalings(d: Device, v: int)
    ensures var e := Configure(d, RootCsv); var x := v as real;
      (d.name == "TS" ==> Apply(e.conversion, v) == x / 1000000.0) &&
      (d.name in {"IMU_X_GYRO", "IMU_Y_GYRO", "IMU_Z_GYRO"} ==>
        Apply(e.conversion, v) * 65.6 == x && e.signed) &&
      (d.name in {"IMU_X_ACCEL", "IMU_Y_ACCEL", "IMU_Z_ACCEL"} ==>
        e.conversion == d.conversion && e.signed) &&
      (d.name == "STEERING" ==> Apply(e.conversion, v) == ((x / 1000.0) / 5.0) * 345.0)
  {
  }

  /** Every table agrees on the power channels, and all but the SDM26 and
      root CSV tables read millisecond timestamps. */
  lemma TablesAgree(d: Device, v: int)
    ensures d.name in {"CURRENT", "BATTERY"} ==>
      Configure(d, Sdm26) == Configure(d, Multi) == Configure(d, RootCsv)
        == Configure(d, ProcessBenji2) == Configure(d, Benji2Csv) == Configure(d, Benji2Motec)
    ensures d.name == "TS" ==>
      Apply(Configure(d, Multi).conversion, v) == v as real / 1000.0 &&
      Configure(d, Multi) == Configure(d, ProcessBenji2) == Configure(d, Benji2Csv) == Configure(d, Benji2Motec)
  {
  }

  /** The multi-file and process_benji2 tables convert the wheel
      thermometers with the mlx90614 transfer function and leave the IMU
      readings unscaled. */
  lemma MultiWheelAndImu(d: Device, v: int)
    ensures d.name in {"FLW_AMB", "FRW_AMB", "RLW_AMB", "RRW_AMB", "FLW_RTR", "FRW_RTR", "RLW_RTR", "RRW_RTR"} ==>
      Apply(Configure(d, Multi).conversion, v) == Transfer.Mlx90614(v) &&
      Apply(Configure(d, ProcessBenji2).conversion, v) == Transfer.Mlx90614(v)
    ensures d.name in {"IMU_X_ACCEL", "IMU_Y_ACCEL", "IMU_Z_ACCEL", "IMU_X_GYRO", "IMU_Y_GYRO", "IMU_Z_GYRO"} ==>
      Configure(d, Multi) == Configure(d, Benji2Csv) == d.(signed := true)
  {
  }
}
