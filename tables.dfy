/**
 * The two static lookup tables of the Speedwire decoder: the unit table
 * (unit symbol to integer divisor that turns a raw reading into the base
 * unit) and the channel table (measurement id to name, unit of the actual
 * value and unit of the counter value). An empty unit means that half of
 * the channel does not exist.
 */
module Tables {

  datatype Channel = Channel(name: string, actualUnit: string, totalUnit: string)

  /** The measurement id of the firmware-version pseudo channel. */
  const VersionChannel: nat := 36864

  /** Unit symbol to scaling divisor. */
  const Units: map<string, nat> := map[
    "W" := 10,
    "VA" := 10,
    "VAr" := 10,
    "kWh" := 3600000,
    "kVAh" := 3600000,
    "kVArh" := 3600000,
    "A" := 1000,
    "V" := 1000,
    "°" := 1000,
    "Hz" := 1000
  ]

  /** Measurement id to channel definition. */
  const Channels: map<nat, Channel> := map[
    // totals
    1 := Channel("pconsume", "W", "kWh"),
    2 := Channel("psupply", "W", "kWh"),
    3 := Channel("qconsume", "VAr", "kVArh"),
    4 := Channel("qsupply", "VAr", "kVArh"),
    9 := Channel("sconsume", "VA", "kVAh"),
    10 := Channel("ssupply", "VA", "kVAh"),
    13 := Channel("cosphi", "°", ""),
    14 := Channel("frequency", "Hz", ""),
    // phase 1
    21 := Channel("p1consume", "W", "kWh"),
    22 := Channel("p1supply", "W", "kWh"),
    23 := Channel("q1consume", "VAr", "kVArh"),
    24 := Channel("q1supply", "VAr", "kVArh"),
    29 := Channel("s1consume", "VA", "kVAh"),
    30 := Channel("s1supply", "VA", "kVAh"),
    31 := Channel("i1", "A", ""),
    32 := Channel("u1", "V", ""),
    33 := Channel("cosphi1", "°", ""),
    // phase 2
    41 := Channel("p2consume", "W", "kWh"),
    42 := Channel("p2supply", "W", "kWh"),
    43 := Channel("q2consume", "VAr", "kVArh"),
    44 := Channel("q2supply", "VAr", "kVArh"),
    49 := Channel("s2consume", "VA", "kVAh"),
    50 := Channel("s2supply", "VA", "kVAh"),
    51 := Channel("i2", "A", ""),
    52 := Channel("u2", "V", ""),
    53 := Channel("cosphi2", "°", ""),
    // phase 3
    61 := Channel("p3consume", "W", "kWh"),
    62 := Channel("p3supply", "W", "kWh"),
    63 := Channel("q3consume", "VAr", "kVArh"),
    64 := Channel("q3supply", "VAr", "kVArh"),
    69 := Channel("s3consume", "VA", "kVAh"),
    70 := Channel("s3supply", "VA", "kVAh"),
    71 := Channel("i3", "A", ""),
    72 := Channel("u3", "V", ""),
    73 := Channel("cosphi3", "°", ""),
    // common
    VersionChannel := Channel("speedwire-version", "", "")
  ]

  /** A unit is scalable exactly when it is non-empty: every unit the channel table uses has a divisor. */
  lemma UnitsCoverChannels()
    ensures "" !in Units
    ensures forall id :: id in Channels && Channels[id].actualUnit != "" ==> Channels[id].actualUnit in Units
    ensures forall id :: id in Channels && Channels[id].totalUnit != "" ==> Channels[id].totalUnit in Units
  {
    ActualUnitsKnown();
    TotalUnitsKnown();
  }

  lemma ActualUnitsKnown()
    ensures forall id :: id in Channels && Channels[id].actualUnit != "" ==> Channels[id].actualUnit in Units
  {
  }

  lemma TotalUnitsKnown()
    ensures forall id :: id in Channels && Channels[id].totalUnit != "" ==> Channels[id].totalUnit in Units
  {
  }

  /** Every divisor is one of 10, 1000 and 3600000, so dividing by it is defined. */
  lemma DivisorsPositive()
    ensures forall u :: u in Units ==> Units[u] in {10, 1000, 3600000}
  {
  }

  /** The version channel is the only one with neither an actual nor a counter unit. */
  lemma OnlyVersionUnitless()
    ensures VersionChannel in Channels
    ensures forall id :: id in Channels ==>
      (Channels[id].actualUnit == "" && Channels[id].totalUnit == "" <==> id == VersionChannel)
  {
  }
}
