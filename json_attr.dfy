/** The JSON attribute names shared by the firmware's serialiser and the
    host-side processor. */
module JsonAttr {

  const CALIB: string := "calib"
  const CALIB_ICP: string := "icp"

  const READING_PREFIX: string := "rdg"
  const RAW_SUFFIX: string := "_raw"
  const TIMESTAMP: string := "time"
  const PRESSURE: string := "pres"
  const TEMP_ICP: string := "temp_icp"
  const TEMP_BMP: string := "temp_bmp"
  const OPT_POW: string := "opt"
  const HUMIDITY: string := "humid"
  const TEMP_SHTC: string := "temp_shtc"

  /** The names of the raw items: each base name followed by RAW_SUFFIX. */
  const PRESSURE_RAW: string := "pres_raw"
  const TEMP_ICP_RAW: string := "temp_icp_raw"
  const OPT_POW_RAW: string := "opt_raw"
  const HUMIDITY_RAW: string := "humid_raw"
  const TEMP_SHTC_RAW: string := "temp_shtc_raw"

  lemma RawNames()
    ensures PRESSURE_RAW == PRESSURE + RAW_SUFFIX && TEMP_ICP_RAW == TEMP_ICP + RAW_SUFFIX
    ensures OPT_POW_RAW == OPT_POW + RAW_SUFFIX && HUMIDITY_RAW == HUMIDITY + RAW_SUFFIX
    ensures TEMP_SHTC_RAW == TEMP_SHTC + RAW_SUFFIX
  {
  }
}
