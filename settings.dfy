/** The configuration constants of the seareport_skill package. */
module Settings {
  import opened Tables

  /** Model version label -> version tag. */
  const VERSIONS: Dict<string, string> := [
    ("Global 50km", "v0.0"),
    ("Global 20km", "v0.2"),
    ("Global 7km", "v1.2"),
    ("Global 3km, L5 GSSHS", "v2.1"),
    ("Global 3km, L6 GSSHS", "v2.2")
  ]

  /** Metric label -> metric column. */
  const METRICS: Dict<string, string> := [
    ("Root Mean Square Error", "rmse"),
    ("Root Mean Square [m]", "rms"),
    ("Root Mean Square >95th percentile", "rms_95"),
    ("Bias [m]", "bias"),
    ("Kling-Guplta efficiency", "kge"),
    ("Nash-Sutcliffe model efficiency", "nse"),
    ("Lamba index", "lamba"),
    ("Slope", "slope"),
    ("Slope of percentiles", "slope_pp"),
    ("Correation Coefficient", "cr"),
    ("Correlation Coefficient >95th percentile", "cr_95"),
    ("Mean Absolute deviation", "mad"),
    ("Mean Absolute deviation of percentiles", "madp"),
    ("Normalized error on highest peak", "R1_norm"),
    ("Normalized error on 3 highest peaks", "R3_norm"),
    ("Normalized error on peaks >95th percentile", "error95"),
    ("Normalized error on peaks >99th percentile", "error99"),
    ("Error on highest peak [m]", "R1"),
    ("Error on 3 highest peaks [m]", "R3"),
    ("Error on peaks >95th percentile [m]", "error95m"),
    ("Error on peaks >99th percentile [m]", "error99m")
  ]

  /** Grouping label -> column of the regions table it groups by. */
  const TYPE_SELECT: Dict<string, string> := [("Oceans", "ocean"), ("Maritime Sectors", "name")]

  const OCEANS: seq<string> := [
    "Arctic", "Atlantic", "Antarctic", "Baltic Sea", "Black Sea", "Caribbeans",
    "Caspian", "Indian", "Mediterranean", "Pacific", "SE Asia"
  ]

  /** The sector list as Python reads it: two missing commas in the source merge
      "Gulf of Mexico" with "Caribbean Sea" and "Bay of Biscay" with "Adriatic Sea". */
  const SECTORS: seq<string> := [
    "Arctic US", "Arctic Europe", "Arctic Russia", "NE Pacific", "NW Pacific",
    "SE Pacific", "SW Pacific", "North Western Passages", "Hudson Bay", "NW Atlantic",
    "Gulf of Mexico" + "Caribbean Sea",
    "NE Atlantic", "Irish Sea", "English Channel", "North Sea", "Baltic Sea",
    "Bay of Biscay" + "Adriatic Sea",
    "Mediterranean Sea", "Aegean Sea", "Sea of Marmara", "Black Sea", "SW Atlantic",
    "SE Atlantic", "Red Sea", "East Africa", "Persian Gulf", "North Indian",
    "West Australia", "Okhotsk Sea", "Japan Sea", "Yellow Sea", "South China Sea",
    "Andaman Sea", "Sibuyan Sea", "Celebes Sea", "Java Sea", "Banda Sea",
    "Arafura Sea", "Antarctic Ocean", "Caspian Sea"
  ]
}
