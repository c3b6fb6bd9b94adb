/** The fixed tables of accepted road categories and their default speed limits. */
module HighwayTables {

  const AllowedHighwayTypes: set<string> := {
    "motorway", "trunk", "primary", "secondary", "tertiary", "unclassified",
    "residential", "living_street", "motorway_link", "trunk_link",
    "primary_link", "secondary_link", "tertiary_link"
  }

  const DefaultSpeedLimitMph: map<string, int> := map[
    "motorway" := 60,
    "trunk" := 45,
    "primary" := 35,
    "secondary" := 30,
    "residential" := 25,
    "tertiary" := 25,
    "unclassified" := 25,
    "living_street" := 10,
    "motorway_link" := 30,
    "trunk_link" := 30,
    "primary_link" := 30,
    "secondary_link" := 30,
    "tertiary_link" := 25
  ]

  /** The two tables the builder consults, passed in as configuration. */
  datatype Config = Config(allowed: set<string>, defaultSpeed: map<string, int>)

  const Standard: Config := Config(AllowedHighwayTypes, DefaultSpeedLimitMph)

  /** Every accepted category has a default speed, and every default is positive. */
  ghost predicate Consistent(cfg: Config)
  {
    forall h :: h in cfg.allowed ==> h in cfg.defaultSpeed && cfg.defaultSpeed[h] > 0
  }

  lemma StandardIsConsistent()
    ensures Consistent(Standard)
  {
  }
}
