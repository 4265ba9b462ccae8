/** The companion-knowledge port both planning algorithms consult: the
    companion candidates of a plant, whether two plants are a forbidden pair,
    and their integer compatibility score. */
module Knowledge {
  import opened PlantIds

  datatype Oracle = Oracle(
    candidates: PlantId -> seq<PlantId>,
    forbidden: (PlantId, PlantId) -> bool,
    score: (PlantId, PlantId) -> int)
}
