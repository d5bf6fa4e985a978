/** The description of the inferred local parameters that each
    simulated model hands to the EP driver: names, shapes and the index
    of the hierarchical (per-group) dimension of each. */
module ParamDefs {
  import opened Wrappers

  datatype ParamDefs = ParamDefs(names: seq<string>, shapes: seq<seq<nat>>, hiers: seq<Option<nat>>)

  /** Every parameter has a shape and a hierarchy entry, and a
      hierarchical dimension, when there is one, is an axis of the
      parameter's shape whose length is the number of groups J. */
  ghost predicate WellFormed(defs: ParamDefs, J: nat)
  {
    && |defs.shapes| == |defs.names|
    && |defs.hiers| == |defs.names|
    && forall p :: 0 <= p < |defs.hiers| && defs.hiers[p].Some? ==>
         defs.hiers[p].value < |defs.shapes[p]| && defs.shapes[p][defs.hiers[p].value] == J
  }
}
