/**
  The material records that flow from the extraction pipeline (or the test
  helpers) into the driver: Python dicts with fixed keys, here datatypes.
  Amounts stay strings, as they are throughout the driver and the tests.
 */
module Materials {
  import opened Wrappers

  /** One entry of a material's "composition" list. `formula` is absent in the records the tests build. */
  datatype Component = Component(amount: string, elements: map<string, string>, formula: Option<string>)

  /** A material dict: formula, display string, compositions, element variables and additives. */
  datatype Material = Material(
    materialFormula: string,
    materialString: string,
    composition: seq<Component>,
    elementsVars: map<string, seq<string>>,
    additives: seq<string>)
}
