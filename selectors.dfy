/**
 * Resolution of the order form's head and body controls: the two helpers local
 * to `fill_the_form` in tasks.py.
 */
module Selectors {
  import opened Maybe

  /** The closed table of head codes and the option label each one selects. */
  const HeadLabels: map<string, string> := map[
    "1" := "Roll-a-thor head",
    "2" := "Peanut crusher head",
    "3" := "D.A.V.E head",
    "4" := "Andy Roid head",
    "5" := "Spanner mate head",
    "6" := "Drillbit 2000 head"
  ]

  /** The head codes the table knows. */
  const HeadCodes: set<string> := {"1", "2", "3", "4", "5", "6"}

  /**
   * `select_head_option`: a dictionary lookup that falls back to the empty
   * label for a code the table does not know, instead of failing.
   */
  function HeadLabel(code: string): (name: string)
    ensures name != "" <==> code in HeadCodes
    ensures name == "" || name in HeadLabels.Values
  {
    if code in HeadLabels then HeadLabels[code] else ""
  }

  /** The prefix of every body radio button's element id selector. */
  const BodyPrefix: string := "#id-body-"

  /** `select_body_option`: the selector is built from the body id, with no table. */
  function BodySelector(bodyId: string): (selector: string)
    ensures |selector| == |BodyPrefix| + |bodyId|
    ensures selector[..|BodyPrefix|] == BodyPrefix
  {
    BodyPrefix + bodyId
  }

  /** Reads the body id back out of a body selector; the inverse of BodySelector. */
  function BodyIdOf(selector: string): (bodyId: Option<string>)
    ensures bodyId.Some? ==> BodyPrefix + bodyId.value == selector
  {
    if BodyPrefix <= selector then Some(selector[|BodyPrefix|..]) else None
  }

  /** Every known code maps to exactly its listed label, and every other code to "". */
  lemma HeadLabelTable(code: string)
    ensures code == "1" ==> HeadLabel(code) == "Roll-a-thor head"
    ensures code == "2" ==> HeadLabel(code) == "Peanut crusher head"
    ensures code == "3" ==> HeadLabel(code) == "D.A.V.E head"
    ensures code == "4" ==> HeadLabel(code) == "Andy Roid head"
    ensures code == "5" ==> HeadLabel(code) == "Spanner mate head"
    ensures code == "6" ==> HeadLabel(code) == "Drillbit 2000 head"
    ensures code !in HeadCodes ==> HeadLabel(code) == ""
  {
  }

  /** There is exactly one code per label: two known codes that select the same label are the same code. */
  lemma HeadLabelInjective(c1: string, c2: string)
    requires c1 in HeadCodes && c2 in HeadCodes
    requires HeadLabel(c1) == HeadLabel(c2)
    ensures c1 == c2
  {
  }

  /** Reading a body selector back gives the body id it was built from. */
  lemma BodySelectorRoundTrip(bodyId: string)
    ensures BodyIdOf(BodySelector(bodyId)) == Some(bodyId)
  {
    assert BodySelector(bodyId)[|BodyPrefix|..] == bodyId;
  }

  /** Distinct body ids give distinct selectors. */
  lemma BodySelectorInjective(b1: string, b2: string)
    requires BodySelector(b1) == BodySelector(b2)
    ensures b1 == b2
  {
    BodySelectorRoundTrip(b1);
    BodySelectorRoundTrip(b2);
  }
}
