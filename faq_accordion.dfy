/** The FAQ list of the landing page, in which at most one answer is expanded. */
module FaqAccordion {
  import opened Common

  datatype FaqItem = FaqItem(question: string, answer: string)

  /** What clicking question `index` does to the expanded index. */
  function Toggled(openIndex: Option<nat>, index: nat): (r: Option<nat>)
    ensures r == Some(index) <==> openIndex != Some(index)
    ensures r.None? <==> openIndex == Some(index)
  {
    if openIndex == Some(index) then None else Some(index)
  }

  /** Clicking the same question twice from a closed list, or from its own open answer, undoes itself. */
  lemma ToggleTwice(openIndex: Option<nat>, index: nat)
    requires openIndex.None? || openIndex == Some(index)
    ensures Toggled(Toggled(openIndex, index), index) == openIndex
  {
  }

  /** Opening a question closes whichever other question was open. */
  lemma ToggleClosesOthers(openIndex: Option<nat>, index: nat, other: nat)
    requires other != index
    ensures Toggled(openIndex, index) != Some(other)
  {
  }

  class FaqAccordionState {
    const items: seq<FaqItem>
    var openIndex: Option<nat>

    /** The expanded answer, if any, is one of the items. */
    predicate Valid()
      reads this
    {
      openIndex.Some? ==> openIndex.value < |items|
    }

    /** Whether the answer to question `index` is shown (`aria-expanded`). */
    predicate IsOpen(index: nat)
      reads this
    {
      openIndex == Some(index)
    }

    constructor(items: seq<FaqItem>)
      ensures this.items == items && openIndex.None? && Valid()
    {
      this.items := items;
      openIndex := None;
    }

    /** `toggleItem(index)`: close the question if it is open, otherwise open it alone. */
    method ToggleItem(index: nat)
      requires Valid() && index < |items|
      modifies this
      ensures Valid()
      ensures openIndex == Toggled(old(openIndex), index)
      ensures IsOpen(index) <==> !old(IsOpen(index))
      ensures forall j :: j != index ==> !IsOpen(j)
    {
      openIndex := if openIndex == Some(index) then None else Some(index);
    }
  }
}
