/** RO/APNEE2/Arete.java: an immutable weighted edge. */
module Aretes {
  import opened Connectivity
  import opened Outcomes

  /** id stands for the object's identity, which is what the inherited equals compares. */
  datatype Arete = Arete(id: nat, v: nat, w: nat, poids: real) {
    function UnSommet(): nat { v }

    /** The end opposite to i; for UnSommet() that is w. */
    function AutreSommet(i: int): (r: Outcome<nat>)
      ensures r.Ok? <==> i == v || i == w
      ensures r.Ok? ==> multiset{i, r.value} == multiset{v, w}
    {
      if v == i then Ok(w)
      else if w == i then Ok(v)
      else IllegalArgument
    }
  }

  function LinkOf(e: Arete): Link { (e.v, e.w) }

  function Links(F: set<Arete>): set<Link> {
    set e | e in F :: LinkOf(e)
  }
}
