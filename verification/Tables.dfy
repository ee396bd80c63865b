/** The symbol tables that semantic analysis hands to code generation. */
module Tables {
  import opened Words

  /** A function's arity and its local names in slot order: the name at index i lives in slot i. */
  datatype FunInfo = FunInfo(arity: nat, locals: seq<string>)

  /** The position of a name in a list of distinct names. */
  function SlotOf(names: seq<string>, name: string): (r: Option<nat>)
    ensures r.Some? <==> name in names
    ensures r.Some? ==> r.value < |names| && names[r.value] == name
  {
    if names == [] then None
    else if names[0] == name then Some(0)
    else
      match SlotOf(names[1..], name)
      case None => None
      case Some(i) => Some(i + 1)
  }

  ghost predicate Distinct(names: seq<string>) {
    forall i, j :: 0 <= i < j < |names| ==> names[i] != names[j]
  }

  lemma {:induction false} SlotIsIndex(names: seq<string>, i: nat)
    requires Distinct(names) && i < |names|
    ensures SlotOf(names, names[i]) == Some(i)
  {
    if i > 0 {
      assert names[0] != names[i] && names[1..][i - 1] == names[i];
      SlotIsIndex(names[1..], i - 1);
    }
  }
}
