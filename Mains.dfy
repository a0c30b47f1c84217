/**
 * The top-level record Main_t of src/structureMN.c: the substrate molecule, the envelope and
 * aromatic envelope shells, and the array mocs of cages under construction, in which a NULL
 * slot is free. The array is a sequence of nullable shell references whose length is mocSize.
 */
module Mains {
  import opened Constants
  import opened IdLists
  import Molecules
  import Shells
  import GraphCopy

  /** n free slots, as MN_addAlloc appends them. */
  function Nulls(n: nat): (r: seq<Shells.Shell?>)
    ensures |r| == n && forall k :: 0 <= k < n ==> r[k] == null
  {
    seq(n, _ => null)
  }

  /** The index of the first free slot, |mocs| when every slot holds a cage (the scan of
      MN_getIndiceFree and MN_getIndiceFree2). */
  function FirstNull(mocs: seq<Shells.Shell?>): (r: nat)
    ensures r <= |mocs|
    ensures r < |mocs| ==> mocs[r] == null
    ensures forall k :: 0 <= k < r ==> mocs[k] != null
  {
    if mocs == [] || mocs[0] == null then 0 else 1 + FirstNull(mocs[1..])
  }

  /** The slots after the free-slot search: grow more slots are appended when none is free. */
  function WithNull(mocs: seq<Shells.Shell?>, grow: nat): seq<Shells.Shell?>
  {
    if FirstNull(mocs) < |mocs| then mocs else mocs + Nulls(grow)
  }

  /** The free-slot search returns a free slot, the first one, and only grows the array, by
      exactly grow slots, when the array is full; the slots that were there are kept. */
  lemma WithNullFacts(mocs: seq<Shells.Shell?>, grow: nat)
    requires grow > 0
    ensures var w, i := WithNull(mocs, grow), FirstNull(mocs);
      i < |w| && w[i] == null && (forall k :: 0 <= k < i ==> w[k] != null) &&
      w[..|mocs|] == mocs &&
      |w| == (if i < |mocs| then |mocs| else |mocs| + grow)
    ensures forall k :: 0 <= k < |WithNull(mocs, grow)| ==>
      WithNull(mocs, grow)[k] == if k < |mocs| then mocs[k] else null
  {
  }

  class Main {
    var substrat: Molecules.Molecule?
    var envelope: Shells.Shell?
    var envarom: Shells.Shell?
    var mocs: seq<Shells.Shell?>

    /** MN_create: nothing yet, and no cage slots. */
    constructor ()
      ensures substrat == null && envelope == null && envarom == null && mocs == []
    {
      substrat := null;
      envelope := null;
      envarom := null;
      mocs := [];
    }

    /** MN_addAlloc: append size free slots. */
    method AddAlloc(size: nat)
      modifies this
      ensures mocs == old(mocs) + Nulls(size)
      ensures substrat == old(substrat) && envelope == old(envelope) && envarom == old(envarom)
    {
      var more: seq<Shells.Shell?> := [];
      for i := 0 to size
        invariant more == Nulls(i)
      {
        more := more + [null];
      }
      mocs := mocs + more;
    }

    /** The loop shared by MN_getIndiceFree and MN_getIndiceFree2: the first free slot,
        |mocs| when there is none. */
    method SeekFree() returns (i: nat)
      ensures i == FirstNull(mocs)
    {
      i := 0;
      while i < |mocs|
        invariant i <= |mocs| && forall k :: 0 <= k < i ==> mocs[k] != null
      {
        if mocs[i] == null {
          return i;
        }
        i := i + 1;
      }
    }

    /** MN_getIndiceFree: the first free slot, growing by REALLOCSIZE when there is none. */
    method GetIndiceFree() returns (i: nat)
      modifies this
      ensures i == FirstNull(old(mocs)) && mocs == WithNull(old(mocs), REALLOCSIZE)
      ensures i < |mocs| && mocs[i] == null
      ensures substrat == old(substrat) && envelope == old(envelope) && envarom == old(envarom)
    {
      i := SeekFree();
      if i == |mocs| {
        AddAlloc(REALLOCSIZE);
      }
    }

    /** MN_getIndiceFree2: the first free slot, growing by one slot when there is none. */
    method GetIndiceFree2() returns (i: nat)
      modifies this
      ensures i == FirstNull(old(mocs)) && mocs == WithNull(old(mocs), 1)
      ensures i < |mocs| && mocs[i] == null
      ensures substrat == old(substrat) && envelope == old(envelope) && envarom == old(envarom)
    {
      i := SeekFree();
      if i == |mocs| {
        AddAlloc(1);
      }
    }

    /** MN_copyMoc: a deep copy of s goes into the first free slot, whose index is returned;
        every other slot keeps its cage. */
    method CopyMoc(s: Shells.Shell) returns (indice: nat)
      modifies this
      ensures indice == FirstNull(old(mocs))
      ensures |mocs| == |WithNull(old(mocs), REALLOCSIZE)| && indice < |mocs|
      ensures forall k :: 0 <= k < |mocs| && k != indice ==> mocs[k] == WithNull(old(mocs), REALLOCSIZE)[k]
      ensures var c := mocs[indice];
        c != null && fresh(c) && fresh(c.bond) && c.atoms == Shells.CopiedAtoms(s.atoms) &&
        c.cycle == Copied(s.cycle) && c.bond.vertices == GraphCopy.GraphCopy(s.bond.vertices)
      ensures substrat == old(substrat) && envelope == old(envelope) && envarom == old(envarom)
    {
      indice := GetIndiceFree();
      var c := new Shells.Shell.Copy(s);
      mocs := mocs[indice := c];
    }
  }
}
